/** The directory table as a forest: parent chains, their uniqueness and length, and what changing one slot does
    to them. */
module FsTree {
  import opened Words
  import opened FsLayout

  predicate Used(t: Table, i: int) { 0 <= i < FS_MAX_ENTRIES && t[i].used != 0 }

  predicate IsFolder(t: Table, i: int) { Used(t, i) && t[i].kind == FOLDER }

  predicate ParentOk(t: Table, p: int) { p == FS_ROOT || IsFolder(t, p) }

  predicate ChildOf(t: Table, i: int, parent: int) { Used(t, i) && t[i].parent == parent }

  // ---- chains ----

  /** `c` lists entry `i`, its parent, and so on up to a top-level entry; the root has the empty chain. */
  ghost predicate IsChain(t: Table, c: seq<int>, i: int)
    decreases |c|
  {
    if c == [] then i == FS_ROOT else Used(t, i) && c[0] == i && IsChain(t, c[1..], t[i].parent)
  }

  ghost predicate Rooted(t: Table, i: int) { exists c :: IsChain(t, c, i) }

  lemma {:induction false} ChainUnique(t: Table, a: seq<int>, b: seq<int>, i: int)
    requires IsChain(t, a, i) && IsChain(t, b, i)
    ensures a == b
    decreases |a|
  {
    if a != [] && b != [] {
      ChainUnique(t, a[1..], b[1..], t[i].parent);
      assert a == [a[0]] + a[1..] && b == [b[0]] + b[1..];
    }
  }

  /** The part of a chain from position `k` on is the chain of its `k`th member. */
  lemma {:induction false} ChainSuffix(t: Table, c: seq<int>, i: int, k: nat)
    requires IsChain(t, c, i) && k < |c|
    ensures Used(t, c[k]) && IsChain(t, c[k..], c[k])
    decreases k
  {
    if k > 0 {
      ChainSuffix(t, c[1..], t[i].parent, k - 1);
      assert c[1..][k - 1..] == c[k..];
    } else {
      assert c[0..] == c;
    }
  }

  lemma ChainDistinct(t: Table, c: seq<int>, i: int, j: nat, k: nat)
    requires IsChain(t, c, i) && j < k < |c|
    ensures c[j] != c[k]
  {
    ChainSuffix(t, c, i, j);
    ChainSuffix(t, c, i, k);
    if c[j] == c[k] {
      ChainUnique(t, c[j..], c[k..], c[j]);
    }
  }

  /** A chain is at most as long as the table, which is why 128 steps up always suffice. */
  lemma ChainLength(t: Table, c: seq<int>, i: int)
    requires IsChain(t, c, i)
    ensures |c| <= FS_MAX_ENTRIES
  {
    forall j: nat, k: nat | j < k < |c|
      ensures c[j] != c[k]
    {
      ChainDistinct(t, c, i, j, k);
    }
    forall k: nat | k < |c|
      ensures 0 <= c[k] < FS_MAX_ENTRIES
    {
      ChainSuffix(t, c, i, k);
    }
    Pigeonhole(c, FS_MAX_ENTRIES);
  }

  lemma {:induction false} Pigeonhole(c: seq<int>, n: nat)
    requires forall j: nat, k: nat :: j < k < |c| ==> c[j] != c[k]
    requires forall k: nat :: k < |c| ==> 0 <= c[k] < n
    ensures |c| <= n
  {
    if c != [] {
      assert 0 <= c[0] < n;
      if k: nat :| k < |c| && c[k] == n - 1 {
        Pigeonhole(c[..k] + c[k + 1..], n - 1);
      } else {
        Pigeonhole(c, n - 1);
      }
    }
  }

  /** Entries not on the chain do not matter to it. */
  lemma {:induction false} ChainSame(t: Table, t': Table, c: seq<int>, i: int)
    requires IsChain(t, c, i)
    requires forall k: nat :: k < |c| && Used(t, c[k]) ==> Used(t', c[k]) && t'[c[k]].parent == t[c[k]].parent
    ensures IsChain(t', c, i)
    decreases |c|
  {
    if c != [] {
      assert Used(t, c[0]);
      forall k: nat | k < |c[1..]| && Used(t, c[1..][k])
        ensures Used(t', c[1..][k]) && t'[c[1..][k]].parent == t[c[1..][k]].parent
      {
        assert c[1..][k] == c[k + 1];
      }
      ChainSame(t, t', c[1..], t[i].parent);
    }
  }

  // ---- the forest ----

  ghost predicate SiblingsDistinct(t: Table) {
    forall i, j :: Used(t, i) && Used(t, j) && i != j && t[i].parent == t[j].parent ==> Name(t[i]) != Name(t[j])
  }

  ghost predicate AllRooted(t: Table) {
    forall i :: Used(t, i) ==> Rooted(t, i)
  }

  /** Every used entry is a file or a folder, hangs under the root or a folder, reaches the root, and is the only
      one of its name there. */
  ghost predicate Forest(t: Table) {
    && (forall i :: Used(t, i) ==> (t[i].kind == FILE || t[i].kind == FOLDER) && ParentOk(t, t[i].parent))
    && (forall i :: Used(t, i) ==> GoodName(Name(t[i])))
    && AllRooted(t)
    && SiblingsDistinct(t)
  }

  /** The first entry of that name under that parent, or -1. */
  function Find(t: Table, parent: int, name: seq<Byte>): (r: int)
    ensures -1 <= r < FS_MAX_ENTRIES
    ensures r >= 0 ==> Used(t, r) && t[r].parent == parent && Name(t[r]) == name
    ensures forall i :: Used(t, i) && t[i].parent == parent && (r < 0 || i < r) ==> Name(t[i]) != name
  {
    FindFrom(t, parent, name, 0)
  }

  function FindFrom(t: Table, parent: int, name: seq<Byte>, k: nat): (r: int)
    requires k <= FS_MAX_ENTRIES
    ensures -1 <= r < FS_MAX_ENTRIES
    ensures r >= 0 ==> k <= r && Used(t, r) && t[r].parent == parent && Name(t[r]) == name
    ensures forall i :: k <= i && Used(t, i) && t[i].parent == parent && (r < 0 || i < r) ==> Name(t[i]) != name
    decreases FS_MAX_ENTRIES - k
  {
    if k == FS_MAX_ENTRIES then -1
    else if t[k].used != 0 && t[k].parent == parent && Name(t[k]) == name then k
    else FindFrom(t, parent, name, k + 1)
  }

  /** In a forest there is only one entry to find. */
  lemma FindIs(t: Table, i: int)
    requires Forest(t) && Used(t, i)
    ensures Find(t, t[i].parent, Name(t[i])) == i
  {
  }

  /** The first free slot, or -1. */
  function FreeSlot(t: Table): (r: int)
    ensures -1 <= r < FS_MAX_ENTRIES
    ensures r >= 0 ==> !Used(t, r) && forall i :: 0 <= i < r ==> Used(t, i)
    ensures r < 0 ==> forall i :: 0 <= i < FS_MAX_ENTRIES ==> Used(t, i)
  {
    FreeSlotFrom(t, 0)
  }

  function FreeSlotFrom(t: Table, k: nat): (r: int)
    requires k <= FS_MAX_ENTRIES
    ensures -1 <= r < FS_MAX_ENTRIES
    ensures r >= 0 ==> k <= r && !Used(t, r) && forall i :: k <= i < r ==> Used(t, i)
    ensures r < 0 ==> forall i :: k <= i < FS_MAX_ENTRIES ==> Used(t, i)
    decreases FS_MAX_ENTRIES - k
  {
    if k == FS_MAX_ENTRIES then -1 else if t[k].used == 0 then k else FreeSlotFrom(t, k + 1)
  }

  // ---- operations on the table ----

  /** The name field after `fs_set_name`: the name, its terminator, and what was there before. */
  function SetName(prev: NameField, name: seq<Byte>): (r: NameField)
    requires |name| <= FS_NAME_MAX - 1
  {
    name + [0] + prev[|name| + 1..]
  }

  lemma {:induction false} NameOf(name: seq<Byte>, tail: seq<Byte>)
    requires IsString(name)
    ensures CString(name + [0] + tail) == name
  {
    if name == [] {
      assert (name + [0] + tail)[0] == 0;
    } else {
      assert (name + [0] + tail)[1..] == name[1..] + [0] + tail;
      NameOf(name[1..], tail);
      assert name == [name[0]] + name[1..];
    }
  }

  function NewEntry(prev: Entry, kind: Byte, parent: I16, name: seq<Byte>, now: U32): Entry
    requires |name| <= FS_NAME_MAX - 1
  {
    Entry(1, kind, 0, 0, parent, 0, 0, 0, 0, now, now, SetName(prev.name, name))
  }

  /** What fs_create returns. */
  function CreateResult(t: Table, parent: int, name: seq<Byte>): int {
    if !ParentOk(t, parent) || |name| == 0 || |name| > FS_NAME_MAX - 1 || Find(t, parent, name) >= 0 then -1
    else FreeSlot(t)
  }

  lemma CreateKeepsForest(t: Table, parent: int, name: seq<Byte>, kind: Byte, now: U32)
    requires Forest(t) && IsString(name) && CreateResult(t, parent, name) >= 0 && (kind == FILE || kind == FOLDER)
    ensures var id := CreateResult(t, parent, name);
      var t' := t[id := NewEntry(t[id], kind, parent, name, now)];
      Forest(t') && Name(t'[id]) == name && t'[id].parent == parent
  {
    hide AllRooted, Rooted, FreeSlot, Find, SetName, Name, SiblingsDistinct;
    var id := CreateResult(t, parent, name);
    var e := NewEntry(t[id], kind, parent, name, now);
    SetNameName(t[id].name, name, e);
    AddedRooted(t, id, e);
    AddedSiblings(t, id, e);
    AddedForest(t, id, e);
  }

  lemma AddedForest(t: Table, id: int, e: Entry)
    requires Forest(t) && 0 <= id < FS_MAX_ENTRIES && e.used != 0 && (e.kind == FILE || e.kind == FOLDER)
    requires Used(t, id) ==> e.kind == t[id].kind
    requires ParentOk(t, e.parent) && GoodName(Name(e)) && AllRooted(t[id := e]) && SiblingsDistinct(t[id := e])
    ensures Forest(t[id := e])
  {
    hide AllRooted, SiblingsDistinct, Name;
  }

  lemma SetNameName(prev: NameField, name: seq<Byte>, e: Entry)
    requires IsString(name) && |name| <= FS_NAME_MAX - 1 && e.name == SetName(prev, name)
    ensures Name(e) == name
  {
    NameOf(name, prev[|name| + 1..]);
  }

  lemma AddedRooted(t: Table, id: int, e: Entry)
    requires Forest(t) && 0 <= id < FS_MAX_ENTRIES && !Used(t, id) && e.used != 0 && ParentOk(t, e.parent)
    ensures AllRooted(t[id := e])
  {
    var t' := t[id := e];
    forall i | Used(t', i)
      ensures Rooted(t', i)
    {
      if i == id {
        var c := if e.parent == FS_ROOT then [] else ChainOf(t, e.parent);
        ChainSame(t, t', c, e.parent);
        assert ([id] + c)[1..] == c;
        assert IsChain(t', [id] + c, id);
      } else {
        var c := ChainOf(t, i);
        ChainSame(t, t', c, i);
      }
    }
  }

  /** An entry put into a slot keeps siblings distinct if no other entry there has its name. */
  lemma AddedSiblings(t: Table, id: int, e: Entry)
    requires SiblingsDistinct(t) && 0 <= id < FS_MAX_ENTRIES
    requires forall j :: Used(t, j) && j != id && t[j].parent == e.parent ==> Name(t[j]) != Name(e)
    ensures SiblingsDistinct(t[id := e])
  {
    hide Name;
  }

  ghost function ChainOf(t: Table, i: int): (c: seq<int>)
    requires Rooted(t, i)
    ensures IsChain(t, c, i)
  {
    var c :| IsChain(t, c, i); c
  }

  /** A folder with nothing in it, or a file. */
  ghost predicate Leaf(t: Table, i: int) {
    forall j :: Used(t, j) ==> t[j].parent != i
  }

  /** A leaf is on no other chain. */
  lemma {:induction false} LeafOffChain(t: Table, id: int, c: seq<int>, i: int, k: nat)
    requires Leaf(t, id) && 0 <= id && IsChain(t, c, i) && i != id && k < |c|
    ensures c[k] != id
    decreases k
  {
    if k > 0 {
      assert Used(t, i);
      LeafOffChain(t, id, c[1..], t[i].parent, k - 1);
    }
  }

  lemma DeleteKeepsForest(t: Table, id: int)
    requires Forest(t) && Used(t, id) && (t[id].kind == FOLDER ==> Leaf(t, id))
    ensures Forest(t[id := t[id].(used := 0)])
  {
    var t' := t[id := t[id].(used := 0)];
    assert Leaf(t, id) by {
      forall j | Used(t, j)
        ensures t[j].parent != id
      {
        assert ParentOk(t, t[j].parent);
      }
    }
    forall i | Used(t', i)
      ensures Rooted(t', i)
    {
      var c := ChainOf(t, i);
      forall k: nat | k < |c|
        ensures c[k] != id
      {
        LeafOffChain(t, id, c, i, k);
      }
      ChainSame(t, t', c, i);
    }
  }

  lemma RenameKeepsForest(t: Table, id: int, name: seq<Byte>)
    requires Forest(t) && Used(t, id) && GoodName(name)
    requires Find(t, t[id].parent, name) < 0 || Find(t, t[id].parent, name) == id
    ensures var t' := t[id := t[id].(name := SetName(t[id].name, name))];
      Forest(t') && Name(t'[id]) == name
  {
    hide AllRooted, SetName, Name;
    var e := t[id].(name := SetName(t[id].name, name));
    assert Name(e) == name by { SetNameName(t[id].name, name, e); }
    RenamedRooted(t, id, e);
    forall j | Used(t, j) && j != id && t[j].parent == t[id].parent
      ensures Name(t[j]) != name
    {
      if Find(t, t[id].parent, name) == id {
        assert Name(t[id]) == name;
      }
    }
    AddedSiblings(t, id, e);
    AddedForest(t, id, e);
  }

  lemma RenamedRooted(t: Table, id: int, e: Entry)
    requires Forest(t) && Used(t, id) && e.used != 0 && e.parent == t[id].parent
    ensures AllRooted(t[id := e])
  {
    var t' := t[id := e];
    forall i | Used(t', i)
      ensures Rooted(t', i)
    {
      var c := ChainOf(t, i);
      ChainSame(t, t', c, i);
    }
  }

  // ---- moving ----

  /** `a` is `i` or above it. */
  ghost predicate Above(t: Table, a: int, i: int) {
    Rooted(t, i) && a in ChainOf(t, i)
  }

  /** Moving `id` under a folder that is not below it: chains through `id` continue with the new parent's chain. */
  lemma {:induction false} MovedChain(t: Table, t': Table, id: int, p: I16, up: seq<int>, c: seq<int>, i: int) returns (c': seq<int>)
    requires Used(t, id) && t' == t[id := t[id].(parent := p)]
    requires IsChain(t', up, p) && IsChain(t, c, i)
    ensures IsChain(t', c', i)
    decreases |c|
  {
    if c == [] {
      c' := [];
    } else if i == id {
      c' := [id] + up;
      assert c'[1..] == up;
    } else {
      var d := MovedChain(t, t', id, p, up, c[1..], t[i].parent);
      c' := [i] + d;
      assert c'[1..] == d;
    }
  }

  lemma MoveKeepsForest(t: Table, id: int, p: I16)
    requires Forest(t) && Used(t, id) && ParentOk(t, p) && Find(t, p, Name(t[id])) < 0
    requires p != FS_ROOT ==> !Above(t, id, p)
    ensures Forest(t[id := t[id].(parent := p)])
  {
    hide AllRooted, Name, Above, SiblingsDistinct;
    var e := t[id].(parent := p);
    MovedRooted(t, id, p);
    SameName(t[id], e);
    AddedSiblings(t, id, e);
    AddedForest(t, id, e);
  }

  lemma SameName(e: Entry, e': Entry)
    requires e.name == e'.name
    ensures Name(e) == Name(e')
  {
  }

  lemma MovedRooted(t: Table, id: int, p: I16)
    requires Forest(t) && Used(t, id) && ParentOk(t, p) && (p != FS_ROOT ==> !Above(t, id, p))
    ensures AllRooted(t[id := t[id].(parent := p)])
  {
    var t' := t[id := t[id].(parent := p)];
    var up := if p == FS_ROOT then [] else ChainOf(t, p);
    ChainSame(t, t', up, p);
    forall i | Used(t', i)
      ensures Rooted(t', i)
    {
      var c := MovedChain(t, t', id, p, up, ChainOf(t, i), i);
    }
  }

  /** Moving a folder below itself would cut it off from the root. */
  lemma MoveBelowItself(t: Table, id: int, p: I16)
    requires Forest(t) && Used(t, id) && ParentOk(t, p) && p != FS_ROOT && Above(t, id, p)
    ensures !Rooted(t[id := t[id].(parent := p)], id)
  {
    var t' := t[id := t[id].(parent := p)];
    var c := ChainOf(t, p);
    var k :| 0 <= k < |c| && c[k] == id;
    if Rooted(t', id) {
      var d := ChainOf(t', id);
      assert IsChain(t', d[1..], p);
      var n := LoopBack(t, t', id, p, c, p, k, d[1..]);
      ChainDistinct(t', d, id, 0, n + 1);
    }
  }

  /** From any member of the old chain above `p` down to `id`, the new chain comes back to `id`. */
  lemma {:induction false} LoopBack(t: Table, t': Table, id: int, p: I16, c: seq<int>, i: int, k: nat, d: seq<int>) returns (n: nat)
    requires Used(t, id) && t' == t[id := t[id].(parent := p)]
    requires IsChain(t, c, i) && k < |c| && c[k] == id && IsChain(t', d, i)
    ensures n < |d| && d[n] == id
    decreases k
  {
    if i == id {
      n := 0;
    } else {
      var m := LoopBack(t, t', id, p, c[1..], t[i].parent, k - 1, d[1..]);
      n := m + 1;
    }
  }
}
