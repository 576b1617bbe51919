/** Subtrees of the directory: when two look the same, what growing elsewhere does to them, and what they hold. */
module FsSubtree {
  import opened Words
  import opened FsLayout
  import opened FsTree
  import opened FsVolume
  import opened FileSystem

  // ---- subtrees ----

  /** The subtrees under `a` and `b` look the same for `n` levels down: the same kind, the same bytes, and under each
      name the same subtree. */
  ghost predicate SameTree(t: Table, d: Disk, a: int, t': Table, d': Disk, b: int, n: nat)
    requires Used(t, a) && Used(t', b)
    decreases n
  {
    n == 0 || (
      && t[a].kind == t'[b].kind
      && (t[a].kind == FILE ==> Content(d, t[a]) == Content(d', t'[b]))
      && (forall name :: SameUnder(t, a, t', b, name) &&
            (Find(t, a, name) >= 0 ==> SameTree(t, d, Find(t, a, name), t', d', Find(t', b, name), n - 1))))
  }

  ghost predicate SameUnder(t: Table, a: int, t': Table, b: int, name: seq<Byte>) {
    Find(t, a, name) >= 0 <==> Find(t', b, name) >= 0
  }

  /** To any depth. */
  ghost predicate Isomorphic(t: Table, d: Disk, a: int, t': Table, d': Disk, b: int) {
    Used(t, a) && Used(t', b) && forall n: nat :: SameTree(t, d, a, t', d', b, n)
  }

  lemma {:induction false} SameTreeTrans(t: Table, d: Disk, a: int, t': Table, d': Disk, b: int, t'': Table, d'': Disk, c: int, n: nat)
    requires Used(t, a) && Used(t', b) && Used(t'', c)
    requires SameTree(t, d, a, t', d', b, n) && SameTree(t', d', b, t'', d'', c, n)
    ensures SameTree(t, d, a, t'', d'', c, n)
    decreases n
  {
    hide Find, Content;
    if n > 0 {
      forall name
        ensures SameUnder(t, a, t'', c, name)
        ensures Find(t, a, name) >= 0 ==> SameTree(t, d, Find(t, a, name), t'', d'', Find(t'', c, name), n - 1)
      {
        assert SameUnder(t, a, t', b, name) && SameUnder(t', b, t'', c, name);
        if Find(t, a, name) >= 0 {
          SameTreeTrans(t, d, Find(t, a, name), t', d', Find(t', b, name), t'', d'', Find(t'', c, name), n - 1);
        }
      }
    }
  }

  lemma IsomorphicTrans(t: Table, d: Disk, a: int, t': Table, d': Disk, b: int, t'': Table, d'': Disk, c: int)
    requires Isomorphic(t, d, a, t', d', b) && Isomorphic(t', d', b, t'', d'', c)
    ensures Isomorphic(t, d, a, t'', d'', c)
  {
    forall n: nat
      ensures SameTree(t, d, a, t'', d'', c, n)
    {
      SameTreeTrans(t, d, a, t', d', b, t'', d'', c, n);
    }
  }

  // ---- growing ----

  /** Every entry and every file that was there is still there, unchanged. */
  ghost predicate Intact(t: Table, d: Disk, t': Table, d': Disk) {
    forall j :: Used(t, j) ==> t'[j] == t[j] && Content(d', t[j]) == Content(d, t[j])
  }

  /** New entries hang under `p` or under each other. */
  ghost predicate GrewUnder(t: Table, t': Table, p: int) {
    forall j :: Used(t', j) && !Used(t, j) ==> t'[j].parent == p || (!Used(t, t'[j].parent) && t'[j].parent != FS_ROOT)
  }

  /** Every disk on the way mounts to a consistent volume with everything in `t` unchanged. */
  ghost predicate KeptThroughout(t: Table, d: Disk, before: nat, history: seq<Disk>) {
    forall k :: before <= k < |history| ==> CrashOk(history[k]) && Intact(t, d, DiskTable(history[k]), history[k])
  }

  lemma KeptTrans(t: Table, d: Disk, t': Table, d': Disk, t'': Table, d'': Disk)
    requires Intact(t, d, t', d') && Intact(t', d', t'', d'')
    ensures Intact(t, d, t'', d'')
  {
    hide Content;
  }

  lemma KeptThroughoutTrans(t: Table, d: Disk, t': Table, d': Disk, before: nat, middle: nat, history: seq<Disk>, history': seq<Disk>)
    requires Intact(t, d, t', d') && KeptThroughout(t', d', middle, history') && KeptThroughout(t, d, before, history)
    requires history <= history' && middle == |history|
    ensures KeptThroughout(t, d, before, history')
  {
    hide Intact, CrashOk, DiskTable;
    forall k | before <= k < |history'|
      ensures CrashOk(history'[k]) && Intact(t, d, DiskTable(history'[k]), history'[k])
    {
      if k < middle {
        assert history'[k] == history[k];
      } else {
        KeptTrans(t, d, t', d', DiskTable(history'[k]), history'[k]);
      }
    }
  }

  /** Growing under `q`, itself new under `p`, after growing under `p`. */
  lemma GrewTrans(t: Table, d: Disk, t': Table, d': Disk, t'': Table, p: int, q: int)
    requires Intact(t, d, t', d') && GrewUnder(t, t', p) && GrewUnder(t', t'', q) && (q == p || (!Used(t, q) && q != FS_ROOT))
    requires forall j :: Used(t', j) ==> t''[j] == t'[j]
    ensures GrewUnder(t, t'', p)
  {
    hide Content;
  }

  /** What grows under `p` is not seen from an entry that is not above `p`. */
  lemma {:induction false} SubtreeKept(t: Table, d: Disk, t': Table, d': Disk, p: int, a: int, n: nat)
    requires Forest(t) && Forest(t') && Intact(t, d, t', d') && GrewUnder(t, t', p)
    requires Used(t, a) && !Above(t, a, p)
    ensures Used(t', a) && SameTree(t, d, a, t', d', a, n)
    decreases n
  {
    hide Forest, Content, Above, Find;
    if n > 0 {
      forall name
        ensures Find(t', a, name) == Find(t, a, name)
        ensures Find(t, a, name) >= 0 ==> SameTree(t, d, Find(t, a, name), t', d', Find(t, a, name), n - 1)
      {
        FindKept(t, d, t', d', p, a, name);
        var c := Find(t, a, name);
        if c >= 0 {
          ChildNotAbove(t, c, p);
          SubtreeKept(t, d, t', d', p, c, n - 1);
        }
      }
      assert forall name :: SameUnder(t, a, t', a, name);
    }
  }

  lemma FindKept(t: Table, d: Disk, t': Table, d': Disk, p: int, a: int, name: seq<Byte>)
    requires Forest(t) && Forest(t') && Intact(t, d, t', d') && GrewUnder(t, t', p) && Used(t, a) && !Above(t, a, p)
    ensures Find(t', a, name) == Find(t, a, name)
  {
    hide Content, Find, Name, AllRooted;
    if a == p {
      SelfAbove(t, p);
    }
    var c, c' := Find(t, a, name), Find(t', a, name);
    if c >= 0 {
      FindIs(t', c);
    }
  }

  /** A child of something not above `p` is not above `p` either. */
  lemma ChildNotAbove(t: Table, c: int, p: int)
    requires Forest(t) && Used(t, c) && !Above(t, t[c].parent, p) && Used(t, t[c].parent)
    ensures !Above(t, c, p)
  {
    if Above(t, c, p) {
      var chain := ChainOf(t, p);
      var k :| 0 <= k < |chain| && chain[k] == c;
      ParentOnChain(t, chain, p, k);
    }
  }

  lemma ParentOnChain(t: Table, chain: seq<int>, i: int, k: nat)
    requires IsChain(t, chain, i) && k < |chain|
    ensures Used(t, chain[k])
    ensures t[chain[k]].parent != FS_ROOT ==> t[chain[k]].parent in chain
  {
    ChainSuffix(t, chain, i, k);
    var rest := chain[k..][1..];
    if rest != [] {
      assert chain[k + 1] == rest[0];
    }
  }

  /** Nothing is above its own parent. */
  lemma NotAboveParent(t: Table, c: int)
    requires Forest(t) && Used(t, c)
    ensures !Above(t, c, t[c].parent)
  {
    if Above(t, c, t[c].parent) {
      var up, chain := ChainOf(t, t[c].parent), ChainOf(t, c);
      ChainUnique(t, chain[1..], up, t[c].parent);
      var k :| 0 <= k < |up| && up[k] == c;
      ChainDistinct(t, chain, c, 0, k + 1);
    }
  }

  /** What is above an entry does not change while others are added. */
  lemma AboveKept(t: Table, d: Disk, t': Table, d': Disk, a: int, i: int)
    requires Forest(t) && Used(t, i) && Intact(t, d, t', d')
    ensures Above(t', a, i) <==> Above(t, a, i)
  {
    hide Content;
    assert Rooted(t, i);
    var c := ChainOf(t, i);
    ChainSame(t, t', c, i);
    ChainUnique(t', c, ChainOf(t', i), i);
  }

  // ---- entries of a folder ----

  /** The ids of the entries under `parent` among the first `k` slots, in order. */
  function Children(t: Table, parent: int, k: nat): (ids: seq<int>)
    requires k <= FS_MAX_ENTRIES
    ensures |ids| <= k
    ensures forall i :: i in ids <==> i < k && ChildOf(t, i, parent)
    ensures forall i, j :: 0 <= i < j < |ids| ==> ids[i] < ids[j]
  {
    if k == 0 then []
    else
      var rest := Children(t, parent, k - 1);
      assert forall i :: 0 <= i < |rest| ==> rest[i] in rest;
      if ChildOf(t, k - 1, parent) then rest + [k - 1] else rest
  }

  lemma NoChildren(t: Table, parent: int)
    ensures Children(t, parent, 0) == []
  {
  }

  lemma ChildrenNext(t: Table, parent: int, k: nat)
    requires k < FS_MAX_ENTRIES
    ensures Children(t, parent, k + 1) == Children(t, parent, k) + if ChildOf(t, k, parent) then [k as int] else []
  {
  }

  lemma {:induction false} ChildrenPrefix(t: Table, parent: int, k: nat, m: nat)
    requires k <= m <= FS_MAX_ENTRIES
    ensures Children(t, parent, k) <= Children(t, parent, m)
  {
    hide ChildOf;
    if k < m {
      ChildrenPrefix(t, parent, k, m - 1);
      var shorter := Children(t, parent, m - 1);
      assert shorter <= Children(t, parent, m);
    }
  }

  lemma KeptAt(t: Table, d: Disk, t': Table, d': Disk, i: int)
    requires Intact(t, d, t', d') && Used(t, i)
    ensures t'[i] == t[i] && Content(d', t[i]) == Content(d, t[i])
  {
    hide Content;
  }

  /** On a chain each entry is the parent of the one before. */
  lemma Downward(t: Table, chain: seq<int>, i: int, k: nat)
    requires IsChain(t, chain, i) && 0 < k < |chain|
    ensures ChildOf(t, chain[k - 1], chain[k])
  {
    ChainSuffix(t, chain, i, k - 1);
    assert chain[k - 1..][1..][0] == chain[k];
  }

  /** Growth elsewhere leaves the list of entries as it is. */
  lemma {:induction false} ChildrenKept(t: Table, d: Disk, t': Table, d': Disk, p: int, a: int, k: nat)
    requires Forest(t) && Intact(t, d, t', d') && GrewUnder(t, t', p) && Used(t, a) && a != p && k <= FS_MAX_ENTRIES
    ensures Children(t', a, k) == Children(t, a, k)
  {
    hide Content, Forest;
    if k > 0 {
      ChildrenKept(t, d, t', d', p, a, k - 1);
      assert ChildOf(t', k - 1, a) <==> ChildOf(t, k - 1, a);
    }
  }

  // ---- what a copy takes ----

  /** Slots of the table, and sectors of the data region. */
  datatype Cost = Cost(slots: nat, sectors: nat)

  function Plus(a: Option<Cost>, b: Option<Cost>): Option<Cost> {
    if a.Some? && b.Some? then Some(Cost(a.value.slots + b.value.slots, a.value.sectors + b.value.sectors)) else None
  }

  /** What copying the subtree under `id` takes, if it has at most `n` levels. */
  ghost function CostOf(t: Table, id: int, n: nat): Option<Cost>
    requires Used(t, id)
    decreases n, 0
  {
    if n == 0 then None
    else if t[id].kind == FILE then Some(Cost(1, Need(t[id].size)))
    else
      ChildrenUsed(t, id);
      Plus(Some(Cost(1, 0)), CostAll(t, Children(t, id, FS_MAX_ENTRIES), n - 1))
  }

  ghost function CostAll(t: Table, cs: seq<int>, n: nat): Option<Cost>
    requires forall i :: 0 <= i < |cs| ==> Used(t, cs[i])
    decreases n, |cs| + 1
  {
    if cs == [] then Some(Cost(0, 0))
    else Plus(CostAll(t, cs[..|cs| - 1], n), CostOf(t, cs[|cs| - 1], n))
  }

  lemma ChildrenUsed(t: Table, id: int)
    ensures forall i :: 0 <= i < |Children(t, id, FS_MAX_ENTRIES)| ==> Used(t, Children(t, id, FS_MAX_ENTRIES)[i])
  {
    hide Children;
    var cs := Children(t, id, FS_MAX_ENTRIES);
    forall i | 0 <= i < |cs|
      ensures Used(t, cs[i])
    {
      assert cs[i] in cs;
    }
  }

  lemma {:induction false} CostKept(t: Table, d: Disk, t': Table, d': Disk, p: int, a: int, n: nat)
    requires Forest(t) && Intact(t, d, t', d') && GrewUnder(t, t', p) && Used(t, a) && !Above(t, a, p)
    ensures Used(t', a) && CostOf(t', a, n) == CostOf(t, a, n)
    decreases n, 0
  {
    hide Forest, Content, Above, Children;
    KeptAt(t, d, t', d', a);
    if n > 0 && t[a].kind != FILE {
      if a == p {
        SelfAbove(t, a);
      }
      var cs := Children(t, a, FS_MAX_ENTRIES);
      ChildrenKept(t, d, t', d', p, a, FS_MAX_ENTRIES);
      forall i | 0 <= i < |cs|
        ensures Used(t, cs[i]) && !Above(t, cs[i], p)
      {
        assert cs[i] in cs;
        ChildNotAbove(t, cs[i], p);
      }
      CostAllKept(t, d, t', d', p, cs, n - 1);
    }
  }

  lemma {:induction false} CostAllKept(t: Table, d: Disk, t': Table, d': Disk, p: int, cs: seq<int>, n: nat)
    requires Forest(t) && Intact(t, d, t', d') && GrewUnder(t, t', p)
    requires forall i :: 0 <= i < |cs| ==> Used(t, cs[i]) && !Above(t, cs[i], p)
    ensures forall i :: 0 <= i < |cs| ==> Used(t', cs[i])
    ensures CostAll(t', cs, n) == CostAll(t, cs, n)
    decreases n, |cs| + 1
  {
    hide Forest, Content, Above, GrewUnder, CostOf;
    forall i | 0 <= i < |cs|
      ensures Used(t', cs[i])
    {
      KeptAt(t, d, t', d', cs[i]);
    }
    if cs != [] {
      CostAllKept(t, d, t', d', p, cs[..|cs| - 1], n);
      CostKept(t, d, t', d', p, cs[|cs| - 1], n);
    }
  }

  /** A part of a list costs no more than the whole, and what is left pays for the next. */
  lemma {:induction false} CostPrefix(t: Table, cs: seq<int>, k: nat, n: nat)
    requires (forall i :: 0 <= i < |cs| ==> Used(t, cs[i])) && k < |cs|
    ensures CostAll(t, cs[..k + 1], n) == Plus(CostAll(t, cs[..k], n), CostOf(t, cs[k], n))
    ensures CostAll(t, cs, n).Some? ==>
      && CostAll(t, cs[..k + 1], n).Some?
      && CostAll(t, cs[..k + 1], n).value.slots <= CostAll(t, cs, n).value.slots
      && CostAll(t, cs[..k + 1], n).value.sectors <= CostAll(t, cs, n).value.sectors
    decreases |cs|
  {
    hide CostOf;
    assert cs[..k + 1][..k] == cs[..k];
    if k + 1 == |cs| {
      assert cs[..k + 1] == cs;
    } else {
      var shorter := cs[..|cs| - 1];
      CostPrefix(t, shorter, k, n);
      assert shorter[..k + 1] == cs[..k + 1] && shorter[..k] == cs[..k];
    }
  }

  // ---- free slots ----

  ghost function FreeBelow(t: Table, k: nat): nat
    requires k <= FS_MAX_ENTRIES
  {
    if k == 0 then 0 else FreeBelow(t, k - 1) + if Used(t, k - 1) then 0 else 1
  }

  ghost function Free(t: Table): nat { FreeBelow(t, FS_MAX_ENTRIES) }

  lemma {:induction false} FreeSame(t: Table, t': Table, k: nat)
    requires k <= FS_MAX_ENTRIES && forall j :: 0 <= j < k ==> (Used(t', j) <==> Used(t, j))
    ensures FreeBelow(t', k) == FreeBelow(t, k)
  {
    if k > 0 {
      FreeSame(t, t', k - 1);
    }
  }

  lemma {:induction false} FreeTaken(t: Table, t': Table, r: int, k: nat)
    requires 0 <= r < FS_MAX_ENTRIES && !Used(t, r) && Used(t', r) && t' == t[r := t'[r]] && k <= FS_MAX_ENTRIES
    ensures FreeBelow(t, k) == FreeBelow(t', k) + if r < k then 1 else 0
  {
    if k > 0 {
      FreeTaken(t, t', r, k - 1);
    }
  }

  lemma {:induction false} FreeAny(t: Table, k: nat)
    requires k <= FS_MAX_ENTRIES
    ensures FreeBelow(t, k) > 0 <==> exists j :: 0 <= j < k && !Used(t, j)
  {
    if k > 0 {
      FreeAny(t, k - 1);
      assert !Used(t, k - 1) ==> exists j :: 0 <= j < k && !Used(t, j);
    }
  }

  /** A slot is found exactly if one is free. */
  lemma FreeFound(t: Table)
    ensures FreeSlot(t) >= 0 <==> Free(t) > 0
  {
    hide FreeSlot;
    FreeAny(t, FS_MAX_ENTRIES);
    if FreeSlot(t) >= 0 {
      assert !Used(t, FreeSlot(t));
    }
  }
}
