/** Copying a file, or a folder and everything below it. */
module FsCopy {
  import opened Words
  import opened FsLayout
  import opened FsTree
  import opened FsVolume
  import opened FileSystem
  import opened FsSubtree

  // ---- listing ----

  /** The first `max` entries of a folder. */
  method List(fs: FileSystem, parent: int, ids: array<int>, max: int) returns (count: int)
    requires fs.table.Length == FS_MAX_ENTRIES && 0 <= max <= ids.Length
    modifies ids
    ensures var all := Children(fs.table[..], parent, FS_MAX_ENTRIES);
      count == (if |all| < max then |all| else max) && ids[..count] == all[..count]
    ensures ids[count..] == old(ids[count..])
  {
    hide Children;
    count := 0;
    var i := 0;
    ghost var t := fs.table[..];
    assert Children(t, parent, 0) == [] by { NoChildren(t, parent); }
    while i < FS_MAX_ENTRIES && count < max
      invariant 0 <= i <= FS_MAX_ENTRIES && 0 <= count <= max
      invariant ids[..count] == Children(t, parent, i)
      invariant forall k :: count <= k < ids.Length ==> ids[k] == old(ids[k])
    {
      ChildrenNext(t, parent, i);
      if fs.table[i].used != 0 && fs.table[i].parent == parent {
        ids[count] := i;
        count := count + 1;
      }
      i := i + 1;
    }
    ChildrenPrefix(t, parent, i, FS_MAX_ENTRIES);
    assert ids[count..] == old(ids[count..]);
  }

  // ---- copying ----

  /** The name a copy gets. */
  ghost function NameFor(t: Table, id: int, name: Option<seq<Byte>>): seq<Byte> {
    if name.Some? then name.value else if Used(t, id) then Name(t[id]) else []
  }

  /** The one new entry under `p` is `r`, a copy of all that is under `id`, with the name asked for. A copy is only
      ever made to a place outside the subtree copied. */
  ghost predicate CopyMade(t: Table, d: Disk, t': Table, d': Disk, id: int, p: int, name: seq<Byte>, r: int) {
    && Used(t, id) && Used(t', r) && !Used(t, r) && t'[r].parent == p && Name(t'[r]) == name
    && (forall j :: Used(t', j) && !Used(t, j) && t'[j].parent == p ==> j == r)
    && !Above(t, id, p) && Isomorphic(t, d, id, t', d', r)
  }

  /** fs_create makes an entry. */
  ghost predicate CanMake(t: Table, p: int, name: seq<Byte>) {
    ParentOk(t, p) && GoodName(name) && Find(t, p, name) < 0 && Free(t) > 0
  }

  /** A copy succeeds: the name is free at a place outside the subtree, and the subtree has no more than `n` levels,
      slots left for its entries, and sectors left for its files. */
  ghost predicate CopyOk(t: Table, next: int, id: int, p: int, name: seq<Byte>, n: nat) {
    && Used(t, id) && ParentOk(t, p) && GoodName(name) && Find(t, p, name) < 0 && !Above(t, id, p)
    && CostOf(t, id, n).Some? && Affordable(t, next, CostOf(t, id, n).value)
  }

  ghost predicate Affordable(t: Table, next: int, c: Cost) {
    c.slots <= Free(t) && next + c.sectors <= FS_END_LBA
  }

  /** From `t` to `t'` the cost has been paid. */
  ghost predicate Spent(t: Table, next: int, t': Table, next': int, c: Option<Cost>) {
    c.Some? && Free(t') + c.value.slots == Free(t) && next' == next + c.value.sectors
  }

  /** Levels a copy may still go down to at this depth of the recursion. */
  function Levels(depth: nat): nat { if depth <= 16 then 17 - depth else 0 }

  /** What a copy into `p` does to a volume, whether or not it succeeds. */
  ghost predicate Copied(t: Table, d: Disk, t': Table, d': Disk, id: int, p: int, name: seq<Byte>, r: int,
                         before: nat, history: seq<Disk>)
  {
    && Intact(t, d, t', d') && GrewUnder(t, t', p) && KeptThroughout(t, d, before, history)
    && (r >= 0 ==> CopyMade(t, d, t', d', id, p, name, r))
  }

  /** A new entry, as fs_create leaves it. */
  ghost predicate Made(t: Table, d: Disk, t': Table, d': Disk, r: int, kind: Byte, p: int, name: seq<Byte>) {
    && 0 <= r < FS_MAX_ENTRIES && !Used(t, r) && Used(t', r) && t' == t[r := t'[r]] && ParentOk(t, p)
    && t'[r].parent == p && t'[r].kind == kind && Name(t'[r]) == name && t'[r].size == 0 && t'[r].alloc == 0
    && Shows(d', t', d)
  }

  lemma CreateMakes(t: Table, d: Disk, t': Table, d': Disk, r: int, kind: Byte, p: int, name: seq<Byte>, now: U32)
    requires Forest(t) && IsString(name) && r == CreateResult(t, p, name) && r >= 0 && (kind == FILE || kind == FOLDER)
    requires t' == t[r := NewEntry(t[r], kind, p, name, now)] && Shows(d', t', d)
    ensures Made(t, d, t', d', r, kind, p, name)
  {
    hide Forest, Name, Shows, SetName;
    CreateKeepsForest(t, p, name, kind, now);
  }

  lemma MadeKeeps(t: Table, d: Disk, t': Table, d': Disk, r: int, kind: Byte, p: int, name: seq<Byte>)
    requires Made(t, d, t', d', r, kind, p, name)
    ensures Intact(t, d, t', d') && GrewUnder(t, t', p) && Intact(t, d, DiskTable(d'), d')
  {
    hide DiskTable, Content, Name;
  }

  lemma KeptThroughoutAdd(t: Table, d: Disk, before: nat, history: seq<Disk>, h: Disk)
    requires before <= |history| && KeptThroughout(t, d, before, history) && CrashOk(h) && Intact(t, d, DiskTable(h), h)
    ensures KeptThroughout(t, d, before, history + [h])
  {
    hide Intact, CrashOk, DiskTable;
  }

  lemma KeptThroughoutNone(t: Table, d: Disk, history: seq<Disk>)
    ensures KeptThroughout(t, d, |history|, history)
  {
  }

  lemma KeptSelf(t: Table, d: Disk, p: int)
    ensures Intact(t, d, t, d) && GrewUnder(t, t, p)
  {
  }

  /** fs_create, seen from the entries that were there. */
  method MakeEntry(fs: FileSystem, p: int, name: seq<Byte>, kind: Byte) returns (r: int)
    requires fs.Valid() && IsString(name) && (kind == FILE || kind == FOLDER)
    modifies fs`disk, fs`history, fs.table
    ensures fs.Valid() && old(fs.history) <= fs.history
    ensures r < 0 ==> r == -1 && fs.table[..] == old(fs.table[..]) && fs.disk == old(fs.disk) && fs.history == old(fs.history)
    ensures r >= 0 ==> Made(old(fs.table[..]), old(fs.disk), fs.table[..], fs.disk, r, kind, p, name)
    ensures Intact(old(fs.table[..]), old(fs.disk), fs.table[..], fs.disk) && GrewUnder(old(fs.table[..]), fs.table[..], p)
    ensures KeptThroughout(old(fs.table[..]), old(fs.disk), |old(fs.history)|, fs.history)
    ensures r >= 0 <==> CanMake(old(fs.table[..]), p, name)
  {
    hide Forest, Extents, DiskTable, DecodeSuper, Intact, GrewUnder, KeptThroughout, Made, Shows, CrashOk, CreateResult, CanMake;
    ghost var t, d, history := fs.table[..], fs.disk, fs.history;
    var now: U32 := *;
    r := fs.Create(p, name, kind, now);
    KeptThroughoutNone(t, d, history);
    CreateRange(t, p, name);
    CreateWhen(t, p, name);
    if r < 0 {
      KeptSelf(t, d, p);
    } else {
      CreateMakes(t, d, fs.table[..], fs.disk, r, kind, p, name, now);
      MadeKeeps(t, d, fs.table[..], fs.disk, r, kind, p, name);
      KeptThroughoutAdd(t, d, |history|, history, fs.disk);
    }
  }

  lemma CreateRange(t: Table, p: int, name: seq<Byte>)
    ensures -1 <= CreateResult(t, p, name) < FS_MAX_ENTRIES
  {
  }

  lemma CreateWhen(t: Table, p: int, name: seq<Byte>)
    requires IsString(name)
    ensures CreateResult(t, p, name) >= 0 <==> CanMake(t, p, name)
  {
    hide Find, FreeSlot, Free;
    FreeFound(t);
  }

  lemma MadeSpends(t: Table, d: Disk, t1: Table, d1: Disk, r: int, kind: Byte, p: int, name: seq<Byte>)
    requires Made(t, d, t1, d1, r, kind, p, name)
    ensures Free(t1) + 1 == Free(t)
  {
    hide Name, Shows;
    FreeTaken(t, t1, r, FS_MAX_ENTRIES);
  }

  // ---- one file ----

  /** Writing to the new file `r` leaves alone everything that was there before it. */
  lemma WriteKept(t: Table, d: Disk, t1: Table, d1: Disk, t2: Table, d2: Disk, r: int, middle: nat, history: seq<Disk>)
    requires Intact(t, d, t1, d1) && 0 <= r < FS_MAX_ENTRIES && !Used(t, r) && t2 == t1[r := t2[r]] && DiskTable(d2) == t2
    requires OthersSame(t1, d1, d2, r) && OnlyFile(history, middle, t1, d1, d2, r)
    ensures Intact(t, d, t2, d2) && KeptThroughout(t, d, middle, history)
  {
    hide DiskTable, Content, CrashOk;
    forall k | middle <= k < |history|
      ensures CrashOk(history[k]) && Intact(t, d, DiskTable(history[k]), history[k])
    {
    }
  }

  lemma KeptThroughoutJoin(t: Table, d: Disk, before: nat, middle: nat, history: seq<Disk>, history': seq<Disk>)
    requires KeptThroughout(t, d, before, history) && KeptThroughout(t, d, middle, history')
    requires history <= history' && middle == |history|
    ensures KeptThroughout(t, d, before, history')
  {
    hide Intact, CrashOk, DiskTable;
    forall k | before <= k < |history'|
      ensures CrashOk(history'[k]) && Intact(t, d, DiskTable(history'[k]), history'[k])
    {
      if k < middle {
        assert history'[k] == history[k];
      }
    }
  }

  /** Taking the new entry away again. */
  lemma DeleteKept(t: Table, d: Disk, t1: Table, d1: Disk, t2: Table, d2: Disk, r: int, p: int)
    requires Intact(t, d, t1, d1) && 0 <= r < FS_MAX_ENTRIES && !Used(t, r) && GrewUnder(t, t1, p)
    requires t2 == t1[r := t1[r].(used := 0)] && Shows(d2, t2, d1)
    ensures Intact(t, d, t2, d2) && GrewUnder(t, t2, p) && Intact(t, d, DiskTable(d2), d2)
  {
    hide DiskTable, Content;
  }

  lemma FileHasNone(t: Table, i: int, name: seq<Byte>)
    requires Forest(t) && Used(t, i) && t[i].kind == FILE
    ensures Find(t, i, name) < 0
  {
    hide AllRooted, Name, SiblingsDistinct, Find;
    assert Find(t, i, name) >= 0 ==> ParentOk(t, i);
  }

  lemma FilesIsomorphic(t: Table, d: Disk, a: int, t': Table, d': Disk, b: int)
    requires Forest(t) && Forest(t') && Used(t, a) && Used(t', b) && t[a].kind == t'[b].kind == FILE
    requires Content(d, t[a]) == Content(d', t'[b])
    ensures Isomorphic(t, d, a, t', d', b)
  {
    hide Forest, Find, Content;
    forall name
      ensures Find(t, a, name) < 0 && Find(t', b, name) < 0
    {
      FileHasNone(t, a, name);
      FileHasNone(t', b, name);
    }
    forall n: nat
      ensures SameTree(t, d, a, t', d', b, n)
    {
      assert forall name :: SameUnder(t, a, t', b, name);
    }
  }

  /** Made, then written: `t2` is `t1` with a new size and run for `r`. */
  lemma FileCopied(t: Table, d: Disk, t1: Table, d1: Disk, t2: Table, d2: Disk, id: int, p: int, name: seq<Byte>, r: int)
    requires Forest(t) && Forest(t2) && Used(t, id) && t[id].kind == FILE
    requires Made(t, d, t1, d1, r, FILE, p, name) && Intact(t, d, t2, d2) && t2 == t1[r := t2[r]]
    requires t2[r].used == t1[r].used && t2[r].kind == FILE && t2[r].parent == p && t2[r].name == t1[r].name
    requires Content(d2, t2[r]) == Content(d, t[id])
    ensures GrewUnder(t, t2, p) && CopyMade(t, d, t2, d2, id, p, name, r)
  {
    hide Forest, Find, Content, Name, Shows, Isomorphic, Above;
    SameName(t1[r], t2[r]);
    FilesIsomorphic(t, d, id, t2, d2, r);
    FileNotAbove(t, id, p);
  }

  /** Nothing is below a file. */
  lemma FileNotAbove(t: Table, id: int, p: int)
    requires Forest(t) && Used(t, id) && t[id].kind == FILE && ParentOk(t, p)
    ensures !Above(t, id, p)
  {
    hide Name, SiblingsDistinct;
    if Above(t, id, p) {
      var chain := ChainOf(t, p);
      var k :| 0 <= k < |chain| && chain[k] == id;
      if k > 0 {
        Downward(t, chain, p, k);
      }
    }
  }

  lemma WriteCopies(t: Table, d: Disk, t1: Table, s1: Super, d1: Disk, t2: Table, s2: Super, d2: Disk, id: int, p: int,
                    name: seq<Byte>, r: int, middle: nat, history: seq<Disk>, buf: seq<Byte>, n: int, now: U32)
    requires Forest(t) && Forest(t2) && Used(t, id) && t[id].kind == FILE && Made(t, d, t1, d1, r, FILE, p, name)
    requires DiskTable(d2) == t2 && WriteDone(t1, s1, d1, t2, s2, d2, middle, history, r, buf, n, now)
    requires Content(d1, t[id]) == buf[..n]
    ensures Intact(t, d, t2, d2) && GrewUnder(t, t2, p) && KeptThroughout(t, d, middle, history)
    ensures CopyMade(t, d, t2, d2, id, p, name, r)
  {
    hide Forest, DiskTable, Content, Intact, GrewUnder, KeptThroughout, OthersSame, OnlyFile, CopyMade, Name, AllOrNothing;
    MadeKeeps(t, d, t1, d1, r, FILE, p, name);
    WriteKept(t, d, t1, d1, t2, d2, r, middle, history);
    assert Content(d1, t[id]) == Content(d, t[id]) by { KeptAt(t, d, t1, d1, id); }
    FileCopied(t, d, t1, d1, t2, d2, id, p, name, r);
  }

  lemma MadeUsed(t: Table, d: Disk, t1: Table, d1: Disk, r: int, kind: Byte, p: int, name: seq<Byte>)
    requires Made(t, d, t1, d1, r, kind, p, name)
    ensures !Used(t, r) && Used(t1, r) && t1[r].kind == kind && t1[r].parent == p && Name(t1[r]) == name
    ensures t1[r].alloc == 0 && t1 == t[r := t1[r]] && ParentOk(t, p)
  {
    hide Name, Shows;
  }

  lemma EmptyCopied(t: Table, d: Disk, t1: Table, d1: Disk, id: int, p: int, name: seq<Byte>, r: int)
    requires Forest(t) && Forest(t1) && Used(t, id) && t[id].kind == FILE && t[id].size == 0
    requires Made(t, d, t1, d1, r, FILE, p, name)
    ensures CopyMade(t, d, t1, d1, id, p, name, r)
  {
    hide Forest, Intact, GrewUnder, CopyMade, Name, Shows;
    MadeKeeps(t, d, t1, d1, r, FILE, p, name);
    assert Content(d1, t1[r]) == [] == Content(d, t[id]);
    FileCopied(t, d, t1, d1, t1, d1, id, p, name, r);
  }

  lemma SizeOk(t: Table, next: int, i: int)
    requires Extents(t, next) && Used(t, i)
    ensures t[i].size <= FS_MAX_FILE_SIZE
  {
    assert ExtentOk(t[i], next);
  }

  /** The file branch of fs_copy_depth. If the disk is full the new entry is taken away again. */
  method CopyFile(fs: FileSystem, copyBuf: array<Byte>, id: int, p: int, name: seq<Byte>) returns (r: int)
    requires fs.Valid() && copyBuf.Length == FS_MAX_FILE_SIZE && IsString(name)
    requires Used(fs.table[..], id) && fs.table[id].kind == FILE
    modifies fs`disk, fs`history, fs`super, fs.table, copyBuf
    ensures fs.Valid() && old(fs.history) <= fs.history && r >= -1
    ensures Copied(old(fs.table[..]), old(fs.disk), fs.table[..], fs.disk, id, p, name, r, |old(fs.history)|, fs.history)
    ensures var size := old(fs.table[id]).size;
      && (r >= 0 <==> CanMake(old(fs.table[..]), p, name) && old(fs.super.next) + Need(size) <= FS_END_LBA)
      && (r >= 0 ==> Spent(old(fs.table[..]), old(fs.super.next), fs.table[..], fs.super.next, Some(Cost(1, Need(size)))))
    ensures r < 0 ==> fs.super == old(fs.super) && forall j :: Used(fs.table[..], j) <==> Used(old(fs.table[..]), j)
  {
    hide Forest, Extents, DiskTable, DecodeSuper, Intact, GrewUnder, KeptThroughout, Made, Shows, CrashOk, WriteDone, CopyMade,
      CanMake, Free;
    ghost var t, d, before := fs.table[..], fs.disk, |fs.history|;
    NextInRange(t, fs.super.next);
    r := MakeEntry(fs, p, name, FILE);
    if r < 0 {
      return -1;
    }
    ghost var t1, s1, d1, h1 := fs.table[..], fs.super, fs.disk, fs.history;
    MadeUsed(t, d, t1, d1, r, FILE, p, name);
    MadeSpends(t, d, t1, d1, r, FILE, p, name);
    KeptAt(t, d, t1, d1, id);
    SizeOk(t1, s1.next, id);
    var n := fs.ReadFile(id, copyBuf, FS_MAX_FILE_SIZE);
    if n > 0 {
      var w := CopyBytes(fs, copyBuf[..], r, n);
      if w != 0 {
        var _ := fs.Delete(r);
        DeleteKept(t, d, t1, d1, fs.table[..], fs.disk, r, p);
        KeptThroughoutAdd(t, d, before, h1, fs.disk);
        return -1;
      }
      ghost var now := fs.table[r].modified;
      WriteCopies(t, d, t1, s1, d1, fs.table[..], fs.super, fs.disk, id, p, name, r, |h1|, fs.history, copyBuf[..], n, now);
      KeptThroughoutJoin(t, d, before, |h1|, h1, fs.history);
    } else {
      EmptyCopied(t, d, t1, d1, id, p, name, r);
    }
  }

  /** Writes the first `n` bytes to the new file. */
  method CopyBytes(fs: FileSystem, bytes: seq<Byte>, r: int, n: int) returns (w: int)
    requires fs.Valid() && Used(fs.table[..], r) && fs.table[r].kind == FILE && fs.table[r].alloc == 0
    requires 0 < n <= FS_MAX_FILE_SIZE && n <= |bytes|
    modifies fs`disk, fs`history, fs`super, fs.table
    ensures fs.Valid() && old(fs.history) <= fs.history
    ensures w == if old(fs.super.next) + Need(n) <= FS_END_LBA then 0 else -1
    ensures w != 0 ==>
      fs.table[..] == old(fs.table[..]) && fs.super == old(fs.super) && fs.disk == old(fs.disk) && fs.history == old(fs.history)
    ensures w == 0 ==>
      && Used(old(fs.table[..]), r) && fs.super.next == old(fs.super.next) + Need(n)
      && WriteDone(old(fs.table[..]), old(fs.super), old(fs.disk), fs.table[..], fs.super, fs.disk, |old(fs.history)|, fs.history,
                   r, bytes, n, fs.table[r].modified)
      && Free(fs.table[..]) == Free(old(fs.table[..]))
  {
    hide Forest, Extents, DiskTable, DecodeSuper, AllOrNothing, OnlyFile, OthersSame, Free, Content;
    ghost var t := fs.table[..];
    var now: U32 := *;
    w := fs.WriteFile(r, bytes, n, now);
    if w == 0 {
      FreeSame(t, fs.table[..], FS_MAX_ENTRIES);
      SameFree(t, fs.table[..]);
    }
  }

  lemma SameFree(t: Table, t': Table)
    requires FreeBelow(t', FS_MAX_ENTRIES) == FreeBelow(t, FS_MAX_ENTRIES)
    ensures Free(t') == Free(t)
  {
  }

  lemma NextInRange(t: Table, next: int)
    requires Extents(t, next)
    ensures next <= FS_END_LBA
  {
  }

  // ---- whole folders ----

  /** `x`, under the copy `r` of a folder, is the copy of `c`. */
  ghost predicate Match(t: Table, d: Disk, c: int, t': Table, d': Disk, r: int, x: int) {
    Used(t, c) && ChildOf(t', x, r) && Name(t'[x]) == Name(t[c]) && Isomorphic(t, d, c, t', d', x)
  }

  ghost predicate HasSource(t: Table, d: Disk, cs: seq<int>, k: nat, t': Table, d': Disk, r: int, x: int)
    requires k <= |cs|
  {
    exists i :: 0 <= i < k && Match(t, d, cs[i], t', d', r, x)
  }

  ghost predicate HasCopy(t: Table, d: Disk, c: int, t': Table, d': Disk, r: int) {
    exists x :: Match(t, d, c, t', d', r, x)
  }

  /** Under `r` there are copies of the first `k` of `cs` and nothing else. */
  ghost predicate Matched(t: Table, d: Disk, cs: seq<int>, k: nat, t': Table, d': Disk, r: int)
    requires k <= |cs|
  {
    && (forall x :: ChildOf(t', x, r) ==> HasSource(t, d, cs, k, t', d', r, x))
    && (forall i :: 0 <= i < k ==> HasCopy(t, d, cs[i], t', d', r))
  }

  lemma SubtreeStays(t: Table, d: Disk, t': Table, d': Disk, p: int, a: int)
    requires Forest(t) && Forest(t') && Intact(t, d, t', d') && GrewUnder(t, t', p) && Used(t, a) && !Above(t, a, p)
    ensures Isomorphic(t, d, a, t', d', a)
  {
    hide Forest, Above, Intact, GrewUnder;
    SubtreeKept(t, d, t', d', p, a, 0);
    forall n: nat
      ensures SameTree(t, d, a, t', d', a, n)
    {
      SubtreeKept(t, d, t', d', p, a, n);
    }
  }

  /** A copy already made is not touched by the next. */
  lemma MatchStays(t: Table, d: Disk, c: int, t1: Table, d1: Disk, t2: Table, d2: Disk, r: int, x: int)
    requires Match(t, d, c, t1, d1, r, x) && Forest(t1) && Forest(t2) && Intact(t1, d1, t2, d2) && GrewUnder(t1, t2, r)
    ensures Match(t, d, c, t2, d2, r, x)
  {
    hide Forest, Above, GrewUnder, Name, Isomorphic, Content;
    NotAboveParent(t1, x);
    SubtreeStays(t1, d1, t2, d2, r, x);
    IsomorphicTrans(t, d, c, t1, d1, x, t2, d2, x);
  }

  /** The copy just made. */
  lemma MatchNew(t: Table, d: Disk, c: int, t1: Table, d1: Disk, t2: Table, d2: Disk, r: int, x: int)
    requires Forest(t) && Forest(t1) && Intact(t, d, t1, d1) && GrewUnder(t, t1, r) && Used(t, c) && Used(t, r)
    requires CopyMade(t1, d1, t2, d2, c, r, Name(t1[c]), x)
    ensures Match(t, d, c, t2, d2, r, x)
  {
    hide Forest, Above, GrewUnder, Name, Isomorphic, Intact;
    KeptAt(t, d, t1, d1, c);
    AboveKept(t, d, t1, d1, c, r);
    SubtreeStays(t, d, t1, d1, r, c);
    IsomorphicTrans(t, d, c, t1, d1, c, t2, d2, x);
  }

  lemma MatchedStep(t: Table, d: Disk, cs: seq<int>, k: nat, t1: Table, d1: Disk, t2: Table, d2: Disk, r: int, x: int)
    requires k < |cs| && Matched(t, d, cs, k, t1, d1, r)
    requires Forest(t) && Forest(t1) && Intact(t, d, t1, d1) && GrewUnder(t, t1, r)
    requires Used(t, cs[k]) && Used(t, r)
    requires Forest(t2) && Intact(t1, d1, t2, d2) && GrewUnder(t1, t2, r) && CopyMade(t1, d1, t2, d2, cs[k], r, Name(t1[cs[k]]), x)
    ensures Matched(t, d, cs, k + 1, t2, d2, r)
  {
    hide Forest, Above, GrewUnder, Name, Match, Content;
    MatchNew(t, d, cs[k], t1, d1, t2, d2, r, x);
    forall y | ChildOf(t2, y, r)
      ensures HasSource(t, d, cs, k + 1, t2, d2, r, y)
    {
      if Used(t1, y) {
        assert ChildOf(t1, y, r) && HasSource(t, d, cs, k, t1, d1, r, y);
        var i :| 0 <= i < k && Match(t, d, cs[i], t1, d1, r, y);
        MatchStays(t, d, cs[i], t1, d1, t2, d2, r, y);
      } else {
        assert y == x;
      }
    }
    forall i | 0 <= i < k + 1
      ensures HasCopy(t, d, cs[i], t2, d2, r)
    {
      if i < k {
        assert HasCopy(t, d, cs[i], t1, d1, r);
        var y :| Match(t, d, cs[i], t1, d1, r, y);
        MatchStays(t, d, cs[i], t1, d1, t2, d2, r, y);
      } else {
        assert Match(t, d, cs[i], t2, d2, r, x);
      }
    }
  }

  /** If `p` is below `id`, so is one of the entries of `id`, or is that entry itself; and the new `r` under `p` is too. */
  lemma StillAbove(t: Table, t1: Table, id: int, p: int, r: int) returns (c: int)
    requires 0 <= r < FS_MAX_ENTRIES && !Used(t, r) && Used(t1, r) && t1 == t[r := t1[r]] && t1[r].parent == p
    requires Used(t, id) && Above(t, id, p)
    ensures ChildOf(t1, c, id) && Above(t1, c, r)
  {
    var up := ChainOf(t, p);
    ChainSame(t, t1, up, p);
    var chain := [r] + up;
    assert chain[1..] == up;
    assert IsChain(t1, chain, r);
    ChainUnique(t1, chain, ChainOf(t1, r), r);
    var k :| 0 <= k < |up| && up[k] == id;
    Downward(t1, chain, r, k + 1);
    c := chain[k];
  }

  lemma NotBelow(t: Table, t1: Table, id: int, p: int, r: int)
    requires 0 <= r < FS_MAX_ENTRIES && !Used(t, r) && Used(t1, r) && t1 == t[r := t1[r]] && t1[r].parent == p
    requires Used(t, id) && forall c :: ChildOf(t1, c, id) ==> !Above(t1, c, r)
    ensures !Above(t, id, p)
  {
    hide Above;
    if Above(t, id, p) {
      var _ := StillAbove(t, t1, id, p, r);
    }
  }

  /** All of a folder's entries copied: the copy looks like the folder. */
  lemma FolderCopied(t: Table, d: Disk, t1: Table, d1: Disk, t2: Table, d2: Disk, id: int, p: int, r: int, cs: seq<int>)
    requires Forest(t) && Forest(t1) && Forest(t2) && IsFolder(t, id) && !Above(t, id, p)
    requires Intact(t, d, t1, d1) && GrewUnder(t, t1, p) && Used(t1, r) && !Used(t, r) && t1 == t[r := t1[r]] && t1[r].parent == p
    requires Matched(t1, d1, cs, |cs|, t2, d2, r) && IsFolder(t2, r)
    requires forall c :: c in cs <==> ChildOf(t1, c, id)
    ensures Isomorphic(t, d, id, t2, d2, r)
  {
    hide Forest, Above, GrewUnder, Name, Intact, Content, SameTree;
    SelfAbove(t, id);
    forall n: nat
      ensures SameTree(t, d, id, t2, d2, r, n)
    {
      FolderSame(t, d, t1, d1, t2, d2, id, p, r, cs, n);
    }
  }

  lemma FolderSame(t: Table, d: Disk, t1: Table, d1: Disk, t2: Table, d2: Disk, id: int, p: int, r: int, cs: seq<int>, n: nat)
    requires Forest(t) && Forest(t1) && Forest(t2) && IsFolder(t, id) && !Above(t, id, p) && id != p
    requires Intact(t, d, t1, d1) && GrewUnder(t, t1, p) && Used(t1, r) && !Used(t, r) && t1 == t[r := t1[r]] && t1[r].parent == p
    requires Matched(t1, d1, cs, |cs|, t2, d2, r) && IsFolder(t2, r)
    requires forall c :: c in cs <==> ChildOf(t1, c, id)
    ensures SameTree(t, d, id, t2, d2, r, n)
  {
    hide Forest, Above, GrewUnder, Name, Intact, Content, Isomorphic, Find, Match;
    if n > 0 {
      forall name
        ensures SameUnder(t, id, t2, r, name)
        ensures Find(t, id, name) >= 0 ==> SameTree(t, d, Find(t, id, name), t2, d2, Find(t2, r, name), n - 1)
      {
        if Find(t, id, name) >= 0 {
          ChildSame(t, d, t1, d1, t2, d2, id, p, r, cs, Find(t, id, name), n - 1);
        } else if Find(t2, r, name) >= 0 {
          var y := Find(t2, r, name);
          assert ChildOf(t2, y, r) && HasSource(t1, d1, cs, |cs|, t2, d2, r, y);
          var k :| 0 <= k < |cs| && Match(t1, d1, cs[k], t2, d2, r, y);
          assert cs[k] in cs;
          ChildBack(t, d, t1, d1, t2, d2, id, p, r, cs[k], y);
        }
      }
    }
  }

  lemma ChildSame(t: Table, d: Disk, t1: Table, d1: Disk, t2: Table, d2: Disk, id: int, p: int, r: int, cs: seq<int>, c: int, n: nat)
    requires Forest(t) && Forest(t1) && Forest(t2) && IsFolder(t, id) && !Above(t, id, p)
    requires Intact(t, d, t1, d1) && GrewUnder(t, t1, p) && Used(t1, r) && !Used(t, r) && t1 == t[r := t1[r]]
    requires Matched(t1, d1, cs, |cs|, t2, d2, r)
    requires forall c :: c in cs <==> ChildOf(t1, c, id)
    requires ChildOf(t, c, id)
    ensures var y := Find(t2, r, Name(t[c])); y >= 0 && SameTree(t, d, c, t2, d2, y, n)
  {
    hide Forest, Above, GrewUnder, Name, Intact, Content, SameTree, Find;
    assert c in cs;
    var k :| 0 <= k < |cs| && cs[k] == c;
    assert HasCopy(t1, d1, cs[k], t2, d2, r);
    var y :| Match(t1, d1, cs[k], t2, d2, r, y);
    FindIs(t2, y);
    ChildNotAbove(t, c, p);
    SubtreeStays(t, d, t1, d1, p, c);
    IsomorphicTrans(t, d, c, t1, d1, c, t2, d2, y);
  }

  lemma ChildBack(t: Table, d: Disk, t1: Table, d1: Disk, t2: Table, d2: Disk, id: int, p: int, r: int, c: int, y: int)
    requires id != p && Used(t1, r) && !Used(t, r) && t1 == t[r := t1[r]] && t1[r].parent == p
    requires Match(t1, d1, c, t2, d2, r, y) && ChildOf(t1, c, id)
    ensures Find(t, id, Name(t2[y])) >= 0
  {
    hide Name, Content, Isomorphic, Find;
    assert ChildOf(t, c, id);
  }

  /** The state of a folder copy after `k` of its `cs` entries: `r` was made, then filled. */
  ghost predicate Filling(t: Table, d: Disk, t1: Table, d1: Disk, t2: Table, d2: Disk, id: int, p: int, r: int, cs: seq<int>, k: nat)
    requires k <= |cs|
  {
    && Intact(t, d, t2, d2) && GrewUnder(t, t2, p) && Intact(t1, d1, t2, d2) && GrewUnder(t1, t2, r)
    && Matched(t1, d1, cs, k, t2, d2, r) && forall i :: 0 <= i < k ==> !Above(t1, cs[i], r)
  }

  /** What is known of the new, still empty folder. */
  ghost predicate Opened(t: Table, d: Disk, t1: Table, d1: Disk, id: int, p: int, name: seq<Byte>, r: int, cs: seq<int>) {
    && Forest(t) && Forest(t1) && IsFolder(t, id) && ParentOk(t, p) && id != p
    && Made(t, d, t1, d1, r, FOLDER, p, name)
    && cs == Children(t1, id, FS_MAX_ENTRIES)
  }

  lemma FillingStarts(t: Table, d: Disk, t1: Table, d1: Disk, id: int, p: int, name: seq<Byte>, r: int, cs: seq<int>)
    requires Opened(t, d, t1, d1, id, p, name, r, cs)
    ensures Filling(t, d, t1, d1, t1, d1, id, p, r, cs, 0)
  {
    hide Forest, Above, Name, Content, Shows, Children;
    MadeKeeps(t, d, t1, d1, r, FOLDER, p, name);
    forall x
      ensures !ChildOf(t1, x, r)
    {
      if ChildOf(t1, x, r) {
        NoChildYet(t, t1, r, x, p);
      }
    }
  }

  lemma NoChildYet(t: Table, t1: Table, r: int, x: int, p: int)
    requires Forest(t) && 0 <= r < FS_MAX_ENTRIES && !Used(t, r) && ParentOk(t, p) && t1 == t[r := t1[r]] && t1[r].parent == p
    ensures !ChildOf(t1, x, r)
  {
    hide AllRooted, SiblingsDistinct, Name;
    assert ChildOf(t1, x, r) && x != r ==> ParentOk(t, t[x].parent);
  }

  lemma FillingStep(t: Table, d: Disk, t1: Table, d1: Disk, t2: Table, d2: Disk, t3: Table, d3: Disk,
                    id: int, p: int, name: seq<Byte>, r: int, cs: seq<int>, k: nat, x: int)
    requires k < |cs| && Opened(t, d, t1, d1, id, p, name, r, cs) && Filling(t, d, t1, d1, t2, d2, id, p, r, cs, k)
    requires Forest(t2) && Forest(t3) && Intact(t2, d2, t3, d3) && GrewUnder(t2, t3, r)
    requires Used(t2, cs[k]) && CopyMade(t2, d2, t3, d3, cs[k], r, Name(t2[cs[k]]), x)
    ensures Filling(t, d, t1, d1, t3, d3, id, p, r, cs, k + 1)
  {
    hide Forest, Above, Name, Content, Shows, Children, GrewUnder, Intact, Matched, CopyMade;
    KeptTrans(t, d, t2, d2, t3, d3);
    KeptTrans(t1, d1, t2, d2, t3, d3);
    FillingGrows(t, d, t1, d1, t2, d2, t3, d3, p, r);
    FillingMatches(t, d, t1, d1, t2, d2, t3, d3, id, p, name, r, cs, k, x);
  }

  lemma FillingGrows(t: Table, d: Disk, t1: Table, d1: Disk, t2: Table, d2: Disk, t3: Table, d3: Disk, p: int, r: int)
    requires 0 <= r < FS_MAX_ENTRIES && !Used(t, r) && Intact(t, d, t2, d2) && GrewUnder(t, t2, p)
    requires Intact(t1, d1, t2, d2) && GrewUnder(t1, t2, r) && Intact(t2, d2, t3, d3) && GrewUnder(t2, t3, r)
    ensures GrewUnder(t, t3, p) && GrewUnder(t1, t3, r)
  {
    hide Content;
  }

  lemma FillingMatches(t: Table, d: Disk, t1: Table, d1: Disk, t2: Table, d2: Disk, t3: Table, d3: Disk,
                       id: int, p: int, name: seq<Byte>, r: int, cs: seq<int>, k: nat, x: int)
    requires k < |cs| && Opened(t, d, t1, d1, id, p, name, r, cs)
    requires Matched(t1, d1, cs, k, t2, d2, r) && Intact(t1, d1, t2, d2) && GrewUnder(t1, t2, r)
    requires Forest(t2) && Forest(t3) && Intact(t2, d2, t3, d3) && GrewUnder(t2, t3, r)
    requires Used(t2, cs[k]) && CopyMade(t2, d2, t3, d3, cs[k], r, Name(t2[cs[k]]), x)
    ensures Matched(t1, d1, cs, k + 1, t3, d3, r) && !Above(t1, cs[k], r)
  {
    hide Forest, Above, Name, Content, Shows, GrewUnder, Intact, Matched, Children;
    ChildUsed(t1, id, cs, k);
    AboveKept(t1, d1, t2, d2, cs[k], r);
    KeptAt(t1, d1, t2, d2, cs[k]);
    MatchedStep(t1, d1, cs, k, t2, d2, t3, d3, r, x);
  }

  lemma FillingEnds(t: Table, d: Disk, t1: Table, d1: Disk, t2: Table, d2: Disk, id: int, p: int, name: seq<Byte>, r: int, cs: seq<int>)
    requires Opened(t, d, t1, d1, id, p, name, r, cs) && Filling(t, d, t1, d1, t2, d2, id, p, r, cs, |cs|) && Forest(t2)
    ensures CopyMade(t, d, t2, d2, id, p, name, r)
  {
    hide Forest, Above, Name, Content, Shows, Matched, Isomorphic;
    KeptAt(t1, d1, t2, d2, r);
    forall j | Used(t2, j) && !Used(t, j) && t2[j].parent == p
      ensures j == r
    {
      if Used(t1, j) {
        assert t1 == t[r := t1[r]];
      }
    }
    forall c | ChildOf(t1, c, id)
      ensures !Above(t1, c, r)
    {
      assert c in cs;
    }
    NotBelow(t, t1, id, p, r);
    MadeKeeps(t, d, t1, d1, r, FOLDER, p, name);
    FolderCopied(t, d, t1, d1, t2, d2, id, p, r, cs);
  }

  /** Wherever the filling stops, the entries from before the copy are intact. */
  lemma FillingKept(t: Table, d: Disk, t1: Table, d1: Disk, t2: Table, d2: Disk, t3: Table, d3: Disk,
                    id: int, p: int, name: seq<Byte>, r: int, cs: seq<int>, k: nat)
    requires k <= |cs| && Opened(t, d, t1, d1, id, p, name, r, cs) && Filling(t, d, t1, d1, t2, d2, id, p, r, cs, k)
    requires Intact(t2, d2, t3, d3) && GrewUnder(t2, t3, r)
    ensures Intact(t, d, t2, d2) && Intact(t, d, t3, d3) && GrewUnder(t, t3, p)
    ensures k < |cs| ==> Used(t2, cs[k])
  {
    hide Forest, Above, Name, Content, Shows, Children, GrewUnder, Intact, Matched, CopyMade;
    KeptTrans(t, d, t2, d2, t3, d3);
    FillingGrows(t, d, t1, d1, t2, d2, t3, d3, p, r);
    if k < |cs| {
      ChildUsed(t1, id, cs, k);
      KeptAt(t1, d1, t2, d2, cs[k]);
    }
  }

  lemma ChildUsed(t: Table, parent: int, cs: seq<int>, k: nat)
    requires k < |cs| && cs == Children(t, parent, FS_MAX_ENTRIES)
    ensures Used(t, cs[k])
  {
    hide Children;
    assert cs[k] in cs;
  }

  lemma OpenedIs(t: Table, d: Disk, t1: Table, d1: Disk, id: int, p: int, name: seq<Byte>, r: int)
    requires Forest(t) && Forest(t1) && Used(t, id) && t[id].kind != FILE && (t[id].kind == FOLDER ==> p != id) && ParentOk(t, p)
    requires Made(t, d, t1, d1, r, FOLDER, p, name)
    ensures Opened(t, d, t1, d1, id, p, name, r, Children(t1, id, FS_MAX_ENTRIES))
  {
    hide AllRooted, SiblingsDistinct, Name, Children, Made;
  }

  // ---- paying for a folder ----

  /** What has been paid for the first `k` entries of the folder. */
  ghost predicate Paid(t1: Table, next1: int, cs: seq<int>, k: nat, t2: Table, next2: int, n: nat)
    requires k <= |cs|
  {
    (forall i :: 0 <= i < |cs| ==> Used(t1, cs[i])) && Spent(t1, next1, t2, next2, CostAll(t1, cs[..k], n))
  }

  lemma PaidStep(t1: Table, d1: Disk, next1: int, cs: seq<int>, k: nat, t2: Table, d2: Disk, next2: int,
                 t3: Table, next3: int, r: int, n: nat)
    requires k < |cs| && Paid(t1, next1, cs, k, t2, next2, n)
    requires Forest(t1) && Intact(t1, d1, t2, d2) && GrewUnder(t1, t2, r) && !Above(t1, cs[k], r)
    requires Used(t2, cs[k]) && Spent(t2, next2, t3, next3, CostOf(t2, cs[k], n))
    ensures Paid(t1, next1, cs, k + 1, t3, next3, n)
  {
    hide Forest, Intact, GrewUnder, Above, Free, CostOf, CostAll;
    CostPrefix(t1, cs, k, n);
    CostKept(t1, d1, t2, d2, r, cs[k], n);
  }

  /** The folder's own cost from that of its entries: the entries and their costs are as they were. */
  lemma FolderCost(t: Table, d: Disk, t1: Table, d1: Disk, id: int, p: int, name: seq<Byte>, r: int, cs: seq<int>, n: nat)
    requires Opened(t, d, t1, d1, id, p, name, r, cs) && !Above(t, id, p)
    ensures forall i :: 0 <= i < |cs| ==> Used(t1, cs[i])
    ensures CostOf(t, id, n + 1) == Plus(Some(Cost(1, 0)), CostAll(t1, cs, n))
  {
    hide Forest, Above, Name, Content, Shows, Children, Intact, GrewUnder, CostAll;
    MadeKeeps(t, d, t1, d1, r, FOLDER, p, name);
    ChildrenKept(t, d, t1, d1, p, id, FS_MAX_ENTRIES);
    ChildrenUsed(t, id);
    forall i | 0 <= i < |cs|
      ensures Used(t, cs[i]) && !Above(t, cs[i], p)
    {
      assert cs[i] in cs;
      ChildNotAbove(t, cs[i], p);
    }
    CostAllKept(t, d, t1, d1, p, cs, n);
  }

  /** The new folder is not below the entries of `id` if `p` is not below `id`. */
  lemma EntriesOutside(t: Table, d: Disk, t1: Table, d1: Disk, id: int, p: int, name: seq<Byte>, r: int, c: int)
    requires Forest(t) && Forest(t1) && Used(t, id) && !Above(t, id, p) && Made(t, d, t1, d1, r, FOLDER, p, name)
    requires ChildOf(t1, c, id)
    ensures !Above(t1, c, r)
  {
    hide Name, Shows, SiblingsDistinct;
    assert Rooted(t1, r);
    var chain := ChainOf(t1, r);
    if p == FS_ROOT {
      ChainUnique(t1, chain[1..], [], FS_ROOT);
    } else {
      assert Rooted(t, p);
      var up := ChainOf(t, p);
      ChainSame(t, t1, up, p);
      ChainUnique(t1, chain[1..], up, p);
      assert forall k :: 0 < k < |chain| ==> chain[k] == up[k - 1];
    }
    assert id !in chain;
    if Above(t1, c, r) {
      var k :| 0 <= k < |chain| && chain[k] == c;
      ParentOnChain(t1, chain, r, k);
    }
  }

  /** A copy that can succeed can go on: so can the copy of the next entry. */
  lemma NextEntryOk(t: Table, d: Disk, t1: Table, d1: Disk, next: int, t2: Table, d2: Disk, next2: int,
                    id: int, p: int, name: seq<Byte>, r: int, cs: seq<int>, k: nat, n: nat)
    requires k < |cs| && Opened(t, d, t1, d1, id, p, name, r, cs) && CopyOk(t, next, id, p, name, n + 1)
    requires Filling(t, d, t1, d1, t2, d2, id, p, r, cs, k) && Forest(t2) && Paid(t1, next, cs, k, t2, next2, n)
    ensures Used(t2, cs[k]) && CopyOk(t2, next2, cs[k], r, Name(t2[cs[k]]), n)
  {
    hide Forest, Above, Name, Content, Shows, Children, GrewUnder, Intact, Matched, Free, CostOf, CostAll, Find, Made, GoodName;
    ChildUsed(t1, id, cs, k);
    KeptAt(t1, d1, t2, d2, cs[k]);
    FolderCost(t, d, t1, d1, id, p, name, r, cs, n);
    CostPrefix(t1, cs, k, n);
    assert ChildOf(t1, cs[k], id) by { assert cs[k] in cs; }
    EntriesOutside(t, d, t1, d1, id, p, name, r, cs[k]);
    CostKept(t1, d1, t2, d2, r, cs[k], n);
    MadeSpends(t, d, t1, d1, r, FOLDER, p, name);
    MadeUsed(t, d, t1, d1, r, FOLDER, p, name);
    KeptAt(t1, d1, t2, d2, r);
    AboveKept(t1, d1, t2, d2, cs[k], r);
    NameNotYet(t1, d1, t2, d2, id, r, cs, k);
    UsedName(t2, cs[k]);
  }

  lemma UsedName(t: Table, i: int)
    requires Forest(t) && Used(t, i)
    ensures GoodName(Name(t[i]))
  {
  }

  /** No copy made so far has the name of the next entry. */
  lemma NameNotYet(t1: Table, d1: Disk, t2: Table, d2: Disk, id: int, r: int, cs: seq<int>, k: nat)
    requires Forest(t1) && Forest(t2) && k < |cs| && cs == Children(t1, id, FS_MAX_ENTRIES)
    requires Matched(t1, d1, cs, k, t2, d2, r) && Used(t1, cs[k]) && Used(t2, cs[k]) && t2[cs[k]] == t1[cs[k]]
    ensures Find(t2, r, Name(t2[cs[k]])) < 0
  {
    hide AllRooted, Name, Content, Children, Find, Isomorphic;
    var x := Find(t2, r, Name(t2[cs[k]]));
    if x >= 0 {
      assert ChildOf(t2, x, r) && HasSource(t1, d1, cs, k, t2, d2, r, x);
      var i :| 0 <= i < k && Match(t1, d1, cs[i], t2, d2, r, x);
      ChildNames(t1, id, cs, i, k);
    }
  }

  /** Two entries of a folder have different names. */
  lemma ChildNames(t: Table, id: int, cs: seq<int>, i: nat, k: nat)
    requires Forest(t) && i < k < |cs| && cs == Children(t, id, FS_MAX_ENTRIES)
    ensures Used(t, cs[i]) && Used(t, cs[k]) && Name(t[cs[i]]) != Name(t[cs[k]])
  {
    hide AllRooted, Name, Children;
    assert cs[i] in cs && cs[k] in cs;
  }

  /** A folder filled and paid for: its copy could be made. */
  lemma CopyWasOk(t: Table, d: Disk, t1: Table, d1: Disk, next: int, t2: Table, next2: int,
                  id: int, p: int, name: seq<Byte>, r: int, cs: seq<int>, n: nat)
    requires Opened(t, d, t1, d1, id, p, name, r, cs) && !Above(t, id, p) && CanMake(t, p, name)
    requires Paid(t1, next, cs, |cs|, t2, next2, n) && next2 <= FS_END_LBA
    ensures CopyOk(t, next, id, p, name, n + 1) && Spent(t, next, t2, next2, CostOf(t, id, n + 1))
  {
    hide Forest, Above, Name, Content, Shows, Children, Free, CostOf, CostAll, Find, Made, GoodName;
    FolderCost(t, d, t1, d1, id, p, name, r, cs, n);
    MadeSpends(t, d, t1, d1, r, FOLDER, p, name);
    assert cs[..|cs|] == cs;
  }

  // ---- copying ----

  /** fs_copy_depth: gives up below sixteen levels. */
  method CopyDepth(fs: FileSystem, copyBuf: array<Byte>, id: int, p: int, name: Option<seq<Byte>>, depth: nat) returns (r: int)
    requires fs.Valid() && copyBuf.Length == FS_MAX_FILE_SIZE
    requires name.Some? ==> IsString(name.value)
    modifies fs`disk, fs`history, fs`super, fs.table, copyBuf
    ensures fs.Valid() && old(fs.history) <= fs.history && r >= -1
    ensures Copied(old(fs.table[..]), old(fs.disk), fs.table[..], fs.disk, id, p, NameFor(old(fs.table[..]), id, name), r,
                   |old(fs.history)|, fs.history)
    ensures r >= 0 <==>
      CopyOk(old(fs.table[..]), old(fs.super.next), id, p, NameFor(old(fs.table[..]), id, name), Levels(depth))
    ensures r >= 0 ==> Used(old(fs.table[..]), id) && depth <= 16
    ensures r >= 0 ==>
      Spent(old(fs.table[..]), old(fs.super.next), fs.table[..], fs.super.next, CostOf(old(fs.table[..]), id, Levels(depth)))
    decreases 17 - depth, 1
  {
    hide Forest, Extents, DiskTable, DecodeSuper, Intact, GrewUnder, KeptThroughout, Made, Shows, CrashOk, CopyMade, Opened,
      Children, Above,
      CopyOk, CanMake, Spent, CostOf;
    ghost var t, d, next, n := fs.table[..], fs.disk, fs.super.next, Levels(depth);
    KeptSelf(t, d, p);
    KeptThroughoutNone(t, d, fs.history);
    NeverOk(t, next, id, p, NameFor(t, id, name), n);
    if !Used(fs.table[..], id) {
      return -1;
    }
    if !ParentOk(fs.table[..], p) {
      return -1;
    }
    if depth > 16 {
      return -1;
    }
    if fs.table[id].kind == FOLDER && p == id {
      return -1;
    }
    NameIsString(t, id);
    var newName := if name.Some? then name.value else Name(fs.table[id]);
    if fs.table[id].kind == FILE {
      FileOk(t, next, id, p, newName, n);
      r := CopyFile(fs, copyBuf, id, p, newName);
      return;
    }
    r := MakeEntry(fs, p, newName, FOLDER);
    if r < 0 {
      NotMade(t, next, id, p, newName, n);
      return -1;
    }
    ghost var t1, d1 := fs.table[..], fs.disk;
    OpenedIs(t, d, t1, d1, id, p, newName, r);
    var ok := CopyEntries(fs, copyBuf, id, r, depth, t, d, p, newName, |old(fs.history)|);
    if !ok {
      return -1;
    }
  }

  /** The loop of fs_copy_depth over the entries of a folder, into the new folder `r`. */
  method CopyEntries(fs: FileSystem, copyBuf: array<Byte>, id: int, r: int, depth: nat,
                     ghost t: Table, ghost d: Disk, ghost p: int, ghost name: seq<Byte>, ghost before: nat) returns (ok: bool)
    requires fs.Valid() && copyBuf.Length == FS_MAX_FILE_SIZE && depth <= 16 && CanMake(t, p, name)
    requires Opened(t, d, fs.table[..], fs.disk, id, p, name, r, Children(fs.table[..], id, FS_MAX_ENTRIES))
    requires KeptThroughout(t, d, before, fs.history)
    modifies fs`disk, fs`history, fs`super, fs.table, copyBuf
    ensures fs.Valid() && old(fs.history) <= fs.history
    ensures Intact(t, d, fs.table[..], fs.disk) && GrewUnder(t, fs.table[..], p) && KeptThroughout(t, d, before, fs.history)
    ensures ok ==> CopyMade(t, d, fs.table[..], fs.disk, id, p, name, r)
    ensures ok <==> CopyOk(t, old(fs.super.next), id, p, name, 17 - depth)
    ensures ok ==> Used(t, id) && Spent(t, old(fs.super.next), fs.table[..], fs.super.next, CostOf(t, id, 17 - depth))
    decreases 17 - depth, 0
  {
    hide Forest, Extents, DiskTable, DecodeSuper, Intact, GrewUnder, KeptThroughout, Made, Shows, CrashOk, CopyMade, Filling,
      Opened, Children,
      Above, CopyOk, CanMake, Spent, CostOf, Paid, Copied;
    ghost var t1, d1, next, m := fs.table[..], fs.disk, fs.super.next, 16 - depth;
    var ids := new int[FS_MAX_ENTRIES];
    var count := List(fs, id, ids, FS_MAX_ENTRIES);
    ghost var cs := ids[..count];
    ListedAll(t1, id, cs, count);
    FillingStarts(t, d, t1, d1, id, p, name, r, cs);
    PaidStarts(t1, next, id, cs, m);
    var i := 0;
    while i < count
      invariant 0 <= i <= count && ids[..count] == cs && fs.Valid() && old(fs.history) <= fs.history
      invariant Filling(t, d, t1, d1, fs.table[..], fs.disk, id, p, r, cs, i)
      invariant Paid(t1, next, cs, i, fs.table[..], fs.super.next, m)
      invariant KeptThroughout(t, d, before, fs.history)
    {
      ghost var t2, d2, h2, next2 := fs.table[..], fs.disk, fs.history, fs.super.next;
      FillingUsed(t, d, t1, d1, t2, d2, id, p, name, r, cs, i);
      var c := CopyDepth(fs, copyBuf, ids[i], r, None, depth + 1);
      CopiedParts(t2, d2, fs.table[..], fs.disk, cs[i], r, Name(t2[cs[i]]), c, |h2|, fs.history);
      FillingKept(t, d, t1, d1, t2, d2, fs.table[..], fs.disk, id, p, name, r, cs, i);
      KeptThroughoutTrans(t, d, t2, d2, before, |h2|, h2, fs.history);
      if c < 0 {
        if CopyOk(t, next, id, p, name, m + 1) {
          NextEntryOk(t, d, t1, d1, next, t2, d2, next2, id, p, name, r, cs, i, m);
        }
        return false;
      }
      FillingStep(t, d, t1, d1, t2, d2, fs.table[..], fs.disk, id, p, name, r, cs, i, c);
      FillingPays(t, d, t1, d1, next, t2, d2, next2, fs.table[..], fs.disk, fs.super.next, id, p, name, r, cs, i, m);
      i := i + 1;
    }
    FillingEnds(t, d, t1, d1, fs.table[..], fs.disk, id, p, name, r, cs);
    KeptSelf(fs.table[..], fs.disk, r);
    FillingKept(t, d, t1, d1, fs.table[..], fs.disk, fs.table[..], fs.disk, id, p, name, r, cs, count);
    NextInRange(fs.table[..], fs.super.next);
    MadeOutside(t, d, fs.table[..], fs.disk, id, p, name, r);
    CopyWasOk(t, d, t1, d1, next, fs.table[..], fs.super.next, id, p, name, r, cs, m);
    return true;
  }

  lemma ListedAll(t: Table, parent: int, cs: seq<int>, n: int)
    requires var all := Children(t, parent, FS_MAX_ENTRIES);
      n == (if |all| < FS_MAX_ENTRIES then |all| else FS_MAX_ENTRIES) && cs == all[..n]
    ensures cs == Children(t, parent, FS_MAX_ENTRIES)
    ensures forall i :: i in cs <==> i < FS_MAX_ENTRIES && ChildOf(t, i, parent)
  {
    hide Children;
  }

  lemma PaidStarts(t1: Table, next: int, id: int, cs: seq<int>, n: nat)
    requires cs == Children(t1, id, FS_MAX_ENTRIES)
    ensures Paid(t1, next, cs, 0, t1, next, n)
  {
    hide Children, Free;
    ChildrenUsed(t1, id);
    assert cs[..0] == [];
  }

  lemma FillingUsed(t: Table, d: Disk, t1: Table, d1: Disk, t2: Table, d2: Disk, id: int, p: int, name: seq<Byte>, r: int, cs: seq<int>, k: nat)
    requires k < |cs| && Opened(t, d, t1, d1, id, p, name, r, cs) && Filling(t, d, t1, d1, t2, d2, id, p, r, cs, k)
    ensures Used(t2, cs[k])
  {
    hide GrewUnder, Matched, Above, Forest, Made, Children;
    ChildUsed(t1, id, cs, k);
    KeptAt(t1, d1, t2, d2, cs[k]);
  }

  lemma CopiedParts(t: Table, d: Disk, t': Table, d': Disk, id: int, p: int, name: seq<Byte>, r: int, before: nat, history: seq<Disk>)
    requires Copied(t, d, t', d', id, p, name, r, before, history)
    ensures Intact(t, d, t', d') && GrewUnder(t, t', p) && KeptThroughout(t, d, before, history)
    ensures r >= 0 ==> CopyMade(t, d, t', d', id, p, name, r)
  {
  }

  lemma FillingPays(t: Table, d: Disk, t1: Table, d1: Disk, next: int, t2: Table, d2: Disk, next2: int, t3: Table, d3: Disk, next3: int,
                    id: int, p: int, name: seq<Byte>, r: int, cs: seq<int>, k: nat, n: nat)
    requires k < |cs| && Opened(t, d, t1, d1, id, p, name, r, cs) && Filling(t, d, t1, d1, t2, d2, id, p, r, cs, k)
    requires Filling(t, d, t1, d1, t3, d3, id, p, r, cs, k + 1) && Paid(t1, next, cs, k, t2, next2, n)
    requires Used(t2, cs[k]) && Spent(t2, next2, t3, next3, CostOf(t2, cs[k], n))
    ensures Paid(t1, next, cs, k + 1, t3, next3, n)
  {
    hide Intact, GrewUnder, Matched, Above, Forest, Made, Children, Paid, Spent;
    PaidStep(t1, d1, next, cs, k, t2, d2, next2, t3, next3, r, n);
  }

  lemma MadeOutside(t: Table, d: Disk, t': Table, d': Disk, id: int, p: int, name: seq<Byte>, r: int)
    requires CopyMade(t, d, t', d', id, p, name, r)
    ensures Used(t, id) && !Above(t, id, p)
  {
  }

  /** The checks before anything is made. */
  lemma NeverOk(t: Table, next: int, id: int, p: int, name: seq<Byte>, n: nat)
    requires Forest(t)
    ensures !Used(t, id) || !ParentOk(t, p) || n == 0 || id == p ==> !CopyOk(t, next, id, p, name, n)
  {
    hide Forest, Above, Find;
    if Used(t, id) {
      SelfAbove(t, id);
    }
  }

  lemma FileOk(t: Table, next: int, id: int, p: int, name: seq<Byte>, n: nat)
    requires Forest(t) && Used(t, id) && t[id].kind == FILE && ParentOk(t, p) && n > 0
    ensures CostOf(t, id, n) == Some(Cost(1, Need(t[id].size)))
    ensures CopyOk(t, next, id, p, name, n) <==> CanMake(t, p, name) && next + Need(t[id].size) <= FS_END_LBA
  {
    hide Forest, Above, Find, Free;
    FileNotAbove(t, id, p);
  }

  lemma NotMade(t: Table, next: int, id: int, p: int, name: seq<Byte>, n: nat)
    requires Used(t, id) && !CanMake(t, p, name)
    ensures !CopyOk(t, next, id, p, name, n)
  {
    hide Above, Find, Free;
  }

  /** fs_copy. It always ends; whether it succeeds or not, and wherever the power fails on the way, every entry and file
      that was there is unchanged; if it succeeds the copy looks like the original; and it succeeds exactly when the
      name and place are good, the subtree has at most seventeen levels, and there is room for it. */
  method Copy(fs: FileSystem, copyBuf: array<Byte>, id: int, p: int, name: Option<seq<Byte>>) returns (r: int)
    requires fs.Valid() && copyBuf.Length == FS_MAX_FILE_SIZE
    requires name.Some? ==> IsString(name.value)
    modifies fs`disk, fs`history, fs`super, fs.table, copyBuf
    ensures fs.Valid() && old(fs.history) <= fs.history && r >= -1
    ensures Copied(old(fs.table[..]), old(fs.disk), fs.table[..], fs.disk, id, p, NameFor(old(fs.table[..]), id, name), r,
                   |old(fs.history)|, fs.history)
    ensures r >= 0 <==> CopyOk(old(fs.table[..]), old(fs.super.next), id, p, NameFor(old(fs.table[..]), id, name), 17)
  {
    hide Copied, DiskTable, Inv, CopyOk, NameFor;
    r := CopyDepth(fs, copyBuf, id, p, name, 0);
  }
}
