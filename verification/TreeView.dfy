/** The folder tree beside the file list: the folders in view, each below the one it is in. */
module TreeView {
  import opened FsLayout
  import opened FsTree
  import opened FsVolume
  import opened FileSystem
  import opened FsCopy
  import opened FsSubtree

  const TREEVIEW_MAX_ROWS := 128

  datatype Row = Row(id: int, depth: int, hasChildren: bool)

  type Flags = s: seq<bool> | |s| == TREEVIEW_MAX_ROWS witness seq(128, _ => false)

  // ---- the preorder ----

  ghost predicate FolderUnder(t: Table, j: int, id: int) { ChildOf(t, j, id) && t[j].kind == FOLDER }

  ghost predicate HasFolder(t: Table, id: int) { exists j :: FolderUnder(t, j, id) }

  /** How deep an entry lies: 1 under the root. */
  ghost function Depth(t: Table, i: int): nat
    requires Forest(t) && Used(t, i)
  {
    assert Rooted(t, i);
    |ChainOf(t, i)|
  }

  ghost predicate Level(t: Table, ids: seq<int>, depth: nat)
    requires Forest(t)
  {
    forall k :: 0 <= k < |ids| ==> Used(t, ids[k]) && Depth(t, ids[k]) == depth
  }

  lemma DepthBelow(t: Table, c: int)
    requires Forest(t) && Used(t, c)
    ensures Depth(t, c) <= FS_MAX_ENTRIES
    ensures t[c].parent != FS_ROOT ==> Used(t, t[c].parent) && Depth(t, c) == Depth(t, t[c].parent) + 1
    ensures t[c].parent == FS_ROOT ==> Depth(t, c) == 1
  {
    assert Rooted(t, c);
    var chain := ChainOf(t, c);
    ChainLength(t, chain, c);
    var p := t[c].parent;
    assert ParentOk(t, p);
    if p == FS_ROOT {
      ChainUnique(t, chain[1..], [], FS_ROOT);
    } else {
      assert Rooted(t, p);
      ChainUnique(t, chain[1..], ChainOf(t, p), p);
    }
  }

  lemma ChildrenLevel(t: Table, p: int, depth: nat)
    requires Forest(t) && (if p == FS_ROOT then depth == 1 else Used(t, p) && depth == Depth(t, p) + 1)
    ensures Level(t, Children(t, p, FS_MAX_ENTRIES), depth)
  {
    hide Forest, Depth, Children;
    var cs := Children(t, p, FS_MAX_ENTRIES);
    forall k | 0 <= k < |cs|
      ensures Used(t, cs[k]) && Depth(t, cs[k]) == depth
    {
      assert cs[k] in cs;
      DepthBelow(t, cs[k]);
    }
  }

  /** The rows for the folders among `ids` and, where they are expanded, below them. */
  ghost function Walk(t: Table, expanded: Flags, ids: seq<int>, depth: nat): seq<Row>
    requires Forest(t) && Level(t, ids, depth)
    decreases FS_MAX_ENTRIES + 1 - depth, |ids|
  {
    if ids == [] then [] else
    DepthBelow(t, ids[0]);
    WalkOne(t, expanded, ids[0], depth) + Walk(t, expanded, ids[1..], depth)
  }

  /** The rows for one entry. */
  ghost function WalkOne(t: Table, expanded: Flags, i: int, depth: nat): seq<Row>
    requires Forest(t) && Used(t, i) && Depth(t, i) == depth && depth <= FS_MAX_ENTRIES
    decreases FS_MAX_ENTRIES + 1 - depth, 0
  {
    if t[i].kind != FOLDER then []
    else if HasFolder(t, i) && expanded[i] then
      ChildrenLevel(t, i, depth + 1);
      [Row(i, depth, true)] + Walk(t, expanded, Children(t, i, FS_MAX_ENTRIES), depth + 1)
    else [Row(i, depth, HasFolder(t, i))]
  }

  /** The root and all the rows below it. */
  ghost function AllRows(t: Table, expanded: Flags): seq<Row>
    requires Forest(t)
  {
    ChildrenLevel(t, FS_ROOT, 1);
    [Row(FS_ROOT, 0, HasFolder(t, FS_ROOT))] + Walk(t, expanded, Children(t, FS_ROOT, FS_MAX_ENTRIES), 1)
  }

  function Clip(s: seq<Row>): seq<Row> { if |s| <= TREEVIEW_MAX_ROWS then s else s[..TREEVIEW_MAX_ROWS] }

  // ---- in place ----

  class TreeView {
    const rows: array<Row>
    const expanded: array<bool>
    var rowCount: int

    ghost predicate Valid()
      reads this
    {
      rows.Length == TREEVIEW_MAX_ROWS && expanded.Length == TREEVIEW_MAX_ROWS && 0 <= rowCount <= TREEVIEW_MAX_ROWS
    }

    /** Each row names the root or a slot of the table, whatever has become of that slot since the last rebuild. */
    ghost predicate RowsInRange()
      requires Valid()
      reads this, rows
    {
      forall k :: 0 <= k < rowCount ==> FS_ROOT <= rows[k].id < TREEVIEW_MAX_ROWS
    }

    ghost function Shown(): seq<Row>
      requires Valid()
      reads this, rows
    {
      rows[..rowCount]
    }

    constructor ()
      ensures Valid() && rowCount == 0 && fresh(rows) && fresh(expanded) && forall i :: 0 <= i < expanded.Length ==> !expanded[i]
    {
      rows := new Row[TREEVIEW_MAX_ROWS](_ => Row(0, 0, false));
      expanded := new bool[TREEVIEW_MAX_ROWS](_ => false);
      rowCount := 0;
    }

    method HasChildFolder(fs: FileSystem, id: int) returns (has: bool)
      requires fs.Valid()
      ensures has == HasFolder(fs.table[..], id)
    {
      hide Inv, DiskTable, DecodeSuper, Children;
      ghost var t := fs.table[..];
      var ids := new int[FS_MAX_ENTRIES];
      var n := List(fs, id, ids, FS_MAX_ENTRIES);
      ghost var cs := ids[..n];
      ListedAll(t, id, cs, n);
      var i := 0;
      while i < n
        invariant 0 <= i <= n && ids[..n] == cs && forall k :: 0 <= k < i ==> !FolderUnder(t, cs[k], id)
      {
        assert ids[i] == cs[i] && cs[i] in cs;
        if fs.table[ids[i]].kind == FOLDER {
          assert FolderUnder(t, cs[i], id);
          return true;
        }
        i := i + 1;
      }
      return false;
    }

    method WalkRows(fs: FileSystem, parent: int, depth: nat)
      requires Valid() && fs.Valid()
      requires if parent == FS_ROOT then depth == 1 else Used(fs.table[..], parent) && depth == Depth(fs.table[..], parent) + 1
      modifies this`rowCount, rows
      ensures Valid() && Level(fs.table[..], Children(fs.table[..], parent, FS_MAX_ENTRIES), depth)
      ensures Shown() == Clip(old(Shown()) + Walk(fs.table[..], expanded[..], Children(fs.table[..], parent, FS_MAX_ENTRIES), depth))
      decreases FS_MAX_ENTRIES + 1 - depth, 1
    {
      hide Forest, Extents, DiskTable, DecodeSuper, Children, Depth, Walk, WalkOne, HasFolder;
      ghost var t, flags, shown := fs.table[..], expanded[..], Shown();
      var ids := new int[FS_MAX_ENTRIES];
      var n := List(fs, parent, ids, FS_MAX_ENTRIES);
      ghost var cs := ids[..n];
      ListedAll(t, parent, cs, n);
      ChildrenLevel(t, parent, depth);
      WalkNone(t, flags, shown, cs, depth);
      var i := 0;
      while i < n
        invariant 0 <= i <= n && ids[..n] == cs && Valid() && Level(t, cs[..i], depth)
        invariant Shown() == Clip(shown + Walk(t, flags, cs[..i], depth))
      {
        assert ids[i] == cs[i];
        var id := ids[i];
        WalkStep(t, flags, shown, cs, i, depth);
        if fs.table[id].kind == FOLDER {
          if rowCount >= TREEVIEW_MAX_ROWS {
            WalkClipped(t, flags, shown, cs, i, depth);
            return;
          }
          ShowFolder(fs, id, depth);
        }
        i := i + 1;
      }
      assert cs[..n] == cs;
    }

    /** The row of one folder, and the rows below it if it is open. */
    method ShowFolder(fs: FileSystem, id: int, depth: nat)
      requires Valid() && fs.Valid() && rowCount < TREEVIEW_MAX_ROWS
      requires IsFolder(fs.table[..], id) && depth == Depth(fs.table[..], id) <= FS_MAX_ENTRIES
      modifies this`rowCount, rows
      ensures Valid() && Shown() == Clip(old(Shown()) + WalkOne(fs.table[..], expanded[..], id, depth))
      decreases FS_MAX_ENTRIES + 1 - depth, 0
    {
      hide Forest, Extents, DiskTable, DecodeSuper, Children, Depth, Walk, HasFolder;
      ghost var t, shown := fs.table[..], Shown();
      var has := HasChildFolder(fs, id);
      rows[rowCount] := Row(id, depth, has);
      rowCount := rowCount + 1;
      assert Shown() == shown + [Row(id, depth, has)];
      if has && expanded[id] {
        WalkRows(fs, id, depth + 1);
        assert shown + [Row(id, depth, true)] + Walk(t, expanded[..], Children(t, id, FS_MAX_ENTRIES), depth + 1) ==
          shown + WalkOne(t, expanded[..], id, depth);
      }
    }

    /** treeview_rebuild. */
    method Rebuild(fs: FileSystem)
      requires Valid() && fs.Valid()
      modifies this`rowCount, rows
      ensures Valid() && Shown() == Clip(AllRows(fs.table[..], expanded[..])) && RowsInRange()
    {
      hide Forest, Extents, DiskTable, DecodeSuper, Children, Depth, Walk, HasFolder;
      rowCount := 0;
      rows[rowCount] := Row(FS_ROOT, 0, false);
      rowCount := rowCount + 1;
      var has := HasChildFolder(fs, FS_ROOT);
      rows[0] := Row(FS_ROOT, 0, has);
      assert Shown() == [Row(FS_ROOT, 0, has)];
      WalkRows(fs, FS_ROOT, 1);
      RowsAreFolders(fs.table[..], expanded[..]);
      assert forall k :: 0 <= k < rowCount ==> rows[k] == Shown()[k];
    }

    /** treeview_toggle_expand: opens or closes the folder in that row, and shows the directory as it is now. */
    method ToggleExpand(fs: FileSystem, row: int)
      requires Valid() && fs.Valid() && RowsInRange()
      modifies this`rowCount, rows, expanded
      ensures Valid() && RowsInRange()
      ensures var flags, id := old(expanded[..]), if 0 <= row < old(rowCount) then old(Shown())[row].id else FS_ROOT;
        if id == FS_ROOT then expanded[..] == flags && Shown() == old(Shown())
        else expanded[..] == flags[id := !flags[id]] && Shown() == Clip(AllRows(fs.table[..], expanded[..]))
    {
      hide Forest, Extents, DiskTable, DecodeSuper, Children, Depth, Walk, HasFolder, AllRows;
      if row < 0 || row >= rowCount {
        return;
      }
      var id := rows[row].id;
      if id == FS_ROOT {
        return;
      }
      expanded[id] := !expanded[id];
      Rebuild(fs);
    }
  }

  lemma NoRows(t: Table, expanded: Flags, i: int, depth: nat)
    requires Forest(t) && Used(t, i) && Depth(t, i) == depth && depth <= FS_MAX_ENTRIES && t[i].kind != FOLDER
    ensures WalkOne(t, expanded, i, depth) == []
  {
  }

  lemma {:induction false} WalkConcat(t: Table, expanded: Flags, a: seq<int>, b: seq<int>, depth: nat)
    requires Forest(t) && Level(t, a, depth) && Level(t, b, depth)
    ensures Level(t, a + b, depth) && Walk(t, expanded, a + b, depth) == Walk(t, expanded, a, depth) + Walk(t, expanded, b, depth)
    decreases |a|
  {
    hide Forest, Depth, WalkOne;
    if a == [] {
      assert a + b == b;
    } else {
      assert (a + b)[1..] == a[1..] + b;
      WalkConcat(t, expanded, a[1..], b, depth);
      DepthBelow(t, a[0]);
    }
  }

  lemma WalkAppend(t: Table, expanded: Flags, ids: seq<int>, i: int, depth: nat)
    requires Forest(t) && Level(t, ids, depth) && Used(t, i) && Depth(t, i) == depth
    ensures depth <= FS_MAX_ENTRIES && Level(t, ids + [i], depth)
    ensures Walk(t, expanded, ids + [i], depth) == Walk(t, expanded, ids, depth) + WalkOne(t, expanded, i, depth)
  {
    hide Forest, Depth, WalkOne;
    DepthBelow(t, i);
    WalkConcat(t, expanded, ids, [i], depth);
    assert [i][1..] == [];
    assert Walk(t, expanded, [i], depth) == WalkOne(t, expanded, i, depth) + [];
  }

  lemma WalkNone(t: Table, expanded: Flags, shown: seq<Row>, cs: seq<int>, depth: nat)
    requires Forest(t) && |shown| <= TREEVIEW_MAX_ROWS
    ensures Level(t, cs[..0], depth) && Clip(shown + Walk(t, expanded, cs[..0], depth)) == shown
  {
    hide Forest, Depth;
    assert cs[..0] == [] && shown + [] == shown;
  }

  /** One more entry of the list; a file adds nothing. */
  lemma WalkStep(t: Table, expanded: Flags, shown: seq<Row>, cs: seq<int>, i: nat, depth: nat)
    requires Forest(t) && i < |cs| && Level(t, cs[..i], depth) && Used(t, cs[i]) && Depth(t, cs[i]) == depth
    ensures depth <= FS_MAX_ENTRIES && Level(t, cs[..i + 1], depth)
    ensures var before := Clip(shown + Walk(t, expanded, cs[..i], depth));
      var after := Clip(shown + Walk(t, expanded, cs[..i + 1], depth));
      after == Clip(before + WalkOne(t, expanded, cs[i], depth)) && (t[cs[i]].kind != FOLDER ==> after == before)
  {
    hide Forest, Depth, WalkOne, Walk;
    assert cs[..i + 1] == cs[..i] + [cs[i]];
    WalkAppend(t, expanded, cs[..i], cs[i], depth);
    var before, one := Walk(t, expanded, cs[..i], depth), WalkOne(t, expanded, cs[i], depth);
    ClipTwice(shown + before, one);
    assert shown + before + one == shown + (before + one);
    if t[cs[i]].kind != FOLDER {
      NoRows(t, expanded, cs[i], depth);
      assert before + [] == before;
    }
  }

  lemma ClipTwice(a: seq<Row>, b: seq<Row>)
    ensures Clip(Clip(a) + b) == Clip(a + b)
  {
  }

  /** A full list stays as it is whatever would follow. */
  lemma WalkClipped(t: Table, expanded: Flags, shown: seq<Row>, cs: seq<int>, k: nat, depth: nat)
    requires Forest(t) && Level(t, cs, depth) && k <= |cs| && Level(t, cs[..k], depth)
    requires |Clip(shown + Walk(t, expanded, cs[..k], depth))| >= TREEVIEW_MAX_ROWS
    ensures Clip(shown + Walk(t, expanded, cs, depth)) == Clip(shown + Walk(t, expanded, cs[..k], depth))
  {
    hide Forest, Depth, Walk;
    assert cs == cs[..k] + cs[k..];
    WalkConcat(t, expanded, cs[..k], cs[k..], depth);
  }

  // ---- which rows ----

  ghost predicate Has(rows: seq<Row>, x: int) { exists k :: 0 <= k < |rows| && rows[k].id == x }

  lemma HasConcat(a: seq<Row>, b: seq<Row>, x: int)
    ensures Has(a + b, x) <==> Has(a, x) || Has(b, x)
  {
    if Has(a, x) {
      var k :| 0 <= k < |a| && a[k].id == x;
      assert (a + b)[k].id == x;
    } else if Has(b, x) {
      var k :| 0 <= k < |b| && b[k].id == x;
      assert (a + b)[|a| + k].id == x;
    }
  }

  /** The folders on the chain above its first member, up to position `k`, are open. */
  predicate OpenTo(c: seq<int>, k: nat, expanded: Flags)
    requires k < |c|
  {
    forall j :: 0 < j <= k ==> 0 <= c[j] < TREEVIEW_MAX_ROWS && expanded[c[j]]
  }

  /** `x` is a folder, `i` is it or above it, and every folder from its parent up to `i` is open. */
  ghost predicate Lies(t: Table, expanded: Flags, i: int, x: int)
    requires Forest(t)
  {
    && IsFolder(t, x) && Rooted(t, x)
    && exists k :: 0 <= k < |ChainOf(t, x)| && ChainOf(t, x)[k] == i && OpenTo(ChainOf(t, x), k, expanded)
  }

  lemma NextUp(t: Table, c: seq<int>, x: int, k: nat)
    requires IsChain(t, c, x) && k < |c|
    ensures Used(t, c[k]) && (t[c[k]].parent == FS_ROOT <==> k + 1 == |c|)
    ensures k + 1 < |c| ==> c[k + 1] == t[c[k]].parent
  {
    ChainSuffix(t, c, x, k);
    var rest := c[k..][1..];
    assert IsChain(t, rest, t[c[k]].parent);
    assert rest != [] ==> rest[0] == c[k + 1];
  }

  lemma LiesSelf(t: Table, expanded: Flags, x: int)
    requires Forest(t) && IsFolder(t, x)
    ensures Lies(t, expanded, x, x)
  {
    assert Rooted(t, x);
    var c := ChainOf(t, x);
    assert c[0] == x && OpenTo(c, 0, expanded);
  }

  lemma LiesFolder(t: Table, expanded: Flags, i: int, x: int)
    requires Forest(t) && Lies(t, expanded, i, x)
    ensures IsFolder(t, i)
  {
    hide Name, SiblingsDistinct, AllRooted;
    var c := ChainOf(t, x);
    var k :| 0 <= k < |c| && c[k] == i && OpenTo(c, k, expanded);
    if k > 0 {
      NextUp(t, c, x, k - 1);
      assert ParentOk(t, t[c[k - 1]].parent);
    }
  }

  lemma LiesDown(t: Table, expanded: Flags, i: int, x: int) returns (child: int)
    requires Forest(t) && Lies(t, expanded, i, x) && x != i
    ensures 0 <= i < TREEVIEW_MAX_ROWS && expanded[i] && ChildOf(t, child, i) && Lies(t, expanded, child, x)
  {
    hide Forest;
    var c := ChainOf(t, x);
    var k :| 0 <= k < |c| && c[k] == i && OpenTo(c, k, expanded);
    child := c[k - 1];
    NextUp(t, c, x, k - 1);
    assert OpenTo(c, k - 1, expanded);
  }

  lemma LiesUp(t: Table, expanded: Flags, i: int, child: int, x: int)
    requires Forest(t) && Used(t, i) && ChildOf(t, child, i) && expanded[i] && Lies(t, expanded, child, x)
    ensures Lies(t, expanded, i, x)
  {
    hide Forest;
    var c := ChainOf(t, x);
    var k :| 0 <= k < |c| && c[k] == child && OpenTo(c, k, expanded);
    NextUp(t, c, x, k);
    assert OpenTo(c, k + 1, expanded);
  }

  ghost predicate SomeLies(t: Table, expanded: Flags, ids: seq<int>, x: int)
    requires Forest(t)
  {
    exists k :: 0 <= k < |ids| && Lies(t, expanded, ids[k], x)
  }

  lemma {:induction false} WalkMembers(t: Table, expanded: Flags, ids: seq<int>, depth: nat, x: int)
    requires Forest(t) && Level(t, ids, depth)
    ensures Has(Walk(t, expanded, ids, depth), x) <==> SomeLies(t, expanded, ids, x)
    decreases FS_MAX_ENTRIES + 1 - depth, |ids|
  {
    hide Forest, Depth, Lies, WalkOne;
    if ids != [] {
      DepthBelow(t, ids[0]);
      OneMembers(t, expanded, ids[0], depth, x);
      WalkMembers(t, expanded, ids[1..], depth, x);
      HasConcat(WalkOne(t, expanded, ids[0], depth), Walk(t, expanded, ids[1..], depth), x);
      SomeCons(t, expanded, ids, x);
    }
  }

  lemma SomeCons(t: Table, expanded: Flags, ids: seq<int>, x: int)
    requires Forest(t) && ids != []
    ensures SomeLies(t, expanded, ids, x) <==> Lies(t, expanded, ids[0], x) || SomeLies(t, expanded, ids[1..], x)
  {
    hide Forest, Lies;
    if SomeLies(t, expanded, ids[1..], x) {
      var k :| 0 <= k < |ids[1..]| && Lies(t, expanded, ids[1..][k], x);
      assert ids[1..][k] == ids[k + 1];
    }
    if SomeLies(t, expanded, ids, x) {
      var k :| 0 <= k < |ids| && Lies(t, expanded, ids[k], x);
      assert k > 0 ==> ids[1..][k - 1] == ids[k];
    }
  }

  lemma {:induction false} OneMembers(t: Table, expanded: Flags, i: int, depth: nat, x: int)
    requires Forest(t) && Used(t, i) && Depth(t, i) == depth && depth <= FS_MAX_ENTRIES
    ensures Has(WalkOne(t, expanded, i, depth), x) <==> Lies(t, expanded, i, x)
    decreases FS_MAX_ENTRIES + 1 - depth, 0
  {
    hide Forest, Depth, Lies, Walk, Children;
    if Lies(t, expanded, i, x) {
      LiesFolder(t, expanded, i, x);
    }
    if t[i].kind == FOLDER {
      LiesSelf(t, expanded, i);
      var cs := Children(t, i, FS_MAX_ENTRIES);
      ChildrenLevel(t, i, depth + 1);
      WalkMembers(t, expanded, cs, depth + 1, x);
      if x != i && Lies(t, expanded, i, x) {
        var child := LiesDown(t, expanded, i, x);
        LiesFolder(t, expanded, child, x);
        assert FolderUnder(t, child, i) && child in cs;
      }
      if x != i && expanded[i] && SomeLies(t, expanded, cs, x) {
        var k :| 0 <= k < |cs| && Lies(t, expanded, cs[k], x);
        assert cs[k] in cs;
        LiesUp(t, expanded, i, cs[k], x);
      }
      HasConcat([Row(i, depth, true)], Walk(t, expanded, cs, depth + 1), x);
      assert [Row(i, depth, HasFolder(t, i))][0].id == i;
    }
  }

  /** A folder all of whose ancestors are open. */
  ghost predicate InView(t: Table, expanded: Flags, x: int)
    requires Forest(t)
  {
    IsFolder(t, x) && Rooted(t, x) && OpenTo(ChainOf(t, x), |ChainOf(t, x)| - 1, expanded)
  }

  lemma TopLies(t: Table, expanded: Flags, x: int)
    requires Forest(t)
    ensures SomeLies(t, expanded, Children(t, FS_ROOT, FS_MAX_ENTRIES), x) <==> InView(t, expanded, x)
  {
    hide Forest, Children;
    var cs := Children(t, FS_ROOT, FS_MAX_ENTRIES);
    if SomeLies(t, expanded, cs, x) {
      var m :| 0 <= m < |cs| && Lies(t, expanded, cs[m], x);
      assert cs[m] in cs;
      var c := ChainOf(t, x);
      var k :| 0 <= k < |c| && c[k] == cs[m] && OpenTo(c, k, expanded);
      NextUp(t, c, x, k);
    }
    if InView(t, expanded, x) {
      var c := ChainOf(t, x);
      var top := c[|c| - 1];
      NextUp(t, c, x, |c| - 1);
      assert top in cs;
      var m :| 0 <= m < |cs| && cs[m] == top;
      assert Lies(t, expanded, cs[m], x);
    }
  }

  // ---- once each, at its depth ----

  ghost predicate TrueDepths(t: Table, rows: seq<Row>, depth: nat)
    requires Forest(t)
  {
    forall k :: 0 <= k < |rows| ==> Used(t, rows[k].id) && rows[k].depth == Depth(t, rows[k].id) >= depth
  }

  lemma {:induction false} WalkDepths(t: Table, expanded: Flags, ids: seq<int>, depth: nat)
    requires Forest(t) && Level(t, ids, depth)
    ensures TrueDepths(t, Walk(t, expanded, ids, depth), depth)
    decreases FS_MAX_ENTRIES + 1 - depth, |ids|
  {
    hide Forest, Depth, WalkOne;
    if ids != [] {
      DepthBelow(t, ids[0]);
      OneDepths(t, expanded, ids[0], depth);
      WalkDepths(t, expanded, ids[1..], depth);
    }
  }

  lemma {:induction false} OneDepths(t: Table, expanded: Flags, i: int, depth: nat)
    requires Forest(t) && Used(t, i) && Depth(t, i) == depth && depth <= FS_MAX_ENTRIES
    ensures TrueDepths(t, WalkOne(t, expanded, i, depth), depth)
    decreases FS_MAX_ENTRIES + 1 - depth, 0
  {
    hide Forest, Depth, Walk, Children;
    if t[i].kind == FOLDER {
      ChildrenLevel(t, i, depth + 1);
      WalkDepths(t, expanded, Children(t, i, FS_MAX_ENTRIES), depth + 1);
    }
  }

  ghost predicate EachOnce(rows: seq<Row>) { forall j, k :: 0 <= j < k < |rows| ==> rows[j].id != rows[k].id }

  lemma OnceConcat(a: seq<Row>, b: seq<Row>)
    requires EachOnce(a) && EachOnce(b) && forall x :: !(Has(a, x) && Has(b, x))
    ensures EachOnce(a + b)
  {
    var rows := a + b;
    forall j, k | 0 <= j < k < |rows|
      ensures rows[j].id != rows[k].id
    {
      if j < |a| <= k {
        assert a[j] == rows[j] && b[k - |a|] == rows[k];
        assert Has(a, rows[j].id) && Has(b, rows[k].id);
      } else if k < |a| {
        assert a[j] == rows[j] && a[k] == rows[k];
      } else {
        assert b[j - |a|] == rows[j] && b[k - |a|] == rows[k];
      }
    }
  }

  /** An entry lies below only one entry of each depth. */
  lemma LiesOnce(t: Table, expanded: Flags, i: int, j: int, x: int)
    requires Forest(t) && Lies(t, expanded, i, x) && Lies(t, expanded, j, x) && Used(t, i) && Used(t, j)
    requires Depth(t, i) == Depth(t, j)
    ensures i == j
  {
    hide Forest;
    var c := ChainOf(t, x);
    var k :| 0 <= k < |c| && c[k] == i && OpenTo(c, k, expanded);
    var m :| 0 <= m < |c| && c[m] == j && OpenTo(c, m, expanded);
    DepthOnChain(t, c, x, k);
    DepthOnChain(t, c, x, m);
  }

  lemma DepthOnChain(t: Table, c: seq<int>, x: int, k: nat)
    requires Forest(t) && IsChain(t, c, x) && k < |c|
    ensures Used(t, c[k]) && Depth(t, c[k]) == |c| - k
  {
    ChainSuffix(t, c, x, k);
    assert Rooted(t, c[k]);
    ChainUnique(t, c[k..], ChainOf(t, c[k]), c[k]);
  }

  lemma {:induction false} WalkOnce(t: Table, expanded: Flags, ids: seq<int>, depth: nat)
    requires Forest(t) && Level(t, ids, depth) && forall j, k :: 0 <= j < k < |ids| ==> ids[j] != ids[k]
    ensures EachOnce(Walk(t, expanded, ids, depth))
    decreases FS_MAX_ENTRIES + 1 - depth, |ids|
  {
    hide Forest, Depth, WalkOne, Lies, Has, EachOnce;
    if ids == [] {
      NoneOnce();
    } else {
      DepthBelow(t, ids[0]);
      OneOnce(t, expanded, ids[0], depth);
      WalkOnce(t, expanded, ids[1..], depth);
      forall x
        ensures !(Has(WalkOne(t, expanded, ids[0], depth), x) && Has(Walk(t, expanded, ids[1..], depth), x))
      {
        OneMembers(t, expanded, ids[0], depth, x);
        WalkMembers(t, expanded, ids[1..], depth, x);
        if Lies(t, expanded, ids[0], x) && SomeLies(t, expanded, ids[1..], x) {
          var k :| 0 <= k < |ids[1..]| && Lies(t, expanded, ids[1..][k], x);
          assert ids[1..][k] == ids[k + 1];
          LiesOnce(t, expanded, ids[0], ids[k + 1], x);
        }
      }
      OnceConcat(WalkOne(t, expanded, ids[0], depth), Walk(t, expanded, ids[1..], depth));
    }
  }

  lemma NoneOnce()
    ensures EachOnce([]) && forall r: Row :: EachOnce([r])
  {
  }

  lemma {:induction false} OneOnce(t: Table, expanded: Flags, i: int, depth: nat)
    requires Forest(t) && Used(t, i) && Depth(t, i) == depth && depth <= FS_MAX_ENTRIES
    ensures EachOnce(WalkOne(t, expanded, i, depth))
    decreases FS_MAX_ENTRIES + 1 - depth, 0
  {
    hide Forest, Depth, Walk, Children, EachOnce;
    NoneOnce();
    if t[i].kind == FOLDER {
      var cs := Children(t, i, FS_MAX_ENTRIES);
      ChildrenLevel(t, i, depth + 1);
      WalkOnce(t, expanded, cs, depth + 1);
      WalkDepths(t, expanded, cs, depth + 1);
      OnceConcat([Row(i, depth, true)], Walk(t, expanded, cs, depth + 1));
    }
  }

  /** The tree shows the root and exactly the folders all of whose ancestors are open, each once and at its true depth. */
  lemma TreeRows(t: Table, expanded: Flags)
    requires Forest(t)
    ensures var rows := AllRows(t, expanded);
      && (forall x :: Has(rows, x) <==> x == FS_ROOT || InView(t, expanded, x))
      && EachOnce(rows)
      && rows[0] == Row(FS_ROOT, 0, HasFolder(t, FS_ROOT))
      && forall k :: 1 <= k < |rows| ==> Used(t, rows[k].id) && rows[k].depth == Depth(t, rows[k].id)
  {
    hide Forest, Depth, Walk, Children, EachOnce, Has, InView, SomeLies;
    var cs := Children(t, FS_ROOT, FS_MAX_ENTRIES);
    ChildrenLevel(t, FS_ROOT, 1);
    var root, below := [Row(FS_ROOT, 0, HasFolder(t, FS_ROOT))], Walk(t, expanded, cs, 1);
    WalkOnce(t, expanded, cs, 1);
    WalkDepths(t, expanded, cs, 1);
    NoneOnce();
    forall x
      ensures Has(root + below, x) <==> x == FS_ROOT || InView(t, expanded, x)
      ensures !(Has(root, x) && Has(below, x))
    {
      WalkMembers(t, expanded, cs, 1, x);
      TopLies(t, expanded, x);
      HasConcat(root, below, x);
      RootOnly(t, expanded, x);
    }
    OnceConcat(root, below);
  }

  lemma RootOnly(t: Table, expanded: Flags, x: int)
    requires Forest(t)
    ensures Has([Row(FS_ROOT, 0, HasFolder(t, FS_ROOT))], x) <==> x == FS_ROOT
    ensures InView(t, expanded, x) ==> x != FS_ROOT
  {
    hide Forest;
    assert [Row(FS_ROOT, 0, HasFolder(t, FS_ROOT))][0].id == FS_ROOT;
  }

  lemma RowsAreFolders(t: Table, expanded: Flags)
    requires Forest(t)
    ensures forall row :: 0 <= row < |Clip(AllRows(t, expanded))| ==>
      var id := Clip(AllRows(t, expanded))[row].id; id == FS_ROOT || IsFolder(t, id)
  {
    hide Forest, Depth, AllRows;
    TreeRows(t, expanded);
    forall row | 0 <= row < |Clip(AllRows(t, expanded))|
      ensures var id := Clip(AllRows(t, expanded))[row].id; id == FS_ROOT || IsFolder(t, id)
    {
      assert Has(AllRows(t, expanded), Clip(AllRows(t, expanded))[row].id);
    }
  }
}
