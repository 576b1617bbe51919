/** Paths: writing out where an entry is, and finding it again. */
module FsPath {
  import opened Words
  import opened FsLayout
  import opened FsTree
  import opened FsVolume
  import opened FileSystem

  const BACKSLASH: Byte := 92
  const DOT: Byte := 46

  // ---- writing ----

  ghost predicate AllUsed(t: Table, c: seq<int>) { forall k :: 0 <= k < |c| ==> Used(t, c[k]) }

  /** The names on a chain, top first, each after a backslash. */
  ghost function ChainText(t: Table, c: seq<int>): seq<Byte>
    requires AllUsed(t, c)
  {
    if c == [] then [] else ChainText(t, c[1..]) + [BACKSLASH] + Name(t[c[0]])
  }

  ghost predicate OnTree(t: Table, id: int) { id == FS_ROOT || (Used(t, id) && Rooted(t, id)) }

  ghost function PathText(t: Table, id: int): seq<Byte>
    requires OnTree(t, id)
  {
    if id == FS_ROOT then [BACKSLASH] else
      ChainAllUsed(t, ChainOf(t, id), id);
      ChainText(t, ChainOf(t, id))
  }

  lemma ChainAllUsed(t: Table, c: seq<int>, i: int)
    requires IsChain(t, c, i)
    ensures AllUsed(t, c)
  {
    forall k: nat | k < |c|
      ensures Used(t, c[k])
    {
      ChainSuffix(t, c, i, k);
    }
  }

  /** The first `pos` bytes of the buffer are as much of `text` as fits before a terminator at `max - 1`. */
  predicate Rendered(b: seq<Byte>, pos: int, text: seq<Byte>, max: int) {
    0 <= pos < max <= |b| && pos == (if |text| < max - 1 then |text| else max - 1) && b[..pos] == text[..pos]
  }

  /** The chain of an entry, or of the root. */
  lemma UsedChain(t: Table, id: int) returns (c: seq<int>)
    requires Forest(t) && (id == FS_ROOT || Used(t, id))
    ensures IsChain(t, c, id) && |c| <= FS_MAX_ENTRIES && OnTree(t, id) && (id != FS_ROOT ==> c == ChainOf(t, id))
    ensures id == FS_ROOT ==> c == []
  {
    if id == FS_ROOT {
      c := [];
    } else {
      assert Rooted(t, id);
      c := ChainOf(t, id);
      ChainLength(t, c, id);
    }
  }

  lemma {:induction false} ChainTextPrefix(t: Table, c: seq<int>, k: nat)
    requires k <= |c| && AllUsed(t, c)
    ensures ChainText(t, c[k..]) <= ChainText(t, c)
  {
    if k == 0 {
      assert c[0..] == c;
    } else {
      assert c[1..][k - 1..] == c[k..];
      ChainTextPrefix(t, c[1..], k - 1);
    }
  }

  lemma ChainTextStep(t: Table, c: seq<int>, k: nat)
    requires k < |c| && AllUsed(t, c)
    ensures ChainText(t, c[k..]) == ChainText(t, c[k + 1..]) + [BACKSLASH] + Name(t[c[k]])
  {
    assert c[k..][1..] == c[k + 1..];
  }

  /** One backslash and one name, or as much as fits. */
  method Component(buf: array<Byte>, pos: int, max: int, name: NameField, ghost text: seq<Byte>) returns (end: int)
    requires Rendered(buf[..], pos, text, max) && pos < max - 1 && 0 in name
    modifies buf
    ensures Rendered(buf[..], end, text + [BACKSLASH] + CString(name), max)
  {
    hide CString;
    ghost var whole := text + [BACKSLASH] + CString(name);
    buf[pos] := BACKSLASH;
    end := pos + 1;
    var j := 0;
    while name[j] != 0 && end < max - 1
      invariant 0 <= j <= |CString(name)| && j < |name| && end == |text| + 1 + j && end <= max - 1
      invariant buf[..end] == whole[..end]
      decreases max - end
    {
      buf[end] := name[j];
      end, j := end + 1, j + 1;
    }
  }

  /** Collects the chain of `id`, bottom first. */
  method Climb(fs: FileSystem, id: int, chain: array<int>, ghost c: seq<int>) returns (depth: int)
    requires fs.Valid() && chain.Length == FS_MAX_ENTRIES && IsChain(fs.table[..], c, id) && |c| <= FS_MAX_ENTRIES
    modifies chain
    ensures depth == |c| && chain[..depth] == c
  {
    hide Extents, DiskTable, DecodeSuper, Forest, IsChain;
    ghost var t := fs.table[..];
    depth := 0;
    var cur := id;
    assert c[0..] == c;
    while cur != FS_ROOT && depth < FS_MAX_ENTRIES
      invariant 0 <= depth <= |c| && IsChain(t, c[depth..], cur) && chain[..depth] == c[..depth]
      decreases FS_MAX_ENTRIES - depth
    {
      ChainStep(t, c, depth, cur);
      chain[depth] := cur;
      depth := depth + 1;
      cur := fs.table[cur].parent;
    }
    ChainEnd(t, c, depth, cur);
  }

  /** Writes the names of the chain, top first. */
  method Render(fs: FileSystem, chain: array<int>, depth: int, buf: array<Byte>, max: int, ghost c: seq<int>) returns (pos: int)
    requires fs.Valid() && chain as object != buf as object && 0 < max <= buf.Length && AllUsed(fs.table[..], c)
    requires 0 <= depth <= chain.Length && chain[..depth] == c
    modifies buf
    ensures Rendered(buf[..], pos, ChainText(fs.table[..], c), max)
  {
    hide Extents, DiskTable, DecodeSuper, Forest, ChainText, CString;
    ghost var t := fs.table[..];
    pos := 0;
    var i := depth - 1;
    EmptyText(t, c);
    while i >= 0 && pos < max - 1
      invariant -1 <= i < depth == |c| && chain[..depth] == c
      invariant Rendered(buf[..], pos, ChainText(t, c[i + 1..]), max)
    {
      assert chain[i] == c[i];
      NameTerminated(t, c[i]);
      ChainTextStep(t, c, i);
      pos := Component(buf, pos, max, fs.table[chain[i]].name, ChainText(t, c[i + 1..]));
      i := i - 1;
    }
    ChainTextPrefix(t, c, i + 1);
    assert c[0..] == c;
  }

  /** Fills `buf` with the path of `id`, cut off to fit `max` bytes with the terminator. */
  method Path(fs: FileSystem, id: int, buf: array<Byte>, max: int) returns (r: int)
    requires fs.Valid() && max <= buf.Length
    modifies buf
    ensures r == if max >= 2 && (id == FS_ROOT || Used(fs.table[..], id)) then 0 else -1
    ensures r == 0 ==>
      && OnTree(fs.table[..], id)
      && var text := PathText(fs.table[..], id); var n := if |text| < max - 1 then |text| else max - 1;
         buf[..n] == text[..n] && buf[n] == 0
  {
    hide Extents, DiskTable, DecodeSuper, Rooted, IsChain, Forest, ChainText;
    ghost var t := fs.table[..];
    if max <= 0 {
      return -1;
    }
    if id != FS_ROOT && !Used(fs.table[..], id) {
      return -1;
    }
    ghost var c := UsedChain(t, id);
    ChainAllUsed(t, c, id);
    var chain := new int[FS_MAX_ENTRIES];
    var depth := Climb(fs, id, chain, c);
    var pos := Render(fs, chain, depth, buf, max, c);
    TopText(t, c, id);
    if pos == 0 {
      if max < 2 {
        return -1;
      }
      buf[pos] := BACKSLASH;
      pos := pos + 1;
    }
    buf[pos] := 0;
    return 0;
  }

  lemma EmptyText(t: Table, c: seq<int>)
    ensures c[|c|..] == [] && ChainText(t, c[|c|..]) == []
  {
  }

  lemma TopText(t: Table, c: seq<int>, id: int)
    requires AllUsed(t, c) && IsChain(t, c, id)
    ensures id == FS_ROOT <==> ChainText(t, c) == []
  {
  }

  // ---- finding ----

  /** How much of `s` one path component takes: up to a backslash or the end, at most 99 bytes. */
  function SegmentLength(s: seq<Byte>, k: nat): (n: nat)
    requires k <= |s| && k <= FS_NAME_MAX - 1 && BACKSLASH !in s[..k]
    ensures k <= n <= |s| && n <= FS_NAME_MAX - 1 && BACKSLASH !in s[..n]
    ensures n == |s| || n == FS_NAME_MAX - 1 || s[n] == BACKSLASH
    decreases |s| - k
  {
    if k == |s| || s[k] == BACKSLASH || k == FS_NAME_MAX - 1 then k else
    assert s[..k + 1] == s[..k] + [s[k]];
    SegmentLength(s, k + 1)
  }

  /** Where one component leads from `cur`. */
  function Enter(t: Table, cur: int, seg: seq<Byte>): Option<int> {
    if seg == [DOT] then Some(cur)
    else if seg == [DOT, DOT] then
      Some(if cur != FS_ROOT && Used(t, cur) then t[cur].parent else FS_ROOT)
    else if Find(t, cur, seg) < 0 then None
    else Some(Find(t, cur, seg))
  }

  /** Where the path `s` leads from `cur`. */
  function Follow(t: Table, cur: int, s: seq<Byte>): Option<int>
    decreases |s|
  {
    if s == [] then Some(cur)
    else if s[0] == BACKSLASH then Follow(t, cur, s[1..])
    else
      var n := SegmentLength(s, 0);
      match Enter(t, cur, s[..n])
      case None => None
      case Some(next) => Follow(t, next, s[n..])
  }

  function Start(cwd: int, s: seq<Byte>): int { if s != [] && s[0] == BACKSLASH then FS_ROOT else cwd }

  /** What fs_resolve_path returns. */
  function Resolve(t: Table, cwd: int, s: seq<Byte>): int {
    match Follow(t, Start(cwd, s), s)
    case None => FS_NOT_FOUND
    case Some(id) => id
  }

  lemma FollowEnd(t: Table)
    ensures forall cur :: Follow(t, cur, []) == Some(cur)
  {
  }

  lemma FollowStep(t: Table, cur: int, s: seq<Byte>, i: nat, n: nat)
    requires i < |s| && s[i] != BACKSLASH && n == SegmentLength(s[i..], 0) && i + n <= |s|
    ensures Follow(t, cur, s[i..]) ==
      match Enter(t, cur, s[i..i + n]) case None => None case Some(next) => Follow(t, next, s[i + n..])
  {
    hide Enter, SegmentLength;
    assert s[i..][..n] == s[i..i + n] && s[i..][n..] == s[i + n..];
  }

  method ResolvePath(fs: FileSystem, cwd: int, path: Option<seq<Byte>>) returns (r: int)
    requires fs.Valid() && (path.Some? ==> IsString(path.value))
    ensures r == if path.None? then FS_NOT_FOUND else Resolve(fs.table[..], cwd, path.value)
  {
    hide Extents, DiskTable, DecodeSuper, Forest, Find, SegmentLength, Follow;
    if path.None? {
      return FS_NOT_FOUND;
    }
    var s := path.value;
    ghost var t := fs.table[..];
    var cur := if |s| > 0 && s[0] == BACKSLASH then FS_ROOT else cwd;
    var i := 0;
    FollowEnd(t);
    assert s[0..] == s;
    while i < |s|
      invariant 0 <= i <= |s| && Follow(t, Start(cwd, s), s) == Follow(t, cur, s[i..])
    {
      i := SkipSlashes(t, s, i, cur);
      if i == |s| {
        break;
      }
      var len := TakeSegment(s, i);
      var seg := s[i..i + len];
      FollowStep(t, cur, s, i, len);
      i := i + len;
      if len == 1 && seg[0] == DOT {
        continue;
      }
      if len == 2 && seg[0] == DOT && seg[1] == DOT {
        if cur != FS_ROOT {
          cur := if Used(fs.table[..], cur) then fs.table[cur].parent else FS_ROOT;
        }
        continue;
      }
      var next := fs.FindEntry(cur, seg);
      if next < 0 {
        return FS_NOT_FOUND;
      }
      cur := next;
    }
    assert s[i..] == [];
    return cur;
  }

  method SkipSlashes(ghost t: Table, s: seq<Byte>, from: int, ghost cur: int) returns (i: int)
    requires 0 <= from <= |s|
    ensures from <= i <= |s| && (i < |s| ==> s[i] != BACKSLASH) && Follow(t, cur, s[from..]) == Follow(t, cur, s[i..])
  {
    i := from;
    while i < |s| && s[i] == BACKSLASH
      invariant from <= i <= |s| && Follow(t, cur, s[from..]) == Follow(t, cur, s[i..])
    {
      assert s[i..][1..] == s[i + 1..];
      i := i + 1;
    }
  }

  /** Reads one component. */
  method TakeSegment(s: seq<Byte>, i: int) returns (len: int)
    requires 0 <= i < |s| && s[i] != BACKSLASH
    ensures 0 < len && i + len <= |s| && len == SegmentLength(s[i..], 0)
  {
    len := 0;
    ghost var rest := s[i..];
    while i + len < |s| && s[i + len] != BACKSLASH && len < FS_NAME_MAX - 1
      invariant 0 <= len <= FS_NAME_MAX - 1 && i + len <= |s| && BACKSLASH !in rest[..len]
      invariant SegmentLength(rest, 0) == SegmentLength(rest, len)
      decreases |s| - i - len
    {
      assert rest[..len + 1] == rest[..len] + [rest[len]];
      len := len + 1;
    }
  }

  // ---- there and back ----

  /** A name that a path can hold as one component. */
  ghost predicate Plain(name: seq<Byte>) {
    GoodName(name) && BACKSLASH !in name && name != [DOT] && name != [DOT, DOT]
  }

  /** The root, or an entry whose own name and all those above it are plain. */
  ghost predicate PlainPlace(t: Table, i: int) {
    i == FS_ROOT || (Used(t, i) && Rooted(t, i) && PlainChain(t, ChainOf(t, i)))
  }

  ghost predicate PlainChain(t: Table, c: seq<int>) { forall k :: 0 <= k < |c| ==> Used(t, c[k]) && Plain(Name(t[c[k]])) }

  lemma SegmentIs(s: seq<Byte>, n: nat)
    requires n <= |s| && n <= FS_NAME_MAX - 1 && BACKSLASH !in s[..n]
    requires n == |s| || n == FS_NAME_MAX - 1 || s[n] == BACKSLASH
    ensures SegmentLength(s, 0) == n
  {
    var m := SegmentLength(s, 0);
    assert forall k :: 0 <= k < n ==> s[k] in s[..n];
    assert forall k :: 0 <= k < m ==> s[k] in s[..m];
  }

  lemma FollowName(t: Table, cur: int, name: seq<Byte>, rest: seq<Byte>)
    requires Plain(name) && (rest == [] || rest[0] == BACKSLASH) && Find(t, cur, name) >= 0
    ensures Follow(t, cur, [BACKSLASH] + name + rest) == Follow(t, Find(t, cur, name), rest)
  {
    hide SegmentLength, Find;
    var s := [BACKSLASH] + name + rest;
    assert s[1..] == name + rest;
    var u := name + rest;
    assert u[..|name|] == name && u[|name|..] == rest;
    SegmentIs(u, |name|);
  }

  lemma {:induction false} FollowChain(t: Table, c: seq<int>, id: int, rest: seq<Byte>)
    requires Forest(t) && IsChain(t, c, id) && PlainChain(t, c) && (rest == [] || rest[0] == BACKSLASH)
    ensures AllUsed(t, c) && Follow(t, FS_ROOT, ChainText(t, c) + rest) == Follow(t, id, rest)
    decreases |c|
  {
    hide Forest, Find, Follow, Plain, Name;
    ChainAllUsed(t, c, id);
    if c == [] {
      assert ChainText(t, c) + rest == rest;
    } else {
      var name, up := Name(t[c[0]]), ChainText(t, c[1..]);
      var more := [BACKSLASH] + name + rest;
      assert ChainText(t, c) + rest == up + more;
      FollowChain(t, c[1..], t[id].parent, more);
      assert PlainChain(t, c) ==> Plain(name);
      FindIs(t, id);
      FollowName(t, t[id].parent, name, rest);
    }
  }

  /** Only entries with plain names all the way up can be reached from such a place. */
  lemma {:induction false} FollowsPlain(t: Table, cur: int, s: seq<Byte>)
    requires Forest(t) && PlainPlace(t, cur)
    ensures Follow(t, cur, s).Some? ==> PlainPlace(t, Follow(t, cur, s).value)
    decreases |s|
  {
    hide Forest, PlainPlace, SegmentLength, Enter;
    if s != [] {
      if s[0] == BACKSLASH {
        FollowsPlain(t, cur, s[1..]);
      } else {
        var n := SegmentLength(s, 0);
        SegmentStarts(s);
        EntersPlain(t, cur, s[..n]);
        var next := Enter(t, cur, s[..n]);
        if next.Some? {
          FollowsPlain(t, next.value, s[n..]);
        }
      }
    }
  }

  lemma SegmentStarts(s: seq<Byte>)
    requires s != [] && s[0] != BACKSLASH
    ensures var n := SegmentLength(s, 0); 0 < n <= |s| && n <= FS_NAME_MAX - 1 && BACKSLASH !in s[..n]
  {
  }

  lemma EntersPlain(t: Table, cur: int, seg: seq<Byte>)
    requires Forest(t) && PlainPlace(t, cur) && 0 < |seg| <= FS_NAME_MAX - 1 && BACKSLASH !in seg
    ensures Enter(t, cur, seg).Some? ==> PlainPlace(t, Enter(t, cur, seg).value)
  {
    hide Find, Forest, Plain;
    if seg == [DOT] {
    } else if seg == [DOT, DOT] {
      if cur != FS_ROOT {
        ParentPlain(t, cur);
      }
    } else if Find(t, cur, seg) >= 0 {
      ChildPlain(t, cur, Find(t, cur, seg));
    }
  }

  lemma ParentPlain(t: Table, i: int)
    requires Forest(t) && Used(t, i) && PlainPlace(t, i)
    ensures PlainPlace(t, t[i].parent)
  {
    hide Plain, Name;
    var c := ChainOf(t, i);
    var p := t[i].parent;
    if p != FS_ROOT {
      ChainUnique(t, c[1..], ChainOf(t, p), p);
      assert forall k :: 0 <= k < |c[1..]| ==> c[1..][k] == c[k + 1];
    }
  }

  lemma ChildPlain(t: Table, p: int, i: int)
    requires Forest(t) && PlainPlace(t, p) && ChildOf(t, i, p) && Name(t[i]) != [DOT] && Name(t[i]) != [DOT, DOT]
    requires BACKSLASH !in Name(t[i])
    ensures PlainPlace(t, i)
  {
    hide Name;
    assert Plain(Name(t[i]));
    var up := if p == FS_ROOT then [] else ChainOf(t, p);
    assert ([i] + up)[1..] == up;
    assert IsChain(t, [i] + up, i);
    ChainUnique(t, [i] + up, ChainOf(t, i), i);
  }

  /** A path leads back to its entry, from anywhere, exactly if all names on it are plain. */
  lemma PathRoundTrip(t: Table, cwd: int, id: int)
    requires Forest(t) && (id == FS_ROOT || Used(t, id))
    ensures OnTree(t, id)
    ensures Resolve(t, cwd, PathText(t, id)) == id <==> PlainPlace(t, id)
  {
    hide Forest, IsChain, SegmentLength, Plain;
    var c := UsedChain(t, id);
    if id == FS_ROOT {
      var text: seq<Byte> := [BACKSLASH];
      assert text[1..] == [];
      assert Follow(t, FS_ROOT, text) == Follow(t, FS_ROOT, text[1..]);
    } else {
      ChainAllUsed(t, c, id);
      var text := ChainText(t, c);
      TextStarts(t, c, id);
      assert PlainPlace(t, FS_ROOT);
      FollowsPlain(t, FS_ROOT, text);
      if PlainPlace(t, id) {
        FollowChain(t, c, id, []);
        assert text + [] == text;
      }
    }
  }

  lemma {:induction false} TextStarts(t: Table, c: seq<int>, id: int)
    requires IsChain(t, c, id) && id != FS_ROOT && AllUsed(t, c)
    ensures ChainText(t, c) != [] && ChainText(t, c)[0] == BACKSLASH
    decreases |c|
  {
    var up := ChainText(t, c[1..]);
    var text := ChainText(t, c);
    assert text == up + [BACKSLASH] + Name(t[c[0]]);
    assert text[|up|] == BACKSLASH && (up != [] ==> text[0] == up[0]);
    if t[id].parent == FS_ROOT {
      assert up == [];
    } else {
      ChainAllUsed(t, c[1..], t[id].parent);
      TextStarts(t, c[1..], t[id].parent);
    }
  }

  // ---- one path after another ----

  lemma {:induction false} FollowJoin(t: Table, cur: int, p: seq<Byte>, q: seq<Byte>)
    ensures Follow(t, cur, p + [BACKSLASH] + q) ==
      match Follow(t, cur, p) case None => None case Some(x) => Follow(t, x, q)
    decreases |p|
  {
    hide Enter, SegmentLength;
    var s := p + [BACKSLASH] + q;
    if p == [] {
      assert s[1..] == q;
    } else if p[0] == BACKSLASH {
      assert s[1..] == p[1..] + [BACKSLASH] + q;
      FollowJoin(t, cur, p[1..], q);
    } else {
      var n := SegmentLength(p, 0);
      SegmentStarts(p);
      SegmentJoin(p, q);
      assert s[..n] == p[..n] && s[n..] == p[n..] + [BACKSLASH] + q;
      var next := Enter(t, cur, p[..n]);
      if next.Some? {
        FollowJoin(t, next.value, p[n..], q);
      }
    }
  }

  lemma SegmentJoin(p: seq<Byte>, q: seq<Byte>)
    ensures SegmentLength(p + [BACKSLASH] + q, 0) == SegmentLength(p, 0)
  {
    var n := SegmentLength(p, 0);
    var s := p + [BACKSLASH] + q;
    assert s[..n] == p[..n];
    SegmentIs(s, n);
  }

  /** Only a working directory that does not exist can be mistaken for a path that was not found. */
  lemma {:induction false} FollowFinds(t: Table, cur: int, s: seq<Byte>)
    requires Forest(t) && cur != FS_NOT_FOUND
    ensures Follow(t, cur, s) != Some(FS_NOT_FOUND)
    decreases |s|
  {
    hide SegmentLength, Find, AllRooted, SiblingsDistinct, Name;
    if s != [] {
      if s[0] == BACKSLASH {
        FollowFinds(t, cur, s[1..]);
      } else {
        var n := SegmentLength(s, 0);
        SegmentStarts(s);
        var next := Enter(t, cur, s[..n]);
        if next.Some? {
          assert Used(t, cur) ==> ParentOk(t, t[cur].parent);
          FollowFinds(t, next.value, s[n..]);
        }
      }
    }
  }

  /** Resolving `p` and then, from there, the relative `q` is resolving the two joined by a backslash. */
  lemma ResolveJoin(t: Table, cwd: int, p: seq<Byte>, q: seq<Byte>)
    requires Forest(t) && p != [] && (q == [] || q[0] != BACKSLASH)
    ensures Resolve(t, cwd, p) != FS_NOT_FOUND ==>
      Resolve(t, cwd, p + [BACKSLASH] + q) == Resolve(t, Resolve(t, cwd, p), q)
    ensures Resolve(t, cwd, p) == FS_NOT_FOUND && cwd != FS_NOT_FOUND ==>
      Resolve(t, cwd, p + [BACKSLASH] + q) == FS_NOT_FOUND
  {
    hide Forest, Follow;
    FollowJoin(t, Start(cwd, p), p, q);
    if cwd != FS_NOT_FOUND {
      FollowFinds(t, Start(cwd, p), p);
    }
  }
}
