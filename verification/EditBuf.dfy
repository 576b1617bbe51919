/** The editor's text buffer: one flat array, a cursor, and a column that vertical moves stick to. */
module EditBuf {
  import opened Words

  const NEWLINE: Byte := 10
  const SPACE: Byte := 32
  const KEY_LEFT := 0x80
  const KEY_RIGHT := 0x81
  const KEY_UP := 0x82
  const KEY_DOWN := 0x83
  const KEY_DELETE := 0x84
  const KEY_HOME := 0x85
  const KEY_END := 0x86
  const BACKSPACE := 8
  const TAB := 9
  const ENTER := 10

  /** What is being edited. `goal` is -1 when no column is remembered. */
  datatype Doc = Doc(text: seq<Byte>, cursor: int, goal: int, dirty: bool)

  function Min(a: int, b: int): int { if a < b then a else b }

  // ---- lines around a position ----

  function LineStart(t: seq<Byte>, off: nat): (s: nat)
    requires off <= |t|
    ensures s <= off && (s == 0 || t[s - 1] == NEWLINE) && forall k :: s <= k < off ==> t[k] != NEWLINE
  {
    if off == 0 || t[off - 1] == NEWLINE then off else LineStart(t, off - 1)
  }

  function LineEnd(t: seq<Byte>, off: nat): (e: nat)
    requires off <= |t|
    ensures off <= e <= |t| && (e == |t| || t[e] == NEWLINE) && forall k :: off <= k < e ==> t[k] != NEWLINE
    decreases |t| - off
  {
    if off == |t| || t[off] == NEWLINE then off else LineEnd(t, off + 1)
  }

  lemma LineStartIs(t: seq<Byte>, off: nat, s: nat)
    requires s <= off <= |t| && (s == 0 || t[s - 1] == NEWLINE) && forall k :: s <= k < off ==> t[k] != NEWLINE
    ensures LineStart(t, off) == s
  {
  }

  lemma LineEndIs(t: seq<Byte>, off: nat, e: nat)
    requires off <= e <= |t| && (e == |t| || t[e] == NEWLINE) && forall k :: off <= k < e ==> t[k] != NEWLINE
    ensures LineEnd(t, off) == e
  {
  }

  // ---- keys ----

  predicate InText(d: Doc) { 0 <= d.cursor <= |d.text| }

  function Column(d: Doc): int
    requires InText(d)
  {
    d.cursor - LineStart(d.text, d.cursor)
  }

  function LineLength(d: Doc): int
    requires InText(d)
  {
    LineEnd(d.text, d.cursor) - LineStart(d.text, d.cursor)
  }

  /** The remembered column, if any, explains where the cursor is. */
  predicate Sticky(d: Doc) {
    InText(d) && (d.goal == -1 || (d.goal >= 0 && Column(d) == Min(d.goal, LineLength(d))))
  }

  function WithGoal(d: Doc): Doc
    requires InText(d)
  {
    if d.goal < 0 then d.(goal := Column(d)) else d
  }

  function Up(d: Doc): Doc
    requires InText(d)
  {
    var g := WithGoal(d);
    var start := LineStart(d.text, d.cursor);
    if start == 0 then g else
    var above := LineStart(d.text, start - 1);
    g.(cursor := above + Min(g.goal, start - 1 - above))
  }

  function Down(d: Doc): Doc
    requires InText(d)
  {
    var g := WithGoal(d);
    var end := LineEnd(d.text, d.cursor);
    if end >= |d.text| then g else
    g.(cursor := end + 1 + Min(g.goal, LineEnd(d.text, end + 1) - (end + 1)))
  }

  function Insert(d: Doc, cap: nat, c: Byte): Doc
    requires InText(d)
  {
    if |d.text| >= cap then d else d.(text := d.text[..d.cursor] + [c] + d.text[d.cursor..], cursor := d.cursor + 1)
  }

  function Erase(d: Doc, at: int): Doc
    requires 0 <= at < |d.text|
  {
    d.(text := d.text[..at] + d.text[at + 1..])
  }

  function Changed(d: Doc): Doc { d.(dirty := true, goal := -1) }

  function Still(d: Doc): Doc { d.(goal := -1) }

  /** What one key does, and whether the editor is told the text changed. */
  function Key(d: Doc, cap: nat, ascii: int): (r: (Doc, bool))
    requires InText(d)
  {
    if ascii == KEY_LEFT then (Still(if d.cursor > 0 then d.(cursor := d.cursor - 1) else d), false)
    else if ascii == KEY_RIGHT then (Still(if d.cursor < |d.text| then d.(cursor := d.cursor + 1) else d), false)
    else if ascii == KEY_UP then (Up(d), false)
    else if ascii == KEY_DOWN then (Down(d), false)
    else if ascii == KEY_HOME then (Still(d.(cursor := LineStart(d.text, d.cursor))), false)
    else if ascii == KEY_END then (Still(d.(cursor := LineEnd(d.text, d.cursor))), false)
    else if ascii == KEY_DELETE then
      if d.cursor < |d.text| then (Changed(Erase(d, d.cursor)), true) else (Still(d), false)
    else if ascii == BACKSPACE then
      if d.cursor > 0 then (Changed(Erase(d.(cursor := d.cursor - 1), d.cursor - 1)), true) else (Still(d), false)
    else if ascii == ENTER then (Changed(Insert(d, cap, NEWLINE)), true)
    else if ascii == TAB then
      (Changed(Insert(Insert(Insert(Insert(d, cap, SPACE), cap, SPACE), cap, SPACE), cap, SPACE)), true)
    else if 32 <= ascii < 127 then (Changed(Insert(d, cap, ascii)), true)
    else (d, false)
  }

  lemma Inserted(t: seq<Byte>, t': seq<Byte>, at: nat, c: Byte)
    requires at <= |t| && |t'| == |t| + 1 && t'[at] == c
    requires (forall k :: 0 <= k < at ==> t'[k] == t[k]) && forall k :: at < k < |t'| ==> t'[k] == t[k - 1]
    ensures t' == t[..at] + [c] + t[at..]
  {
  }

  lemma Erased(t: seq<Byte>, t': seq<Byte>, at: nat)
    requires at < |t| && |t'| == |t| - 1
    requires (forall k :: 0 <= k < at ==> t'[k] == t[k]) && forall k :: at <= k < |t'| ==> t'[k] == t[k + 1]
    ensures t' == t[..at] + t[at + 1..]
  {
  }

  predicate Types(ascii: int) { ascii == ENTER || ascii == TAB || 32 <= ascii < 127 }

  /** Every key keeps the cursor in the text and the remembered column honest. */
  lemma KeyKeepsSticky(d: Doc, cap: nat, ascii: int)
    requires Sticky(d) && |d.text| <= cap
    ensures Sticky(Key(d, cap, ascii).0) && |Key(d, cap, ascii).0.text| <= cap
  {
    hide LineStart, LineEnd, Up, Down, Insert, Erase;
    if ascii == KEY_UP {
      UpLands(d);
    } else if ascii == KEY_DOWN {
      DownLands(d);
    } else {
      OtherKey(d, cap, ascii);
      FreeSticky(Key(d, cap, ascii).0);
    }
  }

  lemma FreeSticky(d: Doc)
    requires InText(d)
    ensures d.goal == -1 ==> Sticky(d)
  {
  }

  lemma InsertFits(d: Doc, cap: nat, c: Byte)
    requires InText(d) && |d.text| <= cap
    ensures InText(Insert(d, cap, c)) && |Insert(d, cap, c).text| <= cap
  {
  }

  lemma EraseFits(d: Doc, at: int)
    requires 0 <= at < |d.text|
    ensures |Erase(d, at).text| == |d.text| - 1 && Erase(d, at).cursor == d.cursor
  {
  }

  /** All other keys forget the column, or do nothing. */
  lemma OtherKey(d: Doc, cap: nat, ascii: int)
    requires InText(d) && |d.text| <= cap && ascii != KEY_UP && ascii != KEY_DOWN
    ensures var e := Key(d, cap, ascii).0; (e.goal == -1 || e == d) && InText(e) && |e.text| <= cap
  {
    hide LineStart, LineEnd, Up, Down, Insert, Erase;
    if ascii == TAB {
      var d1 := Insert(d, cap, SPACE);
      InsertFits(d, cap, SPACE);
      InsertFits(d1, cap, SPACE);
      InsertFits(Insert(d1, cap, SPACE), cap, SPACE);
      InsertFits(Insert(Insert(d1, cap, SPACE), cap, SPACE), cap, SPACE);
    } else if Types(ascii) {
      InsertFits(d, cap, ascii);
    } else if ascii == KEY_DELETE && d.cursor < |d.text| {
      EraseFits(d, d.cursor);
    } else if ascii == BACKSPACE && d.cursor > 0 {
      EraseFits(d.(cursor := d.cursor - 1), d.cursor - 1);
    }
  }

  /** A position in the line that starts at `start` and ends at `end`. */
  lemma InLine(t: seq<Byte>, start: nat, end: nat, c: nat)
    requires start <= c <= end <= |t| && (start == 0 || t[start - 1] == NEWLINE) && (end == |t| || t[end] == NEWLINE)
    requires forall k :: start <= k < end ==> t[k] != NEWLINE
    ensures LineStart(t, c) == start && LineEnd(t, c) == end
  {
    LineStartIs(t, c, start);
    LineEndIs(t, c, end);
  }

  /** In the line from `start` to `end`, as far right as the remembered column allows. */
  lemma Lands(d: Doc, start: nat, end: nat)
    requires start <= end <= |d.text| && d.goal >= 0 && d.cursor == start + Min(d.goal, end - start)
    requires (start == 0 || d.text[start - 1] == NEWLINE) && (end == |d.text| || d.text[end] == NEWLINE)
    requires forall k :: start <= k < end ==> d.text[k] != NEWLINE
    ensures Sticky(d) && LineStart(d.text, d.cursor) == start && LineEnd(d.text, d.cursor) == end
  {
    hide LineStart, LineEnd;
    InLine(d.text, start, end, d.cursor);
  }

  lemma GoalSticky(d: Doc)
    requires Sticky(d)
    ensures Sticky(WithGoal(d)) && WithGoal(d).goal >= 0
  {
    hide LineStart, LineEnd;
  }

  lemma UpLands(d: Doc)
    requires Sticky(d)
    ensures Sticky(Up(d)) && Up(d).goal == WithGoal(d).goal >= 0 && Up(d).text == d.text && WithGoal(Up(d)) == Up(d)
    ensures var start := LineStart(d.text, d.cursor);
      start > 0 ==> LineEnd(d.text, Up(d).cursor) == start - 1
  {
    hide LineStart, LineEnd, Sticky;
    GoalSticky(d);
    assert InText(d) by { StickyInText(d); }
    var start := LineStart(d.text, d.cursor);
    if start > 0 {
      Lands(Up(d), LineStart(d.text, start - 1), start - 1);
    }
  }

  lemma StickyInText(d: Doc)
    requires Sticky(d)
    ensures InText(d)
  {
    hide LineStart, LineEnd;
  }

  lemma DownLands(d: Doc)
    requires Sticky(d)
    ensures Sticky(Down(d)) && Down(d).goal == WithGoal(d).goal >= 0 && Down(d).text == d.text && WithGoal(Down(d)) == Down(d)
    ensures var end := LineEnd(d.text, d.cursor);
      end < |d.text| ==> LineStart(d.text, Down(d).cursor) == end + 1
  {
    hide LineStart, LineEnd, Sticky;
    GoalSticky(d);
    assert InText(d) by { StickyInText(d); }
    var end := LineEnd(d.text, d.cursor);
    if end < |d.text| {
      Lands(Down(d), end + 1, LineEnd(d.text, end + 1));
    }
  }

  // ---- down and up again ----

  predicate CanDown(d: Doc) { InText(d) && LineEnd(d.text, d.cursor) < |d.text| }

  predicate CanUp(d: Doc) { InText(d) && LineStart(d.text, d.cursor) > 0 }

  /** A move down that moved is undone by a move up, but for the column now remembered. */
  lemma DownUp(d: Doc)
    requires Sticky(d) && CanDown(d)
    ensures Sticky(Down(d)) && CanUp(Down(d)) && Up(Down(d)) == WithGoal(d)
  {
    hide LineStart, LineEnd;
    DownLands(d);
    var start, end := LineStart(d.text, d.cursor), LineEnd(d.text, d.cursor);
    LineStartIs(d.text, end, start);
  }

  lemma UpDown(d: Doc)
    requires Sticky(d) && CanUp(d)
    ensures Sticky(Up(d)) && CanDown(Up(d)) && Down(Up(d)) == WithGoal(d)
  {
    hide LineStart, LineEnd;
    UpLands(d);
    var start, end := LineStart(d.text, d.cursor), LineEnd(d.text, d.cursor);
    LineEndIs(d.text, start, end);
  }

  ghost function Ups(d: Doc, n: nat): Doc
    requires Sticky(d)
    ensures Sticky(Ups(d, n))
    decreases n
  {
    if n == 0 then d else
    UpLands(d);
    Ups(Up(d), n - 1)
  }

  ghost function Downs(d: Doc, n: nat): Doc
    requires Sticky(d)
    ensures Sticky(Downs(d, n))
    decreases n
  {
    if n == 0 then d else
    DownLands(d);
    Downs(Down(d), n - 1)
  }

  /** Each of `n` moves down moves. */
  ghost predicate AllDown(d: Doc, n: nat)
    requires Sticky(d)
    decreases n
  {
    n == 0 || (
      DownLands(d);
      CanDown(d) && AllDown(Down(d), n - 1))
  }

  ghost predicate AllUp(d: Doc, n: nat)
    requires Sticky(d)
    decreases n
  {
    n == 0 || (
      UpLands(d);
      CanUp(d) && AllUp(Up(d), n - 1))
  }

  lemma {:induction false} UpsLast(d: Doc, n: nat)
    requires Sticky(d)
    ensures Ups(d, n + 1) == Up(Ups(d, n))
    decreases n
  {
    UpLands(d);
    if n > 0 {
      UpsLast(Up(d), n - 1);
    }
  }

  lemma {:induction false} DownsLast(d: Doc, n: nat)
    requires Sticky(d)
    ensures Downs(d, n + 1) == Down(Downs(d, n))
    decreases n
  {
    DownLands(d);
    if n > 0 {
      DownsLast(Down(d), n - 1);
    }
  }

  /** However short the lines in between, as many moves up as down bring the cursor back where it was. */
  lemma {:induction false} DownsUps(d: Doc, n: nat)
    requires Sticky(d) && AllDown(d, n)
    ensures Ups(Downs(d, n), n) == if n == 0 then d else WithGoal(d)
    decreases n
  {
    hide Up, Down, Sticky, WithGoal;
    if n > 0 {
      DownLands(d);
      DownsUps(Down(d), n - 1);
      UpsLast(Downs(d, n), n - 1);
      DownUp(d);
    }
  }

  lemma {:induction false} UpsDowns(d: Doc, n: nat)
    requires Sticky(d) && AllUp(d, n)
    ensures Downs(Ups(d, n), n) == if n == 0 then d else WithGoal(d)
    decreases n
  {
    hide Up, Down, Sticky, WithGoal;
    if n > 0 {
      UpLands(d);
      UpsDowns(Up(d), n - 1);
      DownsLast(Ups(d, n), n - 1);
      UpDown(d);
    }
  }

  // ---- typing ----

  /** Backspace takes back the character just typed. */
  lemma TypeBackspace(d: Doc, cap: nat, ascii: int)
    requires InText(d) && |d.text| < cap && Types(ascii) && ascii != TAB
    ensures var e := Key(Key(d, cap, ascii).0, cap, BACKSPACE).0; e.text == d.text && e.cursor == d.cursor
  {
  }

  /** The editor is told of a change exactly when the text has changed, except for typing into a full buffer. */
  lemma ChangeReported(d: Doc, cap: nat, ascii: int)
    requires InText(d) && |d.text| <= cap
    ensures var (e, told) := Key(d, cap, ascii);
      (told <==> e.text != d.text) <==> !(Types(ascii) && |d.text| == cap)
  {
    hide LineStart, LineEnd;
    if ascii == KEY_DELETE && d.cursor < |d.text| {
      assert |Key(d, cap, ascii).0.text| == |d.text| - 1;
    } else if ascii == BACKSPACE && d.cursor > 0 {
      assert |Key(d, cap, ascii).0.text| == |d.text| - 1;
    } else if Types(ascii) && |d.text| < cap {
      assert |Key(d, cap, ascii).0.text| > |d.text|;
    }
  }

  // ---- in place ----

  class Buffer {
    const data: array<Byte>
    var len: int
    var cursor: int
    var goalCol: int
    var topLine: int
    var dirty: bool

    ghost predicate Valid()
      reads this
    {
      0 <= cursor <= len <= data.Length
    }

    ghost function Value(): (d: Doc)
      requires Valid()
      reads this, data
      ensures InText(d) && |d.text| <= data.Length
    {
      Doc(data[..len], cursor, goalCol, dirty)
    }

    constructor (capacity: nat)
      ensures Valid() && data.Length == capacity && Value() == Doc([], 0, -1, false) && topLine == 0 && fresh(data)
    {
      data := new Byte[capacity];
      len, cursor, goalCol, topLine, dirty := 0, 0, -1, 0, false;
    }

    /** editbuf_load: replaces everything by as much of `src` as fits. */
    method Load(src: seq<Byte>, length: nat)
      requires length <= |src|
      modifies this, data
      ensures Valid() && Value() == Doc(src[..Min(length, data.Length)], 0, -1, false) && topLine == 0
    {
      var n := Min(length, data.Length);
      var i := 0;
      while i < n
        invariant 0 <= i <= n && data[..i] == src[..i]
      {
        data[i] := src[i];
        i := i + 1;
      }
      len, cursor, goalCol, topLine, dirty := n, 0, -1, 0, false;
    }

    method FindLineStart(off: int) returns (i: int)
      requires Valid() && 0 <= off <= len
      ensures i == LineStart(data[..len], off)
    {
      i := off;
      while i > 0 && data[i - 1] != NEWLINE
        invariant 0 <= i <= off && LineStart(data[..len], off) == LineStart(data[..len], i)
      {
        i := i - 1;
      }
    }

    method FindLineEnd(off: int) returns (i: int)
      requires Valid() && 0 <= off <= len
      ensures i == LineEnd(data[..len], off)
    {
      i := off;
      while i < len && data[i] != NEWLINE
        invariant off <= i <= len && LineEnd(data[..len], off) == LineEnd(data[..len], i)
      {
        i := i + 1;
      }
    }

    method InsertByte(c: Byte)
      requires Valid()
      modifies this`len, this`cursor, data
      ensures Valid() && Value() == Insert(old(Value()), data.Length, c)
    {
      if len >= data.Length {
        return;
      }
      var i := len;
      while i > cursor
        invariant cursor <= i <= len && len == old(len) && cursor == old(cursor)
        invariant forall k :: 0 <= k < i ==> data[k] == old(data[k])
        invariant forall k :: i < k <= len ==> data[k] == old(data[k - 1])
      {
        data[i] := data[i - 1];
        i := i - 1;
      }
      data[cursor] := c;
      cursor := cursor + 1;
      len := len + 1;
      Inserted(old(data[..len]), data[..len], cursor - 1, c);
    }

    method InsertTab()
      requires Valid()
      modifies this`len, this`cursor, data
      ensures var d, cap := old(Value()), data.Length;
        Valid() && Value() == Insert(Insert(Insert(Insert(d, cap, SPACE), cap, SPACE), cap, SPACE), cap, SPACE)
    {
      hide Insert;
      InsertByte(SPACE);
      InsertByte(SPACE);
      InsertByte(SPACE);
      InsertByte(SPACE);
    }

    method EraseAt(at: int)
      requires Valid() && 0 <= at < len && cursor < len
      modifies this`len, data
      ensures Valid() && Value() == Erase(old(Value()), at)
    {
      var i := at;
      while i < len - 1
        invariant at <= i <= len - 1 && len == old(len)
        invariant forall k :: 0 <= k < at || i <= k < len ==> data[k] == old(data[k])
        invariant forall k :: at <= k < i ==> data[k] == old(data[k + 1])
      {
        data[i] := data[i + 1];
        i := i + 1;
      }
      len := len - 1;
      Erased(old(data[..len]), data[..len], at);
    }

    method MoveUp()
      requires Valid() && goalCol >= -1
      modifies this`cursor, this`goalCol
      ensures Valid() && Value() == Up(old(Value()))
    {
      hide LineStart, LineEnd;
      ghost var d := Value();
      var start := FindLineStart(cursor);
      if goalCol < 0 {
        goalCol := cursor - start;
      }
      assert Value() == WithGoal(d);
      if start == 0 {
        return;
      }
      var above := FindLineStart(start - 1);
      var length := start - 1 - above;
      cursor := above + (if goalCol < length then goalCol else length);
    }

    method MoveDown()
      requires Valid() && goalCol >= -1
      modifies this`cursor, this`goalCol
      ensures Valid() && Value() == Down(old(Value()))
    {
      hide LineStart, LineEnd;
      ghost var d := Value();
      if goalCol < 0 {
        var start := FindLineStart(cursor);
        goalCol := cursor - start;
      }
      assert Value() == WithGoal(d);
      var end := FindLineEnd(cursor);
      if end >= len {
        return;
      }
      var nextEnd := FindLineEnd(end + 1);
      var length := nextEnd - (end + 1);
      cursor := end + 1 + (if goalCol < length then goalCol else length);
      assert Value() == WithGoal(d).(cursor := end + 1 + Min(WithGoal(d).goal, nextEnd - (end + 1)));
    }

    method DeleteForward() returns (told: bool)
      requires Valid()
      modifies this`len, this`goalCol, this`dirty, data
      ensures Valid() && (Value(), told) == Key(old(Value()), data.Length, KEY_DELETE)
    {
      hide LineStart, LineEnd, Up, Down, Insert;
      goalCol := -1;
      if cursor < len {
        EraseAt(cursor);
        dirty := true;
        return true;
      }
      return false;
    }

    method DeleteBack() returns (told: bool)
      requires Valid()
      modifies this`len, this`cursor, this`goalCol, this`dirty, data
      ensures Valid() && (Value(), told) == Key(old(Value()), data.Length, BACKSPACE)
    {
      hide LineStart, LineEnd, Up, Down, Insert;
      goalCol := -1;
      if cursor > 0 {
        cursor := cursor - 1;
        EraseAt(cursor);
        dirty := true;
        return true;
      }
      return false;
    }

    /** editbuf_key. */
    method KeyPressed(ascii: int) returns (told: bool)
      requires Valid() && goalCol >= -1
      modifies this, data
      ensures Valid() && topLine == old(topLine) && (Value(), told) == Key(old(Value()), data.Length, ascii)
    {
      hide LineStart, LineEnd, Up, Down, Insert, Erase;
      if ascii == KEY_LEFT {
        if cursor > 0 {
          cursor := cursor - 1;
        }
        goalCol := -1;
        return false;
      } else if ascii == KEY_RIGHT {
        if cursor < len {
          cursor := cursor + 1;
        }
        goalCol := -1;
        return false;
      } else if ascii == KEY_UP {
        MoveUp();
        return false;
      } else if ascii == KEY_DOWN {
        MoveDown();
        return false;
      } else if ascii == KEY_HOME {
        cursor := FindLineStart(cursor);
        goalCol := -1;
        return false;
      } else if ascii == KEY_END {
        cursor := FindLineEnd(cursor);
        goalCol := -1;
        return false;
      } else if ascii == KEY_DELETE {
        told := DeleteForward();
        return;
      } else if ascii == BACKSPACE {
        told := DeleteBack();
        return;
      } else if ascii == ENTER {
        InsertByte(NEWLINE);
      } else if ascii == TAB {
        InsertTab();
      } else if 32 <= ascii < 127 {
        InsertByte(ascii);
      } else {
        return false;
      }
      dirty := true;
      goalCol := -1;
      return true;
    }
  }
}
