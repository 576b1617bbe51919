/** Showing the text buffer: a grid of characters, and the lines of the text it shows. */
module EditView {
  import opened Words
  import opened EditBuf

  // ---- lines ----

  /** The lines of a text: what lies between its newlines. */
  function Lines(t: seq<Byte>): (lines: seq<seq<Byte>>)
    ensures |lines| > 0
    decreases |t|
  {
    if t == [] then [[]] else
    var n := |t| - 1;
    var before := Lines(t[..n]);
    if t[n] == NEWLINE then before + [[]]
    else before[..|before| - 1] + [before[|before| - 1] + [t[n]]]
  }

  function LastLine(t: seq<Byte>): seq<Byte> { Lines(t)[|Lines(t)| - 1] }

  /** The lines with a newline between each two. */
  function Joined(lines: seq<seq<Byte>>): seq<Byte>
    requires |lines| > 0
  {
    if |lines| == 1 then lines[0] else Joined(lines[..|lines| - 1]) + [NEWLINE] + lines[|lines| - 1]
  }

  /** Splitting is exact: no line holds a newline, and joining the lines gives the text back. */
  lemma {:induction false} LinesSplit(t: seq<Byte>)
    ensures Joined(Lines(t)) == t && forall l :: 0 <= l < |Lines(t)| ==> NEWLINE !in Lines(t)[l]
    decreases |t|
  {
    hide Joined;
    if t == [] {
      JoinedOne([]);
    } else {
      var n := |t| - 1;
      LinesSplit(t[..n]);
      var before := Lines(t[..n]);
      assert t == t[..n] + [t[n]];
      if t[n] == NEWLINE {
        JoinedNewLine(before);
      } else {
        JoinedLonger(before, t[n]);
      }
    }
  }

  lemma JoinedOne(line: seq<Byte>)
    ensures Joined([line]) == line
  {
  }

  lemma JoinedNewLine(lines: seq<seq<Byte>>)
    requires |lines| > 0
    ensures Joined(lines + [[]]) == Joined(lines) + [NEWLINE]
  {
    assert (lines + [[]])[..|lines|] == lines;
  }

  lemma JoinedLonger(lines: seq<seq<Byte>>, c: Byte)
    requires |lines| > 0
    ensures Joined(lines[..|lines| - 1] + [lines[|lines| - 1] + [c]]) == Joined(lines) + [c]
  {
    var first, last := lines[..|lines| - 1], lines[|lines| - 1];
    var longer := first + [last + [c]];
    assert longer[..|lines| - 1] == first;
    if first != [] {
      assert Joined(longer) == Joined(first) + [NEWLINE] + (last + [c]);
      assert Joined(lines) + [c] == Joined(first) + [NEWLINE] + last + [c];
    }
  }

  /** Reading on only adds to the last line and appends new ones. */
  lemma {:induction false} LinesGrow(t: seq<Byte>, k: nat)
    requires k <= |t|
    ensures var p := Lines(t[..k]);
      |p| <= |Lines(t)| && (forall l :: 0 <= l < |p| - 1 ==> Lines(t)[l] == p[l]) && p[|p| - 1] <= Lines(t)[|p| - 1]
    decreases |t| - k
  {
    if k == |t| {
      assert t[..k] == t;
    } else {
      LinesGrow(t, k + 1);
      assert t[..k + 1][..k] == t[..k];
    }
  }

  // ---- the grid ----

  function Cell(r: nat, c: nat, cols: nat): nat { r * (cols + 1) + c }

  lemma CellInside(r: nat, c: nat, rows: nat, cols: nat)
    requires r < rows && c <= cols
    ensures Cell(r, c, cols) < rows * (cols + 1)
  {
    MulOrder(r + 1, rows, cols + 1);
  }

  lemma CellApart(r: nat, c: nat, r': nat, c': nat, cols: nat)
    requires c <= cols && c' <= cols
    ensures Cell(r, c, cols) == Cell(r', c', cols) <==> r == r' && c == c'
  {
    if r < r' {
      MulOrder(r + 1, r', cols + 1);
    } else if r' < r {
      MulOrder(r' + 1, r, cols + 1);
    }
  }

  /** Rows of text, each with a terminator after its last column. */
  class Grid {
    const rows: nat
    const cols: nat
    const cells: array<Byte>
    var cursorRow: int
    var cursorCol: int

    ghost predicate Valid() { cells.Length == rows * (cols + 1) }

    ghost predicate Inside(r: int, c: int) { 0 <= r < rows && 0 <= c <= cols }

    ghost function At(r: nat, c: nat): Byte
      requires Valid() && Inside(r, c)
      reads cells
    {
      CellInside(r, c, rows, cols);
      cells[Cell(r, c, cols)]
    }

    constructor (cols: nat, rows: nat)
      ensures Valid() && this.rows == rows && this.cols == cols && fresh(cells)
    {
      this.rows, this.cols := rows, cols;
      cells := new Byte[rows * (cols + 1)];
      cursorRow, cursorCol := 0, 0;
    }

    method Put(r: nat, c: nat, b: Byte)
      requires Valid() && Inside(r, c)
      modifies cells
      ensures forall r', c' :: Inside(r', c') ==> At(r', c') == if r' == r && c' == c then b else old(At(r', c'))
    {
      CellInside(r, c, rows, cols);
      cells[r * (cols + 1) + c] := b;
      forall r', c' | Inside(r', c')
        ensures At(r', c') == if r' == r && c' == c then b else old(At(r', c'))
      {
        CellInside(r', c', rows, cols);
        CellApart(r, c, r', c', cols);
      }
    }

    /** textbox_clear. */
    method Clear()
      requires Valid()
      modifies this, cells
      ensures forall r, c :: Inside(r, c) ==> At(r, c) == if c == cols then 0 else SPACE
      ensures cursorRow == 0 && cursorCol == 0
    {
      var r := 0;
      while r < rows
        invariant 0 <= r <= rows
        invariant forall r', c :: Inside(r', c) && r' < r ==> At(r', c) == if c == cols then 0 else SPACE
      {
        var c := 0;
        while c < cols
          invariant 0 <= c <= cols
          invariant forall r', c' :: Inside(r', c') && r' < r ==> At(r', c') == if c' == cols then 0 else SPACE
          invariant forall c' :: 0 <= c' < c ==> At(r, c') == SPACE
        {
          Put(r, c, SPACE);
          c := c + 1;
        }
        Put(r, cols, 0);
        r := r + 1;
      }
      cursorRow, cursorCol := 0, 0;
    }

    /** Cell (r, c) is character `c` of line `top + r`, or a space; each row ends in a terminator. */
    ghost predicate Shows(lines: seq<seq<Byte>>, top: int)
      requires Valid()
      reads cells
    {
      && forall r, c :: Inside(r, c) ==> At(r, c) == if c == cols then 0 else Glyph(lines, top + r, c)
    }
  }

  function Glyph(lines: seq<seq<Byte>>, l: int, c: nat): Byte {
    if 0 <= l < |lines| && c < |lines[l]| then lines[l][c] else SPACE
  }

  // ---- rendering ----

  /** The first line shown: moved just far enough to have line `cur` in view. */
  function NewTop(top: int, cur: int, rows: int): int {
    var t1 := if cur < top then cur else top;
    var t2 := if cur >= t1 + rows then cur - rows + 1 else t1;
    if t2 < 0 then 0 else t2
  }

  lemma InView(top: int, cur: int, rows: int)
    requires cur >= 0 && rows >= 0
    ensures var t := NewTop(top, cur, rows); 0 <= t <= cur + 1 && (rows > 0 ==> t <= cur < t + rows)
    ensures 0 <= top <= cur < top + rows ==> NewTop(top, cur, rows) == top
  {
  }

  /** One more character, on the last line so far or ending it. */
  lemma LinesNext(t: seq<Byte>, k: nat)
    requires k < |t|
    ensures var p := Lines(t[..k]);
      Lines(t[..k + 1]) == if t[k] == NEWLINE then p + [[]] else p[..|p| - 1] + [p[|p| - 1] + [t[k]]]
  {
    assert t[..k + 1][..k] == t[..k];
  }

  /** editbuf_render. */
  method Render(eb: Buffer, tb: Grid)
    requires eb.Valid() && tb.Valid() && eb.data != tb.cells
    modifies eb`topLine, tb, tb.cells
    ensures eb.Valid() && eb.Value() == old(eb.Value())
    ensures var line := |Lines(eb.Value().text[..eb.cursor])| - 1;
      && eb.topLine == NewTop(old(eb.topLine), line, tb.rows)
      && tb.Shows(Lines(eb.Value().text), eb.topLine)
      && tb.cursorRow == line - eb.topLine && (tb.rows > 0 ==> 0 <= tb.cursorRow < tb.rows)
      && tb.cursorCol == Min(|LastLine(eb.Value().text[..eb.cursor])|, tb.cols - 1)
  {
    hide Lines, Glyph;
    ghost var t := eb.Value().text;
    var curLine, curCol := FindCursor(eb);
    eb.topLine := NewTopOf(eb.topLine, curLine, tb.rows);
    tb.Clear();
    LinesGrow(t, eb.cursor);
    InView(old(eb.topLine), curLine, tb.rows);
    var offset := FindLine(eb, eb.topLine);
    ShowText(eb, tb, offset);
    tb.cursorRow := curLine - eb.topLine;
    tb.cursorCol := if curCol < tb.cols then curCol else tb.cols - 1;
  }

  method NewTopOf(top: int, cur: int, rows: int) returns (t: int)
    ensures t == NewTop(top, cur, rows)
  {
    t := top;
    if cur < t {
      t := cur;
    }
    if cur >= t + rows {
      t := cur - rows + 1;
    }
    if t < 0 {
      t := 0;
    }
  }

  /** The line and column of the cursor. */
  method FindCursor(eb: Buffer) returns (curLine: int, curCol: int)
    requires eb.Valid()
    ensures var before := eb.Value().text[..eb.cursor];
      curLine == |Lines(before)| - 1 && curCol == |LastLine(before)|
  {
    hide Lines;
    ghost var t := eb.Value().text;
    curLine := 0;
    var lineBegin := 0;
    EmptyLines(t);
    var i := 0;
    while i < eb.cursor
      invariant 0 <= i <= eb.cursor && curLine == |Lines(t[..i])| - 1 && i - lineBegin == |LastLine(t[..i])|
    {
      LinesNext(t, i);
      if eb.data[i] == NEWLINE {
        curLine := curLine + 1;
        lineBegin := i + 1;
      }
      i := i + 1;
    }
    curCol := eb.cursor - lineBegin;
  }

  lemma EmptyLines(t: seq<Byte>)
    ensures t[..0] == [] && Lines(t[..0]) == [[]]
  {
  }

  /** Where line `top` starts. */
  method FindLine(eb: Buffer, top: int) returns (offset: int)
    requires eb.Valid() && 0 <= top
    ensures 0 <= offset <= eb.len
    ensures top < |Lines(eb.Value().text)| ==>
      var before := eb.Value().text[..offset]; |Lines(before)| == top + 1 && LastLine(before) == []
  {
    hide Lines;
    ghost var t := eb.Value().text;
    offset := 0;
    var line := 0;
    EmptyLines(t);
    while line < top && offset < eb.len
      invariant 0 <= offset <= eb.len && line == |Lines(t[..offset])| - 1 <= top
      invariant line == top ==> LastLine(t[..offset]) == []
    {
      LinesNext(t, offset);
      if eb.data[offset] == NEWLINE {
        line := line + 1;
      }
      offset := offset + 1;
    }
    assert t[..|t|] == t;
  }

  /** Fills the cleared grid from `start`, where line `topLine` starts. */
  method ShowText(eb: Buffer, tb: Grid, start: int)
    requires eb.Valid() && tb.Valid() && eb.data != tb.cells && 0 <= start <= eb.len && eb.topLine >= 0
    requires tb.rows > 0 ==> var before := eb.Value().text[..start]; |Lines(before)| == eb.topLine + 1 && LastLine(before) == []
    requires forall r, c :: tb.Inside(r, c) ==> tb.At(r, c) == if c == tb.cols then 0 else SPACE
    modifies tb.cells
    ensures eb.Value() == old(eb.Value()) && tb.Shows(Lines(eb.Value().text), eb.topLine)
  {
    hide Lines;
    ghost var t, top := eb.Value().text, eb.topLine;
    var offset := start;
    var row, col := 0, 0;
    while offset < eb.len && row < tb.rows
      invariant start <= offset <= eb.len && eb.Value().text == t && 0 <= row <= tb.rows
      invariant tb.rows > 0 ==> row == |Lines(t[..offset])| - 1 - top && col == |LastLine(t[..offset])|
      invariant 0 <= col && tb.Shows(Lines(t[..offset]), top)
    {
      var c := eb.data[offset];
      LinesNext(t, offset);
      if c == NEWLINE {
        row := row + 1;
        col := 0;
      } else {
        if col < tb.cols {
          tb.Put(row, col, c);
        }
        col := col + 1;
      }
      offset := offset + 1;
    }
    LinesGrow(t, offset);
    assert t[..|t|] == t;
  }
}
