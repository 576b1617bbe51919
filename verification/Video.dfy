/** Drawing on a 16-colour planar screen: four bit planes, eight pixels to a byte. */
module Video {
  import opened Words

  const SCREEN_W := 640
  const SCREEN_H := 480
  const BYTES_PER_ROW := 80
  const PLANE_SIZE := 38400

  type Plane = s: seq<bv8> | |s| == PLANE_SIZE witness Blank()
  type Frame = f: seq<Plane> | |f| == 4 witness [Blank(), Blank(), Blank(), Blank()]

  function Blank(): (s: seq<bv8>)
    ensures |s| == PLANE_SIZE
  {
    seq(PLANE_SIZE, _ => 0)
  }

  // ---- bits ----

  /** The bit of pixel `k` in its byte, leftmost first. */
  function BitOf(k: nat): bv8
    requires k < 8
  {
    0x80 >> k
  }

  /** Pixels `a` to `b` of a byte. */
  function RunMask(a: nat, b: nat): bv8
    requires a < 8 && b < 8
  {
    (0xFF >> a) & (0xFF << (7 - b))
  }

  /** The byte of one plane after a write: `on` where the mask lets it through, `old` elsewhere. */
  function Blend(before: bv8, mask: bv8, on: bool): bv8 { (if on then mask else 0) | (before & !mask) }

  lemma BlendTwice(b: bv8, m: bv8, n: bv8, on: bool)
    ensures Blend(Blend(b, m, on), n, on) == Blend(b, m | n, on)
  {
  }

  lemma RunOne(a: nat)
    requires a < 8
    ensures RunMask(a, a) == BitOf(a)
  {
  }

  lemma RunMore(a: nat, b: nat)
    requires a <= b < 7
    ensures RunMask(a, b) | BitOf(b + 1) == RunMask(a, b + 1)
  {
  }

  lemma RunEnds(a: nat)
    requires a < 8
    ensures RunMask(a, 7) == 0xFF >> a && RunMask(0, a) == 0xFF << (7 - a) && RunMask(0, 7) == 0xFF
  {
  }

  function ColorBit(color: bv8, p: nat): bool
    requires p < 4
  {
    color & (1 << p) != 0
  }

  // ---- drawing, pixel by pixel ----

  predicate OnScreen(x: int, y: int) { 0 <= x < SCREEN_W && 0 <= y < SCREEN_H }

  /** The byte that holds a pixel. */
  function ByteOf(x: int, y: int): (off: nat)
    requires OnScreen(x, y)
    ensures off < PLANE_SIZE
  {
    y * BYTES_PER_ROW + x / 8
  }

  /** The frame after one byte has been written through `mask` in all four planes. */
  function PutByte(f: Frame, off: nat, mask: bv8, color: bv8): Frame
    requires off < PLANE_SIZE
  {
    [f[0][off := Blend(f[0][off], mask, ColorBit(color, 0))], f[1][off := Blend(f[1][off], mask, ColorBit(color, 1))],
     f[2][off := Blend(f[2][off], mask, ColorBit(color, 2))], f[3][off := Blend(f[3][off], mask, ColorBit(color, 3))]]
  }

  /** The frame after one pixel is drawn; off the screen, nothing. */
  function Plot(f: Frame, x: int, y: int, color: bv8): Frame {
    if OnScreen(x, y) then PutByte(f, ByteOf(x, y), BitOf(x % 8), color) else f
  }

  /** The frame after `w` pixels are drawn from left to right. */
  function PlotRow(f: Frame, x: int, y: int, w: int, color: bv8): Frame
    decreases w
  {
    if w <= 0 then f else Plot(PlotRow(f, x, y, w - 1, color), x + w - 1, y, color)
  }

  /** The frame after every pixel of a rectangle is drawn, row by row. */
  function PlotRect(f: Frame, x: int, y: int, w: int, h: int, color: bv8): Frame
    decreases h
  {
    if h <= 0 then f else PlotRow(PlotRect(f, x, y, w, h - 1, color), x, y + h - 1, w, color)
  }

  function PixelBit(f: Frame, p: nat, x: int, y: int): bool
    requires p < 4 && OnScreen(x, y)
  {
    f[p][ByteOf(x, y)] & BitOf(x % 8) != 0
  }

  // ---- what drawing does to the picture ----

  lemma BitsApart(j: nat, k: nat, b: bv8, on: bool)
    requires j < 8 && k < 8
    ensures Blend(b, BitOf(j), on) & BitOf(k) != 0 <==> if j == k then on else b & BitOf(k) != 0
  {
  }

  lemma SamePlace(x: int, y: int, x': int, y': int)
    requires OnScreen(x, y) && OnScreen(x', y')
    ensures ByteOf(x, y) == ByteOf(x', y') && x % 8 == x' % 8 <==> x == x' && y == y'
  {
  }

  lemma PutByteAt(f: Frame, off: nat, mask: bv8, color: bv8, p: nat, o: nat)
    requires off < PLANE_SIZE && o < PLANE_SIZE && p < 4
    ensures PutByte(f, off, mask, color)[p][o] == if o == off then Blend(f[p][o], mask, ColorBit(color, p)) else f[p][o]
  {
    hide Blend, ColorBit;
  }

  lemma PutPixel(f: Frame, off: nat, j: nat, color: bv8, p: nat, o: nat, k: nat)
    requires off < PLANE_SIZE && o < PLANE_SIZE && p < 4 && j < 8 && k < 8
    ensures PutByte(f, off, BitOf(j), color)[p][o] & BitOf(k) != 0 <==>
      if o == off && j == k then ColorBit(color, p) else f[p][o] & BitOf(k) != 0
  {
    hide Blend, BitOf, ColorBit, PutByte;
    PutByteAt(f, off, BitOf(j), color, p, o);
    BitsApart(j, k, f[p][o], ColorBit(color, p));
  }

  /** Drawing a pixel gives it its colour and changes no other. */
  lemma PlotPixel(f: Frame, x: int, y: int, color: bv8, p: nat, x': int, y': int)
    requires p < 4 && OnScreen(x', y')
    ensures PixelBit(Plot(f, x, y, color), p, x', y') ==
      if x == x' && y == y' then ColorBit(color, p) else PixelBit(f, p, x', y')
  {
    hide Blend, BitOf, ColorBit, ByteOf, PutByte;
    if OnScreen(x, y) {
      PutPixel(f, ByteOf(x, y), x % 8, color, p, ByteOf(x', y'), x' % 8);
      SamePlace(x, y, x', y');
    }
  }

  lemma {:induction false} RowPixel(f: Frame, x: int, y: int, w: int, color: bv8, p: nat, x': int, y': int)
    requires p < 4 && OnScreen(x', y')
    ensures PixelBit(PlotRow(f, x, y, w, color), p, x', y') ==
      if x <= x' < x + w && y == y' then ColorBit(color, p) else PixelBit(f, p, x', y')
    decreases w
  {
    hide Plot, PixelBit, ColorBit;
    if w > 0 {
      RowPixel(f, x, y, w - 1, color, p, x', y');
      PlotPixel(PlotRow(f, x, y, w - 1, color), x + w - 1, y, color, p, x', y');
    }
  }

  /** A filled rectangle: all pixels of the screen inside it have the colour, all others are as before. */
  lemma {:induction false} RectPixel(f: Frame, x: int, y: int, w: int, h: int, color: bv8, p: nat, x': int, y': int)
    requires p < 4 && OnScreen(x', y')
    ensures PixelBit(PlotRect(f, x, y, w, h, color), p, x', y') ==
      if x <= x' < x + w && y <= y' < y + h then ColorBit(color, p) else PixelBit(f, p, x', y')
    decreases h
  {
    hide PlotRow, PixelBit, ColorBit;
    if h > 0 {
      RectPixel(f, x, y, w, h - 1, color, p, x', y');
      RowPixel(PlotRect(f, x, y, w, h - 1, color), x, y + h - 1, w, color, p, x', y');
    }
  }

  // ---- whole bytes at a time ----

  lemma PlaneTwice(s: Plane, off: nat, m: bv8, n: bv8, on: bool)
    requires off < PLANE_SIZE
    ensures var t := s[off := Blend(s[off], m, on)]; t[off := Blend(t[off], n, on)] == s[off := Blend(s[off], m | n, on)]
  {
    hide Blend;
    BlendTwice(s[off], m, n, on);
  }

  lemma PutTwice(f: Frame, off: nat, m: bv8, n: bv8, color: bv8)
    requires off < PLANE_SIZE
    ensures PutByte(PutByte(f, off, m, color), off, n, color) == PutByte(f, off, m | n, color)
  {
    hide Blend, ColorBit;
    PlaneTwice(f[0], off, m, n, ColorBit(color, 0));
    PlaneTwice(f[1], off, m, n, ColorBit(color, 1));
    PlaneTwice(f[2], off, m, n, ColorBit(color, 2));
    PlaneTwice(f[3], off, m, n, ColorBit(color, 3));
  }

  /** Pixels of one byte, drawn one by one or at once. */
  lemma {:induction false} RowInByte(f: Frame, x: int, y: int, w: int, color: bv8)
    requires OnScreen(x, y) && 0 < w && x % 8 + w <= 8 && x + w <= SCREEN_W
    ensures PlotRow(f, x, y, w, color) == PutByte(f, ByteOf(x, y), RunMask(x % 8, x % 8 + w - 1), color)
    decreases w
  {
    hide RunMask, BitOf, PutByte, ColorBit;
    if w == 1 {
      RunOne(x % 8);
      assert PlotRow(f, x, y, 0, color) == f;
    } else {
      RowInByte(f, x, y, w - 1, color);
      RunMore(x % 8, x % 8 + w - 2);
      assert (x + w - 1) / 8 == x / 8 && (x + w - 1) % 8 == x % 8 + w - 1;
      PutTwice(f, ByteOf(x, y), RunMask(x % 8, x % 8 + w - 2), BitOf(x % 8 + w - 1), color);
    }
  }

  lemma {:induction false} RowSplit(f: Frame, x: int, y: int, a: int, b: int, color: bv8)
    requires a >= 0 && b >= 0
    ensures PlotRow(f, x, y, a + b, color) == PlotRow(PlotRow(f, x, y, a, color), x + a, y, b, color)
    decreases b
  {
    hide Plot;
    if b > 0 {
      RowSplit(f, x, y, a, b - 1, color);
    }
  }

  lemma {:induction false} RectSplit(f: Frame, x: int, y: int, w: int, a: int, b: int, color: bv8)
    requires a >= 0 && b >= 0
    ensures PlotRect(f, x, y, w, a + b, color) == PlotRect(PlotRect(f, x, y, w, a, color), x, y + a, w, b, color)
    decreases b
  {
    hide PlotRow;
    if b > 0 {
      RectSplit(f, x, y, w, a, b - 1, color);
    }
  }

  // ---- clipping ----

  lemma {:induction false} RowOutside(f: Frame, x: int, y: int, w: int, color: bv8)
    requires y < 0 || y >= SCREEN_H || x + w <= 0 || x >= SCREEN_W || w <= 0
    ensures PlotRow(f, x, y, w, color) == f
    decreases w
  {
    if w > 0 {
      RowOutside(f, x, y, w - 1, color);
    }
  }

  /** The columns off the screen change nothing. */
  lemma RowClip(f: Frame, x: int, y: int, w: int, color: bv8)
    requires w > 0
    ensures var l := if x < 0 then 0 else x; var r := if x + w > SCREEN_W then SCREEN_W else x + w;
      PlotRow(f, x, y, w, color) == PlotRow(f, l, y, r - l, color)
  {
    hide Plot, PlotRow;
    var l := if x < 0 then 0 else x;
    var r := if x + w > SCREEN_W then SCREEN_W else x + w;
    if r <= l {
      RowOutside(f, x, y, w, color);
      RowOutside(f, l, y, r - l, color);
    } else {
      RowSplit(f, x, y, l - x, x + w - l, color);
      RowOutside(f, x, y, l - x, color);
      RowSplit(f, l, y, r - l, x + w - r, color);
      RowOutside(PlotRow(f, l, y, r - l, color), r, y, x + w - r, color);
    }
  }

  lemma {:induction false} RectColumns(f: Frame, x: int, y: int, w: int, h: int, color: bv8)
    requires w > 0
    ensures var l := if x < 0 then 0 else x; var r := if x + w > SCREEN_W then SCREEN_W else x + w;
      PlotRect(f, x, y, w, h, color) == PlotRect(f, l, y, r - l, h, color)
    decreases h
  {
    hide PlotRow;
    if h > 0 {
      RectColumns(f, x, y, w, h - 1, color);
      RowClip(PlotRect(f, x, y, w, h - 1, color), x, y + h - 1, w, color);
    }
  }

  lemma {:induction false} RectOutside(f: Frame, x: int, y: int, w: int, h: int, color: bv8)
    requires y + h <= 0 || y >= SCREEN_H || w <= 0 || h <= 0
    ensures PlotRect(f, x, y, w, h, color) == f
    decreases h
  {
    hide Plot;
    if h > 0 {
      RectOutside(f, x, y, w, h - 1, color);
      if w > 0 {
        RowOutside(f, x, y + h - 1, w, color);
      }
    }
  }

  lemma RectRows(f: Frame, x: int, y: int, w: int, h: int, color: bv8)
    requires h > 0
    ensures var top := if y < 0 then 0 else y; var bottom := if y + h > SCREEN_H then SCREEN_H else y + h;
      PlotRect(f, x, y, w, h, color) == PlotRect(f, x, top, w, bottom - top, color)
  {
    hide PlotRect;
    var top := if y < 0 then 0 else y;
    var bottom := if y + h > SCREEN_H then SCREEN_H else y + h;
    if bottom <= top {
      RectOutside(f, x, y, w, h, color);
      RectOutside(f, x, top, w, bottom - top, color);
    } else {
      RectSplit(f, x, y, w, top - y, y + h - top, color);
      RectOutside(f, x, y, w, top - y, color);
      RectSplit(f, x, top, w, bottom - top, y + h - bottom, color);
      RectOutside(PlotRect(f, x, top, w, bottom - top, color), x, bottom, w, y + h - bottom, color);
    }
  }

  /** The next `n` pixels of a row, all in one byte. */
  lemma RowStep(f: Frame, x: int, y: int, done: int, n: int, color: bv8)
    requires done >= 0 && OnScreen(x + done, y) && 0 < n && (x + done) % 8 + n <= 8 && x + done + n <= SCREEN_W
    ensures PlotRow(f, x, y, done + n, color) ==
      PutByte(PlotRow(f, x, y, done, color), ByteOf(x + done, y), RunMask((x + done) % 8, (x + done) % 8 + n - 1), color)
  {
    hide PutByte, PlotRow, RunMask;
    RowSplit(f, x, y, done, n, color);
    RowInByte(PlotRow(f, x, y, done, color), x + done, y, n, color);
  }

  lemma LowBits(color: bv8, p: nat)
    requires p < 4
    ensures ColorBit(color & 0x0F, p) == ColorBit(color, p) && ColorBit(0x0F, p)
  {
  }

  lemma NoColor()
    ensures forall p :: 0 <= p < 4 ==> !ColorBit(0, p)
  {
  }

  lemma PixelIs(f: Frame, p: nat, x: int, y: int)
    requires p < 4 && OnScreen(x, y)
    ensures PixelBit(f, p, x, y) <==> f[p][y * BYTES_PER_ROW + x / 8] & (0x80 >> (x % 8)) != 0
  {
  }

  lemma AddBit(color: bv8, q: nat)
    requires q < 4 && color < 16
    ensures color | (1 << q) < 16
    ensures forall p :: 0 <= p < 4 ==> (ColorBit(color | (1 << q), p) <==> p == q || ColorBit(color, p))
  {
    forall p | 0 <= p < 4
      ensures ColorBit(color | (1 << q), p) <==> p == q || ColorBit(color, p)
    {
      AddOneBit(color, q, p);
    }
  }

  lemma AddOneBit(color: bv8, q: nat, p: nat)
    requires p < 4 && q < 4
    ensures ColorBit(color | (1 << q), p) <==> p == q || ColorBit(color, p)
  {
  }

  // ---- the adapter ----

  /** The adapter in write mode 0: a read loads the latches, a write goes through map mask, set/reset and bit mask. */
  class Vga {
    var frame: Frame
    var mapMask: bv8
    var setReset: bv8
    var enableSetReset: bv8
    var bitMask: bv8
    var latch: seq<bv8>

    ghost predicate Valid()
      reads this
    {
      |latch| == 4
    }

    constructor (f: Frame)
      ensures Valid() && frame == f
    {
      frame := f;
      mapMask, setReset, enableSetReset, bitMask := 0x0F, 0, 0, 0xFF;
      latch := [0, 0, 0, 0];
    }

    method Read(off: nat)
      requires off < PLANE_SIZE
      modifies this`latch
      ensures latch == [frame[0][off], frame[1][off], frame[2][off], frame[3][off]]
    {
      latch := [frame[0][off], frame[1][off], frame[2][off], frame[3][off]];
    }

    /** What reaches plane `p` when `value` is written. */
    function Stored(p: nat, value: bv8, before: bv8): bv8
      requires p < 4 && Valid()
      reads this
    {
      if !ColorBit(mapMask, p) then before else
      var data := if ColorBit(enableSetReset, p) then (if ColorBit(setReset, p) then 0xFF else 0) else value;
      (data & bitMask) | (latch[p] & !bitMask)
    }

    method Write(off: nat, value: bv8)
      requires off < PLANE_SIZE && Valid()
      modifies this`frame
      ensures frame == [
        old(frame[0])[off := old(Stored(0, value, frame[0][off]))], old(frame[1])[off := old(Stored(1, value, frame[1][off]))],
        old(frame[2])[off := old(Stored(2, value, frame[2][off]))], old(frame[3])[off := old(Stored(3, value, frame[3][off]))]]
    {
      frame := [frame[0][off := Stored(0, value, frame[0][off])], frame[1][off := Stored(1, value, frame[1][off])],
                frame[2][off := Stored(2, value, frame[2][off])], frame[3][off := Stored(3, value, frame[3][off])]];
    }

    /** Set up to write `color` in all planes, only the bit mask left to choose. */
    ghost predicate Ready(color: bv8)
      reads this
    {
      Valid() && mapMask == 0x0F && setReset == color & 0x0F && enableSetReset == 0x0F
    }

    method SetColor(color: bv8)
      requires Valid()
      modifies this`mapMask, this`setReset, this`enableSetReset
      ensures Ready(color)
    {
      mapMask := 0x0F;
      setReset := color & 0x0F;
      enableSetReset := 0x0F;
    }

    /** One byte through a mask: the latches make the rest of the byte stay. */
    method WriteMasked(off: nat, mask: bv8, ghost color: bv8)
      requires Ready(color) && off < PLANE_SIZE
      modifies this`frame, this`latch, this`bitMask
      ensures Ready(color) && frame == PutByte(old(frame), off, mask, color) && bitMask == mask
    {
      bitMask := mask;
      Read(off);
      StoredBlend(0, color, frame[0][off]);
      StoredBlend(1, color, frame[1][off]);
      StoredBlend(2, color, frame[2][off]);
      StoredBlend(3, color, frame[3][off]);
      Write(off, 0xFF);
    }

    lemma StoredBlend(p: nat, color: bv8, b: bv8)
      requires Ready(color) && p < 4 && (latch[p] == b || bitMask == 0xFF)
      ensures Stored(p, 0xFF, b) == Blend(b, bitMask, ColorBit(color, p))
    {
      LowBits(color, p);
    }

    method DrawPixel(x: int, y: int, color: bv8)
      requires Valid()
      modifies this
      ensures Valid() && frame == Plot(old(frame), x, y, color)
    {
      if x < 0 || x >= SCREEN_W || y < 0 || y >= SCREEN_H {
        return;
      }
      SetColor(color);
      WriteMasked(y * BYTES_PER_ROW + x / 8, 0x80 >> (x % 8), color);
    }

    /** get_pixel: gathers the colour plane by plane; black off the screen. */
    method GetPixel(x: int, y: int) returns (color: bv8)
      requires Valid()
      ensures color < 16 && (!OnScreen(x, y) ==> color == 0)
      ensures OnScreen(x, y) ==> forall p :: 0 <= p < 4 ==> ColorBit(color, p) == PixelBit(frame, p, x, y)
    {
      hide ColorBit, PixelBit;
      color := 0;
      if x < 0 || x >= SCREEN_W || y < 0 || y >= SCREEN_H {
        return;
      }
      var off := y * BYTES_PER_ROW + x / 8;
      var bit := 0x80 >> (x % 8);
      var plane := 0;
      NoColor();
      while plane < 4
        invariant 0 <= plane <= 4 && color < 16
        invariant forall p :: 0 <= p < 4 ==> ColorBit(color, p) == (p < plane && PixelBit(frame, p, x, y))
      {
        PixelIs(frame, plane, x, y);
        AddBit(color, plane);
        if frame[plane][off] & bit != 0 {
          color := color | (1 << plane);
          assert forall p :: 0 <= p < 4 ==> ColorBit(color, p) == (p < plane + 1 && PixelBit(frame, p, x, y));
        } else {
          assert !PixelBit(frame, plane, x, y);
        }
        plane := plane + 1;
      }
    }

    /** One row of a rectangle, whole bytes at a time. */
    method FillRow(x: int, y: int, w: int, ghost color: bv8)
      requires Ready(color) && OnScreen(x, y) && 0 < w && x + w <= SCREEN_W
      modifies this`frame, this`latch, this`bitMask
      ensures Ready(color) && frame == PlotRow(old(frame), x, y, w, color)
    {
      hide PutByte, Plot, PlotRow, Ready;
      ghost var f := frame;
      var end := x + w;
      var first, last := x / 8, (end - 1) / 8;
      if first == last {
        OnlyByte(x, y, w, color);
        return;
      }
      FirstByte(x, y, color);
      if last - first > 1 {
        FillBytes(x, y, first, last, f, color);
      }
      LastByte(x, y, end, f, color);
    }

    method OnlyByte(x: int, y: int, w: int, ghost color: bv8)
      requires Ready(color) && OnScreen(x, y) && 0 < w && x + w <= SCREEN_W && x / 8 == (x + w - 1) / 8
      modifies this`frame, this`latch, this`bitMask
      ensures Ready(color) && frame == PlotRow(old(frame), x, y, w, color)
    {
      hide PutByte, Plot, PlotRow, Ready;
      RowInByte(frame, x, y, w, color);
      WriteMasked(y * BYTES_PER_ROW + x / 8, (0xFF >> (x % 8)) & (0xFF << (7 - (x + w - 1) % 8)), color);
    }

    method FirstByte(x: int, y: int, ghost color: bv8)
      requires Ready(color) && OnScreen(x, y) && x / 8 < BYTES_PER_ROW
      modifies this`frame, this`latch, this`bitMask
      ensures Ready(color) && frame == PlotRow(old(frame), x, y, 8 * (x / 8 + 1) - x, color)
    {
      hide PutByte, Plot, PlotRow, RunMask, Ready;
      RunEnds(x % 8);
      RowStep(frame, x, y, 0, 8 - x % 8, color);
      NoPixels(frame, x, y, color);
      WriteMasked(y * BYTES_PER_ROW + x / 8, 0xFF >> (x % 8), color);
    }

    method LastByte(x: int, y: int, end: int, ghost f: Frame, ghost color: bv8)
      requires Ready(color) && OnScreen(x, y) && x < end <= SCREEN_W && x / 8 < (end - 1) / 8
      requires frame == PlotRow(f, x, y, 8 * ((end - 1) / 8) - x, color)
      modifies this`frame, this`latch, this`bitMask
      ensures Ready(color) && frame == PlotRow(f, x, y, end - x, color)
    {
      hide PutByte, Plot, PlotRow, RunMask, Ready;
      var last := (end - 1) / 8;
      RunEnds((end - 1) % 8);
      RowStep(f, x, y, 8 * last - x, (end - 1) % 8 + 1, color);
      WriteMasked(y * BYTES_PER_ROW + last, 0xFF << (7 - (end - 1) % 8), color);
    }

    /** The whole bytes between the first and the last; the latches do not matter to them. */
    method FillBytes(x: int, y: int, first: int, last: int, ghost f: Frame, ghost color: bv8)
      requires Ready(color) && OnScreen(x, y) && first == x / 8 && first < last <= BYTES_PER_ROW
      requires frame == PlotRow(f, x, y, 8 * (first + 1) - x, color)
      modifies this`frame, this`bitMask
      ensures Ready(color) && frame == PlotRow(f, x, y, 8 * last - x, color)
    {
      hide PutByte, Plot, PlotRow, RunMask, ColorBit;
      bitMask := 0xFF;
      RunEnds(0);
      var b := first + 1;
      while b < last
        invariant first < b <= last && Ready(color) && bitMask == 0xFF && frame == PlotRow(f, x, y, 8 * b - x, color)
      {
        RowStep(f, x, y, 8 * b - x, 8, color);
        WriteFull(y * BYTES_PER_ROW + b, color);
        b := b + 1;
      }
    }

    method WriteFull(off: nat, ghost color: bv8)
      requires Ready(color) && off < PLANE_SIZE && bitMask == 0xFF
      modifies this`frame
      ensures Ready(color) && frame == PutByte(old(frame), off, 0xFF, color)
    {
      StoredBlend(0, color, frame[0][off]);
      StoredBlend(1, color, frame[1][off]);
      StoredBlend(2, color, frame[2][off]);
      StoredBlend(3, color, frame[3][off]);
      Write(off, 0xFF);
    }

    /** fill_rect: the same picture, byte for byte, as drawing every pixel of the rectangle, unless its far edge is not
        an int. Then the sum in the clipping test overflows, which C leaves undefined. */
    method FillRect(x: Int32, y: Int32, w: Int32, h: Int32, color: bv8)
      requires Valid()
      modifies this
      ensures Valid()
      ensures w <= 0 || h <= 0 || (x + w < TWO31 && y + h < TWO31) ==> frame == PlotRect(old(frame), x, y, w, h, color)
    {
      hide PlotRow, Plot, PutByte;
      ghost var f := frame;
      if w <= 0 || h <= 0 {
        RectOutside(f, x, y, w, h, color);
        return;
      }
      RectColumns(f, x, y, w, h, color);
      var left: int, top: int, width: int, height: int := x, y, w, h;
      if left < 0 {
        width := width + left;
        left := 0;
      }
      if top < 0 {
        height := height + top;
        top := 0;
      }
      if left + width >= TWO31 || top + height >= TWO31 {
        frame := *;
        return;
      }
      if left + width > SCREEN_W {
        width := SCREEN_W - left;
      }
      if top + height > SCREEN_H {
        height := SCREEN_H - top;
      }
      RectRows(f, left, y, width, h, color);
      if width <= 0 || height <= 0 {
        RectOutside(f, left, top, width, height, color);
        return;
      }
      SetColor(color);
      var row := top;
      while row < top + height
        invariant top <= row <= top + height && Ready(color) && frame == PlotRect(f, left, top, width, row - top, color)
      {
        FillRow(left, row, width, color);
        row := row + 1;
      }
    }
  }

  /** One axis of the clipping, from `x` on for `w` pixels, with sums that wrap to 32 bits. */
  function ClipWrapped(x: Int32, w: Int32, limit: int): (int, int)
    requires 0 < limit < TWO31
  {
    var n: int := if x < 0 then Wrap(w + x) else w;
    var start: int := if x < 0 then 0 else x;
    (start, if Wrap(start + n) > limit then limit - start else n)
  }

  /** Where sums wrap, what is left after clipping stays on the screen if and only if the far edge is an int. */
  lemma ClipStays(x: Int32, w: Int32, limit: int)
    requires 0 < limit < TWO31 && w > 0
    ensures var (start, n) := ClipWrapped(x, w, limit);
      0 <= start && (n <= 0 || start + n <= limit) <==> x + w < TWO31
  {
  }

  lemma NoPixels(f: Frame, x: int, y: int, color: bv8)
    ensures PlotRow(f, x, y, 0, color) == f
  {
  }
}
