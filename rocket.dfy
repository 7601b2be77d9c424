/**
 * The rocket-animation display: an unrotated 1024-byte page buffer
 * (`oled_buffer`) with pixel, line, rectangle and 5x7-digit drawing, plus
 * the pure arithmetic of the SSD1306 page/column commands and of the
 * animation loop (wobble and HUD digit).
 */
module RocketOled {
  import opened PageLayout

  /** Columns of the 5x7 digit glyphs '0'..'9'; bit `row` of column `col` is pixel (col, row). */
  const Font5x7: seq<seq<bv8>> := [
    [0x3E, 0x51, 0x49, 0x45, 0x3E],
    [0x00, 0x42, 0x7F, 0x40, 0x00],
    [0x42, 0x61, 0x51, 0x49, 0x46],
    [0x21, 0x41, 0x45, 0x4B, 0x31],
    [0x18, 0x14, 0x12, 0x7F, 0x10],
    [0x27, 0x45, 0x45, 0x45, 0x39],
    [0x3C, 0x4A, 0x49, 0x49, 0x30],
    [0x01, 0x71, 0x09, 0x05, 0x03],
    [0x36, 0x49, 0x49, 0x49, 0x36],
    [0x06, 0x49, 0x49, 0x29, 0x1E]
  ]

  predicate IsDigit(c: char) { '0' <= c <= '9' }

  /** Pixel (col, row) of a 7-row glyph given by its columns is inked. */
  predicate InkAt(glyph: seq<bv8>, col: int, row: int) {
    0 <= col < |glyph| && 0 <= row < 7 && BitSet(glyph[col], row)
  }

  /** Pixel (col, row) of the glyph for c is inked: c is a digit and the bit is set. */
  predicate GlyphInk(c: char, col: int, row: int) {
    IsDigit(c) && InkAt(Font5x7[c as int - '0' as int], col, row)
  }

  lemma FontShape()
    ensures |Font5x7| == 10 && forall d :: 0 <= d < 10 ==> |Font5x7[d]| == 5
  {
  }

  /** Every glyph is 5 columns wide and no column uses bit 7, so rows 0..6 draw all of it. */
  lemma FontFitsSevenRows(d: int, col: int)
    requires 0 <= d < 10 && 0 <= col < 5
    ensures |Font5x7| == 10 && |Font5x7[d]| == 5 && !BitSet(Font5x7[d][col], 7)
  {
  }

  /**
   * The three command bytes that select `page` and start `column`: the page
   * is masked to 0..7 and the column to 0..127 before they are encoded.
   */
  function PageColumnCommands(page: bv8, column: bv8): (cmds: seq<bv8>)
    ensures |cmds| == 3
    ensures 0xB0 <= cmds[0] <= 0xB7 && cmds[1] <= 0x0F && 0x10 <= cmds[2] <= 0x17
    ensures cmds[0] & 0x07 == page & 0x07
    ensures ((cmds[2] & 0x0F) << 4) | cmds[1] == column & 0x7F
  {
    var p := page & 0x07;
    var c := column & 0x7F;
    [0xB0 | p, 0x00 | (c & 0x0F), 0x10 | (c >> 4)]
  }

  /** Vertical offset of the rocket in animation frame `frame`: a triangle wave 0..7..0 of period 16. */
  function Wobble(frame: nat): (w: int)
    ensures 0 <= w <= 7
  {
    if frame % 16 < 8 then frame % 8 else 15 - frame % 16
  }

  /** Consecutive frames move the rocket by at most one pixel, and the motion repeats every 16 frames. */
  lemma WobbleIsSmooth(frame: nat)
    ensures -1 <= Wobble(frame + 1) - Wobble(frame) <= 1
    ensures Wobble(frame + 16) == Wobble(frame)
  {
    WobbleOfPhase(frame);
    WobbleOfPhase(frame + 1);
    WobbleOfPhase(frame + 16);
    PhaseSteps(frame);
  }

  lemma PhaseSteps(frame: nat)
    ensures (frame + 16) % 16 == frame % 16
    ensures (frame + 1) % 16 == if frame % 16 < 15 then frame % 16 + 1 else 0
  {
  }

  /** The wobble depends only on the phase frame % 16: it rises 0..7, then falls 7..0. */
  lemma WobbleOfPhase(frame: nat)
    ensures Wobble(frame) == if frame % 16 < 8 then frame % 16 else 15 - frame % 16
  {
    var m := frame % 16;
    assert frame == 16 * (frame / 16) + m;
    assert frame % 8 == if m < 8 then m else m - 8;
  }

  /** The HUD counter value shown in frame `frame`: a digit that advances every 8 frames. */
  function HudDigit(frame: nat): (d: int)
    ensures 0 <= d <= 9
    ensures IsDigit(('0' as int + d) as char)
  {
    (frame / 8) % 10
  }

  /** The rocket's vertical centre: the ground line is row 58 and the path is 8 rows above it. */
  function RocketY(frame: nat): (y: int)
    ensures 43 <= y <= 50
  {
    var groundY := Height - 6;
    var centerY := groundY - 8;
    centerY - Wobble(frame)
  }

  class OledCanvas {
    var oledBuffer: array<bv8>

    ghost predicate Valid()
      reads this
    {
      oledBuffer.Length == BufferSize
    }

    /** The buffer is a static array, so it starts all zero: a dark screen. */
    constructor ()
      ensures Valid() && fresh(oledBuffer)
      ensures forall i :: 0 <= i < BufferSize ==> oledBuffer[i] == 0
      ensures forall x, y :: InScreen(x, y) ==> !Lit(oledBuffer[..], x, y)
    {
      oledBuffer := new bv8[BufferSize](_ => 0);
      new;
      forall x, y | InScreen(x, y)
        ensures !Lit(oledBuffer[..], x, y)
      {
        ZeroBufferIsDark(oledBuffer[..], x, y);
      }
    }

    method ClearBuffer()
      requires Valid()
      modifies oledBuffer
      ensures forall i :: 0 <= i < BufferSize ==> oledBuffer[i] == 0
      ensures forall x, y :: InScreen(x, y) ==> !Lit(oledBuffer[..], x, y)
    {
      forall i | 0 <= i < oledBuffer.Length {
        oledBuffer[i] := 0;
      }
      forall x, y | InScreen(x, y)
        ensures !Lit(oledBuffer[..], x, y)
      {
        ZeroBufferIsDark(oledBuffer[..], x, y);
      }
    }

    /**
     * Set or clear pixel (x, y); an off-screen pixel is rejected and nothing
     * changes. The byte update is PlotByte: OR in the mask `1 << (y & 7)` to
     * set, AND with its complement to clear.
     */
    method DrawPixel(x: int, y: int, on: bool)
      requires Valid()
      modifies oledBuffer
      ensures oledBuffer[..] == Plot(old(oledBuffer[..]), x, y, on)
      ensures forall px, py :: InScreen(px, py) ==>
        Lit(oledBuffer[..], px, py) == if px == x && py == y then on else Lit(old(oledBuffer[..]), px, py)
    {
      PlotRepaintsOnePixel(oledBuffer[..], x, y, on);
      if x < 0 || x >= Width || y < 0 || y >= Height {
        return;
      }
      var page := y / 8;
      var index := page * Width + x;
      var bit := y % 8;
      assert index == ByteIndex(x, y);
      oledBuffer[index] := PlotByte(oledBuffer[index], bit, on);
      assert oledBuffer[..] == old(oledBuffer[..])[index := oledBuffer[index]];
    }

    /**
     * Draw the inclusive run between x0 and x1 (in either order) on row y,
     * clipped to the screen; nothing happens when row y is off screen.
     */
    method DrawHLine(x0: int, x1: int, y: int, on: bool)
      requires Valid()
      modifies oledBuffer
      ensures forall px, py :: InScreen(px, py) ==>
        Lit(oledBuffer[..], px, py) ==
          if py == y && Min(x0, x1) <= px <= Max(x0, x1) then on else Lit(old(oledBuffer[..]), px, py)
    {
      if y < 0 || y >= Height {
        return;
      }
      var lo, hi := x0, x1;
      if lo > hi {
        lo, hi := hi, lo;
      }
      if lo < 0 {
        lo := 0;
      }
      if hi >= Width {
        hi := Width - 1;
      }
      var x := lo;
      while x <= hi
        invariant lo <= x && (x <= hi + 1 || x == lo)
        invariant forall px, py :: InScreen(px, py) ==>
          Lit(oledBuffer[..], px, py) ==
            if py == y && lo <= px < x then on else Lit(old(oledBuffer[..]), px, py)
      {
        DrawPixel(x, y, on);
        x := x + 1;
      }
    }

    /**
     * Draw the inclusive run between y0 and y1 (in either order) in column x,
     * clipped to the screen; nothing happens when column x is off screen.
     */
    method DrawVLine(x: int, y0: int, y1: int, on: bool)
      requires Valid()
      modifies oledBuffer
      ensures forall px, py :: InScreen(px, py) ==>
        Lit(oledBuffer[..], px, py) ==
          if px == x && Min(y0, y1) <= py <= Max(y0, y1) then on else Lit(old(oledBuffer[..]), px, py)
    {
      if x < 0 || x >= Width {
        return;
      }
      var lo, hi := y0, y1;
      if lo > hi {
        lo, hi := hi, lo;
      }
      if lo < 0 {
        lo := 0;
      }
      if hi >= Height {
        hi := Height - 1;
      }
      var y := lo;
      while y <= hi
        invariant lo <= y && (y <= hi + 1 || y == lo)
        invariant forall px, py :: InScreen(px, py) ==>
          Lit(oledBuffer[..], px, py) ==
            if px == x && lo <= py < y then on else Lit(old(oledBuffer[..]), px, py)
      {
        DrawPixel(x, y, on);
        y := y + 1;
      }
    }

    /** Set every on-screen pixel of [x0, x0 + w) x [y0, y0 + h); non-positive w or h draws nothing. */
    method DrawFilledRect(x0: int, y0: int, w: int, h: int, on: bool)
      requires Valid()
      modifies oledBuffer
      ensures forall px, py :: InScreen(px, py) ==>
        Lit(oledBuffer[..], px, py) == if InRect(px, py, x0, y0, w, h) then on else Lit(old(oledBuffer[..]), px, py)
    {
      var y := y0;
      while y < y0 + h
        invariant y0 <= y && (y <= y0 + h || y == y0)
        invariant forall px, py :: InScreen(px, py) ==>
          Lit(oledBuffer[..], px, py) == if InRect(px, py, x0, y0, w, y - y0) then on else Lit(old(oledBuffer[..]), px, py)
      {
        var x := x0;
        while x < x0 + w
          invariant x0 <= x && (x <= x0 + w || x == x0)
          invariant forall px, py :: InScreen(px, py) ==>
            Lit(oledBuffer[..], px, py) ==
              if InRect(px, py, x0, y0, w, y - y0) || (py == y && x0 <= px < x) then on
              else Lit(old(oledBuffer[..]), px, py)
        {
          DrawPixel(x, y, on);
          x := x + 1;
        }
        y := y + 1;
      }
    }

    /**
     * Draw digit c with its top-left corner at (x, y): exactly the pixels
     * (x + col, y + row) whose glyph bit is set; any other character draws nothing.
     */
    method DrawChar5x7(x: int, y: int, c: char, on: bool)
      requires Valid()
      modifies oledBuffer
      ensures forall px, py :: InScreen(px, py) ==>
        Lit(oledBuffer[..], px, py) == if GlyphInk(c, px - x, py - y) then on else Lit(old(oledBuffer[..]), px, py)
    {
      if c < '0' || c > '9' {
        return;
      }
      FontShape();
      var glyph := Font5x7[c as int - '0' as int];
      for col := 0 to 5
        invariant forall px, py :: InScreen(px, py) ==>
          Lit(oledBuffer[..], px, py) ==
            if InkAt(glyph, px - x, py - y) && px - x < col then on else Lit(old(oledBuffer[..]), px, py)
      {
        var bits := glyph[col];
        for row := 0 to 7
          invariant forall px, py :: InScreen(px, py) ==>
            Lit(oledBuffer[..], px, py) ==
              if InkAt(glyph, px - x, py - y) && (px - x < col || (px - x == col && py - y < row)) then on
              else Lit(old(oledBuffer[..]), px, py)
        {
          if BitSet(bits, row) {
            DrawPixel(x + col, y + row, on);
          }
        }
      }
    }

    /** Draw the HUD counter digit at (4, 4). */
    method DrawHudCounter(value: int)
      requires Valid()
      requires 0 <= value <= 9
      modifies oledBuffer
      ensures forall px, py :: InScreen(px, py) ==>
        Lit(oledBuffer[..], px, py) ==
          if GlyphInk(('0' as int + value) as char, px - 4, py - 4) then true else Lit(old(oledBuffer[..]), px, py)
    {
      DrawChar5x7(4, 4, ('0' as int + value) as char, true);
    }
  }
}
