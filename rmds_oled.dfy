/**
 * The logo display: a 1024-byte page buffer (`frame_buffer`) drawn in
 * LOGICAL coordinates that are rotated by 180 degrees on the way in, so
 * logical (0, 0) is physical (127, 63). On top of pixel set/clear it offers
 * clear, filled rectangle, the one-pixel screen border and the staged
 * "RMDS" logo frame.
 */
module RmdsOled {
  import opened PageLayout

  /** What logical pixel (x, y) shows: the physical pixel it is rotated onto. */
  predicate Shown(buf: seq<bv8>, x: int, y: int)
    requires |buf| == BufferSize && InScreen(x, y)
  {
    Lit(buf, (Width - 1) - x, (Height - 1) - y)
  }

  /** The buffer after setting logical pixel (x, y): nothing for an off-screen pixel, else the rotated plot. */
  function RotatedPlot(buf: seq<bv8>, x: int, y: int, on: bool): (r: seq<bv8>)
    requires |buf| == BufferSize
    ensures |r| == BufferSize
    ensures !InScreen(x, y) ==> r == buf
    ensures InScreen(x, y) ==> r == Plot(buf, (Width - 1) - x, (Height - 1) - y, on)
  {
    if InScreen(x, y) then Plot(buf, (Width - 1) - x, (Height - 1) - y, on) else buf
  }

  /**
   * The byte a logical pixel lands in, ((63 - y) / 8) * 128 + (127 - x), is
   * inside the buffer, and the rotation is a bijection of the screen.
   */
  lemma RotatedAddress(x: int, y: int)
    requires InScreen(x, y)
    ensures InScreen((Width - 1) - x, (Height - 1) - y)
    ensures ((Height - 1 - y) / 8) * Width + (Width - 1 - x) == ByteIndex((Width - 1) - x, (Height - 1) - y) < BufferSize
    ensures (Width - 1) - ((Width - 1) - x) == x && (Height - 1) - ((Height - 1) - y) == y
  {
  }

  /** Setting a logical pixel changes exactly that logical pixel, seen through the rotation. */
  lemma {:induction false} RotatedPlotChangesOnePixel(buf: seq<bv8>, x: int, y: int, on: bool, px: int, py: int)
    requires |buf| == BufferSize && InScreen(px, py)
    ensures Shown(RotatedPlot(buf, x, y, on), px, py) == if px == x && py == y then on else Shown(buf, px, py)
  {
    var hx, hy := (Width - 1) - px, (Height - 1) - py;
    if InScreen(x, y) {
      PlotChangesOnePixel(buf, (Width - 1) - x, (Height - 1) - y, on, hx, hy);
    }
  }

  /** Pixel (x, y) lies on the one-pixel frame around the screen. */
  predicate OnBorder(x: int, y: int) {
    x == 0 || x == Width - 1 || y == 0 || y == Height - 1
  }

  /** One letter request of the logo: which glyph, and the box it is drawn in. */
  datatype LetterDraw = LetterDraw(letter: char, x0: int, y0: int, w: int, h: int)

  /** The k-th letter of the logo (counting from 1) is among the requests. */
  predicate IncludesLetter(drawn: seq<LetterDraw>, k: int) {
    1 <= k <= |drawn|
  }

  const Logo: string := "RMDS"
  const LogoWidth: int := 100
  const LetterW: int := 22
  const LetterH: int := 40
  const LetterGap: int := 3
  const LogoTop: int := 10

  /**
   * The letters drawn for stage `n` of the logo animation, left to right:
   * letter k (R, M, D, S for k = 1..4) exactly when n >= k, each in a 22 x 40
   * box, the boxes 3 pixels apart in a 100-pixel-wide strip centred on screen.
   */
  function LettersShown(n: int): (drawn: seq<LetterDraw>)
    ensures |drawn| <= 4
    ensures forall k :: 1 <= k <= 4 ==> (IncludesLetter(drawn, k) <==> n >= k)
    ensures forall k :: 0 <= k < |drawn| ==>
      drawn[k] == LetterDraw(Logo[k], (Width - LogoWidth) / 2 + k * (LetterW + LetterGap), LogoTop, LetterW, LetterH)
    ensures forall k :: 0 <= k < |drawn| ==>
      0 < drawn[k].x0 && drawn[k].x0 + drawn[k].w < Width - 1
  {
    var count := if n <= 0 then 0 else if n >= 4 then 4 else n;
    seq(count, k requires 0 <= k < count =>
      LetterDraw(Logo[k], (Width - LogoWidth) / 2 + k * (LetterW + LetterGap), LogoTop, LetterW, LetterH))
  }

  class FrameCanvas {
    var frameBuffer: array<bv8>

    ghost predicate Valid()
      reads this
    {
      frameBuffer.Length == BufferSize
    }

    /** The buffer is a static array, so it starts all zero: no logical pixel is shown. */
    constructor ()
      ensures Valid() && fresh(frameBuffer)
      ensures forall i :: 0 <= i < BufferSize ==> frameBuffer[i] == 0
      ensures forall x, y :: InScreen(x, y) ==> !Shown(frameBuffer[..], x, y)
    {
      frameBuffer := new bv8[BufferSize](_ => 0);
      new;
      forall x, y | InScreen(x, y)
        ensures !Shown(frameBuffer[..], x, y)
      {
        ZeroBufferIsDark(frameBuffer[..], (Width - 1) - x, (Height - 1) - y);
      }
    }

    method Clear()
      requires Valid()
      modifies frameBuffer
      ensures forall i :: 0 <= i < BufferSize ==> frameBuffer[i] == 0
      ensures forall x, y :: InScreen(x, y) ==> !Shown(frameBuffer[..], x, y)
    {
      forall i | 0 <= i < frameBuffer.Length {
        frameBuffer[i] := 0;
      }
      forall x, y | InScreen(x, y)
        ensures !Shown(frameBuffer[..], x, y)
      {
        ZeroBufferIsDark(frameBuffer[..], (Width - 1) - x, (Height - 1) - y);
      }
    }

    /**
     * Set or clear logical pixel (x, y); off-screen coordinates are rejected.
     * The pixel is rotated by 180 degrees and its byte updated by PlotByte
     * (OR in `1 << (hw_y & 7)`, or AND with its complement).
     */
    method SetPixel(x: int, y: int, on: bool)
      requires Valid()
      modifies frameBuffer
      ensures frameBuffer[..] == RotatedPlot(old(frameBuffer[..]), x, y, on)
      ensures forall px, py :: InScreen(px, py) ==>
        Shown(frameBuffer[..], px, py) == if px == x && py == y then on else Shown(old(frameBuffer[..]), px, py)
    {
      forall px, py | InScreen(px, py)
        ensures Shown(RotatedPlot(frameBuffer[..], x, y, on), px, py) ==
          if px == x && py == y then on else Shown(frameBuffer[..], px, py)
      {
        RotatedPlotChangesOnePixel(frameBuffer[..], x, y, on, px, py);
      }
      if x < 0 || x >= Width || y < 0 || y >= Height {
        return;
      }
      var hwX := (Width - 1) - x;
      var hwY := (Height - 1) - y;
      var byteIndex := (hwY / 8) * Width + hwX;
      var bit := hwY % 8;
      RotatedAddress(x, y);
      frameBuffer[byteIndex] := PlotByte(frameBuffer[byteIndex], bit, on);
      assert frameBuffer[..] == old(frameBuffer[..])[byteIndex := frameBuffer[byteIndex]];
    }

    /** Set every on-screen logical pixel of [x0, x0 + w) x [y0, y0 + h); non-positive w or h draws nothing. */
    method FillRect(x0: int, y0: int, w: int, h: int, on: bool)
      requires Valid()
      modifies frameBuffer
      ensures forall px, py :: InScreen(px, py) ==>
        Shown(frameBuffer[..], px, py) == if InRect(px, py, x0, y0, w, h) then on else Shown(old(frameBuffer[..]), px, py)
    {
      var y := y0;
      while y < y0 + h
        invariant y0 <= y && (y <= y0 + h || y == y0)
        invariant forall px, py :: InScreen(px, py) ==>
          Shown(frameBuffer[..], px, py) == if InRect(px, py, x0, y0, w, y - y0) then on else Shown(old(frameBuffer[..]), px, py)
      {
        var x := x0;
        while x < x0 + w
          invariant x0 <= x && (x <= x0 + w || x == x0)
          invariant forall px, py :: InScreen(px, py) ==>
            Shown(frameBuffer[..], px, py) ==
              if InRect(px, py, x0, y0, w, y - y0) || (py == y && x0 <= px < x) then on
              else Shown(old(frameBuffer[..]), px, py)
        {
          SetPixel(x, y, on);
          x := x + 1;
        }
        y := y + 1;
      }
    }

    /** Turn on every pixel of row 0, row 63, column 0 and column 127; no other pixel changes. */
    method DrawBorder()
      requires Valid()
      modifies frameBuffer
      ensures forall px, py :: InScreen(px, py) ==>
        Shown(frameBuffer[..], px, py) == if OnBorder(px, py) then true else Shown(old(frameBuffer[..]), px, py)
    {
      for x := 0 to Width
        invariant forall px, py :: InScreen(px, py) ==>
          Shown(frameBuffer[..], px, py) ==
            if (py == 0 || py == Height - 1) && px < x then true else Shown(old(frameBuffer[..]), px, py)
      {
        SetPixel(x, 0, true);
        SetPixel(x, Height - 1, true);
      }
      for y := 0 to Height
        invariant forall px, py :: InScreen(px, py) ==>
          Shown(frameBuffer[..], px, py) ==
            if py == 0 || py == Height - 1 || ((px == 0 || px == Width - 1) && py < y) then true
            else Shown(old(frameBuffer[..]), px, py)
      {
        SetPixel(0, y, true);
        SetPixel(Width - 1, y, true);
      }
    }

    /**
     * Stage `lettersToShow` of the logo: clear, draw the border, then request
     * the letters of LettersShown. The letter strokes themselves are not
     * drawn by this model, so the buffer afterwards holds exactly the border.
     */
    method DrawRmdsPartial(lettersToShow: int) returns (drawn: seq<LetterDraw>)
      requires Valid()
      modifies frameBuffer
      ensures drawn == LettersShown(lettersToShow)
      ensures forall px, py :: InScreen(px, py) ==> (Shown(frameBuffer[..], px, py) <==> OnBorder(px, py))
    {
      Clear();
      DrawBorder();
      var x := (Width - LogoWidth) / 2;
      drawn := [];
      for k := 0 to 4
        invariant drawn == LettersShown(lettersToShow)[..if lettersToShow < k then (if lettersToShow <= 0 then 0 else lettersToShow) else k]
        invariant x == (Width - LogoWidth) / 2 + k * (LetterW + LetterGap)
      {
        if lettersToShow >= k + 1 {
          drawn := drawn + [LetterDraw(Logo[k], x, LogoTop, LetterW, LetterH)];
        }
        x := x + LetterW + LetterGap;
      }
    }
  }
}
