/**
 * The page-organised 1-bit-per-pixel frame buffer layout used by both
 * displays of the node: a 128 x 64 panel stored in 1024 bytes, eight pages
 * of eight pixel rows, one byte per column per page, and bit k of a byte
 * holding row 8 * page + k of that column.
 *
 * Coordinates here are PHYSICAL (as the panel scans them). A buffer is a
 * `seq<bv8>` value; the display classes keep it in an `array<bv8>` and
 * state their effects through `Lit` and `Plot`.
 */
module PageLayout {

  const Width: int := 128
  const Height: int := 64
  const BufferSize: int := 1024

  predicate InScreen(x: int, y: int) {
    0 <= x < Width && 0 <= y < Height
  }

  /** Byte that holds pixel (x, y): column x of page y / 8. */
  function ByteIndex(x: int, y: int): (i: nat)
    requires InScreen(x, y)
    ensures i < BufferSize
    ensures i / Width == y / 8 && i % Width == x
  {
    (y / 8) * Width + x
  }

  /** Bit of that byte that holds pixel (x, y); `y & 7` for y >= 0. */
  function BitOf(y: int): (k: nat)
    requires 0 <= y
    ensures k < 8 && (y - k) % 8 == 0
  {
    y % 8
  }

  function Mask(k: nat): bv8
    requires k < 8
  {
    1 << k
  }

  predicate BitSet(b: bv8, k: nat)
    requires k < 8
  {
    b & Mask(k) != 0
  }

  /** Two bytes with the same eight bits are the same byte. */
  lemma BitsDetermineByte(a: bv8, b: bv8)
    requires forall k :: 0 <= k < 8 ==> BitSet(a, k) == BitSet(b, k)
    ensures a == b
  {
    assert a & 1 == b & 1 by { assert BitSet(a, 0) == BitSet(b, 0); }
    assert a & 2 == b & 2 by { assert BitSet(a, 1) == BitSet(b, 1); }
    assert a & 4 == b & 4 by { assert BitSet(a, 2) == BitSet(b, 2); }
    assert a & 8 == b & 8 by { assert BitSet(a, 3) == BitSet(b, 3); }
    assert a & 16 == b & 16 by { assert BitSet(a, 4) == BitSet(b, 4); }
    assert a & 32 == b & 32 by { assert BitSet(a, 5) == BitSet(b, 5); }
    assert a & 64 == b & 64 by { assert BitSet(a, 6) == BitSet(b, 6); }
    assert a & 128 == b & 128 by { assert BitSet(a, 7) == BitSet(b, 7); }
  }

  /**
   * Turning bit k on ORs in exactly its mask; turning it off clears exactly
   * that bit (AND with the complement). Every other bit keeps its value.
   */
  function PlotByte(b: bv8, k: nat, on: bool): bv8
    requires k < 8
  {
    if on then b | Mask(k) else b & !Mask(k)
  }

  /** PlotByte sets bit k to `on` and keeps every other bit of the byte. */
  lemma PlotByteBit(b: bv8, k: nat, on: bool, j: nat)
    requires k < 8 && j < 8
    ensures BitSet(PlotByte(b, k, on), j) == if j == k then on else BitSet(b, j)
  {
    if on {
      OrMaskBit(b, k, j);
    } else {
      AndNotMaskBit(b, k, j);
    }
  }

  lemma OrMaskBit(b: bv8, k: nat, j: nat)
    requires k < 8 && j < 8
    ensures BitSet(b | Mask(k), j) == (j == k || BitSet(b, j))
  {
  }

  lemma AndNotMaskBit(b: bv8, k: nat, j: nat)
    requires k < 8 && j < 8
    ensures BitSet(b & !Mask(k), j) == (j != k && BitSet(b, j))
  {
  }

  predicate Lit(buf: seq<bv8>, x: int, y: int)
    requires |buf| == BufferSize && InScreen(x, y)
  {
    BitSet(buf[ByteIndex(x, y)], BitOf(y))
  }

  /**
   * The buffer after setting physical pixel (x, y) to `on`: an off-screen
   * pixel changes nothing; otherwise only byte ByteIndex(x, y) changes.
   */
  function Plot(buf: seq<bv8>, x: int, y: int, on: bool): (r: seq<bv8>)
    requires |buf| == BufferSize
    ensures |r| == BufferSize
    ensures forall i :: 0 <= i < BufferSize && !(InScreen(x, y) && i == ByteIndex(x, y)) ==> r[i] == buf[i]
  {
    if InScreen(x, y) then
      var i := ByteIndex(x, y);
      buf[i := PlotByte(buf[i], BitOf(y), on)]
    else
      buf
  }

  /** Distinct on-screen pixels never share both a byte and a bit. */
  lemma PixelAddressInjective(x: int, y: int, px: int, py: int)
    requires InScreen(x, y) && InScreen(px, py)
    requires ByteIndex(x, y) == ByteIndex(px, py) && BitOf(y) == BitOf(py)
    ensures x == px && y == py
  {
    var i := ByteIndex(x, y);
    assert y / 8 == i / Width == py / 8;
    assert y == 8 * (y / 8) + BitOf(y);
    assert py == 8 * (py / 8) + BitOf(py);
  }

  /** Plot changes exactly one pixel, the one it is given, and only if it is on screen. */
  lemma {:induction false} PlotChangesOnePixel(buf: seq<bv8>, x: int, y: int, on: bool, px: int, py: int)
    requires |buf| == BufferSize && InScreen(px, py)
    ensures Lit(Plot(buf, x, y, on), px, py) == if px == x && py == y then on else Lit(buf, px, py)
  {
    var r := Plot(buf, x, y, on);
    var j := ByteIndex(px, py);
    if InScreen(x, y) && ByteIndex(x, y) == j {
      if BitOf(y) == BitOf(py) {
        PixelAddressInjective(x, y, px, py);
      }
      assert r[j] == PlotByte(buf[j], BitOf(y), on);
      PlotByteBit(buf[j], BitOf(y), on, BitOf(py));
    }
  }

  /** Plot as a whole-screen statement: the given pixel takes the value `on`, every other keeps its own. */
  lemma PlotRepaintsOnePixel(buf: seq<bv8>, x: int, y: int, on: bool)
    requires |buf| == BufferSize
    ensures forall px, py :: InScreen(px, py) ==>
      Lit(Plot(buf, x, y, on), px, py) == if px == x && py == y then on else Lit(buf, px, py)
  {
    forall px, py | InScreen(px, py)
      ensures Lit(Plot(buf, x, y, on), px, py) == if px == x && py == y then on else Lit(buf, px, py)
    {
      PlotChangesOnePixel(buf, x, y, on, px, py);
    }
  }

  /** All pixels of a buffer, as their on/off values, determine every byte of it. */
  lemma PixelsDetermineBuffer(a: seq<bv8>, b: seq<bv8>)
    requires |a| == BufferSize && |b| == BufferSize
    requires forall x, y :: InScreen(x, y) ==> Lit(a, x, y) == Lit(b, x, y)
    ensures a == b
  {
    forall i | 0 <= i < BufferSize
      ensures a[i] == b[i]
    {
      var x, page := i % Width, i / Width;
      forall k | 0 <= k < 8
        ensures BitSet(a[i], k) == BitSet(b[i], k)
      {
        var y := 8 * page + k;
        assert InScreen(x, y);
        assert ByteIndex(x, y) == i && BitOf(y) == k;
        assert Lit(a, x, y) == Lit(b, x, y);
      }
      BitsDetermineByte(a[i], b[i]);
    }
  }

  /** Setting a pixel twice to the same value is the same as setting it once. */
  lemma PlotIdempotent(buf: seq<bv8>, x: int, y: int, on: bool)
    requires |buf| == BufferSize
    ensures Plot(Plot(buf, x, y, on), x, y, on) == Plot(buf, x, y, on)
  {
    var once := Plot(buf, x, y, on);
    var twice := Plot(once, x, y, on);
    forall px, py | InScreen(px, py)
      ensures Lit(twice, px, py) == Lit(once, px, py)
    {
      PlotChangesOnePixel(once, x, y, on, px, py);
      PlotChangesOnePixel(buf, x, y, on, px, py);
    }
    PixelsDetermineBuffer(twice, once);
  }

  /** A buffer of zero bytes shows no pixel. */
  lemma ZeroBufferIsDark(buf: seq<bv8>, x: int, y: int)
    requires |buf| == BufferSize && InScreen(x, y)
    requires forall i :: 0 <= i < BufferSize ==> buf[i] == 0
    ensures !Lit(buf, x, y)
  {
  }

  /** Pixel (px, py) lies in the w x h rectangle whose top-left corner is (x0, y0). */
  predicate InRect(px: int, py: int, x0: int, y0: int, w: int, h: int) {
    x0 <= px < x0 + w && y0 <= py < y0 + h
  }

  function Min(a: int, b: int): int { if a <= b then a else b }
  function Max(a: int, b: int): int { if a <= b then b else a }
}
