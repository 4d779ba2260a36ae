/**
 * Per-pixel logic of the ditherer: the threshold quantizer and the clamped
 * error push applied to one neighbouring gray value.
 */
module Pixel {

  /** An 8-bit gray value (Go's uint8). */
  type Byte = x: int | 0 <= x < 256

  /** What the quantizer decides for one pixel: the palette index written to
      the output frame and the fixed reconstruction value used for the error. */
  datatype Quant = Quant(index: nat, recon: Byte)

  /** Number of distinct indices the quantizer produces for a palette size:
      4 for a 4-colour palette, 2 for every other size. */
  function Levels(paletteSize: int): (n: nat)
    ensures n == 2 || n == 4
    ensures n == 4 <==> paletteSize == 4
  {
    if paletteSize == 4 then 4 else 2
  }

  /** The threshold quantizer. With 4 colours the gray ramp is cut into bands
      of width 64, otherwise into two bands of width 128; the reconstruction
      value is the midpoint of the band (rounded down). */
  function Quantize(gray: Byte, paletteSize: int): (q: Quant)
    ensures q.index < Levels(paletteSize)
    ensures paletteSize == 4 ==> q.index == gray / 64 && q.recon == 64 * q.index + 31
    ensures paletteSize != 4 ==> q.index == gray / 128 && q.recon == 192 * q.index + 31
  {
    if paletteSize == 4 then
      if gray < 64 then Quant(0, 31)
      else if gray < 128 then Quant(1, 95)
      else if gray < 192 then Quant(2, 159)
      else Quant(3, 223)
    else
      if gray < 128 then Quant(0, 31)
      else Quant(1, 223)
  }

  /** The exact threshold edges of both policies. */
  lemma QuantizeEdges()
    ensures Quantize(127, 2).index == 0 && Quantize(128, 2).index == 1
    ensures Quantize(63, 4).index == 0 && Quantize(64, 4).index == 1
    ensures Quantize(127, 4).index == 1 && Quantize(128, 4).index == 2
    ensures Quantize(191, 4).index == 2 && Quantize(192, 4).index == 3
  {
  }

  /** The quantization error of one pixel: its gray value minus the
      reconstruction value of its band. */
  function QuantError(gray: Byte, paletteSize: int): (e: int)
    ensures paletteSize == 4 ==> -31 <= e <= 32
    ensures paletteSize != 4 && gray < 128 ==> -31 <= e <= 96
    ensures paletteSize != 4 && gray >= 128 ==> -95 <= e <= 32
  {
    gray - Quantize(gray, paletteSize).recon
  }

  /** Adds numerator/16 of the error to a neighbour's gray value and clamps
      the sum to 0..255. The Go code does this in float32; since the error
      and the numerator are integers, the sum is (16 * gray + err * numerator)
      / 16, a multiple of 1/16 that float32 holds exactly while its magnitude
      stays below 2^20, and the uint8 conversion of a non-negative value
      truncates, that is, takes the floor. So integers suffice. */
  function PushError(gray: Byte, err: int, numerator: int): (r: Byte)
    ensures 16 * gray + err * numerator > 16 * 255 ==> r == 255
    ensures 16 * gray + err * numerator < 0 ==> r == 0
    ensures 0 <= 16 * gray + err * numerator <= 16 * 255 ==>
              16 * r <= 16 * gray + err * numerator < 16 * r + 16
    ensures err == 0 ==> r == gray
  {
    var scaled := 16 * gray + err * numerator;
    if scaled > 16 * 255 then 255
    else if scaled < 0 then 0
    else scaled / 16
  }

  /** The same update computed on exact rationals, as the Go expression
      `float32(grayVal) + float32(quantError) * (float32(numerator) / 16)`
      reads when no rounding happens. */
  function PushErrorReal(gray: Byte, err: int, numerator: int): Byte
  {
    var newPix: real := gray as real + err as real * (numerator as real / 16.0);
    if newPix > 255.0 then 255
    else if newPix < 0.0 then 0
    else newPix.Floor
  }

  /** The integer form agrees with the exact rational form on every input. */
  lemma PushErrorExact(gray: Byte, err: int, numerator: int)
    ensures PushError(gray, err, numerator) == PushErrorReal(gray, err, numerator)
  {
    var scaled := 16 * gray + err * numerator;
    var newPix: real := gray as real + err as real * (numerator as real / 16.0);
    assert (err * numerator) as real == err as real * numerator as real;
    assert newPix == scaled as real / 16.0;
    if 0 <= scaled <= 16 * 255 {
      var q := scaled / 16;
      assert 16 * q <= scaled < 16 * q + 16;
      assert q as real <= newPix < q as real + 1.0;
    }
  }

  /** Saturation under large errors, in both directions. */
  lemma PushErrorSaturates(gray: Byte)
    ensures PushError(gray, 1000, 7) == 255
    ensures PushError(gray, -1000, 7) == 0
  {
  }

  /** For a non-negative numerator, a larger error never gives a smaller result. */
  lemma {:induction false} PushErrorMonotone(gray: Byte, e1: int, e2: int, numerator: nat)
    requires e1 <= e2
    ensures PushError(gray, e1, numerator) <= PushError(gray, e2, numerator)
  {
    var s1 := 16 * gray + e1 * numerator;
    var s2 := 16 * gray + e2 * numerator;
    assert s1 <= s2 by {
      assert (e2 - e1) * numerator >= 0;
      assert e2 * numerator - e1 * numerator == (e2 - e1) * numerator;
    }
    if 0 <= s1 <= s2 <= 16 * 255 {
      assert s1 / 16 <= s2 / 16;
    }
  }
}
