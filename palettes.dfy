/**
 * The six fixed palettes and the selection of one by the optional palette
 * argument of the command line (already parsed to an integer).
 */
module Palettes {
  import opened Wrappers
  import opened Pixel

  /** An 8-bit RGBA colour; every palette entry is opaque. */
  datatype Rgba = Rgba(r: Byte, g: Byte, b: Byte, a: Byte)

  /** Black and white. */
  const OneBit: seq<Rgba> := [Rgba(0, 0, 0, 255), Rgba(255, 255, 255, 255)]
  /** Four greys. */
  const Greys: seq<Rgba> :=
    [Rgba(51, 51, 51, 255), Rgba(102, 102, 102, 255), Rgba(153, 153, 153, 255), Rgba(204, 204, 204, 255)]
  /** Green-grey gradient. */
  const Gameboy: seq<Rgba> :=
    [Rgba(8, 24, 32, 255), Rgba(52, 104, 86, 255), Rgba(136, 192, 112, 255), Rgba(224, 248, 208, 255)]
  /** Black and lime green. */
  const Retro: seq<Rgba> := [Rgba(40, 40, 40, 255), Rgba(51, 255, 51, 255)]
  /** Blues and white. */
  const Aqua: seq<Rgba> :=
    [Rgba(0, 128, 191, 255), Rgba(0, 172, 223, 255), Rgba(85, 208, 255, 255), Rgba(124, 232, 255, 255)]
  /** Reds and browns. */
  const Warm: seq<Rgba> :=
    [Rgba(100, 69, 54, 255), Rgba(178, 103, 94, 255), Rgba(196, 163, 129, 255), Rgba(238, 241, 189, 255)]

  /** No colour occurs twice, so writing palette[k] into a paletted image
      stores index k. */
  predicate Distinct(p: seq<Rgba>)
  {
    forall i, j :: 0 <= i < j < |p| ==> p[i] != p[j]
  }

  /** The palette chosen by the argument: 2 to 6 pick greys, gameboy, retro,
      aqua and warm; any other value, and no argument, keep black and white. */
  function SelectPalette(arg: Option<int>): (p: seq<Rgba>)
    ensures |p| == 2 || |p| == 4
    ensures Distinct(p)
    ensures (arg.None? || arg.value < 2 || arg.value > 6) ==> p == OneBit
    ensures |p| == 4 <==> arg.Some? && arg.value in {2, 3, 5, 6}
    ensures arg == Some(2) ==> p == Greys
    ensures arg == Some(3) ==> p == Gameboy
    ensures arg == Some(4) ==> p == Retro
    ensures arg == Some(5) ==> p == Aqua
    ensures arg == Some(6) ==> p == Warm
  {
    match arg
    case None => OneBit
    case Some(n) =>
      match n
      case 2 => Greys
      case 3 => Gameboy
      case 4 => Retro
      case 5 => Aqua
      case 6 => Warm
      case _ => OneBit
  }

  /** With paletteSize = len(palette), every index the quantizer produces is a
      valid index of the selected palette, and every palette entry is produced
      by some gray value. */
  lemma SelectedPaletteFitsQuantizer(arg: Option<int>, k: nat)
    ensures Levels(|SelectPalette(arg)|) == |SelectPalette(arg)|
    ensures k < |SelectPalette(arg)| ==>
              Quantize((256 / |SelectPalette(arg)|) * k, |SelectPalette(arg)|).index == k
  {
    var n := |SelectPalette(arg)|;
    if k < n {
      if n == 4 {
        assert Quantize(64 * k, 4).index == 64 * k / 64;
      } else {
        assert Quantize(128 * k, 2).index == 128 * k / 128;
      }
    }
  }
}
