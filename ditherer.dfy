/**
 * The per-frame ditherer as the program runs it: a gray grid filled from the
 * frame and mutated in place by a row-major scan, and a paletted output image
 * written one pixel per visit. Proved equal to the value-level definition in
 * FloydSteinberg.
 */
module Ditherer {
  import opened Wrappers
  import opened Pixel
  import opened FloydSteinberg
  import opened Palettes

  /** A paletted output frame: its bounds, a palette index per pixel and the
      palette those indices refer to. */
  datatype Paletted = Paletted(height: nat, width: nat, pix: Grid<nat>, palette: seq<Rgba>)

  /** The gray value of every pixel of a frame (row y is image row y). */
  function GrayOf<C>(frame: array2<C>, findGray: C -> Byte): (g: Grid<Byte>)
    reads frame
    ensures IsGrid(g, frame.Length0, frame.Length1)
    ensures forall y, x :: 0 <= y < frame.Length0 && 0 <= x < frame.Length1 ==>
              g[y][x] == findGray(frame[y, x])
  {
    seq(frame.Length0, y requires 0 <= y < frame.Length0 reads frame =>
      seq(frame.Length1, x requires 0 <= x < frame.Length1 reads frame => findGray(frame[y, x])))
  }

  /** The contents of a 2D array as a grid value. */
  function Snapshot<T>(a: array2<T>): (g: Grid<T>)
    reads a
    ensures IsGrid(g, a.Length0, a.Length1)
    ensures forall y, x :: 0 <= y < a.Length0 && 0 <= x < a.Length1 ==> g[y][x] == a[y, x]
  {
    seq(a.Length0, y requires 0 <= y < a.Length0 reads a =>
      seq(a.Length1, x requires 0 <= x < a.Length1 reads a => a[y, x]))
  }

  /** The array holds exactly the grid g. */
  ghost predicate Models<T>(a: array2<T>, g: Grid<T>)
    reads a
  {
    IsGrid(g, a.Length0, a.Length1) &&
    forall y, x :: 0 <= y < a.Length0 && 0 <= x < a.Length1 ==> a[y, x] == g[y][x]
  }

  lemma SnapshotOfModel<T>(a: array2<T>, g: Grid<T>)
    requires Models(a, g)
    ensures Snapshot(a) == g
  {
    GridEq(Snapshot(a), g, a.Length0, a.Length1);
  }

  /** The result of the ditherer for one frame: an image with the frame's
      bounds and the given palette, whose every index is one the quantizer
      produces for paletteSize. */
  function FrameResult<C>(frame: array2<C>, findGray: C -> Byte, palette: seq<Rgba>, paletteSize: int): (r: Paletted)
    reads frame
    ensures r.height == frame.Length0 && r.width == frame.Length1 && r.palette == palette
    ensures IsGrid(r.pix, r.height, r.width)
    ensures forall a, b :: 0 <= a < r.height && 0 <= b < r.width ==> r.pix[a][b] < Levels(paletteSize)
  {
    DitherOutput(GrayOf(frame, findGray), frame.Length0, frame.Length1, paletteSize);
    Paletted(frame.Length0, frame.Length1,
             Dither(GrayOf(frame, findGray), frame.Length0, frame.Length1, paletteSize), palette)
  }

  /** Builds the gray grid of a frame, one row per image row (the code as
      intended; see BuildGrayAsWritten for the code as written). */
  method BuildGray<C>(frame: array2<C>, findGray: C -> Byte) returns (grayPix: array2<Byte>)
    ensures fresh(grayPix)
    ensures grayPix.Length0 == frame.Length0 && grayPix.Length1 == frame.Length1
    ensures Models(grayPix, GrayOf(frame, findGray))
  {
    var h, w := frame.Length0, frame.Length1;
    grayPix := new Byte[h, w];
    var y := 0;
    while y < h
      invariant 0 <= y <= h
      invariant forall a, b :: 0 <= a < y && 0 <= b < w ==> grayPix[a, b] == findGray(frame[a, b])
    {
      var x := 0;
      while x < w
        invariant 0 <= x <= w
        invariant forall a, b :: 0 <= a < y && 0 <= b < w ==> grayPix[a, b] == findGray(frame[a, b])
        invariant forall b :: 0 <= b < x ==> grayPix[y, b] == findGray(frame[y, b])
      {
        grayPix[y, x] := findGray(frame[y, x]);
        x := x + 1;
      }
      y := y + 1;
    }
  }

  /** One in-place cell assignment `a[y][x] = v`. */
  method Store<T>(a: array2<T>, y: nat, x: nat, v: T, ghost g: Grid<T>)
    requires y < a.Length0 && x < a.Length1
    requires Models(a, g)
    modifies a
    ensures Models(a, Set(g, y, x, v))
  {
    a[y, x] := v;
  }

  /** Pushes the error of cell (y, x) into its neighbours in place, under the
      source's guards: east if x + 1 < w; on the next row (if any) southwest
      if x - 1 > 0, south always, southeast if x + 1 < w. */
  method DiffuseInPlace(grayPix: array2<Byte>, y: nat, x: nat, quantError: int, ghost g: Grid<Byte>)
    requires y < grayPix.Length0 && x < grayPix.Length1
    requires Models(grayPix, g)
    modifies grayPix
    ensures Models(grayPix, Diffuse(g, grayPix.Length0, grayPix.Length1, y, x, quantError))
  {
    var h, w := grayPix.Length0, grayPix.Length1;
    ghost var g1 := if x + 1 < w then Push(g, y, x + 1, quantError, 7) else g;
    if x + 1 < w {
      Store(grayPix, y, x + 1, PushError(grayPix[y, x + 1], quantError, 7), g);
    }
    assert DiffuseFrom(g, h, w, y, x, quantError, 0) == DiffuseFrom(g1, h, w, y, x, quantError, 1);
    if y + 1 < h {
      ghost var g2 := if x - 1 > 0 then Push(g1, y + 1, x - 1, quantError, 3) else g1;
      if x - 1 > 0 {
        Store(grayPix, y + 1, x - 1, PushError(grayPix[y + 1, x - 1], quantError, 3), g1);
      }
      assert DiffuseFrom(g1, h, w, y, x, quantError, 1) == DiffuseFrom(g2, h, w, y, x, quantError, 2);
      Store(grayPix, y + 1, x, PushError(grayPix[y + 1, x], quantError, 5), g2);
      ghost var g3 := Push(g2, y + 1, x, quantError, 5);
      assert DiffuseFrom(g2, h, w, y, x, quantError, 2) == DiffuseFrom(g3, h, w, y, x, quantError, 3);
      ghost var g4 := if x + 1 < w then Push(g3, y + 1, x + 1, quantError, 1) else g3;
      if x + 1 < w {
        Store(grayPix, y + 1, x + 1, PushError(grayPix[y + 1, x + 1], quantError, 1), g3);
      }
      assert DiffuseFrom(g3, h, w, y, x, quantError, 3) == DiffuseFrom(g4, h, w, y, x, quantError, 4);
    } else {
      assert DiffuseFrom(g1, h, w, y, x, quantError, 1) == DiffuseFrom(g1, h, w, y, x, quantError, 2);
      assert DiffuseFrom(g1, h, w, y, x, quantError, 2) == DiffuseFrom(g1, h, w, y, x, quantError, 3);
      assert DiffuseFrom(g1, h, w, y, x, quantError, 3) == DiffuseFrom(g1, h, w, y, x, quantError, 4);
    }
  }

  /** One visit of the scan: reads the current gray value of (y, x),
      quantizes it, writes the palette index into the output image and
      diffuses the error. */
  method Visit(grayPix: array2<Byte>, newImg: array2<nat>, y: nat, x: nat, paletteSize: int, ghost s: State)
    requires newImg.Length0 == grayPix.Length0 && newImg.Length1 == grayPix.Length1
    requires y < grayPix.Length0 && x < grayPix.Length1
    requires Shaped(s, grayPix.Length0, grayPix.Length1)
    requires Models(grayPix, s.gray) && Models(newImg, s.out)
    requires grayPix as object != newImg
    modifies grayPix, newImg
    ensures Models(grayPix, Step(s, grayPix.Length0, grayPix.Length1, y, x, paletteSize).gray)
    ensures Models(newImg, Step(s, grayPix.Length0, grayPix.Length1, y, x, paletteSize).out)
  {
    var oldPix := grayPix[y, x];
    var q := Quantize(oldPix, paletteSize);
    var quantError := oldPix - q.recon;
    ghost var next := Step(s, grayPix.Length0, grayPix.Length1, y, x, paletteSize);
    assert next.out == Set(s.out, y, x, q.index);
    assert next.gray == Diffuse(s.gray, grayPix.Length0, grayPix.Length1, y, x, quantError);
    Store(newImg, y, x, q.index, s.out);
    DiffuseInPlace(grayPix, y, x, quantError, s.gray);
  }

  /** Visits the cells of row y from left to right. */
  method ScanRowInPlace(grayPix: array2<Byte>, newImg: array2<nat>, y: nat, paletteSize: int, ghost s0: State)
    requires newImg.Length0 == grayPix.Length0 && newImg.Length1 == grayPix.Length1
    requires y < grayPix.Length0
    requires Shaped(s0, grayPix.Length0, grayPix.Length1)
    requires Models(grayPix, Scan(s0, grayPix.Length0, grayPix.Length1, y, 0, paletteSize).gray)
    requires Models(newImg, Scan(s0, grayPix.Length0, grayPix.Length1, y, 0, paletteSize).out)
    requires grayPix as object != newImg
    modifies grayPix, newImg
    ensures Models(grayPix, Scan(s0, grayPix.Length0, grayPix.Length1, y, grayPix.Length1, paletteSize).gray)
    ensures Models(newImg, Scan(s0, grayPix.Length0, grayPix.Length1, y, grayPix.Length1, paletteSize).out)
  {
    var h, w := grayPix.Length0, grayPix.Length1;
    var x := 0;
    while x < w
      invariant 0 <= x <= w
      invariant Models(grayPix, Scan(s0, h, w, y, x, paletteSize).gray)
      invariant Models(newImg, Scan(s0, h, w, y, x, paletteSize).out)
    {
      Visit(grayPix, newImg, y, x, paletteSize, Scan(s0, h, w, y, x, paletteSize));
      x := x + 1;
    }
  }

  /** The row-major scan: visits rows top to bottom. */
  method ScanInPlace(grayPix: array2<Byte>, newImg: array2<nat>, paletteSize: int, ghost s0: State)
    requires newImg.Length0 == grayPix.Length0 && newImg.Length1 == grayPix.Length1
    requires Shaped(s0, grayPix.Length0, grayPix.Length1)
    requires Models(grayPix, s0.gray) && Models(newImg, s0.out)
    requires grayPix as object != newImg
    modifies grayPix, newImg
    ensures Models(grayPix, Scan(s0, grayPix.Length0, grayPix.Length1, grayPix.Length0, 0, paletteSize).gray)
    ensures Models(newImg, Scan(s0, grayPix.Length0, grayPix.Length1, grayPix.Length0, 0, paletteSize).out)
  {
    var h, w := grayPix.Length0, grayPix.Length1;
    var y := 0;
    while y < h
      invariant 0 <= y <= h
      invariant Models(grayPix, Scan(s0, h, w, y, 0, paletteSize).gray)
      invariant Models(newImg, Scan(s0, h, w, y, 0, paletteSize).out)
    {
      ScanRowInPlace(grayPix, newImg, y, paletteSize, s0);
      assert Scan(s0, h, w, y + 1, 0, paletteSize) == Scan(s0, h, w, y, w, paletteSize);
      y := y + 1;
    }
  }

  /** Dithers one frame: builds its gray grid and a zeroed output image, then
      scans the grid in row-major order, visiting every cell once. The result
      is the value-level dithering of the frame. */
  method DitherFrame<C>(frame: array2<C>, findGray: C -> Byte, paletteSize: int) returns (pix: Grid<nat>)
    ensures IsGrid(pix, frame.Length0, frame.Length1)
    ensures pix == Dither(GrayOf(frame, findGray), frame.Length0, frame.Length1, paletteSize)
  {
    var h, w := frame.Length0, frame.Length1;
    var grayPix := BuildGray(frame, findGray);
    var newImg := new nat[h, w]((_, _) => 0);
    ghost var s0 := Init(GrayOf(frame, findGray), h, w);
    assert Models(newImg, s0.out);
    ScanInPlace(grayPix, newImg, paletteSize, s0);
    SnapshotOfModel(newImg, Final(GrayOf(frame, findGray), h, w, paletteSize).out);
    pix := Snapshot(newImg);
  }

  /** The dithering goroutine for frame i: dithers the frame and stores the
      result in slot i of the shared result array, and nowhere else. The
      palette must hold every index the quantizer can produce. */
  method DitherInto<C>(i: nat, frame: array2<C>, findGray: C -> Byte, palette: seq<Rgba>, paletteSize: int,
                       imgArr: array<Option<Paletted>>)
    requires i < imgArr.Length
    requires Levels(paletteSize) <= |palette|
    modifies imgArr
    ensures imgArr[..] == old(imgArr[..])[i := Some(FrameResult(frame, findGray, palette, paletteSize))]
  {
    var pix := DitherFrame(frame, findGray, paletteSize);
    imgArr[i] := Some(Paletted(frame.Length0, frame.Length1, pix, palette));
  }

  /** The frame index i can hold the row loop as written only when the result
      is empty, when no row has cells, or for a single-row first frame. */
  predicate AsWrittenSucceeds(i: int, h: nat, w: nat)
  {
    h == 0 || (0 <= i < h && (w == 0 || (h == 1 && i == 0)))
  }

  /** The gray-grid construction exactly as written: each pass of the row
      loop allocates row i, the FRAME index, instead of row y, so the other
      rows stay nil. None stands for the run-time panic, either from indexing
      row i out of range or from writing into a nil row. When it does not
      panic the grid is the intended one; it panics already for a 2 by 1
      first frame. */
  method BuildGrayAsWritten<C>(i: int, frame: array2<C>, findGray: C -> Byte) returns (r: Option<Grid<Byte>>)
    ensures r.Some? <==> AsWrittenSucceeds(i, frame.Length0, frame.Length1)
    ensures r.Some? ==> r.value == GrayOf(frame, findGray)
  {
    var h, w := frame.Length0, frame.Length1;
    var rows: seq<Option<seq<Byte>>> := seq(h, _ => None);
    var y := 0;
    while y < h
      invariant 0 <= y <= h && |rows| == h
      invariant forall a :: 0 <= a < h && rows[a].Some? ==> |rows[a].value| == w
      invariant forall a :: 0 <= a < h && rows[a].Some? ==> a == i
      invariant y == 1 ==> 0 <= i < h && (w == 0 || i == 0)
      invariant y > 1 ==> AsWrittenSucceeds(i, h, w)
      invariant y == 1 && i == 0 ==>
                  rows[0].Some? && forall b :: 0 <= b < w ==> rows[0].value[b] == findGray(frame[0, b])
    {
      if !(0 <= i < h) {
        return None;
      }
      rows := rows[i := Some(seq(w, _ => 0))];
      var x := 0;
      while x < w
        invariant 0 <= x <= w && |rows| == h
        invariant forall a :: 0 <= a < h && rows[a].Some? ==> |rows[a].value| == w
        invariant forall a :: 0 <= a < h && rows[a].Some? ==> a == i
        invariant rows[i].Some?
        invariant x > 0 ==> y == i
        invariant y == i ==>
                    rows[y].Some? && forall b :: 0 <= b < x ==> rows[y].value[b] == findGray(frame[y, b])
      {
        if rows[y].None? {
          return None;
        }
        rows := rows[y := Some(rows[y].value[x := findGray(frame[y, x])])];
        x := x + 1;
      }
      y := y + 1;
    }
    var grid := seq(h, a requires 0 <= a < h => if rows[a].Some? then rows[a].value else []);
    GridEq(grid, GrayOf(frame, findGray), h, w);
    return Some(grid);
  }
}
