/**
 * Floyd-Steinberg dithering of one frame, stated on values: a gray grid and
 * an index grid, both h rows of w cells, indexed [y][x]. The scan visits the
 * cells in row-major order; each visit quantizes the cell and pushes the
 * error to its east, southwest, south and southeast neighbours.
 */
module FloydSteinberg {
  import opened Pixel

  type Grid<T> = seq<seq<T>>

  /** g has h rows of w cells each. */
  predicate IsGrid<T>(g: Grid<T>, h: nat, w: nat)
  {
    |g| == h && forall y :: 0 <= y < h ==> |g[y]| == w
  }

  /** The grid with cell (y, x) replaced by v. */
  function Set<T>(g: Grid<T>, y: nat, x: nat, v: T): (r: Grid<T>)
    requires y < |g| && x < |g[y]|
  {
    g[y := g[y][x := v]]
  }

  /** An index grid of h by w zeros: a fresh paletted image. */
  function Zeros(h: nat, w: nat): (z: Grid<nat>)
    ensures IsGrid(z, h, w)
    ensures forall a, b :: 0 <= a < h && 0 <= b < w ==> z[a][b] == 0
  {
    seq(h, _ => seq(w, _ => 0))
  }

  /** Cell (a, b) comes strictly before cell (y, x) in row-major order. */
  predicate Precedes(a: int, b: int, y: int, x: int)
  {
    a < y || (a == y && b < x)
  }

  /** The numerator of the share of the error at (y, x) that cell (a, b)
      receives, or 0 when it receives none. The southwest guard is x - 1 > 0,
      so column 0 never receives southwest error. */
  function Weight(h: nat, w: nat, y: nat, x: nat, a: nat, b: nat): (n: nat)
    requires y < h && x < w
    ensures n > 0 ==> a < h && b < w && Precedes(y, x, a, b)
    ensures n == 7 ==> a == y && b == x + 1
    ensures n == 3 || n == 5 || n == 1 ==> a == y + 1
    ensures n == 3 ==> b >= 1 && b + 1 == x
    ensures n == 5 ==> b == x
    ensures n == 1 ==> b == x + 1
    ensures n == 0 || n == 1 || n == 3 || n == 5 || n == 7
  {
    if a == y && b == x + 1 && x + 1 < w then 7
    else if a == y + 1 && y + 1 < h && b + 1 == x && x - 1 > 0 then 3
    else if a == y + 1 && y + 1 < h && b == x then 5
    else if a == y + 1 && y + 1 < h && b == x + 1 && x + 1 < w then 1
    else 0
  }

  /** Pushes numerator/16 of err into cell (y, x). */
  function Push(g: Grid<Byte>, y: nat, x: nat, err: int, numerator: int): Grid<Byte>
    requires y < |g| && x < |g[y]|
  {
    Set(g, y, x, PushError(g[y][x], err, numerator))
  }

  /** The k-th push of a visit at (y, x), in the order east, southwest,
      south, southeast: its target cell and numerator, or NoTap when the
      push's guard fails. */
  datatype Tap = NoTap | Tap(row: nat, col: nat, numerator: nat)

  function KthTap(h: nat, w: nat, y: nat, x: nat, k: nat): (t: Tap)
    requires y < h && x < w
  {
    if k == 0 then (if x + 1 < w then Tap(y, x + 1, 7) else NoTap)
    else if k == 1 then (if y + 1 < h && x - 1 > 0 then Tap(y + 1, x - 1, 3) else NoTap)
    else if k == 2 then (if y + 1 < h then Tap(y + 1, x, 5) else NoTap)
    else if k == 3 then (if y + 1 < h && x + 1 < w then Tap(y + 1, x + 1, 1) else NoTap)
    else NoTap
  }

  /** The position among the four pushes of the push with this numerator. */
  function PushOrder(numerator: nat): nat
  {
    if numerator == 7 then 0 else if numerator == 3 then 1 else if numerator == 5 then 2 else 3
  }

  /** Performs pushes k .. 3 of a visit at (y, x). */
  function DiffuseFrom(g: Grid<Byte>, h: nat, w: nat, y: nat, x: nat, err: int, k: nat): (r: Grid<Byte>)
    requires IsGrid(g, h, w) && y < h && x < w
    ensures IsGrid(r, h, w)
    decreases 4 - k
  {
    if k >= 4 then g
    else
      var t := KthTap(h, w, y, x, k);
      var g' := if t.Tap? then Push(g, t.row, t.col, err, t.numerator) else g;
      DiffuseFrom(g', h, w, y, x, err, k + 1)
  }

  /** Spreads the error of cell (y, x) over its in-bounds neighbours, in the
      order east, southwest, south, southeast. */
  function Diffuse(g: Grid<Byte>, h: nat, w: nat, y: nat, x: nat, err: int): (r: Grid<Byte>)
    requires IsGrid(g, h, w) && y < h && x < w
    ensures IsGrid(r, h, w)
  {
    DiffuseFrom(g, h, w, y, x, err, 0)
  }

  /** Pushes k .. 3 cell by cell: a cell whose push is among them receives
      its share of err; every other cell keeps its value. */
  lemma {:induction false} DiffuseFromCell(g: Grid<Byte>, h: nat, w: nat, y: nat, x: nat, err: int, k: nat, a: nat, b: nat)
    requires IsGrid(g, h, w) && y < h && x < w && a < h && b < w
    ensures DiffuseFrom(g, h, w, y, x, err, k)[a][b] ==
              if Weight(h, w, y, x, a, b) > 0 && k <= PushOrder(Weight(h, w, y, x, a, b))
              then PushError(g[a][b], err, Weight(h, w, y, x, a, b))
              else g[a][b]
    decreases 4 - k
  {
    if k < 4 {
      var t := KthTap(h, w, y, x, k);
      var g' := if t.Tap? then Push(g, t.row, t.col, err, t.numerator) else g;
      DiffuseFromCell(g', h, w, y, x, err, k + 1, a, b);
    }
  }

  /** Diffusion cell by cell: each neighbour the guards admit receives its
      share of the ORIGINAL error; no other cell changes. */
  lemma DiffuseCell(g: Grid<Byte>, h: nat, w: nat, y: nat, x: nat, err: int, a: nat, b: nat)
    requires IsGrid(g, h, w) && y < h && x < w && a < h && b < w
    ensures Diffuse(g, h, w, y, x, err)[a][b] ==
              if Weight(h, w, y, x, a, b) > 0
              then PushError(g[a][b], err, Weight(h, w, y, x, a, b))
              else g[a][b]
  {
    DiffuseFromCell(g, h, w, y, x, err, 0, a, b);
  }

  /** The gray grid being diffused and the output index grid. */
  datatype State = State(gray: Grid<Byte>, out: Grid<nat>)

  predicate Shaped(s: State, h: nat, w: nat)
  {
    IsGrid(s.gray, h, w) && IsGrid(s.out, h, w)
  }

  /** One visit of cell (y, x): quantize its current gray value, write the
      index, diffuse the error. */
  function Step(s: State, h: nat, w: nat, y: nat, x: nat, paletteSize: int): (r: State)
    requires Shaped(s, h, w) && y < h && x < w
    ensures Shaped(r, h, w)
  {
    var oldPix := s.gray[y][x];
    var q := Quantize(oldPix, paletteSize);
    State(Diffuse(s.gray, h, w, y, x, oldPix - q.recon), Set(s.out, y, x, q.index))
  }

  /** A visit writes the quantized index at (y, x) and nowhere else, and
      changes no gray value at or before (y, x) in scan order. */
  lemma StepCell(s: State, h: nat, w: nat, y: nat, x: nat, paletteSize: int, a: nat, b: nat)
    requires Shaped(s, h, w) && y < h && x < w && a < h && b < w
    ensures Step(s, h, w, y, x, paletteSize).out[a][b] ==
              if a == y && b == x then Quantize(s.gray[y][x], paletteSize).index else s.out[a][b]
    ensures !Precedes(y, x, a, b) ==> Step(s, h, w, y, x, paletteSize).gray[a][b] == s.gray[a][b]
  {
    var oldPix := s.gray[y][x];
    DiffuseCell(s.gray, h, w, y, x, oldPix - Quantize(oldPix, paletteSize).recon, a, b);
  }

  /** Cell (y, x) is a scan position: a cell of the frame, the end of a row,
      or (h, 0), the position after the last cell. */
  predicate Position(h: nat, w: nat, y: nat, x: nat)
  {
    y <= h && x <= w && (y < h || x == 0)
  }

  /** The state the row-major scan reaches at position (y, x) when it starts
      from s at (0, 0): every cell before (y, x) has been visited. The end of
      row y and the start of row y + 1 are the same state. */
  function Scan(s: State, h: nat, w: nat, y: nat, x: nat, paletteSize: int): (r: State)
    requires Shaped(s, h, w) && Position(h, w, y, x)
    ensures Shaped(r, h, w)
    decreases y, x
  {
    if x > 0 then Step(Scan(s, h, w, y, x - 1, paletteSize), h, w, y, x - 1, paletteSize)
    else if y > 0 then Scan(s, h, w, y - 1, w, paletteSize)
    else s
  }

  /** The state of a fresh frame: its gray grid and an all-zero index grid. */
  function Init(gray: Grid<Byte>, h: nat, w: nat): (s: State)
    requires IsGrid(gray, h, w)
    ensures Shaped(s, h, w)
  {
    State(gray, Zeros(h, w))
  }

  /** The state just before cell (y, x) of a fresh frame is visited. */
  function Before(gray: Grid<Byte>, h: nat, w: nat, y: nat, x: nat, paletteSize: int): (s: State)
    requires IsGrid(gray, h, w) && Position(h, w, y, x)
    ensures Shaped(s, h, w)
  {
    Scan(Init(gray, h, w), h, w, y, x, paletteSize)
  }

  /** The state once every cell has been visited. */
  function Final(gray: Grid<Byte>, h: nat, w: nat, paletteSize: int): (s: State)
    requires IsGrid(gray, h, w)
    ensures Shaped(s, h, w)
  {
    Before(gray, h, w, h, 0, paletteSize)
  }

  /** The dithered index grid of a frame. */
  function Dither(gray: Grid<Byte>, h: nat, w: nat, paletteSize: int): (pix: Grid<nat>)
    requires IsGrid(gray, h, w)
    ensures IsGrid(pix, h, w)
  {
    Final(gray, h, w, paletteSize).out
  }

  /** Two grids of the same shape with the same cells are equal. */
  lemma GridEq<T>(g1: Grid<T>, g2: Grid<T>, h: nat, w: nat)
    requires IsGrid(g1, h, w) && IsGrid(g2, h, w)
    requires forall a, b :: 0 <= a < h && 0 <= b < w ==> g1[a][b] == g2[a][b]
    ensures g1 == g2
  {
    forall a | 0 <= a < h
      ensures g1[a] == g2[a]
    {
      assert forall b :: 0 <= b < w ==> g1[a][b] == g2[a][b];
    }
  }

  /** s1 and s2 hold the same gray value and index at cell (a, b). */
  predicate SameAt(s1: State, s2: State, h: nat, w: nat, a: nat, b: nat)
    requires Shaped(s1, h, w) && Shaped(s2, h, w) && a < h && b < w
  {
    s1.gray[a][b] == s2.gray[a][b] && s1.out[a][b] == s2.out[a][b]
  }

  /** A visit at (y, x), at or after (y1, x1), keeps a cell before (y1, x1)
      as it was at (y1, x1). */
  lemma FrozenStep(s: State, h: nat, w: nat, y1: nat, x1: nat, y: nat, x: nat, paletteSize: int, a: nat, b: nat)
    requires Shaped(s, h, w) && Position(h, w, y1, x1) && y < h && x < w
    requires !Precedes(y, x, y1, x1) && a < h && b < w && Precedes(a, b, y1, x1)
    requires SameAt(Scan(s, h, w, y1, x1, paletteSize), Scan(s, h, w, y, x, paletteSize), h, w, a, b)
    ensures SameAt(Scan(s, h, w, y1, x1, paletteSize), Scan(s, h, w, y, x + 1, paletteSize), h, w, a, b)
  {
    StepCell(Scan(s, h, w, y, x, paletteSize), h, w, y, x, paletteSize, a, b);
  }

  /** Nothing the scan does from position (y1, x1) on changes a cell
      before (y1, x1). */
  lemma {:induction false} Frozen(s: State, h: nat, w: nat, y1: nat, x1: nat, y2: nat, x2: nat, paletteSize: int, a: nat, b: nat)
    requires Shaped(s, h, w) && Position(h, w, y1, x1) && Position(h, w, y2, x2)
    requires !Precedes(y2, x2, y1, x1)
    requires a < h && b < w && Precedes(a, b, y1, x1)
    ensures SameAt(Scan(s, h, w, y1, x1, paletteSize), Scan(s, h, w, y2, x2, paletteSize), h, w, a, b)
    decreases y2, x2
  {
    if x2 > 0 && (y2 != y1 || x2 != x1) {
      Frozen(s, h, w, y1, x1, y2, x2 - 1, paletteSize, a, b);
      FrozenStep(s, h, w, y1, x1, y2, x2 - 1, paletteSize, a, b);
    } else if x2 == 0 && y2 > y1 {
      Frozen(s, h, w, y1, x1, y2 - 1, w, paletteSize, a, b);
      assert Scan(s, h, w, y2, 0, paletteSize) == Scan(s, h, w, y2 - 1, w, paletteSize);
    } else {
      assert y2 == y1 && x2 == x1;
    }
  }

  /** Scan-order invariant: the gray value the scan reads at (y, x) is the
      value that cell holds at the end, and the index written there is the
      quantization of that value. */
  lemma VisitedValueIsFinal(gray: Grid<Byte>, h: nat, w: nat, y: nat, x: nat, paletteSize: int)
    requires IsGrid(gray, h, w) && y < h && x < w
    ensures Final(gray, h, w, paletteSize).gray[y][x] == Before(gray, h, w, y, x, paletteSize).gray[y][x]
    ensures Final(gray, h, w, paletteSize).out[y][x] ==
            Quantize(Before(gray, h, w, y, x, paletteSize).gray[y][x], paletteSize).index
  {
    Frozen(Init(gray, h, w), h, w, y, x + 1, h, 0, paletteSize, y, x);
    StepCell(Before(gray, h, w, y, x, paletteSize), h, w, y, x, paletteSize, y, x);
  }

  /** Until the scan reaches a cell, its index is still the initial 0. */
  lemma {:induction false} UnvisitedUnset(gray: Grid<Byte>, h: nat, w: nat, y: nat, x: nat, paletteSize: int, a: nat, b: nat)
    requires IsGrid(gray, h, w) && Position(h, w, y, x)
    requires a < h && b < w && !Precedes(a, b, y, x)
    ensures Before(gray, h, w, y, x, paletteSize).out[a][b] == 0
    decreases y, x
  {
    if x > 0 {
      UnvisitedUnset(gray, h, w, y, x - 1, paletteSize, a, b);
      StepCell(Before(gray, h, w, y, x - 1, paletteSize), h, w, y, x - 1, paletteSize, a, b);
    } else if y > 0 {
      UnvisitedUnset(gray, h, w, y - 1, w, paletteSize, a, b);
    }
  }

  /** The dithered frame: every index is in range for the palette size, and
      each is the quantization of that cell's final gray value. */
  lemma DitherOutput(gray: Grid<Byte>, h: nat, w: nat, paletteSize: int)
    requires IsGrid(gray, h, w)
    ensures forall a, b :: 0 <= a < h && 0 <= b < w ==>
              Dither(gray, h, w, paletteSize)[a][b] < Levels(paletteSize) &&
              Dither(gray, h, w, paletteSize)[a][b] ==
                Quantize(Final(gray, h, w, paletteSize).gray[a][b], paletteSize).index
  {
    forall a, b | 0 <= a < h && 0 <= b < w
      ensures Dither(gray, h, w, paletteSize)[a][b] < Levels(paletteSize)
      ensures Dither(gray, h, w, paletteSize)[a][b] ==
                Quantize(Final(gray, h, w, paletteSize).gray[a][b], paletteSize).index
    {
      VisitedValueIsFinal(gray, h, w, a, b, paletteSize);
    }
  }

  /** A 1 by 1 frame of gray 100 with 4 colours: index 1, error 5. */
  lemma SinglePixel()
    ensures QuantError(100, 4) == 5
    ensures Dither([[100]], 1, 1, 4) == [[1]]
  {
    var s0 := Init([[100]], 1, 1);
    var s1 := Step(s0, 1, 1, 0, 0, 4);
    GridEq(s1.out, [[1]], 1, 1);
    assert Scan(s0, 1, 1, 0, 1, 4) == s1;
    assert Final([[100]], 1, 1, 4) == Scan(s0, 1, 1, 0, 1, 4);
  }

  /** A 2 by 2 all-black frame with 2 colours dithers to all index 0: every
      pixel has error 0 - 31 = -31, which the clamp absorbs, so the gray
      grid stays black throughout. */
  lemma AllBlack()
    ensures QuantError(0, 2) == -31
    ensures Final([[0, 0], [0, 0]], 2, 2, 2).gray == [[0, 0], [0, 0]]
    ensures Dither([[0, 0], [0, 0]], 2, 2, 2) == [[0, 0], [0, 0]]
  {
    var black := [[0, 0], [0, 0]];
    var s0 := Init(black, 2, 2);
    GridEq(s0.out, black, 2, 2);
    forall y: nat, x: nat | y < 2 && x < 2
      ensures Step(s0, 2, 2, y, x, 2) == s0
    {
      var r := Step(s0, 2, 2, y, x, 2);
      forall a: nat, b: nat | a < 2 && b < 2
        ensures r.gray[a][b] == 0 && r.out[a][b] == 0
      {
        DiffuseCell(black, 2, 2, y, x, -31, a, b);
        StepCell(s0, 2, 2, y, x, 2, a, b);
      }
      GridEq(r.gray, black, 2, 2);
      GridEq(r.out, black, 2, 2);
    }
    assert Scan(s0, 2, 2, 0, 1, 2) == s0;
    assert Scan(s0, 2, 2, 0, 2, 2) == s0;
    assert Scan(s0, 2, 2, 1, 0, 2) == s0;
    assert Scan(s0, 2, 2, 1, 1, 2) == s0;
    assert Scan(s0, 2, 2, 1, 2, 2) == s0;
    assert Scan(s0, 2, 2, 2, 0, 2) == s0;
    assert Final(black, 2, 2, 2) == s0;
  }
}
