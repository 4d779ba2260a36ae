# GolangDither, modelled in Dafny

GolangDither is a command-line program that reads an animated GIF. It
re-renders every frame with Floyd-Steinberg error diffusion in a small fixed
palette and writes the result as a new GIF. Each frame goes through these steps:

- it is turned into an 8-bit gray grid;
- the grid is scanned in row-major order;
- each pixel is quantized by a fixed threshold rule, into 4 bands when the
  palette has 4 colours and 2 bands otherwise;
- the quantization error is pushed to the east, southwest, south and
  southeast neighbours, in shares of 7, 3, 5 and 1 sixteenths, with the
  pushed value clamped to 0..255.

One goroutine per frame dithers that frame and stores the result in the
frame's slot of a shared array. After all goroutines finish, the frames are
appended to the output animation in frame order, each with a delay of 0.

The project has six modules:

- `Wrappers`: the `Option` type.
- `Pixel`: the quantizer, the quantization error and the clamped error push.
  The push is stated on exact integers and proved equal to the exact rational
  value of the source's float expression.
- `FloydSteinberg`: the dithering of one frame as a value-level definition
  on grids (`Scan`, `Dither`). It also holds the lemmas about diffusion
  targets and scan order.
- `Ditherer`: the per-frame work as the program does it. The gray grid and
  the output image are 2D arrays changed in place by nested loops. The result
  is proved equal to `Dither`, and only slot `i` of the result array is
  written. The module also holds the gray-grid construction as written (see
  Findings).
- `Palettes`: the six palettes and the choice of one from the optional
  palette argument.
- `Animation`: the fan-out of the per-frame goroutines, the assembly of the
  output animation, and the whole run from palette choice to animation.

The grey conversion `findGray` is a parameter `findGray: C -> Byte` over an
opaque colour type `C`. The goroutines' completion order is a parameter
`schedule`, the order in which they store their results.

## Model

| member | source | states |
|---|---|---|
| Pixel.Levels | GolangDither/dither.go:138-160 | the quantizer has 4 levels exactly when paletteSize is 4, and 2 otherwise (any other size takes the 2-colour branch) |
| Pixel.Quantize | GolangDither/dither.go:138-160 | with 4 colours the index is gray/64 and the value is 64*index+31 (31, 95, 159, 223); otherwise the index is gray/128 and the value is 31 or 223; the index is always below the level count |
| Pixel.QuantizeEdges | GolangDither/dither.go:139-157 | the band edges are at 64, 128 and 192 (4 colours) and at 128 (2 colours): 63/64, 127/128 and 191/192 fall on different sides |
| Pixel.QuantError | GolangDither/dither.go:165 | the error of a pixel is between -31 and 32 with 4 colours; with 2 colours it is in [-31, 96] below 128 and in [-95, 32] from 128 up |
| Pixel.PushError | GolangDither/dither.go:75-88 | the result is 255 when gray + err*n/16 exceeds 255, 0 when it is negative, and otherwise the floor of gray + err*n/16; an error of 0 leaves the value unchanged |
| Pixel.PushErrorExact | GolangDither/dither.go:78-87 | the integer form equals the clamp-and-truncate of the exact rational value gray + err*(n/16) |
| Pixel.PushErrorSaturates | GolangDither/dither.go:81-85 | an error of +1000 with numerator 7 gives 255 and -1000 gives 0, from any gray value |
| Pixel.PushErrorMonotone | GolangDither/dither.go:75-88 | for a non-negative numerator, a larger error never gives a smaller result |
| FloydSteinberg.Weight | GolangDither/dither.go:177-188 | a cell receiving error lies after the visited cell in scan order and inside the frame; 7 goes east (y, x+1); 3, 5 and 1 go to the next row, 3 to column x-1 (at least 1, so only when x-1 > 0), 5 to column x and 1 to column x+1 |
| FloydSteinberg.DiffuseFrom | GolangDither/dither.go:177-188 | performs the guarded pushes from position k on (east 7, southwest 3, south 5, southeast 1, in that order) and keeps the grid's shape; its cell-by-cell meaning is DiffuseFromCell |
| FloydSteinberg.Diffuse | GolangDither/dither.go:177-188 | all four guarded pushes of one visit, keeping the grid's shape; its cell-by-cell meaning is DiffuseCell |
| FloydSteinberg.DiffuseFromCell | GolangDither/dither.go:177-188 | performing the pushes from position k on sets each targeted cell whose push is among them to its pushed value and leaves every other cell unchanged |
| FloydSteinberg.DiffuseCell | GolangDither/dither.go:177-188 | after one visit, each neighbour the guards admit holds pushError(old value, error, its weight); every other cell is unchanged |
| FloydSteinberg.Zeros | GolangDither/dither.go:118 | the fresh paletted image: an h x w index grid of zeros |
| FloydSteinberg.Step | GolangDither/dither.go:131-188 | one visit (quantize the current value, write the index, diffuse the error) keeps both grids' shapes; its meaning is StepCell |
| FloydSteinberg.StepCell | GolangDither/dither.go:131-188 | a visit writes the quantized index at (y, x) only and changes no gray value at or before (y, x) in scan order |
| FloydSteinberg.Scan | GolangDither/dither.go:124-190 | the state the row-major scan reaches at a position keeps both grids' shapes; what the scan does to each cell is Frozen, VisitedValueIsFinal and UnvisitedUnset |
| FloydSteinberg.Final | GolangDither/dither.go:124-190 | the state after every cell is visited keeps both grids' shapes; its cells are given by VisitedValueIsFinal |
| FloydSteinberg.Dither | GolangDither/dither.go:124-190 | the output index grid has the frame's shape; its contents are given by DitherOutput |
| FloydSteinberg.Frozen | GolangDither/dither.go:124-190 | once the scan has passed a cell, no later visit changes its gray value or its index |
| FloydSteinberg.VisitedValueIsFinal | GolangDither/dither.go:124-190 | the gray value read at (y, x) is the final value of that cell, and the index there at the end is its quantization |
| FloydSteinberg.UnvisitedUnset | GolangDither/dither.go:118-190 | until the scan reaches a cell, its index is still the 0 of the fresh paletted image |
| FloydSteinberg.DitherOutput | GolangDither/dither.go:124-190 | every output index is below the level count (4 or 2) and is the quantization of that cell's final gray value |
| FloydSteinberg.SinglePixel | GolangDither/dither.go:138-165 | a 1x1 frame of gray 100 with 4 colours gets index 1 with error 5 |
| FloydSteinberg.AllBlack | GolangDither/dither.go:153-188 | a 2x2 all-black frame with 2 colours dithers to all 0; the error of a black pixel is -31, and the final gray grid is still all black because the clamp absorbs it |
| Ditherer.GrayOf | GolangDither/dither.go:106-112 | the gray grid has the frame's shape and holds findGray of each pixel |
| Ditherer.BuildGray | GolangDither/dither.go:106-112 | the fresh h x w gray array holds findGray of each pixel (rows allocated as intended, one per row y) |
| Ditherer.Store | GolangDither/dither.go:178 | one in-place cell assignment: the array now holds the grid with only that cell replaced |
| Ditherer.FrameResult | GolangDither/dither.go:91-197 | the result of one frame's goroutine has the frame's bounds and the given palette, and every index is below the quantizer's level count |
| Ditherer.DiffuseInPlace | GolangDither/dither.go:177-188 | the four guarded in-place pushes leave the gray array equal to Diffuse of its previous contents |
| Ditherer.Visit | GolangDither/dither.go:131-188 | one visit in place: the gray array and the output image are the Step of their previous contents |
| Ditherer.ScanRowInPlace | GolangDither/dither.go:125-189 | the inner loop over row y takes the arrays from the scan state at (y, 0) to the one at the end of row y |
| Ditherer.ScanInPlace | GolangDither/dither.go:124-190 | the outer loop leaves the gray array and the output image equal to the two grids of the completed scan |
| Ditherer.DitherFrame | GolangDither/dither.go:98-190 | the per-frame loops produce exactly Dither of the frame's gray grid, with the frame's shape |
| Ditherer.DitherInto | GolangDither/dither.go:91-197 | the goroutine for frame i changes slot i of the result array to that frame's result and no other slot |
| Ditherer.BuildGrayAsWritten | GolangDither/dither.go:106-112 | the construction as written panics unless the frame has no rows, or i is a valid row and the rows are empty or the frame is a 1-row first frame; when it does not panic, it yields the intended grid |
| Palettes.SelectPalette | GolangDither/dither.go:222-242 | arguments 2, 3, 4, 5 and 6 select greys, gameboy, retro, aqua and warm; a missing argument or any other value gives oneBit; the palette has 2 or 4 distinct colours, and 4 exactly for 2, 3, 5 and 6 |
| Palettes.SelectedPaletteFitsQuantizer | GolangDither/dither.go:138-160 | with paletteSize = len(palette), the quantizer's level count equals the palette size, so every index is a palette index and every palette index is produced |
| Animation.CompletedSlot | GolangDither/dither.go:196 | after the goroutines in an order have stored their results, slot k holds result k if goroutine k ran, and its initial value otherwise |
| Animation.Completed | GolangDither/dither.go:196 | the slot array after an order of goroutines keeps its length; which slot holds what is CompletedSlot |
| Animation.CompletedOrderFree | GolangDither/dither.go:274-279 | any two orders of the same set of goroutines give the same result array |
| Animation.AllCompleted | GolangDither/dither.go:274-279 | once every goroutine has run, in any order, slot k holds frame k's result for every k |
| Animation.Results | GolangDither/dither.go:277 | there is one result per input frame, and result k is frame k dithered |
| Animation.FanOut | GolangDither/dither.go:274-279 | running the goroutines in a schedule leaves the result array equal to the completed slots of that schedule |
| Animation.Assemble | GolangDither/dither.go:266-289 | the animation holds the result slots in frame order and one delay of 0 per frame |
| Animation.Run | GolangDither/dither.go:222-289 | for any order of completion, the output has N images equal to the dithered frames in order and N delays, all 0; the palette is the one the argument selects |

## Left out

- findGray (dither.go:52-67) is a parameter of type `C -> Byte`. Its float64 NTSC weights and the 16-to-8-bit colour shift are not modelled.
- Pixel.PushError: the source computes in float32. The model uses exact arithmetic. The two agree as long as 16*gray + err*numerator stays below 2^24 in magnitude, which holds for every error the quantizer produces. Rounding at larger magnitudes is not modelled.
- Goroutines and the WaitGroup are modelled as a sequence of frame indices, the order in which the goroutines complete. Each goroutine's run is atomic, because each writes only its own slot and reads only its own frame. Interleaving inside a run is not modelled.
- The command line is not modelled: the `.gif` suffix check, the usage message and the exit codes. The palette argument arrives already parsed as `Option<int>`. The `strconv.Atoi` failure path, which prints an error and exits, is not modelled.
- File I/O is not modelled: opening the input, `gif.DecodeAll`, creating the output and `gif.EncodeAll`.
- `image.Paletted` is modelled as its bounds, an index grid and its palette. `Set` with a colour is modelled as storing the colour's index, which the palettes' distinct colours make exact. Frame bounds are taken to start at (0, 0), and frame row y and column x are array cell [y, x]. So the model does not capture GIF frames that are sub-rectangles with a non-zero origin. For such a frame the source reads `frame.At(x, y)` for 0 <= x < w and 0 <= y < h, which can fall outside the frame's bounds, where `Paletted.At` returns the palette's first colour. Its `newImg.Set` calls outside the bounds are ignored.
- The input animation's delays, disposal and loop count are not modelled, because the program does not carry them over.
- A 2x2 all-black frame does not have a zero residual error. The code quantizes 0 to 31, so every error is -31. AllBlack states what the code does.

## Findings

| source | as written | input that shows it | evidently intended | confidence | as-written member | corrected member |
|---|---|---|---|---|---|---|
| GolangDither/dither.go:108 | each pass of the row loop allocates `grayPix[i]`, using the frame index i; then line 110 writes `grayPix[y][x]` into a row that may still be nil | frame i = 0 of height 2 and width 1: row 1 is never allocated, and writing `grayPix[1][0]` panics | allocate `grayPix[y]`, one row per image row | not executed | Ditherer.BuildGrayAsWritten | Ditherer.BuildGray |
