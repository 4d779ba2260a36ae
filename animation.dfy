/**
 * The main program once its arguments are read: the palette is chosen, one
 * dithering goroutine per frame stores its result in its own slot of a
 * shared array, the program waits for all of them, and the frames are then
 * appended to the output animation in frame order with a zero delay each.
 */
module Animation {
  import opened Wrappers
  import opened Pixel
  import opened FloydSteinberg
  import opened Palettes
  import opened Ditherer

  /** The output animation: its frames and the delay of each frame. */
  datatype Gif = Gif(image: seq<Option<Paletted>>, delay: seq<int>)

  /** The result slots after the goroutines in order have stored their
      results, starting from slots. */
  function Completed<T>(slots: seq<T>, order: seq<nat>, results: seq<T>): (r: seq<T>)
    requires |results| == |slots|
    requires forall j :: 0 <= j < |order| ==> order[j] < |slots|
    ensures |r| == |slots|
    decreases |order|
  {
    if order == [] then slots
    else
      var last := order[|order| - 1];
      Completed(slots, order[..|order| - 1], results)[last := results[last]]
  }

  /** Slot k holds its own result once goroutine k has run, and its initial
      value otherwise. */
  lemma {:induction false} CompletedSlot<T>(slots: seq<T>, order: seq<nat>, results: seq<T>, k: nat)
    requires |results| == |slots|
    requires forall j :: 0 <= j < |order| ==> order[j] < |slots|
    requires k < |slots|
    ensures Completed(slots, order, results)[k] == if k in order then results[k] else slots[k]
    decreases |order|
  {
    if order != [] {
      var init := order[..|order| - 1];
      CompletedSlot(slots, init, results, k);
      assert order == init + [order[|order| - 1]];
      assert k in order <==> k in init || k == order[|order| - 1];
    }
  }

  /** The order in which the goroutines run does not matter: only which of
      them ran. */
  lemma CompletedOrderFree<T>(slots: seq<T>, order1: seq<nat>, order2: seq<nat>, results: seq<T>)
    requires |results| == |slots|
    requires forall j :: 0 <= j < |order1| ==> order1[j] < |slots|
    requires forall j :: 0 <= j < |order2| ==> order2[j] < |slots|
    requires forall k :: k in order1 <==> k in order2
    ensures Completed(slots, order1, results) == Completed(slots, order2, results)
  {
    forall k | 0 <= k < |slots|
      ensures Completed(slots, order1, results)[k] == Completed(slots, order2, results)[k]
    {
      CompletedSlot(slots, order1, results, k);
      CompletedSlot(slots, order2, results, k);
    }
  }

  /** Once every goroutine has run, every slot holds its own result. */
  lemma AllCompleted<T>(slots: seq<T>, order: seq<nat>, results: seq<T>)
    requires |results| == |slots|
    requires forall j :: 0 <= j < |order| ==> order[j] < |slots|
    requires forall k :: 0 <= k < |slots| ==> k in order
    ensures Completed(slots, order, results) == results
  {
    forall k | 0 <= k < |slots|
      ensures Completed(slots, order, results)[k] == results[k]
    {
      CompletedSlot(slots, order, results, k);
    }
  }

  /** The result each frame's goroutine stores. */
  function Results<C>(frames: seq<array2<C>>, findGray: C -> Byte, palette: seq<Rgba>, paletteSize: int): (r: seq<Option<Paletted>>)
    reads frames
    ensures |r| == |frames|
    ensures forall k :: 0 <= k < |frames| ==> r[k] == Some(FrameResult(frames[k], findGray, palette, paletteSize))
  {
    seq(|frames|, k requires 0 <= k < |frames| reads frames =>
      Some(FrameResult(frames[k], findGray, palette, paletteSize)))
  }

  /** The fan-out: the goroutine of each frame in schedule runs to completion
      in that order and stores its result in its own slot. */
  method FanOut<C>(frames: seq<array2<C>>, findGray: C -> Byte, palette: seq<Rgba>, paletteSize: int,
                   imgArr: array<Option<Paletted>>, schedule: seq<nat>)
    requires |frames| == imgArr.Length
    requires forall j :: 0 <= j < |schedule| ==> schedule[j] < |frames|
    requires Levels(paletteSize) <= |palette|
    modifies imgArr
    ensures imgArr[..] == Completed(old(imgArr[..]), schedule, Results(frames, findGray, palette, paletteSize))
  {
    ghost var results := Results(frames, findGray, palette, paletteSize);
    var j := 0;
    while j < |schedule|
      invariant 0 <= j <= |schedule|
      invariant results == Results(frames, findGray, palette, paletteSize)
      invariant imgArr[..] == Completed(old(imgArr[..]), schedule[..j], results)
    {
      var i := schedule[j];
      DitherInto(i, frames[i], findGray, palette, paletteSize, imgArr);
      assert schedule[..j + 1][..j] == schedule[..j];
      j := j + 1;
    }
    assert schedule[..|schedule|] == schedule;
  }

  /** Appends the slots, in frame order, to an empty animation, with a zero
      delay for each frame. */
  method Assemble(imgArr: array<Option<Paletted>>) returns (anim: Gif)
    ensures anim.image == imgArr[..]
    ensures |anim.delay| == imgArr.Length
    ensures forall k :: 0 <= k < |anim.delay| ==> anim.delay[k] == 0
  {
    anim := Gif([], []);
    var i := 0;
    while i < imgArr.Length
      invariant 0 <= i <= imgArr.Length
      invariant anim.image == imgArr[..i]
      invariant |anim.delay| == i
      invariant forall k :: 0 <= k < i ==> anim.delay[k] == 0
    {
      anim := Gif(anim.image + [imgArr[i]], anim.delay + [0]);
      i := i + 1;
    }
  }

  /** The program from palette choice to the assembled animation. schedule
      is the order in which the goroutines run; waiting on the WaitGroup
      means every frame's goroutine is in it. */
  method Run<C>(frames: seq<array2<C>>, findGray: C -> Byte, paletteArg: Option<int>, schedule: seq<nat>)
    returns (anim: Gif)
    requires forall j :: 0 <= j < |schedule| ==> schedule[j] < |frames|
    requires forall k :: 0 <= k < |frames| ==> k in schedule
    ensures anim.image == Results(frames, findGray, SelectPalette(paletteArg), |SelectPalette(paletteArg)|)
    ensures |anim.delay| == |frames|
    ensures forall k :: 0 <= k < |anim.delay| ==> anim.delay[k] == 0
  {
    var palette := SelectPalette(paletteArg);
    var paletteSize := |palette|;
    SelectedPaletteFitsQuantizer(paletteArg, 0);
    var imgArr := new Option<Paletted>[|frames|](_ => None);
    ghost var empty := imgArr[..];
    FanOut(frames, findGray, palette, paletteSize, imgArr, schedule);
    AllCompleted(empty, schedule, Results(frames, findGray, palette, paletteSize));
    anim := Assemble(imgArr);
  }
}
