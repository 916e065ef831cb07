/** The shared IQ ring: one writer, lock-free readers, un-normalised head.

    The writer is described twice: as the block copy `SharedRing.Work` performs on the array, and
    as the sequence of single-cell writes and one publication a concurrent reader may observe
    (`RxStep`).  The ghost stream `written` is everything ever stored, oldest first; the ring is
    correct when every cell holds the newest stream sample congruent to it. */
module IqRing {
  import opened Modular
  import opened Options

  datatype Iq = Iq(re: real, im: real)

  const SILENCE := Iq(0.0, 0.0)

  // A gap between work() calls longer than this is taken for a sample drop.
  const GAP_LIMIT_S := 0.05

  /** Sample `i` of the unbounded stream; the buffer is zeroed before the stream begins. */
  function At(stream: seq<Iq>, i: int): Iq {
    if 0 <= i < |stream| then stream[i] else SILENCE
  }

  /** The `n` newest samples of the stream, oldest first. */
  function Latest(stream: seq<Iq>, n: nat): (r: seq<Iq>)
    ensures |r| == n
  {
    seq(n, k => At(stream, |stream| - n + k))
  }

  /** Cell `i mod size` holds stream[i] for each of the last `size` indices written. */
  ghost predicate Mirrors(cells: seq<Iq>, stream: seq<Iq>, size: nat)
    requires size > 0
  {
    && |cells| == size
    && forall i: int {:trigger At(stream, i)} ::
         |stream| - size <= i < |stream| ==> cells[Wrap(i, size)] == At(stream, i)
  }

  /** `idx` is the published head after `total` samples.  It is parked at `size`, never at 0,
      once anything has been written. */
  ghost predicate HeadOf(idx: nat, total: nat, size: nat)
    requires size > 0
  {
    && idx <= size
    && Wrap(idx, size) == Wrap(total, size)
    && (idx == 0 <==> total == 0)
  }

  // --- the writer, one observable step at a time -----------------------------

  /** What a concurrent reader can see, with the ghost stream: samples beyond `published` are
      already in their cells but the head does not cover them yet. */
  datatype Rx = Rx(cells: seq<Iq>, head: nat, written: seq<Iq>, published: nat)

  ghost predicate RxValid(rx: Rx, size: nat) {
    && size > 0
    && Mirrors(rx.cells, rx.written, size)
    && rx.published <= |rx.written|
    && HeadOf(rx.head, rx.published, size)
    && rx.head + |rx.written| - rx.published <= 2 * size
  }

  function InitialRx(size: nat): Rx {
    Rx(seq(size, _ => SILENCE), 0, [], 0)
  }

  /** Cell that receives the next sample of the block in flight. */
  function NextCell(rx: Rx, size: nat): int
    requires rx.published <= |rx.written|
  {
    var p := rx.head + |rx.written| - rx.published;
    if p < size then p else p - size
  }

  predicate CanFill(rx: Rx, size: nat) {
    && rx.published <= |rx.written|
    && |rx.cells| == size
    && rx.head + |rx.written| - rx.published < 2 * size
  }

  function Fill(rx: Rx, x: Iq, size: nat): Rx
    requires CanFill(rx, size)
  {
    rx.(cells := rx.cells[NextCell(rx, size) := x], written := rx.written + [x])
  }

  /** The block is complete: move the head past it. */
  function Publish(rx: Rx, size: nat): Rx
    requires rx.published <= |rx.written|
    requires rx.head + |rx.written| - rx.published <= 2 * size
  {
    var p := rx.head + |rx.written| - rx.published;
    rx.(head := if p <= size then p else p - size, published := |rx.written|)
  }

  /** One writer step: another cell of the block in flight, or its publication. */
  ghost predicate RxStep(rx: Rx, rx': Rx, size: nat) {
    || (CanFill(rx, size) && exists x :: rx' == Fill(rx, x, size))
    || (&& rx.published < |rx.written|
        && rx.head + |rx.written| - rx.published <= 2 * size
        && rx' == Publish(rx, size))
  }

  lemma InitialRxValid(size: nat)
    requires size > 0
    ensures RxValid(InitialRx(size), size)
  {
  }

  lemma FillValid(rx: Rx, x: Iq, size: nat)
    requires RxValid(rx, size) && CanFill(rx, size)
    ensures RxValid(Fill(rx, x, size), size)
  {
    var t := |rx.written|;
    var rx' := Fill(rx, x, size);
    WrapAdd(rx.head, rx.published, t - rx.published, size);
    var p := rx.head + t - rx.published;
    if p >= size {
      WrapShift(p - size, size);
    }
    assert NextCell(rx, size) == Wrap(t, size);
    forall i: int | t + 1 - size <= i < t + 1
      ensures rx'.cells[Wrap(i, size)] == At(rx'.written, i)
    {
      if i < t {
        if Wrap(i, size) == Wrap(t, size) {
          WrapUnique(i, t, size);
        }
        assert rx.cells[Wrap(i, size)] == At(rx.written, i);
      }
    }
  }

  lemma PublishValid(rx: Rx, size: nat)
    requires RxValid(rx, size)
    ensures RxValid(Publish(rx, size), size)
  {
    var p := rx.head + |rx.written| - rx.published;
    WrapAdd(rx.head, rx.published, |rx.written| - rx.published, size);
    if p > size {
      WrapShift(p - size, size);
    }
  }

  /** Every writer step keeps the mirror and only extends the stream. */
  lemma RxStepKeeps(rx: Rx, rx': Rx, size: nat)
    requires RxValid(rx, size)
    requires RxStep(rx, rx', size)
    ensures RxValid(rx', size)
    ensures rx.written <= rx'.written
    ensures rx.published <= rx'.published
  {
    if CanFill(rx, size) && exists x :: rx' == Fill(rx, x, size) {
      var x :| rx' == Fill(rx, x, size);
      FillValid(rx, x, size);
    } else {
      PublishValid(rx, size);
    }
  }

  // --- a whole block ----------------------------------------------------------

  /** The block stored cell by cell, head not moved yet. */
  function FillAll(rx: Rx, samples: seq<Iq>, size: nat): (r: Rx)
    requires CanStore(rx, |samples|, size)
    ensures r.written == rx.written + samples
    ensures r.head == rx.head && r.published == rx.published
    ensures |r.cells| == size
  {
    if samples == [] then rx
    else
      var r := FillAll(rx, samples[..|samples| - 1], size);
      Fill(r, samples[|samples| - 1], size)
  }

  predicate CanStore(rx: Rx, n: nat, size: nat) {
    && rx.published <= |rx.written|
    && |rx.cells| == size
    && rx.head + |rx.written| - rx.published + n <= 2 * size
  }

  /** The array after the two slice assignments of a block starting at `wi`. */
  ghost predicate HoldsBlock(cells': seq<Iq>, cells: seq<Iq>, wi: nat, samples: seq<Iq>, size: nat) {
    && |cells'| == |cells| == size
    && forall c :: 0 <= c < size ==>
         cells'[c] == (if 0 <= c + size - wi < |samples| then samples[c + size - wi]
                       else if 0 <= c - wi < |samples| then samples[c - wi]
                       else cells[c])
  }

  /** Storing cell by cell and storing by slices leave the same array. */
  lemma {:induction false} FillAllHoldsBlock(rx: Rx, samples: seq<Iq>, size: nat)
    requires rx.published == |rx.written| && rx.head <= size
    requires CanStore(rx, |samples|, size)
    ensures HoldsBlock(FillAll(rx, samples, size).cells, rx.cells, rx.head, samples, size)
  {
    if samples != [] {
      FillAllHoldsBlock(rx, samples[..|samples| - 1], size);
    }
  }

  lemma {:induction false} FillAllValid(rx: Rx, samples: seq<Iq>, size: nat)
    requires RxValid(rx, size) && CanStore(rx, |samples|, size)
    ensures RxValid(FillAll(rx, samples, size), size)
  {
    if samples != [] {
      FillAllValid(rx, samples[..|samples| - 1], size);
      FillValid(FillAll(rx, samples[..|samples| - 1], size), samples[|samples| - 1], size);
    }
  }

  lemma BlockStored(rx: Rx, cells': seq<Iq>, samples: seq<Iq>, size: nat)
    requires RxValid(rx, size) && rx.published == |rx.written|
    requires CanStore(rx, |samples|, size)
    requires HoldsBlock(cells', rx.cells, rx.head, samples, size)
    ensures FillAll(rx, samples, size).cells == cells'
    ensures RxValid(Publish(FillAll(rx, samples, size), size), size)
  {
    FillAllHoldsBlock(rx, samples, size);
    FillAllValid(rx, samples, size);
    PublishValid(FillAll(rx, samples, size), size);
  }

  // --- readers ----------------------------------------------------------------

  /** The one position congruent to `p` among the last `size` before `total`. */
  function Newest(total: int, p: int, size: nat): int
    requires size > 0
  {
    total - 1 - Wrap(total - 1 - p, size)
  }

  lemma NewestRight(total: int, p: int, size: nat)
    requires size > 0
    ensures var q := Newest(total, p, size);
            && total - size <= q < total && Wrap(q, size) == Wrap(p, size)
            && (q == p <==> total - size <= p < total)
  {
    var x := total - 1 - p;
    WrapPlus(x, 0, size);
    WrapSubtract(total - 1, Wrap(x, size), x, size);
    if total - size <= p < total {
      WrapUnique(Newest(total, p, size), p, size);
    }
  }

  /** Whatever cell is read, it holds the newest sample congruent to its index. */
  lemma CellHoldsNewest(cells: seq<Iq>, written: seq<Iq>, p: int, size: nat)
    requires size > 0 && Mirrors(cells, written, size)
    ensures cells[Wrap(p, size)] == At(written, Newest(|written|, p, size))
  {
    NewestRight(|written|, p, size);
    assert cells[Wrap(Newest(|written|, p, size), size)] == At(written, Newest(|written|, p, size));
  }

  /** Cells in the slices from `(widx - n) % size` to `widx`. */
  function CopyLength(widx: nat, n: nat, size: nat): int
    requires size > 0
  {
    var start := Wrap(widx - n, size);
    if start < widx then widx - start else size - start + widx
  }

  /** The slices hold, for any `n`, the one number of cells in 1..size congruent to it: `n` itself
      exactly when 0 < n <= size. */
  lemma ExtractLastLength(widx: nat, n: nat, size: nat)
    requires size > 0 && widx <= size
    ensures var m := CopyLength(widx, n, size);
            && 1 <= m <= size && Wrap(m, size) == Wrap(n, size)
            && (m == n <==> 0 < n <= size)
  {
    var start, m := Wrap(widx - n, size), CopyLength(widx, n, size);
    WrapPlus(widx - n, 0, size);
    WrapSubtract(widx, start, widx - n, size);
    if widx <= start {
      WrapShift(widx - start, size);
    }
    if 0 < n <= size {
      WrapUnique(m, n, size);
    }
  }

  /** A copied cell, read when the stream was `now`, for position `p` of a window that ends with
      the stream `then_`. */
  ghost predicate CopiedCell(x: Iq, then_: seq<Iq>, now: seq<Iq>, p: int, size: nat)
    requires size > 0
  {
    then_ <= now && x == At(now, Newest(|now|, p, size))
  }

  /** A copy of the last samples of `then_` while the writer runs on: each cell is read at an
      instant of its own. */
  ghost predicate LiveCopy(copy: seq<Iq>, then_: seq<Iq>, seen: seq<seq<Iq>>, size: nat)
    requires size > 0
  {
    && |seen| == |copy|
    && forall k :: 0 <= k < |copy| ==> CopiedCell(copy[k], then_, seen[k], |then_| - |copy| + k, size)
  }

  /** When the k-th of the last `n` samples of `then_` was read, the writer, counting the block in
      flight, had not lapped it. */
  ghost predicate InTime(then_: seq<Iq>, n: nat, seen: seq<seq<Iq>>, k: nat, size: nat)
    requires k < |seen|
  {
    |seen[k]| - size <= |then_| - n + k
  }

  /** Each sample of a live copy is the one wanted exactly when it was read in time. */
  lemma ExtractLastCell(copy: seq<Iq>, then_: seq<Iq>, seen: seq<seq<Iq>>, size: nat, k: nat)
    requires size > 0 && LiveCopy(copy, then_, seen, size) && k < |copy|
    ensures var first := |then_| - |copy|;
            && copy[k] == At(seen[k], Newest(|seen[k]|, first + k, size))
            && (Newest(|seen[k]|, first + k, size) == first + k <==> InTime(then_, |copy|, seen, k, size))
            && (InTime(then_, |copy|, seen, k, size) ==> copy[k] == At(then_, first + k))
  {
    assert CopiedCell(copy[k], then_, seen[k], |then_| - |copy| + k, size);
    NewestRight(|seen[k]|, |then_| - |copy| + k, size);
  }

  /** A copy read in time throughout is exactly the last samples before the head it started from. */
  lemma ExtractLastExact(copy: seq<Iq>, then_: seq<Iq>, seen: seq<seq<Iq>>, size: nat)
    requires size > 0 && LiveCopy(copy, then_, seen, size)
    requires forall k :: 0 <= k < |copy| ==> InTime(then_, |copy|, seen, k, size)
    ensures copy == Latest(then_, |copy|)
  {
    forall k | 0 <= k < |copy|
      ensures copy[k] == Latest(then_, |copy|)[k]
    {
      ExtractLastCell(copy, then_, seen, size, k);
    }
  }

  /** A sample read up to one lap too late is the sample one lap on. */
  lemma ExtractLastTorn(copy: seq<Iq>, then_: seq<Iq>, seen: seq<seq<Iq>>, size: nat, k: nat)
    requires size > 0 && LiveCopy(copy, then_, seen, size) && k < |copy|
    requires !InTime(then_, |copy|, seen, k, size) && |seen[k]| <= |then_| - |copy| + k + 2 * size
    ensures copy[k] == At(seen[k], |then_| - |copy| + k + size)
  {
    var p := |then_| - |copy| + k;
    ExtractLastCell(copy, then_, seen, size, k);
    NewestRight(|seen[k]|, p, size);
    WrapShift(p, size);
    WrapUnique(Newest(|seen[k]|, p, size), p + size, size);
  }

  // --- drop positions ---------------------------------------------------------

  /** Offset of a queued drop position in the decode window, if the loop emits one. */
  function MapDrop(dp: nat, decodeStart: nat, widx: nat, size: nat): Option<int> {
    if decodeStart < widx then
      if decodeStart <= dp < widx then Some(dp - decodeStart) else None
    else if dp >= decodeStart then Some(dp - decodeStart)
    else if dp < widx then Some(size - decodeStart + dp)
    else None
  }

  function MapDrops(drops: seq<nat>, decodeStart: nat, widx: nat, size: nat): seq<int> {
    if drops == [] then []
    else
      MapDrops(drops[..|drops| - 1], decodeStart, widx, size)
      + match MapDrop(drops[|drops| - 1], decodeStart, widx, size)
        case Some(o) => [o]
        case None => []
  }

  /** The loop over the drained drop positions. */
  method DropOffsets(drops: seq<nat>, decodeStart: nat, widx: nat, size: nat) returns (offsets: seq<int>)
    ensures offsets == MapDrops(drops, decodeStart, widx, size)
  {
    offsets := [];
    for k := 0 to |drops|
      invariant offsets == MapDrops(drops[..k], decodeStart, widx, size)
    {
      var dp := drops[k];
      if decodeStart < widx {
        if decodeStart <= dp && dp < widx {
          offsets := offsets + [dp - decodeStart];
        }
      } else {
        if dp >= decodeStart {
          offsets := offsets + [dp - decodeStart];
        } else if dp < widx {
          offsets := offsets + [size - decodeStart + dp];
        }
      }
      assert drops[..k + 1][..k] == drops[..k];
    }
    assert drops[..|drops|] == drops;
  }

  /** A drop that happened after `dropTotal` samples, no more than a lap back, and queued before the
      writer, since the head was read, came round to the decode window again: it is emitted exactly
      when its first sample after the gap is in the window and it is not the one parked at `size`
      while the window starts at cell 0; the offset emitted is that sample's true offset.  A drop
      queued after the head was read is not. */
  lemma MapDropExact(dp: nat, dropTotal: nat, widx: nat, total: nat, window: nat, size: nat)
    requires 0 < window < size
    requires HeadOf(widx, total, size) && HeadOf(dp, dropTotal, size)
    requires total - size < dropTotal < total + size - window
    ensures var decodeStart := Wrap(widx - window, size);
            var m := MapDrop(dp, decodeStart, widx, size);
            && (m.Some? <==> total - window <= dropTotal < total && !(dp == size && decodeStart == 0))
            && (m.Some? ==> 0 <= m.value < window && m.value == dropTotal - (total - window))
  {
    if widx < window {
      WrapShift(widx - window, size);
    }
    RingDistance(dp, dropTotal, widx, total, size);
  }

  /** The drops a cycle reports, of those queued in time order: each of them that the window holds, parked
      position apart, at its true offset, in the order queued. */
  ghost predicate ReportsDrops(positions: seq<nat>, totals: seq<nat>, widx: nat, total: nat, window: nat, size: nat,
                               picks: seq<nat>, offsets: seq<int>)
    requires |positions| == |totals|
  {
    && |picks| == |offsets|
    && (forall j :: 0 <= j < |picks| ==> picks[j] < |totals| && offsets[j] == totals[picks[j]] - (total - window))
    && (forall i, j :: 0 <= i < j < |picks| ==> picks[i] < picks[j])
    && (forall k :: 0 <= k < |totals| ==>
          (k in picks <==> && total - window <= totals[k] < total
                           && !(positions[k] == size && (widx == window || widx + size == window))))
  }

  lemma {:induction false} DropsReported(positions: seq<nat>, totals: seq<nat>, widx: nat, total: nat, window: nat,
                                         size: nat)
    returns (picks: seq<nat>)
    requires |positions| == |totals| && 0 < window < size && HeadOf(widx, total, size)
    requires forall k :: 0 <= k < |totals| ==>
               HeadOf(positions[k], totals[k], size) && total - size < totals[k] < total + size - window
    ensures ReportsDrops(positions, totals, widx, total, window, size, picks,
                         MapDrops(positions, Wrap(widx - window, size), widx, size))
  {
    picks := [];
    if positions != [] {
      var n := |positions| - 1;
      picks := DropsReported(positions[..n], totals[..n], widx, total, window, size);
      MapDropExact(positions[n], totals[n], widx, total, window, size);
      WindowAtZero(widx, window, size);
      var offsets := MapDrops(positions[..n], Wrap(widx - window, size), widx, size);
      picks := DropReported(positions, totals, widx, total, window, size, picks, offsets,
                            MapDrop(positions[n], Wrap(widx - window, size), widx, size));
    }
  }

  /** One more drop, at its offset or not at all. */
  lemma DropReported(positions: seq<nat>, totals: seq<nat>, widx: nat, total: nat, window: nat, size: nat,
                     picks: seq<nat>, offsets: seq<int>, m: Option<int>)
    returns (picks': seq<nat>)
    requires |positions| == |totals| > 0
    requires var n := |positions| - 1;
             && ReportsDrops(positions[..n], totals[..n], widx, total, window, size, picks, offsets)
             && (m.Some? <==> && total - window <= totals[n] < total
                              && !(positions[n] == size && (widx == window || widx + size == window)))
             && (m.Some? ==> m.value == totals[n] - (total - window))
    ensures ReportsDrops(positions, totals, widx, total, window, size, picks',
                         offsets + match m case Some(o) => [o] case None => [])
  {
    var n := |positions| - 1;
    picks' := if m.Some? then picks + [n] else picks;
    forall k | 0 <= k < n
      ensures k in picks' <==> k in picks && positions[..n][k] == positions[k] && totals[..n][k] == totals[k]
    {
    }
  }

  lemma WindowAtZero(widx: nat, window: nat, size: nat)
    requires 0 < window < size && widx <= size
    ensures Wrap(widx - window, size) == 0 <==> widx == window || widx + size == window
  {
  }

  /** Up to a lap, the distance of two positions in the ring is that in the stream, give or take the
      lap. */
  lemma RingDistance(dp: nat, dropTotal: nat, widx: nat, total: nat, size: nat)
    requires size > 0 && HeadOf(widx, total, size) && HeadOf(dp, dropTotal, size)
    requires total - size < dropTotal < total + size
    ensures var age := total - dropTotal;
            widx - dp == age || widx - dp == age + size || widx - dp == age - size
  {
    var age := total - dropTotal;
    WrapAdd(dropTotal, dp, age, size);
    assert Wrap(dp + age, size) == Wrap(widx, size);
    WrapNear(dp + age, widx, size);
    if dp == 0 || widx == 0 {
      assert dp + age - widx != 2 * size && widx - dp - age != 2 * size;
    }
  }

  /** Congruent positions at most two laps apart are a whole number of laps apart. */
  lemma WrapNear(a: int, b: int, size: nat)
    requires size > 0 && Wrap(a, size) == Wrap(b, size) && -2 * size <= a - b <= 2 * size
    ensures a - b == 0 || a - b == size || b - a == size || a - b == 2 * size || b - a == 2 * size
  {
    if a - b > size {
      WrapShift(b, size);
      WrapShift(b + size, size);
      WrapUniqueNear(a, b + 2 * size, size);
    } else if a > b {
      WrapShift(b, size);
      WrapUniqueNear(a, b + size, size);
    } else if b - a > size {
      WrapShift(a, size);
      WrapShift(a + size, size);
      WrapUniqueNear(a + 2 * size, b, size);
    } else {
      WrapShift(a, size);
      WrapUniqueNear(a + size, b, size);
    }
  }

  lemma WrapUniqueNear(a: int, b: int, size: nat)
    requires size > 0 && Wrap(a, size) == Wrap(b, size)
    ensures a - b < size && b - a < size ==> a == b
  {
    if a - b < size && b - a < size {
      WrapUnique(a, b, size);
    }
  }

  /** The emitted offset is the place, in the decode window, of the first sample stored after the
      gap. */
  lemma DropOffsetPointsAtGap(chunk: seq<Iq>, then_: seq<Iq>, seen: seq<seq<Iq>>, dp: nat, dropTotal: nat, widx: nat,
                              size: nat)
    requires 0 < |chunk| < size && LiveCopy(chunk, then_, seen, size)
    requires HeadOf(widx, |then_|, size) && HeadOf(dp, dropTotal, size)
    requires |then_| - size < dropTotal < |then_| + size - |chunk|
    ensures var m := MapDrop(dp, Wrap(widx - |chunk|, size), widx, size);
            m.Some? ==> && 0 <= m.value < |chunk| && dropTotal < |then_|
                        && (InTime(then_, |chunk|, seen, m.value, size) ==> chunk[m.value] == then_[dropTotal])
  {
    MapDropExact(dp, dropTotal, widx, |then_|, |chunk|, size);
    var m := MapDrop(dp, Wrap(widx - |chunk|, size), widx, size);
    if m.Some? {
      ExtractLastCell(chunk, then_, seen, size, m.value);
    }
  }

  // --- the ring as the writer thread updates it --------------------------------

  class SharedRing {
    const size: nat
    const iqBuffer: array<Iq>
    var bufWriteIdx: nat
    var inFlight: nat  // cells of the current block already stored, head not moved yet
    var rxOverflows: nat
    var dropQueue: seq<nat>
    var prevWorkTime: real
    ghost var written: seq<Iq>
    ghost var published: nat
    ghost var dropTotals: seq<nat>  // stream length at each queued drop
    ghost var drained: nat          // drops taken off the queue so far

    ghost predicate Valid()
      reads this, iqBuffer
    {
      && size == iqBuffer.Length
      && RxValid(View(), size)
      && inFlight == |written| - published
      && |dropQueue| == |dropTotals|
      && forall k :: 0 <= k < |dropQueue| ==>
           dropTotals[k] <= published && HeadOf(dropQueue[k], dropTotals[k], size)
    }

    ghost function View(): Rx
      reads this, iqBuffer
    {
      Rx(iqBuffer[..], bufWriteIdx, written, published)
    }

    constructor (size: nat, now: real)
      requires size > 0
      ensures this.size == size && fresh(iqBuffer)
      ensures Valid() && written == [] && published == 0
      ensures bufWriteIdx == 0 && rxOverflows == 0 && dropQueue == [] && drained == 0 && prevWorkTime == now
    {
      this.size := size;
      iqBuffer := new Iq[size](_ => SILENCE);
      bufWriteIdx := 0;
      inFlight := 0;
      rxOverflows := 0;
      dropQueue := [];
      prevWorkTime := now;
      written := [];
      published := 0;
      dropTotals := [];
      drained := 0;
      new;
      assert iqBuffer[..] == InitialRx(size).cells;
      InitialRxValid(size);
    }

    /** One call of the sink block.  An empty block fails in the peak meter, before anything is
        stored; the copy fails on a block longer than everything up to one lap past the end of the
        buffer.  Neither publishes anything. */
    method Work(samples: seq<Iq>, now: real) returns (ok: bool)
      requires Valid() && inFlight == 0
      modifies this, iqBuffer
      ensures ok <==> samples != [] && old(bufWriteIdx) + |samples| <= 2 * size
      ensures ok ==> Valid() && written == old(written) + samples && inFlight == 0
                     && View() == Publish(FillAll(old(View()), samples, size), size)
      ensures samples == [] ==> View() == old(View())
      ensures !ok && samples != [] ==>
                View() == old(View()).(cells := old(iqBuffer[..bufWriteIdx]) + samples[..size - old(bufWriteIdx)])
      ensures prevWorkTime == now && drained == old(drained)
      ensures var gap := now - old(prevWorkTime) > 0.05 && old(prevWorkTime) > 0.0;
              && rxOverflows == old(rxOverflows) + (if gap then 1 else 0)
              && dropQueue == old(dropQueue) + (if gap then [old(bufWriteIdx)] else [])
              && dropTotals == old(dropTotals) + (if gap then [old(published)] else [])
    {
      NoteGap(now);
      if samples == [] {
        return false;
      }
      ok := StoreBlock(samples);
    }

    /** The block copy of `Work`, then the head. */
    method StoreBlock(samples: seq<Iq>) returns (ok: bool)
      requires Valid() && inFlight == 0
      modifies this`bufWriteIdx, this`written, this`published, iqBuffer
      ensures ok <==> old(bufWriteIdx) + |samples| <= 2 * size
      ensures ok ==> Valid() && View() == Publish(FillAll(old(View()), samples, size), size)
      ensures !ok ==>
                View() == old(View()).(cells := old(iqBuffer[..bufWriteIdx]) + samples[..size - old(bufWriteIdx)])
    {
      ghost var before := View();
      ok := Store(samples);
      if ok {
        bufWriteIdx := if |samples| <= size - bufWriteIdx then bufWriteIdx + |samples|
                       else |samples| - (size - bufWriteIdx);
        written := written + samples;
        published := |written|;
        BlockStored(before, iqBuffer[..], samples, size);
      }
    }

    /** Overflow detection of `Work`: a gap between calls queues the head at the drop. */
    method NoteGap(now: real)
      requires Valid()
      modifies this`rxOverflows, this`dropQueue, this`dropTotals, this`prevWorkTime
      ensures Valid() && prevWorkTime == now
      ensures var gap := now - old(prevWorkTime) > 0.05 && old(prevWorkTime) > 0.0;
              && rxOverflows == old(rxOverflows) + (if gap then 1 else 0)
              && dropQueue == old(dropQueue) + (if gap then [bufWriteIdx] else [])
              && dropTotals == old(dropTotals) + (if gap then [published] else [])
    {
      if now - prevWorkTime > GAP_LIMIT_S && prevWorkTime > 0.0 {
        rxOverflows := rxOverflows + 1;
        dropQueue := dropQueue + [bufWriteIdx];
        dropTotals := dropTotals + [published];
      }
      prevWorkTime := now;
    }

    /** The slice assignments of `Work`.  A second slice longer than the buffer is refused after
        the first one has been stored. */
    method Store(samples: seq<Iq>) returns (ok: bool)
      requires size == iqBuffer.Length && bufWriteIdx <= size
      modifies iqBuffer
      ensures ok <==> bufWriteIdx + |samples| <= 2 * size
      ensures ok ==> HoldsBlock(iqBuffer[..], old(iqBuffer[..]), bufWriteIdx, samples, size)
      ensures !ok ==> iqBuffer[..] == old(iqBuffer[..bufWriteIdx]) + samples[..size - bufWriteIdx]
    {
      var n, wi := |samples|, bufWriteIdx;
      var space := size - wi;
      if n <= space {
        forall k | wi <= k < wi + n {
          iqBuffer[k] := samples[k - wi];
        }
      } else {
        forall k | wi <= k < size {
          iqBuffer[k] := samples[k - wi];
        }
        var remainder := n - space;
        if remainder > size {
          return false;
        }
        forall k | 0 <= k < remainder {
          iqBuffer[k] := samples[space + k];
        }
      }
      ok := true;
    }

    /** One step of a block copy seen from outside: its next cell, or the new head. */
    method RxMicroStep(fill: bool, sample: Iq) returns (moved: bool)
      requires Valid()
      modifies this`bufWriteIdx, this`inFlight, this`written, this`published, iqBuffer
      ensures Valid()
      ensures if moved then RxStep(old(View()), View(), size) else View() == old(View())
    {
      var p := bufWriteIdx + inFlight;
      moved := if fill then p < 2 * size else inFlight > 0;
      if moved && fill {
        FillValid(View(), sample, size);
        iqBuffer[if p < size then p else p - size] := sample;
        inFlight := inFlight + 1;
        written := written + [sample];
        assert View() == Fill(old(View()), sample, size);
      } else if moved {
        PublishValid(View(), size);
        bufWriteIdx := if p <= size then p else p - size;
        inFlight := 0;
        published := |written|;
        assert View() == Publish(old(View()), size);
      }
    }

    /** Any number of steps of the writer thread. */
    method WriterRuns()
      requires Valid()
      modifies this`bufWriteIdx, this`inFlight, this`written, this`published, iqBuffer
      ensures Valid() && old(written) <= written
    {
      var steps: nat := *;
      while steps > 0
        invariant Valid() && old(written) <= written
      {
        var sample: Iq := *;
        var fill: bool := *;
        ghost var before := View();
        var moved := RxMicroStep(fill, sample);
        if moved {
          RxStepKeeps(before, View(), size);
        }
        steps := steps - 1;
      }
    }

    /** Anything the writer thread does: steps of a block, and gaps noted between blocks. */
    method WriterThread()
      requires Valid()
      modifies this, iqBuffer
      ensures Valid() && old(written) <= written && drained == old(drained)
      ensures old(dropQueue) <= dropQueue && old(dropTotals) <= dropTotals
    {
      var turns: nat := *;
      while turns > 0
        invariant Valid() && old(written) <= written && drained == old(drained)
        invariant old(dropQueue) <= dropQueue && old(dropTotals) <= dropTotals
      {
        WriterRuns();
        if inFlight == 0 {
          var now: real := *;
          NoteGap(now);
        }
        turns := turns - 1;
      }
      WriterRuns();
    }

    /** The processor's draining loop: takes the drops off the queue, oldest first, until it is empty. */
    method DrainDrops() returns (positions: seq<nat>, ghost totals: seq<nat>)
      requires Valid()
      modifies this`dropQueue, this`dropTotals, this`drained
      ensures Valid() && positions == old(dropQueue) && totals == old(dropTotals)
      ensures dropQueue == [] && drained == old(drained) + |positions|
    {
      positions, totals := [], [];
      while dropQueue != []
        invariant Valid()
        invariant positions + dropQueue == old(dropQueue) && totals + dropTotals == old(dropTotals)
        invariant drained == old(drained) + |positions|
        decreases |dropQueue|
      {
        positions := positions + [dropQueue[0]];
        totals := totals + [dropTotals[0]];
        dropQueue := dropQueue[1..];
        dropTotals := dropTotals[1..];
        drained := drained + 1;
      }
    }

    /** One cell of a copy, after whatever the writer did since the last. */
    method ReadCell(widx: nat, n: nat, k: nat, ghost then_: seq<Iq>) returns (x: Iq)
      requires Valid() && HeadOf(widx, |then_|, size) && then_ <= written && k < CopyLength(widx, n, size)
      modifies this`bufWriteIdx, this`inFlight, this`written, this`published, iqBuffer
      ensures Valid() && old(written) <= written
      ensures CopiedCell(x, then_, written, |then_| - CopyLength(widx, n, size) + k, size)
    {
      WriterRuns();
      var start := Wrap(widx - n, size);
      var cell := if start + k < size then start + k else start + k - size;
      CopyCell(widx, n, |then_|, k, size);
      CellHoldsNewest(iqBuffer[..], written, |then_| - CopyLength(widx, n, size) + k, size);
      x := iqBuffer[cell];
    }

    /** `_extract_last`, from a head read when the stream was `then_`, the writer running between
        any two cells. */
    method ExtractLast(widx: nat, n: nat, ghost then_: seq<Iq>) returns (copy: seq<Iq>, ghost seen: seq<seq<Iq>>)
      requires Valid() && HeadOf(widx, |then_|, size) && then_ <= written
      modifies this`bufWriteIdx, this`inFlight, this`written, this`published, iqBuffer
      ensures Valid() && old(written) <= written
      ensures |copy| == CopyLength(widx, n, size) && LiveCopy(copy, then_, seen, size)
    {
      ExtractLastLength(widx, n, size);
      copy, seen := [], [];
      for k := 0 to CopyLength(widx, n, size)
        invariant Valid() && old(written) <= written
        invariant |copy| == |seen| == k
        invariant forall j :: 0 <= j < k ==>
                    CopiedCell(copy[j], then_, seen[j], |then_| - CopyLength(widx, n, size) + j, size)
      {
        var x := ReadCell(widx, n, k, then_);
        copy := copy + [x];
        seen := seen + [written];
      }
    }
  }

  lemma CopyCell(widx: nat, n: nat, total: nat, k: nat, size: nat)
    requires size > 0 && HeadOf(widx, total, size) && k < CopyLength(widx, n, size)
    ensures var start := Wrap(widx - n, size);
            (if start + k < size then start + k else start + k - size)
            == Wrap(total - CopyLength(widx, n, size) + k, size)
  {
    var start, m := Wrap(widx - n, size), CopyLength(widx, n, size);
    WrapAdd(total, widx, k - m, size);
    if start < widx {
      WrapShift(start + k, size);
    } else {
      WrapShift(start + k - size, size);
    }
  }
}
