/** Forward capture out of the live ring: `SamplesAdvanced`, and the chunked copy with its wait
    loop and after-the-fact overrun guard, interleaved with the writer one cell at a time.

    A system state pairs what the writer exposes (`IqRing.Rx`) with the capture's own variables.
    `base` is the true stream position of the reduced cursor; the program never sees it. */
module ForwardCapture {
  import opened Modular
  import opened IqRing

  /** Samples written from `start` to `end` as the program computes them from two indices. */
  function SamplesAdvanced(start: nat, end: nat, size: nat): int {
    if end >= start then end - start else size - start + end
  }

  /** The cursor sits at cell 0 and the head is parked at `size` instead of 0. */
  predicate Parked(cursor: nat, head: nat, size: nat) {
    cursor == 0 && head == size
  }

  /** Exact meaning of the wrapped distance: the true advance reduced by whole laps, except that
      a head parked over a cursor at 0 reads as a full lap. */
  lemma {:induction false} WrappedDistance(cursor: nat, head: nat, base: nat, total: nat, size: nat)
    requires size > 0
    requires cursor <= size && Wrap(cursor, size) == Wrap(base, size)
    requires HeadOf(head, total, size) && base <= total
    ensures SamplesAdvanced(cursor, head, size)
         == if Parked(cursor, head, size) then size else Wrap(total - base, size)
    ensures Parked(cursor, head, size) ==> Wrap(total - base, size) == 0
  {
    WrapAdd(total, head, 0 - base, size);
    WrapSubtract(head, base, cursor, size);
    assert Wrap(total - base, size) == Wrap(head - cursor, size);
    if head < cursor {
      WrapShift(head - cursor, size);
    } else if head - cursor == size {
      WrapShift(0, size);
    }
  }

  /** The distance is the true advance exactly below one lap, the parked case apart; at one whole
      lap only the parked case reads right. */
  lemma DistanceExact(cursor: nat, head: nat, base: nat, total: nat, size: nat)
    requires size > 0
    requires cursor <= size && Wrap(cursor, size) == Wrap(base, size)
    requires HeadOf(head, total, size) && base <= total
    ensures SamplesAdvanced(cursor, head, size) == total - base
       <==> if Parked(cursor, head, size) then total - base == size else total - base < size
  {
    WrappedDistance(cursor, head, base, total, size);
  }

  /** The guard refuses every published overrun up to the length of the chunk past a full lap. */
  lemma GuardCatchesOverrun(cursor: nat, head: nat, base: nat, total: nat, size: nat, thisN: nat)
    requires size > 0 && thisN <= size
    requires cursor <= size && Wrap(cursor, size) == Wrap(base, size)
    requires HeadOf(head, total, size)
    requires base + size < total < base + size + thisN
    ensures SamplesAdvanced(cursor, head, size) < thisN
  {
    WrappedDistance(cursor, head, base, total, size);
    WrapShift(total - base - size, size);
  }

  // --- the capture as a state machine ------------------------------------------

  datatype Phase = Starting | Waiting | Copying(i: nat) | Guarding | Captured | TimedOut | Overran

  datatype Sys = Sys(
    rx: Rx,
    phase: Phase,
    n: nat,              // samples asked for
    cursor: nat,         // chunk_start
    base: nat,           // true stream position of the cursor
    filled: nat,
    segment: seq<Iq>     // the part of the result array already assigned
  )

  function ThisN(s: Sys, size: nat): nat {
    if size / 2 < s.n - s.filled then size / 2
    else if s.filled < s.n then s.n - s.filled
    else 0
  }

  /** `e` in the program: one past the chunk, reduced. */
  function ChunkEnd(s: Sys, size: nat): nat
    requires size > 0
  {
    Wrap(s.cursor + ThisN(s, size), size)
  }

  /** Cell read for the i-th sample of the chunk by the slice copy. */
  function ReadCell(s: Sys, i: nat, size: nat): int
    requires size > 0
  {
    if s.cursor < ChunkEnd(s, size) then s.cursor + i
    else if i < size - s.cursor then s.cursor + i
    else i - (size - s.cursor)
  }

  function Advance(s: Sys, size: nat): int {
    SamplesAdvanced(s.cursor, s.rx.head, size)
  }

  /** One step of the capture.  Each reads the shared ring at most once. */
  ghost predicate CaptureStep(s: Sys, s': Sys, size: nat)
    requires size > 0
  {
    match s.phase
    case Starting =>
      s' == s.(phase := if s.n == 0 then Captured else Waiting,
               cursor := s.rx.head, base := s.rx.published)
    case Waiting =>
      if Advance(s, size) < ThisN(s, size)
      then s' == s || s' == s.(phase := TimedOut)
      else s' == s.(phase := Copying(0))
    case Copying(i) =>
      && i < ThisN(s, size)
      && 0 <= ReadCell(s, i, size) < |s.rx.cells|
      && s' == s.(segment := s.segment + [s.rx.cells[ReadCell(s, i, size)]],
                  phase := if i + 1 == ThisN(s, size) then Guarding else Copying(i + 1))
    case Guarding =>
      if Advance(s, size) < ThisN(s, size)
      then s' == s.(phase := Overran)
      else s' == s.(phase := if s.filled + ThisN(s, size) == s.n then Captured else Waiting,
                    cursor := ChunkEnd(s, size),
                    base := s.base + ThisN(s, size),
                    filled := s.filled + ThisN(s, size))
    case Captured => false
    case TimedOut => false
    case Overran => false
  }

  ghost predicate WriterStep(s: Sys, s': Sys, size: nat) {
    RxStep(s.rx, s'.rx, size) && s' == s.(rx := s'.rx)
  }

  ghost predicate Step(s: Sys, s': Sys, size: nat)
    requires size > 0
  {
    WriterStep(s, s', size) || CaptureStep(s, s', size)
  }

  ghost predicate StepAt(run: seq<Sys>, k: nat, size: nat)
    requires size > 0 && k < |run| - 1
  {
    Step(run[k], run[k + 1], size)
  }

  /** Any interleaving of writer and capture, from a ring in any valid state. */
  ghost predicate IsRun(run: seq<Sys>, size: nat)
    requires size > 0
  {
    && |run| > 0
    && RxValid(run[0].rx, size)
    && run[0].phase == Starting && run[0].filled == 0 && run[0].segment == []
    && forall k :: 0 <= k < |run| - 1 ==> StepAt(run, k, size)
  }

  // --- every run, clean or not -----------------------------------------------------

  /** Copied part of the current chunk. */
  function Copied(s: Sys, size: nat): int {
    match s.phase
    case Copying(i) => i
    case Guarding => ThisN(s, size)
    case _ => 0
  }

  /** The chunk's cells are the congruent ones, and the reduced end is congruent to the next
      chunk's true position. */
  lemma ChunkCells(s: Sys, size: nat, i: nat)
    requires size >= 2 && s.cursor <= size && Wrap(s.cursor, size) == Wrap(s.base, size)
    requires s.filled < s.n && i < ThisN(s, size)
    ensures ReadCell(s, i, size) == Wrap(s.base + i, size)
    ensures Wrap(ChunkEnd(s, size), size) == Wrap(s.base + ThisN(s, size), size)
  {
    WrapAdd(s.cursor, s.base, i, size);
    WrapAdd(s.cursor, s.base, ThisN(s, size), size);
    var p := s.cursor + ThisN(s, size);
    if p >= size {
      WrapShift(p - size, size);
    }
    if s.cursor + i >= size {
      WrapShift(s.cursor + i - size, size);
    }
  }

  /** What holds whatever the writer did: while chunks remain, whole half-buffers have been filled,
      the cursor is congruent to its true position, and the result is as long as the counts say. */
  ghost predicate Aligned(s: Sys, size: nat) {
    && size >= 2 && RxValid(s.rx, size)
    && (s.phase == Starting ==> s.filled == 0 && s.segment == [])
    && (s.phase in {Waiting, Guarding} || s.phase.Copying? ==>
          && s.filled < s.n && Wrap(s.filled, size / 2) == 0
          && s.cursor <= size && Wrap(s.cursor, size) == Wrap(s.base, size)
          && (s.filled == 0 ==> HeadOf(s.cursor, s.base, size)))
    && (s.phase.Copying? ==> s.phase.i < ThisN(s, size))
    && (s.phase == Captured ==> s.filled == s.n)
    && (s.phase != Overran ==> |s.segment| == s.filled + Copied(s, size))
  }

  lemma CaptureKeepsAligned(s: Sys, s': Sys, size: nat)
    requires Aligned(s, size) && CaptureStep(s, s', size) && s.phase != Guarding
    ensures Aligned(s', size)
  {
  }

  lemma GuardKeepsAligned(s: Sys, s': Sys, size: nat)
    requires Aligned(s, size) && CaptureStep(s, s', size) && s.phase == Guarding
    ensures Aligned(s', size)
  {
    if s'.phase == Waiting {
      ChunkCells(s, size, 0);
      WrapShift(s.filled, size / 2);
    }
  }

  lemma StepKeepsAligned(s: Sys, s': Sys, size: nat)
    requires size >= 2 && Aligned(s, size) && Step(s, s', size)
    ensures Aligned(s', size)
  {
    if WriterStep(s, s', size) {
      RxStepKeeps(s.rx, s'.rx, size);
    } else if s.phase == Guarding {
      GuardKeepsAligned(s, s', size);
    } else {
      CaptureKeepsAligned(s, s', size);
    }
  }

  lemma {:induction false} RunKeepsAligned(run: seq<Sys>, size: nat, k: nat)
    requires size >= 2 && IsRun(run, size) && k < |run|
    ensures Aligned(run[k], size)
  {
    if k > 0 {
      RunKeepsAligned(run, size, k - 1);
      assert StepAt(run, k - 1, size);
      StepKeepsAligned(run[k - 1], run[k], size);
    }
  }

  // --- when the copy is exact ----------------------------------------------------

  /** What must not happen at a step for a capture to be trusted beyond the first `slack` samples of
      each chunk.  As it leaves the wait, the head must not be parked over a cursor at 0 with nothing
      new behind it.  As the guard accepts, the writer must be less than a lap and a chunk past the
      cursor, and where the guard accepts the published advance of a chunk of more than `slack`, the
      block in flight must not be more than `slack` samples past a lap. */
  ghost predicate Undisturbed(s: Sys, s': Sys, slack: nat, size: nat)
    requires size > 0
  {
    && (s.phase == Waiting && s'.phase.Copying? ==> !StaleWait(s, size))
    && (s.phase == Guarding && s'.phase in {Waiting, Captured} ==>
          && s.rx.published < s.base + size + ThisN(s, size)
          && (s.rx.published <= s.base + size && ThisN(s, size) > slack ==> |s.rx.written| <= s.base + size + slack))
  }

  /** A wait for samples none of which has come, with the head parked over the cursor. */
  ghost predicate StaleWait(s: Sys, size: nat) {
    s.phase == Waiting && Parked(s.cursor, s.rx.head, size) && s.rx.published == s.base
  }

  ghost predicate UndisturbedAt(run: seq<Sys>, k: nat, slack: nat, size: nat)
    requires size > 0 && k < |run| - 1
  {
    Undisturbed(run[k], run[k + 1], slack, size)
  }

  ghost predicate CleanRun(run: seq<Sys>, slack: nat, size: nat)
    requires size > 0
  {
    forall k :: 0 <= k < |run| - 1 ==> UndisturbedAt(run, k, slack, size)
  }

  /** Invariant of clean runs, beside `Aligned`.  The chunk being copied is only known to be right as
      far as the writer has not lapped it, which the guard decides later. */
  ghost predicate Inv(s: Sys, slack: nat, size: nat) {
    && Aligned(s, size)
    && (s.phase != Starting ==> s.filled <= s.base <= s.rx.published)
    && (s.phase.Copying? || s.phase.Guarding? ==> s.base + ThisN(s, size) <= s.rx.published)
    && (s.phase != Overran ==> SegmentRight(s, slack, size))
  }

  /** Sample `x` of a finished chunk is trusted beyond the chunk's first `slack`; one of the chunk
      being copied, while the writer has not lapped it. */
  ghost predicate Trusted(s: Sys, slack: nat, size: nat, x: nat)
    requires size >= 2
  {
    if x < s.filled then Wrap(x, size / 2) >= slack else |s.rx.written| <= s.base + size + (x - s.filled)
  }

  ghost predicate SegmentRight(s: Sys, slack: nat, size: nat)
    requires size >= 2
  {
    forall x {:trigger s.segment[x]} :: 0 <= x < |s.segment| && Trusted(s, slack, size, x) ==>
      s.segment[x] == At(s.rx.written, s.base - s.filled + x)
  }

  lemma WriterKeepsInv(s: Sys, s': Sys, slack: nat, size: nat)
    requires Inv(s, slack, size) && WriterStep(s, s', size)
    requires Aligned(s', size)
    ensures Inv(s', slack, size)
  {
    RxStepKeeps(s.rx, s'.rx, size);
    forall x | s.phase != Overran && 0 <= x < |s.segment| && Trusted(s', slack, size, x)
      ensures s'.segment[x] == At(s'.rx.written, s'.base - s'.filled + x)
    {
      assert Trusted(s, slack, size, x);
      assert s.base - s.filled + x < s.rx.published;
      assert s.segment[x] == At(s.rx.written, s.base - s.filled + x);
    }
  }

  lemma WaitKeepsInv(s: Sys, s': Sys, slack: nat, size: nat)
    requires Inv(s, slack, size) && s.phase == Waiting && CaptureStep(s, s', size)
    requires Undisturbed(s, s', slack, size)
    requires Aligned(s', size)
    ensures Inv(s', slack, size)
  {
    if s'.phase.Copying? {
      WaitOver(s, size);
    }
    SegmentKept(s, s', slack, size);
  }

  lemma SegmentKept(s: Sys, s': Sys, slack: nat, size: nat)
    requires size >= 2 && SegmentRight(s, slack, size) && s' == s.(phase := s'.phase)
    ensures SegmentRight(s', slack, size)
  {
    forall x | 0 <= x < |s'.segment| && Trusted(s', slack, size, x)
      ensures s'.segment[x] == At(s'.rx.written, s'.base - s'.filled + x)
    {
      assert Trusted(s, slack, size, x);
    }
  }

  /** A wait that ends, but for a stale one, has its chunk published. */
  lemma WaitOver(s: Sys, size: nat)
    requires Aligned(s, size) && s.phase == Waiting && s.base <= s.rx.published
    requires Advance(s, size) >= ThisN(s, size) && !StaleWait(s, size)
    ensures s.base + ThisN(s, size) <= s.rx.published
  {
    WrappedDistance(s.cursor, s.rx.head, s.base, s.rx.published, size);
    EnoughAdvanced(s.rx.published - s.base, ThisN(s, size), size);
  }

  /** An advance whose reduction reaches `n`, or that is a nonzero whole number of laps, is at
      least `n` itself. */
  lemma EnoughAdvanced(d: nat, n: nat, size: nat)
    requires size > 0 && n <= size
    ensures Wrap(d, size) >= n || (d > 0 && Wrap(d, size) == 0) ==> d >= n
  {
  }

  lemma CopyKeepsInv(s: Sys, s': Sys, slack: nat, size: nat)
    requires Inv(s, slack, size) && s.phase.Copying? && CaptureStep(s, s', size)
    requires Aligned(s', size)
    ensures Inv(s', slack, size)
  {
    var i := s.phase.i;
    ChunkCells(s, size, i);
    assert ThisN(s', size) == ThisN(s, size);
    forall x | 0 <= x < |s'.segment| && Trusted(s', slack, size, x)
      ensures s'.segment[x] == At(s'.rx.written, s'.base - s'.filled + x)
    {
      if x < |s.segment| {
        assert Trusted(s, slack, size, x) && s'.segment[x] == s.segment[x];
      } else {
        assert At(s.rx.written, s.base + i) == s.rx.cells[Wrap(s.base + i, size)];
      }
    }
  }

  /** As the guard accepts a chunk longer than `slack`, the writer is at most `slack` past a lap. */
  lemma AcceptedInTime(s: Sys, s': Sys, slack: nat, size: nat)
    requires Inv(s, slack, size) && s.phase == Guarding && CaptureStep(s, s', size) && s'.phase != Overran
    requires Undisturbed(s, s', slack, size) && ThisN(s, size) > slack
    ensures |s.rx.written| <= s.base + size + slack
  {
    if s.rx.published > s.base + size {
      GuardCatchesOverrun(s.cursor, s.rx.head, s.base, s.rx.published, size, ThisN(s, size));
    }
  }

  lemma InChunk(filled: nat, i: nat, half: nat)
    requires i < half && Wrap(filled, half) == 0
    ensures Wrap(filled + i, half) == i
  {
    WrapPlus(filled, i, half);
  }

  lemma GuardKeepsInv(s: Sys, s': Sys, slack: nat, size: nat)
    requires Inv(s, slack, size) && s.phase == Guarding && CaptureStep(s, s', size)
    requires Undisturbed(s, s', slack, size)
    requires Aligned(s', size)
    ensures Inv(s', slack, size)
  {
    if s'.phase != Overran {
      if ThisN(s, size) > slack {
        AcceptedInTime(s, s', slack, size);
      }
      SegmentAccepted(s, s', slack, size);
    }
  }

  lemma SegmentAccepted(s: Sys, s': Sys, slack: nat, size: nat)
    requires Aligned(s, size) && s.phase == Guarding && SegmentRight(s, slack, size)
    requires ThisN(s, size) > slack ==> |s.rx.written| <= s.base + size + slack
    requires s'.segment == s.segment && s'.rx == s.rx
    requires s'.filled == s.filled + ThisN(s, size) && s'.base == s.base + ThisN(s, size)
    ensures SegmentRight(s', slack, size)
  {
    forall x | 0 <= x < |s'.segment| && Trusted(s', slack, size, x)
      ensures s'.segment[x] == At(s'.rx.written, s'.base - s'.filled + x)
    {
      if x >= s.filled {
        InChunk(s.filled, x - s.filled, size / 2);
      }
      assert Trusted(s, slack, size, x);
    }
  }

  lemma StepKeepsInv(s: Sys, s': Sys, slack: nat, size: nat)
    requires Inv(s, slack, size) && Step(s, s', size) && Undisturbed(s, s', slack, size)
    ensures Inv(s', slack, size)
  {
    StepKeepsAligned(s, s', size);
    if WriterStep(s, s', size) {
      WriterKeepsInv(s, s', slack, size);
    } else {
      match s.phase
      case Starting =>
      case Waiting => WaitKeepsInv(s, s', slack, size);
      case Copying(_) => CopyKeepsInv(s, s', slack, size);
      case Guarding => GuardKeepsInv(s, s', slack, size);
    }
  }

  lemma {:induction false} RunKeepsInv(run: seq<Sys>, slack: nat, size: nat, k: nat)
    requires size >= 2 && IsRun(run, size) && CleanRun(run, slack, size)
    requires k < |run|
    ensures Inv(run[k], slack, size)
  {
    if k > 0 {
      RunKeepsInv(run, slack, size, k - 1);
      assert StepAt(run, k - 1, size) && UndisturbedAt(run, k - 1, slack, size);
      StepKeepsInv(run[k - 1], run[k], slack, size);
    }
  }

  /** The position a capture starts from is the head published when it read the index, and its
      later chunks continue from there. */
  lemma {:induction false} StartFixed(run: seq<Sys>, size: nat, k: nat, j: nat)
    requires size > 0 && IsRun(run, size)
    requires k < j < |run|
    requires run[k].phase == Starting && run[k + 1].phase != Starting
    ensures run[j].phase != Starting
    ensures run[j].base - run[j].filled == run[k].rx.published
  {
    StartingIsFresh(run, size, k);
    assert StepAt(run, j - 1, size);
    StepKeepsStart(run[j - 1], run[j], size);
    if j > k + 1 {
      StartFixed(run, size, k, j - 1);
    }
  }

  lemma {:induction false} StartingIsFresh(run: seq<Sys>, size: nat, k: nat)
    requires size > 0 && IsRun(run, size) && k < |run|
    ensures run[k].phase == Starting ==> run[k].filled == 0
  {
    if k > 0 {
      StartingIsFresh(run, size, k - 1);
      assert StepAt(run, k - 1, size);
      StepKeepsStart(run[k - 1], run[k], size);
    }
  }

  lemma StepKeepsStart(s: Sys, s': Sys, size: nat)
    requires size > 0 && Step(s, s', size)
    ensures s'.phase == Starting ==> s.phase == Starting && s'.filled == s.filled
    ensures s.phase == Starting && s'.phase != Starting ==> s'.base == s.rx.published && s'.filled == s.filled
    ensures s.phase != Starting ==> s'.base - s'.filled == s.base - s.filled
  {
  }

  /** What the guard guarantees when blocks in flight are short: for any interleaving, a capture that
      returns normally holds its stream samples beyond the first `slack` of each chunk. */
  lemma CaptureExactBeyond(run: seq<Sys>, slack: nat, size: nat, k: nat)
    requires size >= 2 && IsRun(run, size) && CleanRun(run, slack, size)
    requires k < |run| - 1 && run[k].phase == Starting && run[k + 1].phase != Starting
    requires run[|run| - 1].phase == Captured
    ensures var s := run[|run| - 1];
            var start := run[k].rx.published;
            && |s.segment| == s.n && start + s.n <= |s.rx.written|
            && forall x :: 0 <= x < s.n && Wrap(x, size / 2) >= slack ==> s.segment[x] == s.rx.written[start + x]
  {
    RunKeepsInv(run, slack, size, |run| - 1);
    StartFixed(run, size, k, |run| - 1);
    var s := run[|run| - 1];
    forall x | 0 <= x < s.n && Wrap(x, size / 2) >= slack
      ensures s.segment[x] == s.rx.written[run[k].rx.published + x]
    {
      assert Trusted(s, slack, size, x);
    }
  }

  /** With none past a lap, it holds exactly the next `n` stream samples from the head it read first:
      no gap, repeat or tear. */
  lemma CaptureExact(run: seq<Sys>, size: nat, k: nat)
    requires size >= 2 && IsRun(run, size) && CleanRun(run, 0, size)
    requires k < |run| - 1 && run[k].phase == Starting && run[k + 1].phase != Starting
    requires run[|run| - 1].phase == Captured
    ensures var s := run[|run| - 1];
            var start := run[k].rx.published;
            start + s.n <= |s.rx.written| && s.segment == s.rx.written[start..start + s.n]
  {
    CaptureExactBeyond(run, 0, size, k);
  }

  // --- where every sample came from --------------------------------------------------

  lemma StepGrows(s: Sys, s': Sys, size: nat)
    requires size >= 2 && Aligned(s, size) && Step(s, s', size)
    ensures s.rx.written <= s'.rx.written
    ensures s'.segment == s.segment || (s.phase.Copying? && CaptureStep(s, s', size) && |s'.segment| == |s.segment| + 1)
    ensures s.segment <= s'.segment
  {
    if WriterStep(s, s', size) {
      RxStepKeeps(s.rx, s'.rx, size);
    }
  }

  lemma {:induction false} RunGrows(run: seq<Sys>, size: nat, k: nat, e: nat)
    requires size >= 2 && IsRun(run, size) && k <= e < |run|
    ensures run[k].rx.written <= run[e].rx.written && run[k].segment <= run[e].segment
  {
    if k < e {
      RunGrows(run, size, k, e - 1);
      RunKeepsAligned(run, size, e - 1);
      assert StepAt(run, e - 1, size);
      StepGrows(run[e - 1], run[e], size);
    }
  }

  /** The step that read sample `x` of the result. */
  lemma {:induction false} ReadStep(run: seq<Sys>, size: nat, e: nat, x: nat) returns (k: nat)
    requires size >= 2 && IsRun(run, size) && e < |run| && x < |run[e].segment|
    ensures k < e && |run[k].segment| == x && run[k].phase.Copying? && CaptureStep(run[k], run[k + 1], size)
    ensures run[k + 1].segment <= run[e].segment && |run[k + 1].segment| == x + 1
  {
    assert e > 0;
    RunKeepsAligned(run, size, e - 1);
    assert StepAt(run, e - 1, size);
    StepGrows(run[e - 1], run[e], size);
    if x < |run[e - 1].segment| {
      k := ReadStep(run, size, e - 1, x);
    } else {
      k := e - 1;
    }
  }

  /** Step `k` reads sample `x` of a capture that started at `start`, and gets stream position `q`:
      the newest congruent to the one wanted, which is the one wanted exactly while that is written
      and not overwritten. */
  ghost predicate ReadAt(run: seq<Sys>, size: nat, start: nat, x: nat, k: nat, q: int)
    requires size > 0 && k < |run|
  {
    && run[k].phase.Copying? && |run[k].segment| == x
    && q == Newest(|run[k].rx.written|, start + x, size)
    && (q == start + x <==> ReadInTime(run, size, start, x, k))
  }

  ghost predicate ReadInTime(run: seq<Sys>, size: nat, start: nat, x: nat, k: nat)
    requires k < |run|
  {
    |run[k].rx.written| - size <= start + x < |run[k].rx.written|
  }

  /** Where every sample of a finished capture came from, in any run. */
  lemma SampleOrigin(run: seq<Sys>, size: nat, s: nat, x: nat) returns (k: nat, q: int)
    requires size >= 2 && IsRun(run, size)
    requires s < |run| - 1 && run[s].phase == Starting && run[s + 1].phase != Starting
    requires run[|run| - 1].phase == Captured && x < run[|run| - 1].n
    ensures s < k < |run| - 1 && ReadAt(run, size, run[s].rx.published, x, k, q)
    ensures x < |run[|run| - 1].segment| && run[|run| - 1].segment[x] == At(run[k].rx.written, q)
  {
    var e := |run| - 1;
    RunKeepsAligned(run, size, e);
    k := ReadStep(run, size, e, x);
    RunKeepsAligned(run, size, k);
    if k <= s {
      StartingBefore(run, size, k, s);
    }
    StartFixed(run, size, s, k);
    q := CopyReadsNewest(run[k], run[k + 1], size);
    assert run[e].segment[x] == run[k + 1].segment[x];
  }

  lemma {:induction false} StartingBefore(run: seq<Sys>, size: nat, k: nat, s: nat)
    requires size > 0 && IsRun(run, size) && k <= s < |run| && run[s].phase == Starting
    ensures run[k].phase == Starting
  {
    if k < s {
      assert StepAt(run, s - 1, size);
      StepKeepsStart(run[s - 1], run[s], size);
      StartingBefore(run, size, k, s - 1);
    }
  }

  ghost predicate OriginAt(run: seq<Sys>, size: nat, start: nat, x: nat, k: nat, q: int)
    requires size > 0
  {
    && 0 <= k < |run| && ReadAt(run, size, start, x, k, q)
    && var last := run[|run| - 1];
       x < |last.segment| && last.segment[x] == At(run[k].rx.written, q)
  }

  lemma OriginRight(run: seq<Sys>, size: nat, start: nat, x: nat, k: nat)
    requires size >= 2 && IsRun(run, size) && OriginAt(run, size, start, x, k, start + x)
    ensures var last := run[|run| - 1];
            start + x < |last.rx.written| && last.segment[x] == last.rx.written[start + x]
  {
    RunGrows(run, size, k, |run| - 1);
  }

  /** Over a whole run, for any interleaving: a normal return is, position by position, the stretch
      promised if and only if each of its samples was written and not overwritten when its cell was
      read; and then it is that stretch of the stream. */
  lemma CaptureExactlyWhen(run: seq<Sys>, size: nat, s: nat) returns (steps: seq<nat>, origins: seq<int>)
    requires size >= 2 && IsRun(run, size)
    requires s < |run| - 1 && run[s].phase == Starting && run[s + 1].phase != Starting
    requires run[|run| - 1].phase == Captured
    ensures var last, start := run[|run| - 1], run[s].rx.published;
            && |steps| == |origins| == |last.segment| == last.n
            && (forall x :: 0 <= x < last.n ==> OriginAt(run, size, start, x, steps[x], origins[x]))
            && ((forall x :: 0 <= x < last.n ==> origins[x] == start + x)
                <==> forall x :: 0 <= x < last.n ==> ReadInTime(run, size, start, x, steps[x]))
            && ((forall x :: 0 <= x < last.n ==> origins[x] == start + x) ==>
                  last.n == 0 || (start + last.n <= |last.rx.written|
                                  && last.segment == last.rx.written[start..start + last.n]))
  {
    var last, start := run[|run| - 1], run[s].rx.published;
    RunKeepsAligned(run, size, |run| - 1);
    steps, origins := [], [];
    while |steps| < last.n
      invariant |steps| == |origins| <= last.n
      invariant forall x :: 0 <= x < |steps| ==> OriginAt(run, size, start, x, steps[x], origins[x])
    {
      var k, q := SampleOrigin(run, size, s, |steps|);
      steps, origins := steps + [k], origins + [q];
    }
    if forall x :: 0 <= x < last.n ==> origins[x] == start + x {
      forall x | 0 <= x < last.n
        ensures start + x < |last.rx.written| && last.segment[x] == last.rx.written[start + x]
      {
        assert OriginAt(run, size, start, x, steps[x], origins[x]);
        OriginRight(run, size, start, x, steps[x]);
      }
      if last.n > 0 {
        assert OriginAt(run, size, start, last.n - 1, steps[last.n - 1], origins[last.n - 1]);
        OriginRight(run, size, start, last.n - 1, steps[last.n - 1]);
      }
    }
  }

  // --- why those conditions --------------------------------------------------------

  /** Below a lap, leaving the wait is the right decision in exactly the un-parked cases. */
  lemma WaitDecision(cursor: nat, head: nat, base: nat, total: nat, size: nat, thisN: nat)
    requires 0 < thisN <= size
    requires cursor <= size && Wrap(cursor, size) == Wrap(base, size)
    requires HeadOf(head, total, size) && base <= total < base + size
    ensures (SamplesAdvanced(cursor, head, size) >= thisN <==> total - base >= thisN)
       <==> !(Parked(cursor, head, size) && total == base)
  {
    WrappedDistance(cursor, head, base, total, size);
  }

  /** Less than a lap and a chunk ahead, the guard accepts exactly the advances below one lap,
      and one whole lap when the head is parked. */
  lemma GuardDecision(cursor: nat, head: nat, base: nat, total: nat, size: nat, thisN: nat)
    requires 0 < thisN <= size
    requires cursor <= size && Wrap(cursor, size) == Wrap(base, size)
    requires HeadOf(head, total, size)
    requires base + thisN <= total < base + size + thisN
    ensures SamplesAdvanced(cursor, head, size) >= thisN
       <==> total < base + size || (total == base + size && Parked(cursor, head, size))
  {
    WrappedDistance(cursor, head, base, total, size);
    WrapShift(total - base - size, size);
  }

  /** In a run: with its chunk published and the writer less than a lap and a chunk ahead, the guard
      refuses exactly when the head has passed the whole ring, parked one lap on apart. */
  lemma GuardVerdict(run: seq<Sys>, size: nat, k: nat)
    requires size >= 2 && IsRun(run, size) && k < |run| - 1
    requires run[k].phase == Guarding && run[k + 1].phase != Guarding
    requires run[k].base + ThisN(run[k], size) <= run[k].rx.published < run[k].base + size + ThisN(run[k], size)
    ensures run[k + 1].phase in {Overran, Captured, Waiting}
    ensures run[k + 1].phase == Overran <==>
              && run[k].rx.published >= run[k].base + size
              && !(run[k].rx.published == run[k].base + size && run[k].cursor == 0)
    ensures run[k + 1].phase == Captured <==>
              run[k + 1].phase != Overran && (run[k].n - run[k].filled <= size / 2)
  {
    var s := run[k];
    RunKeepsAligned(run, size, k);
    assert StepAt(run, k, size);
    GuardDecision(s.cursor, s.rx.head, s.base, s.rx.published, size, ThisN(s, size));
    if s.rx.published == s.base + size && s.cursor == 0 {
      WrapShift(s.base, size);
    }
  }

  /** In a run, less than a lap behind: the wait ends in a copy only with the whole chunk published,
      parked over its cursor apart, and in a timeout only with less. */
  lemma WaitVerdict(run: seq<Sys>, size: nat, k: nat)
    requires size >= 2 && IsRun(run, size) && k < |run| - 1
    requires run[k].phase == Waiting && run[k + 1].phase != Waiting
    requires run[k].base <= run[k].rx.published < run[k].base + size && !StaleWait(run[k], size)
    ensures run[k + 1].phase == Copying(0) <==> run[k].rx.published >= run[k].base + ThisN(run[k], size)
    ensures run[k + 1].phase == TimedOut <==> run[k].rx.published < run[k].base + ThisN(run[k], size)
  {
    var s := run[k];
    RunKeepsAligned(run, size, k);
    assert StepAt(run, k, size);
    WaitDecision(s.cursor, s.rx.head, s.base, s.rx.published, size, ThisN(s, size));
  }

  /** What one read of the copy returns, clean or not: the newest stream sample congruent to the
      wanted one, which is the wanted one exactly while that is written and not overwritten. */
  lemma CopyReadsNewest(s: Sys, s': Sys, size: nat) returns (q: int)
    requires size >= 2 && RxValid(s.rx, size)
    requires s.cursor <= size && Wrap(s.cursor, size) == Wrap(s.base, size) && s.filled < s.n
    requires s.phase.Copying? && CaptureStep(s, s', size)
    ensures q == Newest(|s.rx.written|, s.base + s.phase.i, size)
    ensures s'.segment == s.segment + [At(s.rx.written, q)]
    ensures q == s.base + s.phase.i
       <==> |s.rx.written| - size <= s.base + s.phase.i < |s.rx.written|
  {
    var i := s.phase.i;
    ChunkCells(s, size, i);
    q := Newest(|s.rx.written|, s.base + i, size);
    NewestRight(|s.rx.written|, s.base + i, size);
    CellHoldsNewest(s.rx.cells, s.rx.written, s.base + i, size);
  }

  // --- the capture as the program runs it ---------------------------------------------

  datatype Outcome = Segment(samples: seq<Iq>) | CaptureError(status: nat)

  lemma ExtendRun(run: seq<Sys>, s': Sys, size: nat)
    requires size > 0 && IsRun(run, size)
    requires Step(run[|run| - 1], s', size)
    ensures IsRun(run + [s'], size)
  {
    var run' := run + [s'];
    forall k | 0 <= k < |run'| - 1
      ensures StepAt(run', k, size)
    {
      if k < |run| - 1 {
        assert StepAt(run, k, size);
      }
    }
  }

  /** The RX thread may take any number of steps between two accesses of the capture. */
  method Interference(ring: SharedRing, ghost run: seq<Sys>) returns (ghost run': seq<Sys>)
    requires ring.Valid() && IsRun(run, ring.size) && run[|run| - 1].rx == ring.View()
    modifies ring, ring.iqBuffer
    ensures ring.Valid() && IsRun(run', ring.size) && run <= run'
    ensures run'[|run'| - 1] == run[|run| - 1].(rx := ring.View())
  {
    run' := run;
    var steps: nat := *;
    while steps > 0
      invariant ring.Valid() && IsRun(run', ring.size) && run <= run'
      invariant run'[|run'| - 1] == run[|run| - 1].(rx := ring.View())
    {
      ghost var s := run'[|run'| - 1];
      var sample: Iq := *;
      var fill: bool := *;
      var moved := ring.RxMicroStep(fill, sample);
      if moved {
        ExtendRun(run', s.(rx := ring.View()), ring.size);
        run' := run' + [s.(rx := ring.View())];
      }
      steps := steps - 1;
    }
  }

  /** `run` ends in the ring's present state, its capture having started at index `started`. */
  ghost predicate Tracks(run: seq<Sys>, started: nat, ring: SharedRing)
    reads ring, ring.iqBuffer
  {
    && ring.Valid() && ring.size >= 2
    && IsRun(run, ring.size)
    && started < |run| - 1 && run[started].phase == Starting && run[started + 1].phase != Starting
    && Last(run).rx == ring.View()
  }

  function Last(run: seq<Sys>): Sys
    requires |run| > 0
  {
    run[|run| - 1]
  }

  lemma ExtendTracks(run: seq<Sys>, started: nat, ring: SharedRing, s': Sys)
    requires Tracks(run, started, ring)
    requires CaptureStep(Last(run), s', ring.size)
    ensures Tracks(run + [s'], started, ring) && Last(run + [s']) == s'
    ensures (run + [s'])[0] == run[0]
  {
    ExtendRun(run, s', ring.size);
  }

  /** Readings of the monotonic clock, the i-th reading of the process at `clock(i)`; `reaches` says
      by which reading a time has passed. */
  ghost predicate Ticks(clock: nat -> real, reaches: real -> nat) {
    && (forall i, j :: 0 <= i <= j ==> clock(i) <= clock(j))
    && (forall d :: clock(reaches(d)) > d)
  }

  /** The wait of one chunk, from the `t`-th reading of the clock.  It gives up at the first reading
      past the deadline, and only then. */
  method Await(ring: SharedRing, ghost run: seq<Sys>, ghost started: nat, chunkStart: nat, thisN: nat,
               deadline: real, clock: nat -> real, ghost reaches: real -> nat, t: nat)
    returns (ready: bool, t': nat, ghost run': seq<Sys>)
    requires Tracks(run, started, ring) && Last(run).phase == Waiting
    requires Last(run).cursor == chunkStart && ThisN(Last(run), ring.size) == thisN
    requires Ticks(clock, reaches)
    modifies ring, ring.iqBuffer
    ensures Tracks(run', started, ring) && run'[0] == run[0]
    ensures Last(run') == Last(run).(rx := ring.View(), phase := if ready then Copying(0) else TimedOut)
    ensures t <= t' && (!ready ==> t < t' && clock(t' - 1) > deadline)
    ensures forall i :: t <= i < (if ready then t' else t' - 1) ==> clock(i) <= deadline
  {
    var bufSize := ring.size;
    t' := t;
    run' := Interference(ring, run);
    while SamplesAdvanced(chunkStart, ring.bufWriteIdx, bufSize) < thisN
      invariant Tracks(run', started, ring) && run'[0] == run[0]
      invariant Last(run') == Last(run).(rx := ring.View())
      invariant t <= t' && forall i :: t <= i < t' ==> clock(i) <= deadline
      decreases reaches(deadline) - t'
    {
      if clock(t') > deadline {
        ghost var s := Last(run').(phase := TimedOut);
        ExtendTracks(run', started, ring, s);
        run' := run' + [s];
        return false, t' + 1, run';
      }
      assert reaches(deadline) <= t' ==> clock(reaches(deadline)) <= clock(t');
      t' := t' + 1;
      run' := Interference(ring, run');
    }
    ghost var s := Last(run').(phase := Copying(0));
    ExtendTracks(run', started, ring, s);
    run' := run' + [s];
    ready := true;
  }

  /** One cell of the slice copy, after whatever the RX thread did since the last. */
  method CopyCell(ring: SharedRing, ghost run: seq<Sys>, ghost started: nat, chunkStart: nat, thisN: nat,
                  segment: array<Iq>, filled: nat, i: nat)
    returns (ghost run': seq<Sys>)
    requires Tracks(run, started, ring) && Last(run).phase == Copying(i) && i < thisN
    requires Last(run).cursor == chunkStart <= ring.size && ThisN(Last(run), ring.size) == thisN
    requires filled + thisN <= segment.Length && Last(run).segment == segment[..filled + i]
    requires segment != ring.iqBuffer
    modifies ring, ring.iqBuffer, segment
    ensures Tracks(run', started, ring) && run'[0] == run[0]
    ensures Last(run') == Last(run).(rx := ring.View(), phase := if i + 1 == thisN then Guarding else Copying(i + 1),
                                     segment := segment[..filled + i + 1])
  {
    run' := Interference(ring, run);
    ghost var s := Last(run');
    var e := Wrap(chunkStart + thisN, ring.size);
    var cell := if chunkStart < e then chunkStart + i
                else if i < ring.size - chunkStart then chunkStart + i
                else i - (ring.size - chunkStart);
    CellInRange(chunkStart, thisN, i, ring.size);
    assert cell == ReadCell(s, i, ring.size);
    segment[filled + i] := ring.iqBuffer[cell];
    assert segment[..filled + i + 1] == s.segment + [ring.iqBuffer[cell]];
    ghost var s' := s.(segment := segment[..filled + i + 1],
                       phase := if i + 1 == thisN then Guarding else Copying(i + 1));
    CopyIsStep(s, s', i, ring.size);
    ExtendTracks(run', started, ring, s');
    run' := run' + [s'];
  }

  /** The copy of one chunk, the RX thread running between any two cells. */
  method CopyChunk(ring: SharedRing, ghost run: seq<Sys>, ghost started: nat, chunkStart: nat, thisN: nat,
                   segment: array<Iq>, filled: nat)
    returns (ghost run': seq<Sys>)
    requires Tracks(run, started, ring) && Last(run).phase == Copying(0)
    requires Last(run).cursor == chunkStart <= ring.size && ThisN(Last(run), ring.size) == thisN > 0
    requires Last(run).filled == filled <= filled + thisN <= segment.Length
    requires Last(run).segment == segment[..filled]
    requires segment != ring.iqBuffer
    modifies ring, ring.iqBuffer, segment
    ensures Tracks(run', started, ring) && run'[0] == run[0]
    ensures Last(run') == Last(run).(rx := ring.View(), phase := Guarding, segment := segment[..filled + thisN])
  {
    run' := run;
    for i := 0 to thisN
      invariant Tracks(run', started, ring) && run'[0] == run[0]
      invariant Last(run') == Last(run).(rx := ring.View(), phase := if i == thisN then Guarding else Copying(i),
                                         segment := segment[..filled + i])
    {
      run' := CopyCell(ring, run', started, chunkStart, thisN, segment, filled, i);
    }
  }

  lemma CopyIsStep(s: Sys, s': Sys, i: nat, size: nat)
    requires size > 0 && s.phase == Copying(i) && i < ThisN(s, size)
    requires 0 <= ReadCell(s, i, size) < |s.rx.cells|
    requires s' == s.(segment := s.segment + [s.rx.cells[ReadCell(s, i, size)]],
                      phase := if i + 1 == ThisN(s, size) then Guarding else Copying(i + 1))
    ensures CaptureStep(s, s', size)
  {
  }

  /** The integrity guard after a copy. */
  method Guard(ring: SharedRing, ghost run: seq<Sys>, ghost started: nat, chunkStart: nat, thisN: nat)
    returns (accepted: bool, ghost run': seq<Sys>)
    requires Tracks(run, started, ring) && Last(run).phase == Guarding
    requires Last(run).cursor == chunkStart && ThisN(Last(run), ring.size) == thisN
    modifies ring, ring.iqBuffer
    ensures Tracks(run', started, ring) && run'[0] == run[0]
    ensures Last(run') ==
              if accepted then
                var filled := Last(run).filled + thisN;
                Last(run).(rx := ring.View(), phase := if filled == Last(run).n then Captured else Waiting,
                           cursor := Wrap(chunkStart + thisN, ring.size), base := Last(run).base + thisN,
                           filled := filled)
              else Last(run).(rx := ring.View(), phase := Overran)
  {
    run' := Interference(ring, run);
    ghost var s := Last(run');
    accepted := SamplesAdvanced(chunkStart, ring.bufWriteIdx, ring.size) >= thisN;
    s := if accepted then
           s.(phase := if s.filled + thisN == s.n then Captured else Waiting,
              cursor := Wrap(chunkStart + thisN, ring.size), base := s.base + thisN, filled := s.filled + thisN)
         else s.(phase := Overran);
    ExtendTracks(run', started, ring, s);
    run' := run' + [s];
  }

  /** The clock readings of one chunk: the first for its deadline, and one at every poll that found too
      few samples. */
  datatype Wait = Wait(begin: nat, end: nat, filled: nat, thisN: nat)

  /** Reading `i` is past the chunk's own duration and five seconds. */
  ghost predicate Past(clock: nat -> real, rate: nat, w: Wait, i: nat)
    requires rate > 0
  {
    clock(i) - clock(w.begin) > 5.0 + w.thisN as real / rate as real
  }

  /** Every reading is in time, but for the last of a wait that is given up. */
  ghost predicate Waited(clock: nat -> real, rate: nat, w: Wait, givenUp: bool)
    requires rate > 0
  {
    && w.begin < w.end
    && (forall i :: w.begin < i < w.end - 1 ==> !Past(clock, rate, w, i))
    && (givenUp <==> Past(clock, rate, w, w.end - 1))
  }

  /** The chunks of a capture of `n` samples: half a buffer each, the last what is left, their readings
      one after the other. */
  ghost predicate Chunks(waits: seq<Wait>, n: nat, size: nat) {
    && (waits == [] <==> n == 0)
    && forall c :: 0 <= c < |waits| ==> ChunkAt(waits, c, n, size)
  }

  ghost predicate ChunkAt(waits: seq<Wait>, c: nat, n: nat, size: nat)
    requires c < |waits|
  {
    var w := waits[c];
    && w.filled < n
    && w.thisN == (if n - w.filled > size / 2 then size / 2 else n - w.filled)
    && (c == 0 ==> w.begin == 0 && w.filled == 0)
    && (c > 0 ==> w.begin == waits[c - 1].end && w.filled == waits[c - 1].filled + waits[c - 1].thisN)
  }

  lemma WaitDone(clock: nat -> real, rate: nat, w: Wait, deadline: real, ready: bool)
    requires rate > 0 && deadline == clock(w.begin) + w.thisN as real / rate as real + 5.0
    requires w.begin + 1 <= w.end && (!ready ==> w.begin + 1 < w.end && clock(w.end - 1) > deadline)
    requires forall i :: w.begin + 1 <= i < (if ready then w.end else w.end - 1) ==> clock(i) <= deadline
    ensures Waited(clock, rate, w, !ready)
  {
    var d := w.thisN as real / rate as real;
    assert d >= 0.0;
    forall i: nat
      ensures Past(clock, rate, w, i) <==> clock(i) > deadline
    {
    }
  }

  /** The chunks so far, all accepted. */
  ghost predicate Accepted(clock: nat -> real, rate: nat, waits: seq<Wait>, n: nat, size: nat, filled: nat, t: nat)
    requires rate > 0
  {
    && (forall c :: 0 <= c < |waits| ==> ChunkAt(waits, c, n, size))
    && (forall c :: 0 <= c < |waits| ==> Waited(clock, rate, waits[c], false))
    && if waits == [] then t == 0 && filled == 0
       else var w := waits[|waits| - 1]; t == w.end && filled == w.filled + w.thisN
  }

  /** The readings of a whole capture that ended with `status`: the last wait was given up, or all were
      in time, and then of all samples if there was no error. */
  ghost predicate WaitsOf(clock: nat -> real, rate: nat, waits: seq<Wait>, n: nat, size: nat, status: nat)
    requires rate > 0
  {
    && Chunks(waits, n, size)
    && (forall c :: 0 <= c < |waits| ==> Waited(clock, rate, waits[c], c == |waits| - 1 && status == 504))
    && (status == 0 && waits != [] ==> var w := waits[|waits| - 1]; w.filled + w.thisN == n)
  }

  lemma AllAccepted(clock: nat -> real, rate: nat, waits: seq<Wait>, n: nat, size: nat, t: nat)
    requires rate > 0 && Accepted(clock, rate, waits, n, size, n, t)
    ensures WaitsOf(clock, rate, waits, n, size, 0)
  {
    assert waits != [] ==> ChunkAt(waits, |waits| - 1, n, size);
  }

  lemma NextWait(clock: nat -> real, rate: nat, waits: seq<Wait>, n: nat, size: nat, w: Wait, status: nat)
    requires rate > 0 && Accepted(clock, rate, waits, n, size, w.filled, w.begin) && w.filled < n
    requires w.thisN == (if size / 2 < n - w.filled then size / 2 else n - w.filled) > 0
    requires Waited(clock, rate, w, status == 504)
    ensures status == 0 ==> Accepted(clock, rate, waits + [w], n, size, w.filled + w.thisN, w.end)
    ensures status != 0 ==> WaitsOf(clock, rate, waits + [w], n, size, status)
  {
    var all := waits + [w];
    forall c | 0 <= c < |all|
      ensures ChunkAt(all, c, n, size) && Waited(clock, rate, all[c], c == |all| - 1 && status == 504)
    {
      if c < |waits| {
        assert ChunkAt(waits, c, n, size) && Waited(clock, rate, waits[c], false);
      }
    }
  }

  /** One chunk: wait, copy, guard.  Status 0 means the copy was accepted; it is 504 exactly when a poll
      found too few samples at a reading past the chunk's duration and five seconds, the first such. */
  method CaptureChunk(ring: SharedRing, ghost run: seq<Sys>, ghost started: nat, chunkStart: nat, thisN: nat,
                      segment: array<Iq>, filled: nat, rate: nat, clock: nat -> real, ghost reaches: real -> nat,
                      t: nat)
    returns (status: nat, t': nat, ghost run': seq<Sys>)
    requires Tracks(run, started, ring) && segment != ring.iqBuffer
    requires rate > 0 && Ticks(clock, reaches)
    requires chunkStart <= ring.size && filled + thisN <= segment.Length
    requires Last(run) == Sys(ring.View(), Waiting, segment.Length, chunkStart, Last(run).base, filled,
                              segment[..filled])
    requires ThisN(Last(run), ring.size) == thisN > 0
    modifies ring, ring.iqBuffer, segment
    ensures Tracks(run', started, ring) && run'[0] == run[0]
    ensures Last(run').rx == ring.View() && Last(run').n == segment.Length
    ensures status != 0 ==>
              (status == 504 && Last(run').phase == TimedOut) || (status == 500 && Last(run').phase == Overran)
    ensures t < t' && Waited(clock, rate, Wait(t, t', filled, thisN), status == 504)
    ensures status == 0 ==>
              Last(run') == Sys(ring.View(), if filled + thisN == segment.Length then Captured else Waiting,
                                segment.Length, Wrap(chunkStart + thisN, ring.size), Last(run).base + thisN,
                                filled + thisN, segment[..filled + thisN])
  {
    var deadline := clock(t) + thisN as real / rate as real + 5.0;
    var ready, accepted;
    ready, t', run' := Await(ring, run, started, chunkStart, thisN, deadline, clock, reaches, t + 1);
    WaitDone(clock, rate, Wait(t, t', filled, thisN), deadline, ready);
    if !ready {
      status := 504;
    } else {
      run' := CopyChunk(ring, run', started, chunkStart, thisN, segment, filled);
      accepted, run' := Guard(ring, run', started, chunkStart, thisN);
      status := if accepted then 0 else 500;
    }
  }

  /** The first read of the head. */
  method Begin(ring: SharedRing, nSamples: nat)
    returns (chunkStart: nat, ghost run: seq<Sys>, ghost started: nat)
    requires ring.Valid() && ring.size >= 2
    modifies ring, ring.iqBuffer
    ensures Tracks(run, started, ring) && run[0].rx == old(ring.View())
    ensures chunkStart <= ring.size
    ensures var phase := if nSamples == 0 then Captured else Waiting;
            Last(run) == Sys(ring.View(), phase, nSamples, chunkStart, ring.published, 0, [])
  {
    run := [Sys(ring.View(), Starting, nSamples, 0, 0, 0, [])];
    run := Interference(ring, run);
    started := |run| - 1;
    chunkStart := ring.bufWriteIdx;
    ghost var s := Last(run).(phase := if nSamples == 0 then Captured else Waiting,
                              cursor := chunkStart, base := ring.published);
    ExtendRun(run, s, ring.size);
    run := run + [s];
  }

  /** The loop over the chunks: into `segment`, from the head read first. */
  method CaptureChunks(ring: SharedRing, ghost run: seq<Sys>, ghost started: nat, chunkStart: nat, segment: array<Iq>,
                       rate: nat, clock: nat -> real, ghost reaches: real -> nat)
    returns (status: nat, ghost run': seq<Sys>, ghost waits: seq<Wait>)
    requires Tracks(run, started, ring) && segment != ring.iqBuffer && chunkStart <= ring.size
    requires rate > 0 && Ticks(clock, reaches)
    requires Last(run) == Sys(ring.View(), if segment.Length == 0 then Captured else Waiting, segment.Length,
                              chunkStart, Last(run).base, 0, [])
    modifies ring, ring.iqBuffer, segment
    ensures Tracks(run', started, ring) && run'[0] == run[0] && Last(run').n == segment.Length
    ensures status != 0 ==>
              (status == 504 && Last(run').phase == TimedOut) || (status == 500 && Last(run').phase == Overran)
    ensures status == 0 ==> Last(run').phase == Captured && Last(run').segment == segment[..]
    ensures WaitsOf(clock, rate, waits, segment.Length, ring.size, status)
  {
    var nSamples, bufSize := segment.Length, ring.size;
    var chunkN, filled, t, start := bufSize / 2, 0, 0, chunkStart;
    run', waits, status := run, [], 0;
    while filled < nSamples
      invariant Tracks(run', started, ring) && run'[0] == run[0]
      invariant filled <= nSamples && start <= bufSize
      invariant Last(run') == Sys(ring.View(), if filled == nSamples then Captured else Waiting,
                                  nSamples, start, Last(run').base, filled, segment[..filled])
      invariant Accepted(clock, rate, waits, nSamples, bufSize, filled, t)
    {
      var thisN := if chunkN < nSamples - filled then chunkN else nSamples - filled;
      ghost var begin := t;
      status, t, run' := CaptureChunk(ring, run', started, start, thisN, segment, filled, rate, clock, reaches, t);
      NextWait(clock, rate, waits, nSamples, bufSize, Wait(begin, t, filled, thisN), status);
      waits := waits + [Wait(begin, t, filled, thisN)];
      if status != 0 {
        return;
      }
      start := Wrap(start + thisN, bufSize);
      filled := filled + thisN;
    }
    status := 0;
    AllAccepted(clock, rate, waits, nSamples, bufSize, t);
    assert segment[..filled] == segment[..];
  }

  /** `_capture_iq`.  The run it reports is a run of the state machine, so what is proved of runs
      holds of the array it returns; the error is 504 exactly when a wait ran out of time. */
  method CaptureIq(ring: SharedRing, nSamples: nat, rate: nat, clock: nat -> real, ghost reaches: real -> nat)
    returns (outcome: Outcome, ghost run: seq<Sys>, ghost started: nat, ghost waits: seq<Wait>)
    requires ring.Valid() && ring.size >= 2
    requires rate > 0 && Ticks(clock, reaches)
    modifies ring, ring.iqBuffer
    ensures Tracks(run, started, ring) && run[0].rx == old(ring.View())
    ensures var s := Last(run);
            s.n == nSamples &&
            match outcome
            case Segment(samples) => s.phase == Captured && samples == s.segment
            case CaptureError(status) => (status == 504 && s.phase == TimedOut) || (status == 500 && s.phase == Overran)
    ensures WaitsOf(clock, rate, waits, nSamples, ring.size, if outcome.Segment? then 0 else outcome.status)
    ensures outcome.Segment? && CleanRun(run, 0, ring.size) ==>
              var start := run[started].rx.published;
              start + nSamples <= |ring.written| && outcome.samples == ring.written[start..start + nSamples]
  {
    var segment := new Iq[nSamples](_ => SILENCE);
    var chunkStart, status;
    chunkStart, run, started := Begin(ring, nSamples);
    status, run, waits := CaptureChunks(ring, run, started, chunkStart, segment, rate, clock, reaches);
    if status != 0 {
      outcome := CaptureError(status);
    } else {
      outcome := Segment(segment[..]);
      RunDecidesOutcome(run, started, ring);
    }
  }

  lemma RunDecidesOutcome(run: seq<Sys>, started: nat, ring: SharedRing)
    requires Tracks(run, started, ring) && Last(run).phase == Captured
    ensures CleanRun(run, 0, ring.size) ==>
              var start := run[started].rx.published;
              start + Last(run).n <= |ring.written| && Last(run).segment == ring.written[start..start + Last(run).n]
  {
    if CleanRun(run, 0, ring.size) {
      CaptureExact(run, ring.size, started);
    }
  }

  lemma CellInRange(cursor: nat, thisN: nat, i: nat, size: nat)
    requires size > 0 && cursor <= size && i < thisN <= size
    ensures var e := Wrap(cursor + thisN, size);
            var cell := if cursor < e then cursor + i
                        else if i < size - cursor then cursor + i
                        else i - (size - cursor);
            0 <= cell < size
  {
  }
}
