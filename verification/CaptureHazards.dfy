/** When a capture that returns normally is not the stretch promised: the parked head and the block in
    flight, for rings of any size, captures of any length and blocks of any size from two samples up. */
module CaptureHazards {
  import opened Modular
  import opened Numbers
  import opened IqRing
  import opened ForwardCapture

  function InFlight(rx: Rx): int {
    |rx.written| - rx.published
  }

  /** The writer never has more than `b` samples of a block in flight. */
  ghost predicate Blocks(run: seq<Sys>, b: nat) {
    forall k {:trigger run[k]} :: 0 <= k < |run| ==> InFlight(run[k].rx) <= b
  }

  // --- which captures the parked head can mislead ---------------------------------------

  /** How far past its start a capture first comes to wait at cell 0, on a half-buffer mark, with the
      block in flight at the start delivered. */
  function Boundary(published: nat, inFlight: int, size: nat): nat
    requires size > 0
  {
    if Wrap(published, size) == 0 then size
    else if inFlight <= size / 2 then size / 2
    else size / 2 + size
  }

  predicate Due(published: nat, inFlight: int, n: nat, size: nat)
    requires size >= 2
  {
    Wrap(published, size / 2) == 0 && n > Boundary(published, inFlight, size)
  }

  /** Once the head moves, it covers at least the block that was in flight. */
  lemma {:induction false} PublishedJumps(run: seq<Sys>, size: nat, k: nat, j: nat)
    requires size > 0 && IsRun(run, size) && k <= j < |run|
    ensures |run[k].rx.written| <= |run[j].rx.written|
    ensures run[j].rx.published == run[k].rx.published || run[j].rx.published >= |run[k].rx.written|
  {
    if k < j {
      PublishedJumps(run, size, k, j - 1);
      assert StepAt(run, j - 1, size);
    }
  }

  lemma MarksApart(start: nat, filled: nat, half: nat)
    requires half > 0 && filled > 0 && Wrap(start + filled, 2 * half) == 0 && Wrap(filled, half) == 0
    ensures Wrap(start, half) == 0
    ensures if Wrap(start, 2 * half) == 0 then filled >= 2 * half else filled == half || filled >= half + 2 * half
  {
    WrapHalf(start + filled, half);
    WrapPlus(filled, start, half);
    WrapHalf(start, half);
    WrapPlus(start, filled, 2 * half);
  }

  /** With a buffer of even size, in any run: a stale wait needs a start that is due. */
  lemma StaleWaitOnlyWhenDue(run: seq<Sys>, size: nat, k: nat, j: nat)
    requires size >= 2 && size % 2 == 0 && IsRun(run, size)
    requires k < j < |run|
    requires run[k].phase == Starting && run[k + 1].phase != Starting && InFlight(run[k].rx) < size
    requires StaleWait(run[j], size)
    ensures Due(run[k].rx.published, InFlight(run[k].rx), run[j].n, size)
  {
    var s, start := run[j], run[k].rx.published;
    RunKeepsAligned(run, size, j);
    StartFixed(run, size, k, j);
    PublishedJumps(run, size, k, j);
    MarksApart(start, s.filled, size / 2);
  }

  /** A capture that starts off the two half-buffer marks never has its cursor at 0. */
  lemma OffMarkCursor(run: seq<Sys>, size: nat, k: nat, j: nat)
    requires size >= 2 && size % 2 == 0 && IsRun(run, size)
    requires k < j < |run|
    requires run[k].phase == Starting && run[k + 1].phase != Starting
    requires Wrap(run[k].rx.published, size / 2) != 0
    ensures run[j].phase in {Waiting, Guarding} || run[j].phase.Copying? ==> run[j].cursor != 0
  {
    var s, half, start := run[j], size / 2, run[k].rx.published;
    if (s.phase in {Waiting, Guarding} || s.phase.Copying?) && s.cursor == 0 {
      RunKeepsAligned(run, size, j);
      StartFixed(run, size, k, j);
      WrapHalf(s.base, half);
      WrapAdd(s.filled, 0, start, half);
    }
  }

  /** So it is never misled. */
  lemma OffMarkStartNeverParks(run: seq<Sys>, size: nat, k: nat, j: nat)
    requires size >= 2 && size % 2 == 0 && IsRun(run, size)
    requires k < j < |run|
    requires run[k].phase == Starting && run[k + 1].phase != Starting
    requires Wrap(run[k].rx.published, size / 2) != 0
    ensures !StaleWait(run[j], size)
  {
    OffMarkCursor(run, size, k, j);
  }

  // --- how much a block in flight can tear --------------------------------------------------

  /** Where the guard accepts, the writer is less than a lap and a chunk ahead. */
  ghost predicate InReach(run: seq<Sys>, j: nat, size: nat)
    requires j < |run| - 1
  {
    Accepting(run[j], run[j + 1]) ==> run[j].rx.published < run[j].base + size + ThisN(run[j], size)
  }

  ghost predicate Accepting(s: Sys, s': Sys) {
    s.phase == Guarding && s'.phase in {Waiting, Captured}
  }

  ghost predicate LeavesFresh(run: seq<Sys>, j: nat, size: nat)
    requires j < |run| - 1
  {
    run[j].phase == Waiting && run[j + 1].phase.Copying? ==> !StaleWait(run[j], size)
  }

  /** A run in which the guard and the wait decide on what they can tell. */
  ghost predicate Orderly(run: seq<Sys>, size: nat) {
    forall j :: 0 <= j < |run| - 1 ==> InReach(run, j, size) && LeavesFresh(run, j, size)
  }

  /** What the guard guarantees, in terms of the block size: of a normal return, only the first `b`
      samples of a chunk can be anything but the stretch promised. */
  lemma TearBounded(run: seq<Sys>, b: nat, size: nat, k: nat)
    requires size >= 2 && IsRun(run, size) && Blocks(run, b)
    requires k < |run| - 1 && run[k].phase == Starting && run[k + 1].phase != Starting
    requires run[|run| - 1].phase == Captured
    requires Orderly(run, size)
    ensures var s, start := run[|run| - 1], run[k].rx.published;
            && |s.segment| == s.n && start + s.n <= |s.rx.written|
            && forall x :: 0 <= x < s.n && Wrap(x, size / 2) >= b ==> s.segment[x] == s.rx.written[start + x]
  {
    forall j | 0 <= j < |run| - 1
      ensures UndisturbedAt(run, j, b, size)
    {
      assert InReach(run, j, size) && LeavesFresh(run, j, size) && InFlight(run[j].rx) <= b;
    }
    CaptureExactBeyond(run, b, size, k);
  }

  /** From a start off the half-buffer marks, which the caller can see, only the first `b - 1` of a
      chunk can; with a writer of single samples, none. */
  lemma TearBoundedOffMark(run: seq<Sys>, b: nat, size: nat, k: nat)
    requires size >= 2 && size % 2 == 0 && b > 0 && IsRun(run, size) && Blocks(run, b)
    requires k < |run| - 1 && run[k].phase == Starting && run[k + 1].phase != Starting
    requires run[|run| - 1].phase == Captured && Wrap(run[k].rx.published, size / 2) != 0
    requires forall j :: 0 <= j < |run| - 1 ==> InReach(run, j, size)
    ensures var s, start := run[|run| - 1], run[k].rx.published;
            && |s.segment| == s.n && start + s.n <= |s.rx.written|
            && forall x :: 0 <= x < s.n && Wrap(x, size / 2) >= b - 1 ==> s.segment[x] == s.rx.written[start + x]
  {
    var slack := b - 1;
    forall j | 0 <= j < |run| - 1
      ensures UndisturbedAt(run, j, slack, size)
    {
      assert InReach(run, j, size) && InFlight(run[j].rx) <= b;
      StepOffMark(run, size, k, j);
      if Accepting(run[j], run[j + 1]) {
        AcceptsBelowLap(run, size, j);
      }
    }
    CaptureExactBeyond(run, slack, size, k);
  }

  lemma StepOffMark(run: seq<Sys>, size: nat, k: nat, j: nat)
    requires size >= 2 && size % 2 == 0 && IsRun(run, size) && j < |run|
    requires k < |run| - 1 && run[k].phase == Starting && run[k + 1].phase != Starting
    requires Wrap(run[k].rx.published, size / 2) != 0
    ensures run[j].phase in {Waiting, Guarding} ==> run[j].cursor != 0
  {
    if j <= k {
      StartingBefore(run, size, j, k);
    } else {
      OffMarkCursor(run, size, k, j);
    }
  }

  lemma AcceptsBelowLap(run: seq<Sys>, size: nat, j: nat)
    requires size >= 2 && IsRun(run, size) && j < |run| - 1
    requires Accepting(run[j], run[j + 1]) && run[j].cursor != 0
    ensures run[j].rx.published != run[j].base + size
  {
    var s := run[j];
    RunKeepsAligned(run, size, j);
    assert StepAt(run, j, size);
    if s.rx.published == s.base + size {
      WrappedDistance(s.cursor, s.rx.head, s.base, s.rx.published, size);
      WrapShift(0, size);
    }
  }

  // --- building runs ----------------------------------------------------------------------------

  /** A run whose writer keeps to blocks of `b`. */
  ghost predicate Plays(run: seq<Sys>, b: nat, size: nat)
    requires size > 0
  {
    IsRun(run, size) && Blocks(run, b)
  }

  /** Every sample added differs from the one a lap before, so that taking one for the other shows. */
  ghost predicate Novel(written: seq<Iq>, written': seq<Iq>, size: nat) {
    && written <= written'
    && forall p {:trigger written'[p]} :: |written| <= p < |written'| ==> written'[p] != At(written', p - size)
  }

  ghost predicate Extends(run: seq<Sys>, run': seq<Sys>, b: nat, size: nat)
    requires size > 0
  {
    && |run| > 0 && run <= run' && Plays(run, b, size) && Plays(run', b, size)
    && Novel(Last(run).rx.written, Last(run').rx.written, size)
  }

  ghost predicate Continues(run: seq<Sys>, run': seq<Sys>, b: nat, size: nat)
    requires size > 0
  {
    Extends(run, run', b, size) && (Orderly(run, size) ==> Orderly(run', size))
  }

  lemma OneStep(run: seq<Sys>, s': Sys, b: nat, size: nat)
    requires size > 0 && Plays(run, b, size) && Step(Last(run), s', size) && InFlight(s'.rx) <= b
    requires Novel(Last(run).rx.written, s'.rx.written, size)
    ensures Extends(run, run + [s'], b, size) && Last(run + [s']) == s'
    ensures InReach(run + [s'], |run| - 1, size) && LeavesFresh(run + [s'], |run| - 1, size) ==>
              Continues(run, run + [s'], b, size)
  {
    ExtendRun(run, s', size);
    var run' := run + [s'];
    forall j | 0 <= j < |run| - 1 && Orderly(run, size)
      ensures InReach(run', j, size) && LeavesFresh(run', j, size)
    {
      assert InReach(run, j, size) && LeavesFresh(run, j, size);
    }
  }

  /** Only the ring changes, by the writer. */
  ghost predicate Written(s: Sys, s': Sys, size: nat) {
    s' == s.(rx := s'.rx) && RxValid(s'.rx, size) && s.rx.written <= s'.rx.written
  }

  /** A sample other than the one a lap before. */
  function NextSample(written: seq<Iq>, size: nat): Iq {
    var before := At(written, |written| - size);
    before.(re := before.re + 1.0)
  }

  /** The writer stores `m` more cells of its block. */
  lemma {:induction false} WriterFills(run: seq<Sys>, b: nat, size: nat, m: nat) returns (run': seq<Sys>)
    requires size >= 2 && Plays(run, b, size) && RxValid(Last(run).rx, size)
    requires InFlight(Last(run).rx) + m <= b && Last(run).rx.head + InFlight(Last(run).rx) + m <= 2 * size
    ensures Continues(run, run', b, size) && Written(Last(run), Last(run'), size)
    ensures Last(run').rx.head == Last(run).rx.head && Last(run').rx.published == Last(run).rx.published
    ensures |Last(run').rx.written| == |Last(run).rx.written| + m
  {
    run' := run;
    if m > 0 {
      run' := WriterFills(run, b, size, m - 1);
      var s, x := Last(run'), NextSample(Last(run').rx.written, size);
      var s' := s.(rx := Fill(s.rx, x, size));
      FillValid(s.rx, x, size);
      assert WriterStep(s, s', size);
      OneStep(run', s', b, size);
      run' := run' + [s'];
    }
  }

  lemma WriterPublishes(run: seq<Sys>, b: nat, size: nat) returns (run': seq<Sys>)
    requires size >= 2 && Plays(run, b, size) && RxValid(Last(run).rx, size) && InFlight(Last(run).rx) > 0
    ensures Continues(run, run', b, size) && Written(Last(run), Last(run'), size)
    ensures Last(run').rx.written == Last(run).rx.written && InFlight(Last(run').rx) == 0
  {
    var s := Last(run);
    var s' := s.(rx := Publish(s.rx, size));
    PublishValid(s.rx, size);
    assert WriterStep(s, s', size);
    OneStep(run, s', b, size);
    run' := run + [s'];
  }

  lemma {:induction false} WriterDelivers(run: seq<Sys>, b: nat, size: nat, total: nat) returns (run': seq<Sys>)
    requires size >= 2 && b > 0 && Plays(run, b, size) && RxValid(Last(run).rx, size)
    requires |Last(run).rx.written| <= total
    ensures Continues(run, run', b, size) && Written(Last(run), Last(run'), size)
    ensures Last(run').rx.published == |Last(run').rx.written| == total
    decreases total - |Last(run).rx.written|
  {
    run' := run;
    if InFlight(Last(run').rx) > 0 {
      run' := WriterPublishes(run', b, size);
    }
    if |Last(run').rx.written| < total {
      run' := WriterFills(run', b, size, 1);
      run' := WriterPublishes(run', b, size);
      run' := WriterDelivers(run', b, size, total);
    }
  }

  lemma LeavesWait(run: seq<Sys>, b: nat, size: nat) returns (run': seq<Sys>)
    requires size >= 2 && Plays(run, b, size) && Last(run).phase == Waiting
    requires Advance(Last(run), size) >= ThisN(Last(run), size)
    ensures Extends(run, run', b, size) && run' == run + [Last(run).(phase := Copying(0))]
    ensures StaleWait(Last(run), size) || Continues(run, run', b, size)
  {
    var s' := Last(run).(phase := Copying(0));
    OneStep(run, s', b, size);
    run' := run + [s'];
  }

  /** Sample `x` of the result came out of the ring as it is in `s`. */
  ghost predicate TakenAt(s: Sys, segment: seq<Iq>, x: nat, size: nat) {
    && size > 0 && |s.rx.cells| == size && x < |segment|
    && segment[x] == s.rx.cells[Wrap(s.base - s.filled + x, size)]
  }

  lemma TakenKept(s: Sys, segment: seq<Iq>, segment': seq<Iq>, x: nat, size: nat)
    requires TakenAt(s, segment, x, size) && segment <= segment'
    ensures TakenAt(s, segment', x, size)
  {
  }

  lemma CopiesOne(run: seq<Sys>, b: nat, size: nat, i: nat) returns (run': seq<Sys>)
    requires size >= 2 && Plays(run, b, size) && Aligned(Last(run), size) && Last(run).phase == Copying(i)
    ensures Continues(run, run', b, size) && Aligned(Last(run'), size)
    ensures var s, s' := Last(run), Last(run');
            && s' == s.(phase := if i + 1 == ThisN(s, size) then Guarding else Copying(i + 1), segment := s'.segment)
            && s.segment <= s'.segment && |s'.segment| == s.filled + i + 1
            && TakenAt(s, s'.segment, s.filled + i, size)
  {
    var s := Last(run);
    ChunkCells(s, size, i);
    var s' := s.(segment := s.segment + [s.rx.cells[ReadCell(s, i, size)]],
                 phase := if i + 1 == ThisN(s, size) then Guarding else Copying(i + 1));
    CopyIsStep(s, s', i, size);
    CaptureKeepsAligned(s, s', size);
    OneStep(run, s', b, size);
    run' := run + [s'];
  }

  /** The rest of the copy of a chunk, the writer standing still. */
  lemma {:induction false} CopiesRest(run: seq<Sys>, b: nat, size: nat, i: nat) returns (run': seq<Sys>)
    requires size >= 2 && Plays(run, b, size) && Aligned(Last(run), size) && Last(run).phase == Copying(i)
    ensures Continues(run, run', b, size)
    ensures var s, s' := Last(run), Last(run');
            && s' == s.(phase := Guarding, segment := s'.segment)
            && s.segment <= s'.segment && |s'.segment| == s.filled + ThisN(s, size)
            && forall x: nat :: |s.segment| <= x < |s'.segment| ==> TakenAt(s, s'.segment, x, size)
    decreases ThisN(Last(run), size) - i
  {
    var s := Last(run);
    run' := CopiesOne(run, b, size, i);
    var s1 := Last(run');
    if s1.phase != Guarding {
      run' := CopiesRest(run', b, size, i + 1);
      TakenKept(s, s1.segment, Last(run').segment, s.filled + i, size);
      forall x: nat | |s1.segment| <= x < |Last(run').segment|
        ensures TakenAt(s, Last(run').segment, x, size)
      {
        assert TakenAt(s1, Last(run').segment, x, size);
      }
    }
  }

  lemma Accepts(run: seq<Sys>, b: nat, size: nat) returns (run': seq<Sys>)
    requires size >= 2 && Plays(run, b, size) && Last(run).phase == Guarding
    requires Last(run).rx.published < Last(run).base + size + ThisN(Last(run), size)
    requires Advance(Last(run), size) >= ThisN(Last(run), size)
    ensures Continues(run, run', b, size)
    ensures var s := Last(run);
            var filled := s.filled + ThisN(s, size);
            Last(run') == s.(phase := if filled == s.n then Captured else Waiting, cursor := ChunkEnd(s, size),
                             base := s.base + ThisN(s, size), filled := filled)
  {
    var s := Last(run);
    var filled := s.filled + ThisN(s, size);
    var s' := s.(phase := if filled == s.n then Captured else Waiting, cursor := ChunkEnd(s, size),
                 base := s.base + ThisN(s, size), filled := filled);
    OneStep(run, s', b, size);
    run' := run + [s'];
  }

  /** A chunk copied and accepted, the writer standing still. */
  lemma CopiesAndAccepts(run: seq<Sys>, b: nat, size: nat) returns (run': seq<Sys>)
    requires size >= 2 && Plays(run, b, size) && Last(run).phase == Copying(0)
    requires Advance(Last(run), size) >= ThisN(Last(run), size) && Last(run).rx.published <= Last(run).base + size
    ensures Continues(run, run', b, size) && Aligned(Last(run), size)
    ensures var s, s' := Last(run), Last(run');
            var filled := s.filled + ThisN(s, size);
            && s' == s.(phase := if filled == s.n then Captured else Waiting, cursor := ChunkEnd(s, size),
                        base := s.base + ThisN(s, size), filled := filled, segment := s'.segment)
            && s.segment <= s'.segment && |s'.segment| == filled
            && forall x: nat :: s.filled <= x < filled ==> TakenAt(s, s'.segment, x, size)
  {
    RunKeepsAligned(run, size, |run| - 1);
    run' := CopiesRest(run, b, size, 0);
    run' := Accepts(run', b, size);
  }

  /** The same from the wait. */
  lemma ChunkTaken(run: seq<Sys>, b: nat, size: nat) returns (run': seq<Sys>)
    requires size >= 2 && Plays(run, b, size) && Last(run).phase == Waiting
    requires Advance(Last(run), size) >= ThisN(Last(run), size) && Last(run).rx.published <= Last(run).base + size
    ensures Extends(run, run', b, size) && (StaleWait(Last(run), size) || Continues(run, run', b, size))
    ensures |run'| > |run| && run'[|run|] == Last(run).(phase := Copying(0))
    ensures var s, s' := Last(run), Last(run');
            var filled := s.filled + ThisN(s, size);
            && s' == s.(phase := if filled == s.n then Captured else Waiting, cursor := ChunkEnd(s, size),
                        base := s.base + ThisN(s, size), filled := filled, segment := s'.segment)
            && s.segment <= s'.segment && |s'.segment| == filled
            && forall x: nat :: s.filled <= x < filled ==> TakenAt(s, s'.segment, x, size)
  {
    run' := LeavesWait(run, b, size);
    var copying := Last(run');
    run' := CopiesAndAccepts(run', b, size);
    SameTaken(Last(run), copying, Last(run').segment, size);
  }

  lemma SameTaken(s: Sys, s': Sys, segment: seq<Iq>, size: nat)
    requires s' == s.(phase := s'.phase)
    ensures forall x: nat :: TakenAt(s', segment, x, size) ==> TakenAt(s, segment, x, size)
  {
  }

  /** The capture waits, at most half a buffer ahead of the head and less than a lap behind the
      writer. */
  ghost predicate Paused(s: Sys, size: nat) {
    s.phase == Waiting && s.base <= s.rx.published + size / 2 && |s.rx.written| < s.base + size
  }

  /** The writer delivers the next chunk, up to `total`. */
  lemma ChunkDelivered(run: seq<Sys>, b: nat, size: nat, total: nat) returns (run': seq<Sys>)
    requires size >= 2 && b > 0 && Plays(run, b, size) && Paused(Last(run), size)
    requires |Last(run).rx.written| <= total
    requires Last(run).base + ThisN(Last(run), size) <= total < Last(run).base + size
    ensures Continues(run, run', b, size) && Written(Last(run), Last(run'), size)
    ensures Last(run').rx.published == |Last(run').rx.written| == total
    ensures Advance(Last(run'), size) >= ThisN(Last(run'), size)
  {
    RunKeepsAligned(run, size, |run| - 1);
    var s := Last(run);
    run' := WriterDelivers(run, b, size, total);
    WrappedDistance(s.cursor, Last(run').rx.head, s.base, total, size);
  }

  lemma NormalChunk(run: seq<Sys>, b: nat, size: nat) returns (run': seq<Sys>)
    requires size >= 2 && b > 0 && Plays(run, b, size) && Paused(Last(run), size)
    ensures Continues(run, run', b, size) && Last(run).segment <= Last(run').segment
    ensures var s, s' := Last(run), Last(run');
            && s'.n == s.n && s'.filled == s.filled + ThisN(s, size) == |s'.segment|
            && s'.base == s.base + ThisN(s, size) && s'.cursor < size
            && s'.rx.published == |s'.rx.written| == Larger(|s.rx.written|, s'.base)
            && if s'.filled == s.n then s'.phase == Captured else Paused(s', size)
  {
    RunKeepsAligned(run, size, |run| - 1);
    run' := ChunkDelivered(run, b, size, Larger(|Last(run).rx.written|, Last(run).base + ThisN(Last(run), size)));
    run' := ChunkTaken(run', b, size);
  }

  lemma {:induction false} Finishes(run: seq<Sys>, b: nat, size: nat) returns (run': seq<Sys>)
    requires size >= 2 && b > 0 && Plays(run, b, size) && (Last(run).phase == Captured || Paused(Last(run), size))
    ensures Continues(run, run', b, size) && Last(run').phase == Captured && Last(run').n == Last(run).n
    ensures Last(run).segment <= Last(run').segment
    decreases Last(run).n - Last(run).filled
  {
    run' := run;
    if Last(run).phase == Waiting {
      RunKeepsAligned(run, size, |run| - 1);
      run' := NormalChunk(run, b, size);
      run' := Finishes(run', b, size);
    }
  }

  lemma HalfApart(a: nat, b: nat, half: nat)
    requires half > 0 && a < b && Wrap(a, half) == 0 && Wrap(b, half) == 0
    ensures a + half <= b
  {
    if b < a + half {
      WrapUnique(a, b, half);
    }
  }

  /** Chunk by chunk up to `filled`, the writer no further than it must. */
  lemma {:induction false} ReachesFilled(run: seq<Sys>, b: nat, size: nat, filled: nat) returns (run': seq<Sys>)
    requires size >= 2 && b > 0 && Plays(run, b, size) && Paused(Last(run), size)
    requires Last(run).filled < filled < Last(run).n && Wrap(filled, size / 2) == 0
    ensures Continues(run, run', b, size) && Paused(Last(run'), size)
    ensures var s, s' := Last(run), Last(run');
            && s'.n == s.n && s'.filled == filled && s'.base == s.base + (filled - s.filled) && s'.cursor < size
            && s'.rx.published == |s'.rx.written| == Larger(|s.rx.written|, s'.base)
    decreases filled - Last(run).filled
  {
    RunKeepsAligned(run, size, |run| - 1);
    HalfApart(Last(run).filled, filled, size / 2);
    run' := NormalChunk(run, b, size);
    if Last(run').filled < filled {
      run' := ReachesFilled(run', b, size, filled);
    }
  }

  /** A capture of `n` samples reads the head of the ring `rx` at once. */
  ghost predicate StartsOn(run: seq<Sys>, rx: Rx, n: nat) {
    |run| > 1 && run[0].rx == rx && run[0].n == n && run[0].phase == Starting && run[1].phase != Starting
  }

  lemma Starts(rx: Rx, n: nat, b: nat, size: nat) returns (run: seq<Sys>)
    requires size >= 2 && RxValid(rx, size) && n > 0 && InFlight(rx) <= b
    ensures Plays(run, b, size) && Orderly(run, size) && StartsOn(run, rx, n)
    ensures Last(run) == Sys(rx, Waiting, n, rx.head, rx.published, 0, [])
  {
    run := [Sys(rx, Starting, n, 0, 0, 0, [])];
    var s := Sys(rx, Waiting, n, rx.head, rx.published, 0, []);
    OneStep(run, s, b, size);
    run := run + [s];
  }

  // --- the parked head misleads, exactly when --------------------------------------------------

  /** From a start that is due, a capture comes to wait at cell 0 under the parked head, however
      small the writer's blocks. */
  lemma StaleWaitWhenDue(rx: Rx, n: nat, b: nat, size: nat) returns (run: seq<Sys>)
    requires size >= 2 && size % 2 == 0 && RxValid(rx, size) && InFlight(rx) < size && b > 0 && InFlight(rx) <= b
    requires Due(rx.published, InFlight(rx), n, size)
    ensures Plays(run, b, size) && StartsOn(run, rx, n) && Novel(rx.written, Last(run).rx.written, size)
    ensures StaleWait(Last(run), size) && Last(run).rx.published == |Last(run).rx.written| > 0
    ensures Last(run).n == n && Last(run).base == rx.published + Last(run).filled
    ensures Last(run).filled == Boundary(rx.published, InFlight(rx), size) < n
  {
    var filled := Boundary(rx.published, InFlight(rx), size);
    BoundaryAtZero(rx.published, InFlight(rx), size / 2);
    run := Starts(rx, n, b, size);
    run := ReachesFilled(run, b, size, filled);
    RunKeepsAligned(run, size, |run| - 1);
    ParkedOverZero(Last(run), size);
  }

  lemma BoundaryAtZero(start: nat, inFlight: int, half: nat)
    requires half > 0 && Wrap(start, half) == 0 && inFlight < 2 * half
    ensures var filled := Boundary(start, inFlight, 2 * half);
            && filled > 0 && filled >= inFlight && Wrap(filled, half) == 0 && Wrap(start + filled, 2 * half) == 0
  {
    var filled := Boundary(start, inFlight, 2 * half);
    WrapHalf(start, half);
    WrapPlus(start, filled, 2 * half);
    WrapShift(0, half);
    WrapShift(half, half);
    WrapShift(2 * half, half);
    WrapShift(0, 2 * half);
    WrapShift(2 * half, 2 * half);
  }

  lemma ParkedOverZero(s: Sys, size: nat)
    requires Aligned(s, size) && s.phase == Waiting && s.filled > 0
    requires s.rx.published == s.base > 0 && Wrap(s.base, size) == 0 && s.cursor < size
    ensures StaleWait(s, size)
  {
  }

  /** Exactly when: some interleaving misleads the capture if and only if its start is due, whatever
      the size of the writer's blocks.  A start off the half-buffer marks, or a capture no longer than
      the boundary, is safe, and a caller can tell. */
  lemma StaleWaitExactly(rx: Rx, n: nat, b: nat, size: nat)
    requires size >= 2 && size % 2 == 0 && RxValid(rx, size) && InFlight(rx) < size && b > 0 && InFlight(rx) <= b
    ensures (exists run: seq<Sys> :: Plays(run, b, size) && StartsOn(run, rx, n) && StaleWait(Last(run), size))
       <==> Due(rx.published, InFlight(rx), n, size)
  {
    if run: seq<Sys> :| Plays(run, b, size) && StartsOn(run, rx, n) && StaleWait(Last(run), size) {
      AskedFixed(run, size, |run| - 1);
      StaleWaitOnlyWhenDue(run, size, 0, |run| - 1);
    }
    if Due(rx.published, InFlight(rx), n, size) {
      var run := StaleWaitWhenDue(rx, n, b, size);
    }
  }

  lemma {:induction false} AskedFixed(run: seq<Sys>, size: nat, k: nat)
    requires size > 0 && IsRun(run, size) && k < |run|
    ensures run[k].n == run[0].n
  {
    if k > 0 {
      AskedFixed(run, size, k - 1);
      assert StepAt(run, k - 1, size);
    }
  }

  /** Sample `x` of the result is not the sample of the stretch promised. */
  ghost predicate Wrong(s: Sys, start: nat, x: nat) {
    x < |s.segment| && start + x < |s.rx.written| && s.segment[x] != s.rx.written[start + x]
  }

  /** And then the parked head is a real hazard: from every start that is due, a capture of any
      length can leave a stale wait and return normally with a whole chunk of the lap before, every
      sample of it wrong, and the guard content. */
  lemma ParkedHeadReturnsStaleSample(rx: Rx, n: nat, b: nat, size: nat)
    returns (run: seq<Sys>, from: nat, wait: nat)
    requires size >= 2 && size % 2 == 0 && RxValid(rx, size) && InFlight(rx) < size && b > 0 && InFlight(rx) <= b
    requires Due(rx.published, InFlight(rx), n, size)
    ensures Plays(run, b, size) && StartsOn(run, rx, n) && Last(run).phase == Captured && Last(run).n == n
    ensures from < n && wait < |run| - 1 && StaleWait(run[wait], size) && run[wait + 1].phase == Copying(0)
    ensures |run[wait].rx.written| == rx.published + from
    ensures |Last(run).segment| == n && rx.published + n <= |Last(run).rx.written|
    ensures forall x: nat :: from <= x < n && x < from + size / 2 ==>
              && 0 <= rx.published + x - size
              && Last(run).segment[x] == At(run[wait].rx.written, rx.published + x - size)
              && Wrong(Last(run), rx.published, x)
  {
    run := StaleWaitWhenDue(rx, n, b, size);
    var s := Last(run);
    from, wait := s.filled, |run| - 1;
    RunKeepsAligned(run, size, wait);
    var taken := ChunkTaken(run, b, size);
    run := FinishesWritten(taken, b, size, rx.published + n);
    forall x: nat | from <= x < n && x < from + size / 2
      ensures 0 <= rx.published + x - size && Last(run).segment[x] == At(s.rx.written, rx.published + x - size)
      ensures Wrong(Last(run), rx.published, x)
    {
      StaleSample(s, Last(taken).segment, Last(run), rx.published, x, size);
    }
  }

  /** The capture finishes, and the writer goes on to `total` at least. */
  lemma FinishesWritten(run: seq<Sys>, b: nat, size: nat, total: nat) returns (run': seq<Sys>)
    requires size >= 2 && b > 0 && Plays(run, b, size) && (Last(run).phase == Captured || Paused(Last(run), size))
    ensures Continues(run, run', b, size) && Last(run').phase == Captured && Last(run').n == Last(run).n
    ensures Last(run).segment <= Last(run').segment && |Last(run').segment| == Last(run').n
    ensures total <= |Last(run').rx.written|
  {
    run' := Finishes(run, b, size);
    RunKeepsAligned(run', size, |run'| - 1);
    run' := WriterDelivers(run', b, size, Larger(|Last(run').rx.written|, total));
  }

  lemma StaleSample(s: Sys, segment: seq<Iq>, last: Sys, start: nat, x: nat, size: nat)
    requires Aligned(s, size) && StaleWait(s, size) && |s.rx.written| == s.base == start + s.filled && s.base > 0
    requires s.filled <= x < s.filled + size && TakenAt(s, segment, x, size) && segment <= last.segment
    requires Novel(s.rx.written, last.rx.written, size) && start + x < |last.rx.written|
    ensures 0 <= start + x - size && last.segment[x] == At(s.rx.written, start + x - size)
    ensures Wrong(last, start, x)
  {
    TakenIsLapBefore(s, segment, x, size);
    NovelBeyond(s.rx.written, last.rx.written, start + x, size);
  }

  /** A sample added is not the one a lap before. */
  lemma NovelBeyond(written: seq<Iq>, written': seq<Iq>, p: nat, size: nat)
    requires Novel(written, written', size) && |written| <= p < |written'| && p - size < |written|
    ensures written'[p] != At(written, p - size)
  {
  }

  lemma TakenIsLapBefore(s: Sys, segment: seq<Iq>, x: nat, size: nat)
    requires Aligned(s, size) && StaleWait(s, size) && |s.rx.written| == s.base && s.base > 0
    requires s.filled <= x < s.filled + size && TakenAt(s, segment, x, size)
    ensures 0 <= s.base - s.filled + x - size
    ensures segment[x] == At(s.rx.written, s.base - s.filled + x - size)
  {
    var p := s.base - s.filled + x;
    WrapShift(p - size, size);
    assert At(s.rx.written, p - size) == s.rx.cells[Wrap(p - size, size)];
    LapBefore(s.base, size);
  }

  lemma LapBefore(base: nat, size: nat)
    requires size > 0 && base > 0 && Wrap(base, size) == 0
    ensures base >= size
  {
  }

  // --- a block in flight tears, exactly how much ------------------------------------------------

  lemma {:induction false} ReachesLastChunk(run: seq<Sys>, b: nat, size: nat) returns (run': seq<Sys>)
    requires size >= 2 && b > 0 && Plays(run, b, size) && Paused(Last(run), size)
    ensures Continues(run, run', b, size) && Paused(Last(run'), size) && Last(run').n == Last(run).n
    ensures Last(run').n - Last(run').filled <= size / 2
    ensures Last(run').base - Last(run').filled == Last(run).base - Last(run).filled
    decreases Last(run).n - Last(run).filled
  {
    run' := run;
    if Last(run).n - Last(run).filled > size / 2 {
      run' := NormalChunk(run, b, size);
      run' := ReachesLastChunk(run', b, size);
    }
  }

  /** Where sample `x` of a capture torn from `from` on comes from. */
  ghost predicate TornAt(segment: seq<Iq>, written: seq<Iq>, start: nat, from: nat, x: nat, b: nat, size: nat) {
    var p := start + x + if x - from < b - 1 then size else 0;
    x < |segment| && p < |written| && segment[x] == written[p]
  }

  /** On the way into a chunk, the head one short of a lap past it, a whole block in flight. */
  lemma BlockArrives(run: seq<Sys>, b: nat, size: nat) returns (run': seq<Sys>)
    requires size >= 2 && 2 <= b <= size && Plays(run, b, size) && Paused(Last(run), size)
    ensures Continues(run, run', b, size) && RxValid(Last(run').rx, size)
    ensures Last(run').rx.published == Last(run).base + size - 1
    ensures Last(run') == Last(run).(rx := Last(run').rx, phase := Copying(0))
    ensures |Last(run').rx.written| == Last(run).base + size - 1 + b
    ensures Advance(Last(run'), size) >= ThisN(Last(run'), size)
  {
    RunKeepsAligned(run, size, |run| - 1);
    run' := ChunkDelivered(run, b, size, Last(run).base + size - 1);
    run' := LeavesWait(run', b, size);
    run' := WriterFills(run', b, size, b);
  }

  lemma ChunkTorn(run: seq<Sys>, start: nat, b: nat, size: nat) returns (run': seq<Sys>)
    requires size >= 2 && 2 <= b <= size && Plays(run, b, size) && Paused(Last(run), size)
    requires Last(run).base == start + Last(run).filled
    ensures Continues(run, run', b, size)
    ensures var s, s' := Last(run), Last(run');
            && s'.n == s.n && s'.filled == s.filled + ThisN(s, size) == |s'.segment|
            && s'.phase == (if s'.filled == s.n then Captured else Waiting)
            && forall x: nat :: s.filled <= x < s'.filled ==>
                 && TornAt(s'.segment, s'.rx.written, start, s.filled, x, b, size)
                 && (x - s.filled < b - 1 ==> Wrong(s', start, x))
  {
    run' := BlockArrives(run, b, size);
    var s := Last(run');
    run' := CopiesAndAccepts(run', b, size);
    forall x: nat | s.filled <= x < |Last(run').segment|
      ensures TornAt(Last(run').segment, s.rx.written, start, s.filled, x, b, size)
      ensures x - s.filled < b - 1 ==> Wrong(Last(run'), start, x)
    {
      assert TakenAt(s, Last(run').segment, x, size);
      TakenIsNewest(s, Last(run').segment, x, b - 1, size);
      if x - s.filled < b - 1 {
        assert s.rx.written[start + x + size] != At(s.rx.written, start + x);
      }
    }
  }

  /** A block in flight is a hazard too: its cells are already overwritten while the guard still sees
      the head from before.  With blocks of at most `b`, two or more, a capture of any length from any
      start can return normally, each chunk published when it is copied, with the first `b - 1` samples
      of its last chunk one lap too new and wrong, and the rest of that chunk right: what
      `TearBoundedOffMark` allows is what can happen. */
  lemma BlockInFlightTearsChunk(rx: Rx, n: nat, b: nat, size: nat) returns (run: seq<Sys>, from: nat)
    requires size >= 2 && RxValid(rx, size) && InFlight(rx) < size && n > 0
    requires 2 <= b <= size && InFlight(rx) <= b
    ensures Plays(run, b, size) && Orderly(run, size) && StartsOn(run, rx, n)
    ensures Last(run).phase == Captured && Last(run).n == n
    ensures from < n == |Last(run).segment| && Wrap(from, size / 2) == 0 && n - from <= size / 2
    ensures forall x: nat :: from <= x < n ==>
              && TornAt(Last(run).segment, Last(run).rx.written, rx.published, from, x, b, size)
              && (x - from < b - 1 <==> Wrong(Last(run), rx.published, x))
  {
    run := Starts(rx, n, b, size);
    run := ReachesLastChunk(run, b, size);
    RunKeepsAligned(run, size, |run| - 1);
    from := Last(run).filled;
    run := ChunkTorn(run, rx.published, b, size);
  }

  /** A chunk copied with the writer `ahead` of a lap past it: its first `ahead` samples are one lap on. */
  lemma TakenIsNewest(s: Sys, segment: seq<Iq>, x: nat, ahead: nat, size: nat)
    requires RxValid(s.rx, size) && TakenAt(s, segment, x, size) && s.filled <= x < s.filled + ThisN(s, size)
    requires ahead <= size && |s.rx.written| == s.base + size + ahead
    ensures var p := s.base - s.filled + x + if x - s.filled < ahead then size else 0;
            0 <= p < |s.rx.written| && segment[x] == s.rx.written[p]
  {
    var p := s.base + (x - s.filled);
    WrapShift(p, size);
    if x - s.filled < ahead {
      assert At(s.rx.written, p + size) == s.rx.cells[Wrap(p + size, size)];
    } else {
      assert At(s.rx.written, p) == s.rx.cells[Wrap(p, size)];
    }
  }

  // --- and exactly when one sample more --------------------------------------------------------

  /** How far past its start a capture first has its cursor at cell 0, if it starts on a half-buffer
      mark. */
  function ZeroChunk(published: nat, size: nat): nat
    requires size > 0
  {
    if published == 0 then 0 else if Wrap(published, size) == 0 then size else size / 2
  }

  /** The chunk at cell 0 has a `b`-th sample. */
  predicate TearDue(published: nat, n: nat, b: nat, size: nat)
    requires size >= 2
  {
    Wrap(published, size / 2) == 0 && n >= ZeroChunk(published, size) + b
  }

  /** A normal return of an orderly run, wrong beyond the first `b - 1` samples of a chunk. */
  ghost predicate TornBeyond(run: seq<Sys>, rx: Rx, n: nat, b: nat, size: nat, x: nat)
    requires size >= 2
  {
    && Plays(run, b, size) && Orderly(run, size) && StartsOn(run, rx, n) && Last(run).phase == Captured
    && Wrap(x, size / 2) >= b - 1 && Wrong(Last(run), rx.published, x)
  }

  lemma ZeroCursor(run: seq<Sys>, size: nat, k: nat, j: nat)
    requires size >= 2 && size % 2 == 0 && IsRun(run, size) && k < j < |run|
    requires run[k].phase == Starting && run[k + 1].phase != Starting
    requires run[j].phase == Guarding && run[j].cursor == 0
    ensures Wrap(run[k].rx.published, size / 2) == 0 && run[j].filled >= ZeroChunk(run[k].rx.published, size)
  {
    RunKeepsAligned(run, size, j);
    StartFixed(run, size, k, j);
    if run[j].filled > 0 {
      MarksApart(run[k].rx.published, run[j].filled, size / 2);
    }
  }

  /** Where none is due, the block in flight reaches at most `b - 1` past a lap into a chunk that long. */
  lemma NotDueUndisturbed(run: seq<Sys>, rx: Rx, n: nat, b: nat, size: nat, j: nat)
    requires size >= 2 && size % 2 == 0 && b > 0 && Plays(run, b, size) && Orderly(run, size)
    requires StartsOn(run, rx, n) && !TearDue(rx.published, n, b, size) && j < |run| - 1
    ensures UndisturbedAt(run, j, b - 1, size)
  {
    assert InReach(run, j, size) && LeavesFresh(run, j, size) && InFlight(run[j].rx) <= b;
    if Accepting(run[j], run[j + 1]) {
      RunKeepsAligned(run, size, j);
      AskedFixed(run, size, j);
      if run[j].cursor != 0 {
        AcceptsBelowLap(run, size, j);
      } else {
        ZeroCursor(run, size, 0, j);
      }
    }
  }

  lemma NotDueNotTorn(run: seq<Sys>, rx: Rx, n: nat, b: nat, size: nat, x: nat)
    requires size >= 2 && size % 2 == 0 && b > 0 && TornBeyond(run, rx, n, b, size, x)
    ensures TearDue(rx.published, n, b, size)
  {
    if !TearDue(rx.published, n, b, size) {
      var slack := b - 1;
      forall j | 0 <= j < |run| - 1
        ensures UndisturbedAt(run, j, slack, size)
      {
        NotDueUndisturbed(run, rx, n, b, size, j);
      }
      CaptureExactBeyond(run, slack, size, 0);
    }
  }

  /** At cell 0, a head parked one lap on passes the guard with a whole block in flight behind it. */
  lemma ParkedLapArrives(run: seq<Sys>, b: nat, size: nat) returns (run': seq<Sys>)
    requires size >= 2 && 0 < b <= size && Plays(run, b, size) && Paused(Last(run), size)
    requires Last(run).cursor == 0
    ensures Continues(run, run', b, size) && RxValid(Last(run').rx, size)
    ensures Last(run').rx.published == Last(run).base + size
    ensures Last(run') == Last(run).(rx := Last(run').rx, phase := Copying(0))
    ensures |Last(run').rx.written| == Last(run).base + size + b
    ensures Advance(Last(run'), size) >= ThisN(Last(run'), size)
  {
    RunKeepsAligned(run, size, |run| - 1);
    run' := WriterDelivers(run, b, size, Last(run).base + size);
    LapHead(Last(run), Last(run').rx, size);
    run' := LeavesWait(run', b, size);
    run' := WriterFills(run', b, size, b);
  }

  /** One lap past a cursor at cell 0 the head is parked. */
  lemma LapHead(s: Sys, rx: Rx, size: nat)
    requires Aligned(s, size) && s.phase == Waiting && s.cursor == 0
    requires RxValid(rx, size) && rx.published == s.base + size
    ensures rx.head == size
    ensures Advance(s.(rx := rx), size) == size >= ThisN(s, size)
  {
    WrapShift(s.base, size);
  }

  lemma ReachesZeroChunk(rx: Rx, n: nat, b: nat, size: nat) returns (run: seq<Sys>)
    requires size >= 2 && size % 2 == 0 && RxValid(rx, size) && 0 < b < size / 2 && InFlight(rx) <= b
    requires TearDue(rx.published, n, b, size)
    ensures Plays(run, b, size) && Orderly(run, size) && StartsOn(run, rx, n) && Paused(Last(run), size)
    ensures Novel(rx.written, Last(run).rx.written, size)
    ensures Last(run).n == n && Last(run).filled == ZeroChunk(rx.published, size)
    ensures Last(run).base == rx.published + Last(run).filled && Last(run).cursor == 0
  {
    run := Starts(rx, n, b, size);
    var filled := ZeroChunk(rx.published, size);
    if filled > 0 {
      ZeroChunkAtZero(rx.published, size / 2);
      run := ReachesFilled(run, b, size, filled);
      RunKeepsAligned(run, size, |run| - 1);
    }
  }

  lemma ZeroChunkAtZero(start: nat, half: nat)
    requires half > 0 && start > 0 && Wrap(start, half) == 0
    ensures var filled := ZeroChunk(start, 2 * half);
            Wrap(filled, half) == 0 && Wrap(start + filled, 2 * half) == 0
  {
    BoundaryAtZero(start, 0, half);
  }

  lemma ZeroChunkTorn(run: seq<Sys>, start: nat, b: nat, size: nat) returns (run': seq<Sys>)
    requires size >= 2 && 0 < b < size / 2 && Plays(run, b, size) && Paused(Last(run), size)
    requires Last(run).cursor == 0 && Last(run).base == start + Last(run).filled
    requires Last(run).filled + b <= Last(run).n
    ensures Continues(run, run', b, size) && (Last(run').phase == Captured || Paused(Last(run'), size))
    ensures Wrong(Last(run'), start, Last(run).filled + b - 1)
  {
    run' := ParkedLapArrives(run, b, size);
    var s, x := Last(run'), Last(run).filled + b - 1;
    run' := CopiesAndAccepts(run', b, size);
    TakenIsNewest(s, Last(run').segment, x, b, size);
    assert s.rx.written[start + x + size] != At(s.rx.written, start + x);
  }

  lemma TornWhenDue(rx: Rx, n: nat, b: nat, size: nat) returns (run: seq<Sys>, x: nat)
    requires size >= 2 && size % 2 == 0 && RxValid(rx, size) && 0 < b < size / 2 && InFlight(rx) <= b
    requires TearDue(rx.published, n, b, size)
    ensures TornBeyond(run, rx, n, b, size, x)
  {
    run := ReachesZeroChunk(rx, n, b, size);
    RunKeepsAligned(run, size, |run| - 1);
    x := Last(run).filled + b - 1;
    InChunk(Last(run).filled, b - 1, size / 2);
    run := ZeroChunkTorn(run, rx.published, b, size);
    run := Finishes(run, b, size);
  }

  /** Exactly when `TearBounded` is met and not only `TearBoundedOffMark`: with blocks of at most `b`
      samples, less than a chunk, some orderly run returns a wrong sample beyond the first `b - 1` of a
      chunk if and only if the capture starts on a half-buffer mark and is long enough to have a `b`-th
      sample in the chunk at cell 0.  For a writer of single samples: exactly when anything at all can
      be wrong. */
  lemma TornBeyondExactly(rx: Rx, n: nat, b: nat, size: nat)
    requires size >= 2 && size % 2 == 0 && RxValid(rx, size) && 0 < b < size / 2 && InFlight(rx) <= b
    ensures (exists run: seq<Sys>, x: nat :: TornBeyond(run, rx, n, b, size, x)) <==> TearDue(rx.published, n, b, size)
  {
    if run: seq<Sys>, x: nat :| TornBeyond(run, rx, n, b, size, x) {
      NotDueNotTorn(run, rx, n, b, size, x);
    }
    if TearDue(rx.published, n, b, size) {
      var run, x := TornWhenDue(rx, n, b, size);
    }
  }
}
