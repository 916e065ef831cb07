/** The cycles of the processor around the capture decision: from the ring to the decode window, from
    the decision to the segment handed to the renderer, and which queued drops get reported. */
module ProcessorCycle {
  import opened Modular
  import opened IqRing
  import opened TdSelection
  import opened TdCaptureRuns

  /** The start index the processor computes from the head is the true window start, reduced. */
  lemma DecodeStartIsWindow(widx: nat, total: nat, length: nat, size: nat)
    requires size > 0 && HeadOf(widx, total, size)
    ensures Wrap(widx - length, size) == Wrap(total - length, size)
  {
    WrapAdd(widx, total, 0 - length, size);
  }

  // --- from ring to plot ----------------------------------------------------------

  /** The segment the processor cuts out of its decode window for a capture. */
  function Rendered(chunk: seq<Iq>, cap: Capture): seq<Iq>
    requires 0 <= cap.tdStart <= cap.tdEnd <= |chunk|
  {
    chunk[cap.tdStart..cap.tdEnd]
  }

  /** The decode window of an entry as it was copied out of the live ring: `then_` is the stream up to
      the head read at the top of the cycle. */
  ghost predicate ReadsWindow(cfg: Config, size: nat, e: Entry, chunk: seq<Iq>, then_: seq<Iq>, seen: seq<seq<Iq>>) {
    && size > 0 && LiveCopy(chunk, then_, seen, size)
    && |chunk| == cfg.decodeSamples && e.window == |then_| - cfg.decodeSamples
  }

  /** From ring to plot: when the cells rendered were copied in time, what is rendered for a hit is one
      unbroken stretch of the stream.  Its marked sample is the very sample the hit was fixed at, some
      cycles before, if and only if no window moved too far in between; and so it is at the pace. */
  lemma RenderedWhereFixed(cfg: Config, size: nat, run: seq<Entry>, k: nat, chunk: seq<Iq>, then_: seq<Iq>,
                           seen: seq<seq<Iq>>)
    returns (j: nat)
    requires IsRun(cfg, size, run) && k < |run| && run[k].result.capture.Some?
    requires ReadsWindow(cfg, size, run[k], chunk, then_, seen)
    requires var cap := run[k].result.capture.value;
             forall i :: 0 <= i < |chunk| && cap.tdStart <= i < cap.tdEnd ==> InTime(then_, |chunk|, seen, i, size)
    ensures j <= k && run[j].hit.Some? && run[j].result.how in {Fresh, Promoted}
    ensures run[j].hit.value.attempt == run[k].result.capture.value.hit.attempt
    ensures forall i :: j < i <= k ==> RetriedAt(run, i)
    ensures var cap := run[k].result.capture.value;
            && 0 <= cap.tdStart <= cap.tdCenter < cap.tdEnd <= |chunk|
            && var segment := Rendered(chunk, cap);
               && |segment| == cfg.tdSamples
               && (forall i :: 0 <= i < |segment| ==> segment[i] == At(then_, run[k].window + cap.tdStart + i))
               && ((forall i :: j < i <= k ==> Forward(run, i)) ==>
                     (run[k].window + cap.tdCenter == Position(cfg, run[j])
                      <==> forall i :: j < i <= k ==> HonestAt(cfg, size, run, i)))
               && ((forall i :: j < i <= k ==> PacedAt(cfg, size, run, i)) ==>
                     segment[cap.tdCenter - cap.tdStart] == At(then_, Position(cfg, run[j])))
  {
    CaptureGeometry(cfg, size, run, k);
    RunCarries(cfg, size, run, k);
    j := ServedWhereFixed(cfg, size, run, k);
    var cap := run[k].result.capture.value;
    forall i | 0 <= i < |chunk| && cap.tdStart <= i < cap.tdEnd
      ensures chunk[i] == At(then_, run[k].window + i)
    {
      ExtractLastCell(chunk, then_, seen, size, i);
    }
  }

  // --- which drops are reported -------------------------------------------------------

  /** An entry of the drop queue, with the stream length at the gap. */
  datatype QueuedDrop = QueuedDrop(id: nat, position: nat, total: nat)

  /** One cycle: the head it reads first, and the drops it takes off the queue after that. */
  datatype Drain = Drain(widx: nat, total: nat, drops: seq<QueuedDrop>)

  ghost predicate Sound(cycle: Drain, d: QueuedDrop, window: nat, size: nat) {
    && 0 < window < size && HeadOf(cycle.widx, cycle.total, size) && HeadOf(d.position, d.total, size)
    && cycle.total - size < d.total < cycle.total + size - window
  }

  /** What is taken off the queue is gone. */
  ghost predicate DrainedOnce(cycles: seq<Drain>, d: QueuedDrop) {
    forall a, b :: 0 <= a < |cycles| && 0 <= b < |cycles| && d in cycles[a].drops && d in cycles[b].drops ==> a == b
  }

  ghost predicate ReportedIn(cycle: Drain, d: QueuedDrop, window: nat, size: nat) {
    size > 0 && d in cycle.drops && MapDrop(d.position, Wrap(cycle.widx - window, size), cycle.widx, size).Some?
  }

  ghost predicate WindowHolds(cycle: Drain, d: QueuedDrop, window: nat) {
    cycle.total - window <= d.total < cycle.total
  }

  /** The head and the positions are what the writer published. */
  ghost predicate Queued(cycle: Drain, size: nat) {
    size > 0 && HeadOf(cycle.widx, cycle.total, size)
    && forall d :: d in cycle.drops ==> HeadOf(d.position, d.total, size)
  }

  /** Drops leave the queue in the order they were queued, each once. */
  ghost predicate InQueueOrder(cycles: seq<Drain>, next: nat) {
    && (forall c, d :: 0 <= c < |cycles| && d in cycles[c].drops ==> d.id < next)
    && (forall a, b, d, e :: 0 <= a < b < |cycles| && d in cycles[a].drops && e in cycles[b].drops ==> d.id < e.id)
  }

  lemma OrderKept(cycles: seq<Drain>, cycle: Drain, next: nat, next': nat)
    requires InQueueOrder(cycles, next) && next <= next'
    requires forall d :: d in cycle.drops ==> next <= d.id < next'
    ensures InQueueOrder(cycles + [cycle], next')
  {
    var all := cycles + [cycle];
    forall c, d | 0 <= c < |all| && d in all[c].drops
      ensures d.id < next' && (c < |cycles| ==> d in cycles[c].drops && d.id < next)
    {
    }
  }

  lemma OrderDrainsOnce(cycles: seq<Drain>, next: nat, d: QueuedDrop)
    requires InQueueOrder(cycles, next)
    ensures DrainedOnce(cycles, d)
  {
  }

  function Numbered(first: nat, positions: seq<nat>, totals: seq<nat>): (drops: seq<QueuedDrop>)
    requires |positions| == |totals|
    ensures |drops| == |positions| && forall d :: d in drops ==> first <= d.id < first + |positions|
  {
    seq(|positions|, i requires 0 <= i < |positions| => QueuedDrop(first + i, positions[i], totals[i]))
  }

  /** The top of one cycle: read the head, let the writer go on, drain, map. */
  method DrainCycle(ring: SharedRing, window: nat) returns (offsets: seq<int>, ghost cycle: Drain)
    requires ring.Valid()
    modifies ring, ring.iqBuffer
    ensures ring.Valid() && Queued(cycle, ring.size)
    ensures forall d :: d in cycle.drops ==> old(ring.drained) <= d.id < ring.drained
    ensures cycle.widx == old(ring.bufWriteIdx) && cycle.total == old(ring.published)
    ensures ring.dropQueue == [] && ring.drained == old(ring.drained) + |cycle.drops|
    ensures |old(ring.dropQueue)| <= |cycle.drops|
    ensures forall i :: 0 <= i < |cycle.drops| ==> cycle.drops[i].id == old(ring.drained) + i
    ensures forall i :: 0 <= i < |old(ring.dropQueue)| ==> cycle.drops[i].position == old(ring.dropQueue)[i]
    ensures offsets == MapDrops(seq(|cycle.drops|, i requires 0 <= i < |cycle.drops| => cycle.drops[i].position),
                                Wrap(cycle.widx - window, ring.size), cycle.widx, ring.size)
  {
    var widx := ring.bufWriteIdx;
    ghost var total, first := ring.published, ring.drained;
    ring.WriterThread();
    var positions, totals := ring.DrainDrops();
    cycle := Drain(widx, total, Numbered(first, positions, totals));
    assert positions == seq(|cycle.drops|, i requires 0 <= i < |cycle.drops| => cycle.drops[i].position);
    offsets := DropOffsets(positions, Wrap(widx - window, ring.size), widx, ring.size);
  }

  /** Any number of cycles, the writer thread running throughout. */
  method RunCycles(ring: SharedRing, window: nat, count: nat) returns (ghost cycles: seq<Drain>)
    requires ring.Valid()
    modifies ring, ring.iqBuffer
    ensures ring.Valid() && |cycles| == count
    ensures forall c :: 0 <= c < count ==> Queued(cycles[c], ring.size)
    ensures forall d :: DrainedOnce(cycles, d)
  {
    cycles := [];
    for c := 0 to count
      invariant ring.Valid() && |cycles| == c
      invariant forall a :: 0 <= a < c ==> Queued(cycles[a], ring.size)
      invariant InQueueOrder(cycles, ring.drained)
    {
      ring.WriterThread();
      ghost var cycle, before := *, ring.drained;
      var offsets;
      offsets, cycle := DrainCycle(ring, window);
      OrderKept(cycles, cycle, before, ring.drained);
      cycles := cycles + [cycle];
    }
    forall d
      ensures DrainedOnce(cycles, d)
    {
      OrderDrainsOnce(cycles, ring.drained, d);
    }
  }

  /** Of a whole run: a drop is reported at all if and only if the one cycle that drains it read its
      head after the first sample past the gap and still holds that sample, parked position apart.
      That another window holds it does not help. */
  lemma DropReportedExactly(cycles: seq<Drain>, c: nat, d: QueuedDrop, window: nat, size: nat)
    requires c < |cycles| && d in cycles[c].drops && DrainedOnce(cycles, d) && Sound(cycles[c], d, window, size)
    ensures (exists a :: 0 <= a < |cycles| && ReportedIn(cycles[a], d, window, size))
       <==> && WindowHolds(cycles[c], d, window)
            && !(d.position == size && Wrap(cycles[c].widx - window, size) == 0)
  {
    MapDropExact(d.position, d.total, cycles[c].widx, cycles[c].total, window, size);
    assert ReportedIn(cycles[c], d, window, size)
      <==> MapDrop(d.position, Wrap(cycles[c].widx - window, size), cycles[c].widx, size).Some?;
  }

  /** So a drop queued between the reading of the head and the draining is lost: the next window holds
      it, and no window reports it. */
  lemma LateDropLost(first: Drain, next: Drain, d: QueuedDrop, window: nat, size: nat)
    requires d in first.drops && d !in next.drops && Sound(first, d, window, size)
    requires first.total <= d.total < next.total <= first.total + window
    ensures WindowHolds(next, d, window)
    ensures forall a :: 0 <= a < 2 ==> !ReportedIn([first, next][a], d, window, size)
  {
    DropReportedExactly([first, next], 0, d, window, size);
  }

  /** The head the writer publishes after `total` samples. */
  function HeadAt(total: nat, size: nat): (head: nat)
    requires size > 0
    ensures HeadOf(head, total, size)
  {
    WrapShift(0, size);
    WrapPlus(total, 0, size);
    if total == 0 then 0 else if Wrap(total, size) == 0 then size else Wrap(total, size)
  }

  /** It happens at every place of the stream, to every window shorter than the ring: a gap as soon as
      the head has been read, then `more` samples before the next cycle, up to a whole window. */
  lemma LateDropHappens(total: nat, more: nat, window: nat, size: nat)
    returns (first: Drain, next: Drain, d: QueuedDrop)
    requires 0 < more <= window < size
    ensures first.total == total && next.total == total + more && Queued(first, size) && Queued(next, size)
    ensures DrainedOnce([first, next], d) && d in first.drops && d.total == total
    ensures WindowHolds(next, d, window)
    ensures forall a :: 0 <= a < 2 ==> !ReportedIn([first, next][a], d, window, size)
  {
    d := QueuedDrop(0, HeadAt(total, size), total);
    first := Drain(HeadAt(total, size), total, [d]);
    next := Drain(HeadAt(total + more, size), total + more, []);
    LateDropLost(first, next, d, window, size);
  }
}
