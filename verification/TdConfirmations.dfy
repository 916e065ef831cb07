/** Truncations awaiting confirmation, over whole runs: where one was held, whether it is still believed
    there, and the published cadence at which it may not be. */
module TdConfirmations {
  import opened Modular
  import opened Options
  import opened TdSelection
  import opened TdCaptureRuns

  /** Where a held truncation was when it was held. */
  function HeldPosition(cfg: Config, e: Entry): int
    requires e.result.state.pendingConfirm.Some?
  {
    e.window + StartSample(cfg, e.result.state.pendingConfirm.value.attempt)
  }

  ghost predicate HeldLink(cfg: Config, size: nat, run: seq<Entry>, k: nat)
    requires k < |run|
  {
    var e := run[k];
    && size > 0
    && (e.result.state.pendingConfirm.Some? ==>
          var held := e.result.state.pendingConfirm.value;
          && Wrap(held.absStart - e.window, size) < cfg.decodeSamples < size
          && (if e.result.how == Held then
                && held.attempt in e.c.attempts && IsTruncation(held.attempt.reason)
                && e.window + Wrap(held.absStart - e.window, size) == HeldPosition(cfg, e)
              else
                k > 0 && CarriedAt(run, k)))
  }

  /** Cycle `k` leaves the truncation held before it as it was. */
  ghost predicate CarriedAt(run: seq<Entry>, k: nat)
    requires 0 < k < |run|
  {
    !ResetAt(run, k) && run[k - 1].result.state.pendingConfirm == run[k].result.state.pendingConfirm
  }

  lemma HeldStep(cfg: Config, size: nat, run: seq<Entry>, k: nat)
    requires IsRun(cfg, size, run) && k < |run|
    ensures HeldLink(cfg, size, run, k)
  {
    RunCarries(cfg, size, run, k);
    var e := run[k];
    AdvanceSelects(cfg, size, e.before, Observation(e.c, e.window));
    if e.result.how == Held {
      HeldInside(StartSample(cfg, e.result.state.pendingConfirm.value.attempt), e.window, e.c.decodeStart,
                 cfg.decodeSamples, size);
    }
  }

  ghost predicate PromotedLink(cfg: Config, size: nat, run: seq<Entry>, k: nat)
    requires k < |run|
  {
    var e := run[k];
    && size > 0 && cfg.decodeSamples < size
    && k > 0 && !ResetAt(run, k) && run[k - 1].result.state.pendingConfirm.Some? && e.hit.Some?
    && CurrentTarget(e.c).Some? && CurrentTarget(e.c).value.Chipset?
    && var held := run[k - 1].result.state.pendingConfirm.value;
       && e.hit.value.relStart == Some(Wrap(held.absStart - e.window, size))
       && e.hit.value.relStart.value < cfg.decodeSamples
       && e.hit.value.attempt in e.c.attempts && !IsTruncation(e.hit.value.attempt.reason)
       && FailedNear(cfg, CurrentTarget(e.c).value.name, e.hit.value.attempt, e.hit.value.relStart.value)
  }

  /** What a promotion is: the truncation held before this cycle, an attempt of this cycle that
      failed for a real reason within the matching tolerance of its projection. */
  lemma PromotedStep(cfg: Config, size: nat, run: seq<Entry>, k: nat)
    requires IsRun(cfg, size, run) && k < |run| && run[k].result.how == Promoted
    ensures PromotedLink(cfg, size, run, k)
  {
    RunCarries(cfg, size, run, k);
    var e := run[k];
    AdvanceSelects(cfg, size, e.before, Observation(e.c, e.window));
    ProjectedPosition(e.before.pendingConfirm.value.absStart, e.window, e.c.decodeStart, size);
  }

  /** The truncation pending after cycle `k` was held in cycle `j` and has been carried since. */
  ghost predicate HeldSince(run: seq<Entry>, j: nat, k: nat) {
    && j <= k < |run| && run[j].result.how == Held
    && run[j].result.state.pendingConfirm.Some? && run[k].result.state.pendingConfirm.Some?
    && forall i :: j < i <= k ==> CarriedAt(run, i)
  }

  lemma {:induction false} HeldSame(run: seq<Entry>, j: nat, k: nat)
    requires HeldSince(run, j, k)
    ensures run[j].result.state.pendingConfirm == run[k].result.state.pendingConfirm
  {
    if j < k {
      assert CarriedAt(run, k);
      HeldSame(run, j, k - 1);
    }
  }

  /** A truncation still waiting was held in one earlier cycle, from an attempt of that cycle, and
      has been carried unchanged through cycles without a reset. */
  lemma {:induction false} HeldOrigin(cfg: Config, size: nat, run: seq<Entry>, k: nat) returns (j: nat)
    requires IsRun(cfg, size, run) && k < |run| && run[k].result.state.pendingConfirm.Some?
    ensures HeldSince(run, j, k) && run[j].result.state.pendingConfirm == run[k].result.state.pendingConfirm
    ensures run[j].result.state.pendingConfirm.value.attempt in run[j].c.attempts
  {
    HeldStep(cfg, size, run, k);
    if run[k].result.how == Held {
      j := k;
    } else {
      j := HeldOrigin(cfg, size, run, k - 1);
    }
  }

  /** Where the program believes, in the window of cycle `k`, that a remembered position lies. */
  function Believed(run: seq<Entry>, k: nat, held: Hit, size: nat): int
    requires size > 0 && k < |run|
  {
    run[k].window + Wrap(held.absStart - run[k].window, size)
  }

  /** In cycle `i` the window moves at most the dead zone plus the offset the truncation had before. */
  ghost predicate HeldHonestAt(cfg: Config, size: nat, run: seq<Entry>, i: nat, held: Hit)
    requires size > 0 && 0 < i < |run|
  {
    run[i].window - run[i - 1].window <= size - cfg.decodeSamples + Wrap(held.absStart - run[i - 1].window, size)
  }

  /** A truncation held in cycle `j` and still waiting after cycle `k` is never believed earlier than
      it was held, and is believed exactly there if and only if no cycle in between moved the window
      further than the dead zone plus the offset before. */
  lemma {:induction false} HeldExactly(cfg: Config, size: nat, run: seq<Entry>, j: nat, k: nat)
    requires IsRun(cfg, size, run) && HeldSince(run, j, k)
    requires forall i :: j < i <= k ==> Forward(run, i)
    ensures size > 0 && run[j].result.state.pendingConfirm == run[k].result.state.pendingConfirm
    ensures var held := run[k].result.state.pendingConfirm.value;
            && Believed(run, k, held, size) >= HeldPosition(cfg, run[j])
            && (Believed(run, k, held, size) == HeldPosition(cfg, run[j])
                <==> forall i :: j < i <= k ==> HeldHonestAt(cfg, size, run, i, held))
  {
    HeldStep(cfg, size, run, k);
    if j < k {
      assert CarriedAt(run, k) && Forward(run, k);
      HeldExactly(cfg, size, run, j, k - 1);
      HeldStep(cfg, size, run, k - 1);
      var held := run[k].result.state.pendingConfirm.value;
      MoveHonest(held.absStart, run[k - 1].window, run[k].window, cfg.decodeSamples, size);
      assert (forall i :: j < i <= k ==> HeldHonestAt(cfg, size, run, i, held))
        <==> && HeldHonestAt(cfg, size, run, k, held)
             && forall i :: j < i <= k - 1 ==> HeldHonestAt(cfg, size, run, i, held);
    }
  }

  /** A promotion renders the truncation held in some cycle `j`, for an attempt that failed within
      the matching tolerance of where it is rendered; and that is where it was held if and only if
      no window in between moved further than the dead zone plus the offset before. */
  lemma PromotedWhereHeld(cfg: Config, size: nat, run: seq<Entry>, k: nat) returns (j: nat)
    requires IsRun(cfg, size, run) && k < |run| && run[k].result.how == Promoted
    ensures size > 0 && j < k && HeldSince(run, j, k - 1) && !ResetAt(run, k) && run[k].hit.Some?
    ensures Near(run[k].window + StartSample(cfg, run[k].hit.value.attempt), Position(cfg, run[k]), cfg.matchTol)
    ensures var held := run[k - 1].result.state.pendingConfirm.value;
            && run[j].result.state.pendingConfirm == Some(held)
            && ((forall i :: j < i <= k ==> Forward(run, i)) ==>
                  && Position(cfg, run[k]) >= HeldPosition(cfg, run[j])
                  && (Position(cfg, run[k]) == HeldPosition(cfg, run[j])
                      <==> forall i :: j < i <= k ==> HeldHonestAt(cfg, size, run, i, held)))
  {
    PromotedStep(cfg, size, run, k);
    j := HeldOrigin(cfg, size, run, k - 1);
    HeldStep(cfg, size, run, k - 1);
    if forall i :: j < i <= k ==> Forward(run, i) {
      HeldExactly(cfg, size, run, j, k - 1);
      assert Forward(run, k);
      var held := run[k - 1].result.state.pendingConfirm.value;
      MoveHonest(held.absStart, run[k - 1].window, run[k].window, cfg.decodeSamples, size);
      assert (forall i :: j < i <= k ==> HeldHonestAt(cfg, size, run, i, held))
        <==> && HeldHonestAt(cfg, size, run, k, held)
             && forall i :: j < i <= k - 1 ==> HeldHonestAt(cfg, size, run, i, held);
    }
  }

  // --- at a steady pace ---------------------------------------------------------------------------------

  ghost predicate Steady(run: seq<Entry>, i: nat, step: nat)
    requires 0 < i < |run|
  {
    run[i].window == run[i - 1].window + step
  }

  /** How far the window has moved after `i` steady cycles. */
  function Moved(i: nat, step: nat): nat {
    if i == 0 then 0 else Moved(i - 1, step) + step
  }

  lemma {:induction false} MovedMonotone(i: nat, j: nat, step: nat)
    requires i <= j
    ensures Moved(i, step) <= Moved(j, step)
  {
    if i < j {
      MovedMonotone(i, j - 1, step);
    }
  }

  /** The last cycle whose window still holds an offset is the one its whole steps say. */
  lemma {:induction false} LastHolding(rel: nat, step: nat)
    requires step > 0
    ensures Moved(Laps(rel, step), step) + Wrap(rel, step) == rel
  {
    if rel >= step {
      LastHolding(rel - step, step);
    }
  }

  /** One step past the last window that holds it, a position reduced to `r` projects inside the window
      exactly when the step exceeds the dead zone by more than `r`. */
  lemma PastProjection(r: nat, step: nat, length: nat, size: nat)
    requires r < step <= r + size && length < size
    ensures Wrap(r - step, size) < length <==> r < step - (size - length)
  {
    WrapShift(r - step, size);
  }

  lemma {:induction false} SteadyMoved(run: seq<Entry>, j: nat, k: nat, step: nat)
    requires j <= k < |run| && forall i :: j < i <= k ==> Steady(run, i, step)
    ensures run[k].window == run[j].window + Moved(k - j, step)
  {
    if j < k {
      SteadyMoved(run, j, k - 1, step);
      assert Steady(run, k, step);
    }
  }

  lemma HeldFrom(cfg: Config, size: nat, run: seq<Entry>, j: nat)
    requires IsRun(cfg, size, run) && j < |run| && run[j].result.how == Held
    ensures run[j].result.state.pendingConfirm.Some? && size > cfg.decodeSamples
    ensures var held := run[j].result.state.pendingConfirm.value;
            && held.firstSeen == run[j].c.now
            && 0 <= StartSample(cfg, held.attempt) < cfg.decodeSamples
            && Wrap(held.absStart - run[j].window, size) == StartSample(cfg, held.attempt)
  {
    RunCarries(cfg, size, run, j);
    HeldStep(cfg, size, run, j);
    AdvanceSelects(cfg, size, run[j].before, Observation(run[j].c, run[j].window));
  }

  /** While its true position is still in the window, a truncation cannot be promoted elsewhere. */
  lemma PromotedEarly(cfg: Config, size: nat, run: seq<Entry>, j: nat, k: nat, step: nat)
    requires IsRun(cfg, size, run) && 0 < k < |run| && run[k].result.how == Promoted && HeldSince(run, j, k - 1)
    requires forall i :: j < i <= k ==> Steady(run, i, step)
    requires Moved(k - j, step) <= StartSample(cfg, run[j].result.state.pendingConfirm.value.attempt)
    ensures run[k].hit.Some? && Position(cfg, run[k]) == HeldPosition(cfg, run[j])
  {
    HeldFrom(cfg, size, run, j);
    HeldSame(run, j, k - 1);
    PromotedStep(cfg, size, run, k);
    SteadyMoved(run, j, k, step);
    var held := run[j].result.state.pendingConfirm.value;
    WrapPlus(held.absStart - run[j].window, run[j].window - run[k].window, size);
  }

  /** One cycle after its position left the window, a truncation projects where its reduced offset
      says. */
  lemma ProjectedPast(cfg: Config, size: nat, run: seq<Entry>, j: nat, k: nat, step: nat)
    requires IsRun(cfg, size, run) && j <= k < |run| && run[j].result.how == Held && step > 0
    requires forall i :: j < i <= k ==> Steady(run, i, step)
    requires run[j].result.state.pendingConfirm.Some?
    requires var rel := StartSample(cfg, run[j].result.state.pendingConfirm.value.attempt);
             rel >= 0 && k == j + Laps(rel, step) + 1
    ensures size > 0
    ensures var held := run[j].result.state.pendingConfirm.value;
            Wrap(held.absStart - run[k].window, size)
            == Wrap(Wrap(StartSample(cfg, held.attempt), step) - step, size)
  {
    HeldFrom(cfg, size, run, j);
    SteadyMoved(run, j, k, step);
    var held := run[j].result.state.pendingConfirm.value;
    LastHolding(StartSample(cfg, held.attempt), step);
    WrapPlus(held.absStart - run[j].window, run[j].window - run[k].window, size);
  }

  /** At a steady pace a truncation whose offset when held, reduced by whole steps, leaves at least what
      the step exceeds the dead zone by, is promoted, if at all, where it was held. */
  lemma SteadyPromotion(cfg: Config, size: nat, run: seq<Entry>, j: nat, k: nat, step: nat)
    requires IsRun(cfg, size, run) && 0 < k < |run| && run[k].result.how == Promoted && HeldSince(run, j, k - 1)
    requires step > 0 && forall i :: j < i <= k ==> Steady(run, i, step)
    requires Wrap(StartSample(cfg, run[j].result.state.pendingConfirm.value.attempt), step)
             >= step - (size - cfg.decodeSamples)
    ensures run[k].hit.Some? && Position(cfg, run[k]) == HeldPosition(cfg, run[j])
  {
    HeldFrom(cfg, size, run, j);
    HeldSame(run, j, k - 1);
    PromotedStep(cfg, size, run, k);
    var rel := StartSample(cfg, run[j].result.state.pendingConfirm.value.attempt);
    var past := j + Laps(rel, step) + 1;
    LastHolding(rel, step);
    if k < past {
      MovedMonotone(k - j, Laps(rel, step), step);
      PromotedEarly(cfg, size, run, j, k, step);
    } else {
      PastProjection(Wrap(rel, step), step, cfg.decodeSamples, size);
      ProjectedPast(cfg, size, run, j, past, step);
      if past < k {
        HeldPart(run, j, past, k - 1);
        HeldSame(run, j, past);
        HeldStep(cfg, size, run, past);
      }
    }
  }

  /** Promotion elsewhere needs an offset that leaves too little, a window past the position, and a
      timeout not reached in the last cycle that holds it. */
  lemma SteadyAliasNeeds(cfg: Config, size: nat, run: seq<Entry>, j: nat, k: nat, step: nat)
    requires IsRun(cfg, size, run) && 0 < k < |run| && run[k].result.how == Promoted && HeldSince(run, j, k - 1)
    requires step > 0 && forall i :: j < i <= k ==> Steady(run, i, step)
    requires run[k].hit.Some? ==> Position(cfg, run[k]) != HeldPosition(cfg, run[j])
    ensures var rel := StartSample(cfg, run[j].result.state.pendingConfirm.value.attempt);
            && rel >= 0 && Wrap(rel, step) < step - (size - cfg.decodeSamples)
            && j + Laps(rel, step) < k
            && run[j + Laps(rel, step)].c.now - run[j].c.now <= cfg.confirmTimeout
  {
    HeldFrom(cfg, size, run, j);
    var rel := StartSample(cfg, run[j].result.state.pendingConfirm.value.attempt);
    if Wrap(rel, step) >= step - (size - cfg.decodeSamples) {
      SteadyPromotion(cfg, size, run, j, k, step);
    }
    var q := Laps(rel, step);
    LastHolding(rel, step);
    if k <= j + q {
      MovedMonotone(k - j, q, step);
      PromotedEarly(cfg, size, run, j, k, step);
    }
    HeldPart(run, j, j + q, k - 1);
    HeldSame(run, j, j + q);
    StateInvariant(cfg, size, run, j + q);
  }

  lemma {:induction false} HeldPart(run: seq<Entry>, j: nat, m: nat, k: nat)
    requires HeldSince(run, j, k) && j <= m <= k
    ensures HeldSince(run, j, m)
    decreases k
  {
    if m < k {
      assert CarriedAt(run, k);
      HeldPart(run, j, m, k - 1);
    }
  }

  // --- a run for every such offset ---------------------------------------------------------------------------

  /** The clock after `i` steady cycles. */
  function Ticked(i: nat, interval: real): real {
    if i == 0 then 0.0 else Ticked(i - 1, interval) + interval
  }

  lemma {:induction false} TickedMonotone(i: nat, j: nat, interval: real)
    requires i <= j && interval >= 0.0
    ensures 0.0 <= Ticked(i, interval) <= Ticked(j, interval)
  {
    if i < j {
      TickedMonotone(i, j - 1, interval);
    } else if i > 0 {
      TickedMonotone(i - 1, i - 1, interval);
    }
  }

  function FailedAttempt(cfg: Config, reason: string, start: int): Attempt
    requires cfg.sampleRate > 0
  {
    var timeS := start as real / cfg.sampleRate as real;
    Attempt(Some("A"), false, Some(reason), Some(start), Some(timeS), None, None, None, None, None)
  }

  function CycleAt(cfg: Config, size: nat, window: nat, now: real, attempts: seq<Attempt>): Cycle
    requires size > 0
  {
    Cycle(true, Some("A"), None, attempts, 0, Wrap(window, size), size, cfg.decodeSamples, now)
  }

  function Observed(cfg: Config, size: nat, window: nat, now: real, attempts: seq<Attempt>, before: State): Entry
    requires size > 0 && cfg.sampleRate > 0 && 1 in cfg.slotOf
  {
    var c := CycleAt(cfg, size, window, now, attempts);
    Entry(c, window, before, Select(cfg, Entered(before, c), c).hit, Advance(cfg, before, c))
  }

  lemma ObservedTranscribes(cfg: Config, size: nat, window: nat, now: real, attempts: seq<Attempt>, before: State)
    requires ValidConfig(cfg) && cfg.decodeSamples < size
    requires forall a | a in attempts :: 0 <= StartSample(cfg, a) < cfg.decodeSamples
    ensures Transcribes(cfg, size, Observed(cfg, size, window, now, attempts, before))
  {
  }

  /** A packet cut off at offset `rel`, held, and an unrelated failure. */
  function Cut(cfg: Config, rel: nat): Attempt
    requires cfg.sampleRate > 0
  {
    FailedAttempt(cfg, "pdu_incomplete", rel)
  }

  function Holding(cfg: Config, rel: nat): State
    requires cfg.sampleRate > 0
  {
    State(None, Some(Hit(Cut(cfg, rel), Some("pdu_incomplete"), rel, None, 0.0)), Some(Chipset("A")))
  }

  lemma HeldFirst(cfg: Config, size: nat, rel: nat) returns (e: Entry)
    requires ValidConfig(cfg) && rel < cfg.decodeSamples < size
    ensures Transcribes(cfg, size, e) && e.window == 0 && e.c.now == 0.0 && e.before == INITIAL
    ensures e.result.how == Held && e.result.state == Holding(cfg, rel)
  {
    e := Observed(cfg, size, 0, 0.0, [Cut(cfg, rel)], INITIAL);
    ObservedTranscribes(cfg, size, 0, 0.0, [Cut(cfg, rel)], INITIAL);
    var c := CycleAt(cfg, size, 0, 0.0, [Cut(cfg, rel)]);
    assert c.attempts == [c.attempts[0]];
    assert Wrap(0 + rel, size) == rel;
    assert Select(cfg, Entered(INITIAL, c), c) == Selection(Holding(cfg, rel), None, Held);
  }

  lemma StillWaiting(cfg: Config, size: nat, rel: nat, window: nat, now: real) returns (e: Entry)
    requires ValidConfig(cfg) && rel < cfg.decodeSamples < size && window <= rel && now <= cfg.confirmTimeout
    ensures Transcribes(cfg, size, e) && e.window == window && e.c.now == now && e.before == Holding(cfg, rel)
    ensures e.result.state == Holding(cfg, rel) && !Resets(e.before, e.c)
  {
    e := Observed(cfg, size, window, now, [], Holding(cfg, rel));
    ObservedTranscribes(cfg, size, window, now, [], Holding(cfg, rel));
    var c := CycleAt(cfg, size, window, now, []);
    assert Wrap(window, size) == window && Wrap(rel - window, size) == rel - window;
    assert Select(cfg, Entered(Holding(cfg, rel), c), c) == Selection(Holding(cfg, rel), None, Nothing);
  }

  lemma PromotedElsewhere(cfg: Config, size: nat, rel: nat, window: nat, now: real, elsewhere: nat)
    returns (e: Entry)
    requires ValidConfig(cfg) && rel < cfg.decodeSamples < size && cfg.matchTol > 0
    requires elsewhere == Wrap(rel - window, size) < cfg.decodeSamples
    ensures Transcribes(cfg, size, e) && e.window == window && e.c.now == now && e.before == Holding(cfg, rel)
    ensures e.result.how == Promoted && e.hit.Some? && CenterOf(cfg, e.hit.value) == elsewhere
  {
    e := Observed(cfg, size, window, now, [FailedAttempt(cfg, "header_fail", elsewhere)], Holding(cfg, rel));
    ObservedTranscribes(cfg, size, window, now, [FailedAttempt(cfg, "header_fail", elsewhere)], Holding(cfg, rel));
    var unrelated := FailedAttempt(cfg, "header_fail", elsewhere);
    var c := CycleAt(cfg, size, window, now, [unrelated]);
    assert c.attempts == [c.attempts[0]];
    ProjectedPosition(rel, window, c.decodeStart, size);
    var hit := Hit(unrelated, Some("header_fail"), rel, Some(elsewhere), now);
    assert ResolveConfirm(cfg, Holding(cfg, rel), "A", c)
        == Selection(State(Some(hit), None, Some(Chipset("A"))), Some(hit), Promoted);
  }

  /** What is asked of the cadence: the offset leaves too little, and the timeout allows it. */
  ghost predicate CanAlias(cfg: Config, size: nat, rel: nat, step: nat, interval: real) {
    && ValidConfig(cfg) && rel < cfg.decodeSamples < size && cfg.matchTol > 0
    && 0 < step <= size && interval >= 0.0
    && Wrap(rel, step) < step - (size - cfg.decodeSamples)
    && Ticked(Laps(rel, step), interval) <= cfg.confirmTimeout
  }

  /** Cycle `i` of the run: held, then nothing seen for `q` cycles, then the unrelated failure. */
  ghost predicate AliasRight(cfg: Config, size: nat, rel: nat, step: nat, interval: real, q: nat, i: nat, e: Entry) {
    && Transcribes(cfg, size, e) && e.window == Moved(i, step) && e.c.now == Ticked(i, interval)
    && cfg.sampleRate > 0 && e.before == (if i == 0 then INITIAL else Holding(cfg, rel))
    && (i == 0 ==> e.result.how == Held)
    && (i <= q ==> e.result.state == Holding(cfg, rel))
    && (0 < i <= q ==> !Resets(e.before, e.c))
    && (i > q ==> e.result.how == Promoted && e.hit.Some? && e.window + CenterOf(cfg, e.hit.value) == rel + size)
  }

  lemma AliasStep(cfg: Config, size: nat, rel: nat, step: nat, interval: real, i: nat) returns (e: Entry)
    requires CanAlias(cfg, size, rel, step, interval) && i <= Laps(rel, step) + 1
    ensures AliasRight(cfg, size, rel, step, interval, Laps(rel, step), i, e)
  {
    var q := Laps(rel, step);
    LastHolding(rel, step);
    if i == 0 {
      e := HeldFirst(cfg, size, rel);
    } else if i <= q {
      MovedMonotone(i, q, step);
      TickedMonotone(i, q, interval);
      e := StillWaiting(cfg, size, rel, Moved(i, step), Ticked(i, interval));
    } else {
      PastProjection(Wrap(rel, step), step, cfg.decodeSamples, size);
      var window := Moved(i, step);
      WrapShift(rel - window, size);
      e := PromotedElsewhere(cfg, size, rel, window, Ticked(i, interval), Wrap(rel - window, size));
    }
  }

  lemma {:induction false} AliasEntries(cfg: Config, size: nat, rel: nat, step: nat, interval: real, m: nat)
    returns (run: seq<Entry>)
    requires CanAlias(cfg, size, rel, step, interval) && m <= Laps(rel, step) + 2
    ensures |run| == m
    ensures forall i :: 0 <= i < m ==> AliasRight(cfg, size, rel, step, interval, Laps(rel, step), i, run[i])
  {
    run := [];
    if m > 0 {
      run := AliasEntries(cfg, size, rel, step, interval, m - 1);
      var e := AliasStep(cfg, size, rel, step, interval, m - 1);
      run := run + [e];
    }
  }

  /** A steady run in which a truncation held at offset `rel` of the first window is promoted in cycle
      `q + 1` a whole buffer away. */
  ghost predicate AliasesAfter(cfg: Config, size: nat, run: seq<Entry>, rel: nat, step: nat, interval: real, q: nat) {
    && |run| == q + 2 && IsRun(cfg, size, run) && HeldSince(run, 0, q)
    && (forall i :: 0 < i < |run| ==> Steady(run, i, step))
    && (forall i :: 0 <= i < |run| ==> run[i].c.now == Ticked(i, interval))
    && StartSample(cfg, run[0].result.state.pendingConfirm.value.attempt) == rel
    && run[q + 1].result.how == Promoted && run[q + 1].hit.Some?
    && Position(cfg, run[q + 1]) == HeldPosition(cfg, run[0]) + size
  }

  lemma AliasRuns(cfg: Config, size: nat, rel: nat, step: nat, interval: real, q: nat, run: seq<Entry>)
    requires |run| == q + 2 && 0 < step <= size && cfg.sampleRate > 0
    requires forall i :: 0 <= i < |run| ==> AliasRight(cfg, size, rel, step, interval, q, i, run[i])
    ensures AliasesAfter(cfg, size, run, rel, step, interval, q)
  {
    forall i | 0 <= i < |run|
      ensures EntryAt(cfg, size, run, i) && run[i].c.now == Ticked(i, interval)
      ensures i > 0 ==> Steady(run, i, step)
      ensures 0 < i <= q ==> CarriedAt(run, i)
    {
      assert AliasRight(cfg, size, rel, step, interval, q, i, run[i]);
      assert i > 0 ==> AliasRight(cfg, size, rel, step, interval, q, i - 1, run[i - 1]);
    }
    assert AliasRight(cfg, size, rel, step, interval, q, 0, run[0]);
    assert AliasRight(cfg, size, rel, step, interval, q, q, run[q]);
    assert AliasRight(cfg, size, rel, step, interval, q, q + 1, run[q + 1]);
  }

  /** For every offset that leaves too little, at every steady pace, as far as the timeout allows: a
      packet cut off there and not seen again is promoted, one cycle after its position left the
      window, by an unrelated failure a whole buffer away. */
  lemma SteadyAliases(cfg: Config, size: nat, rel: nat, step: nat, interval: real) returns (run: seq<Entry>)
    requires CanAlias(cfg, size, rel, step, interval)
    ensures AliasesAfter(cfg, size, run, rel, step, interval, Laps(rel, step))
  {
    run := AliasEntries(cfg, size, rel, step, interval, Laps(rel, step) + 2);
    AliasRuns(cfg, size, rel, step, interval, Laps(rel, step), run);
  }

  /** And for no other: at a steady pace a truncation held at `rel` can be promoted a buffer away if and
      only if its offset leaves too little and the timeout reaches the last window that holds it. */
  lemma SteadyAliasExactly(cfg: Config, size: nat, rel: nat, step: nat, interval: real)
    requires ValidConfig(cfg) && rel < cfg.decodeSamples < size && cfg.matchTol > 0
    requires 0 < step <= size && interval >= 0.0
    ensures (exists run: seq<Entry>, q: nat :: AliasesAfter(cfg, size, run, rel, step, interval, q))
       <==> && Wrap(rel, step) < step - (size - cfg.decodeSamples)
            && Ticked(Laps(rel, step), interval) <= cfg.confirmTimeout
  {
    if run: seq<Entry>, q: nat :| AliasesAfter(cfg, size, run, rel, step, interval, q) {
      SteadyAliasNeeds(cfg, size, run, 0, q + 1, step);
    }
    if CanAlias(cfg, size, rel, step, interval) {
      var run := SteadyAliases(cfg, size, rel, step, interval);
    }
  }

  // --- the published cadence ------------------------------------------------------------------------------------

  /** The published constants at 781250 samples a second, for any decoder's symbol counts and slots. */
  function Published(fixedSymbols: int, slotOf: map<int, int>): Config {
    Config(781250, 1171875, 1.8, 1.8, 7812, 0.02, 585937, 58593, fixedSymbols, slotOf)
  }

  const PUBLISHED_BUFFER: nat := 1562500
  const DECODE_INTERVAL: nat := 468750  // 0.6 s

  /** The timeouts do not rule out aliasing of a held truncation.  At the published decode interval of
      0.6 s, past the dead zone of 0.5 s, every truncation held less than 0.1 s past a whole number of
      intervals into its window can be promoted by an unrelated failure a whole buffer away. */
  lemma ConfirmationAliases(fixedSymbols: int, slotOf: map<int, int>, rel: nat) returns (run: seq<Entry>)
    requires 1 in slotOf && rel < 1171875 && Wrap(rel, DECODE_INTERVAL) < 78125
    ensures var cfg, q := Published(fixedSymbols, slotOf), Laps(rel, DECODE_INTERVAL);
            && AliasesAfter(cfg, PUBLISHED_BUFFER, run, rel, DECODE_INTERVAL, 0.6, q)
            && Ticked(q + 1, 0.6) <= cfg.confirmTimeout
  {
    var cfg, q := Published(fixedSymbols, slotOf), Laps(rel, DECODE_INTERVAL);
    LastHolding(rel, DECODE_INTERVAL);
    if q > 2 {
      MovedMonotone(3, q, DECODE_INTERVAL);
    }
    TickedMonotone(q, 2, 0.6);
    TickedMonotone(q + 1, 3, 0.6);
    run := SteadyAliases(cfg, PUBLISHED_BUFFER, rel, DECODE_INTERVAL, 0.6);
    assert Ticked(3, 0.6) == 1.8;
  }
}
