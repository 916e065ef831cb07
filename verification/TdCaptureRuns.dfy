/** What the Signal Viewer's capture decisions mean over whole runs.

    A run is a sequence of observations, each a cycle together with the true, unreduced stream
    position of its window.  The program only ever sees that position modulo the buffer. */
module TdCaptureRuns {
  import opened Modular
  import opened Options
  import opened TdSelection

  datatype Observation = Observation(c: Cycle, window: int)

  /** A cycle of the processor: the window is the decode window at `window`, and the decoder
      places every attempt inside it. */
  ghost predicate Observes(cfg: Config, size: nat, o: Observation) {
    && ValidConfig(cfg) && cfg.decodeSamples < size
    && o.c.bufLen == size
    && o.c.decodeStart == Wrap(o.window, size)
    && o.c.chunkLen == cfg.decodeSamples
    && forall a | a in o.c.attempts :: 0 <= StartSample(cfg, a) < cfg.decodeSamples
  }

  /** Transcript of one cycle: what was observed, from which state, the hit chosen (rendered or
      deferred) and the result. */
  datatype Entry = Entry(c: Cycle, window: int, before: State, hit: Option<Hit>, result: Result)

  ghost predicate Transcribes(cfg: Config, size: nat, e: Entry) {
    && Observes(cfg, size, Observation(e.c, e.window))
    && e.result == Advance(cfg, e.before, e.c)
    && e.hit == if e.c.tdOn then Select(cfg, Entered(e.before, e.c), e.c).hit else None
  }

  ghost predicate EntryAt(cfg: Config, size: nat, run: seq<Entry>, k: nat)
    requires k < |run|
  {
    && Transcribes(cfg, size, run[k])
    && run[k].before == if k == 0 then INITIAL else run[k - 1].result.state
  }

  /** A run from the start of the process. */
  ghost predicate IsRun(cfg: Config, size: nat, run: seq<Entry>) {
    forall k :: 0 <= k < |run| ==> EntryAt(cfg, size, run, k)
  }

  predicate ResetAt(run: seq<Entry>, k: nat)
    requires k < |run|
  {
    Resets(run[k].before, run[k].c)
  }

  predicate RetriedAt(run: seq<Entry>, k: nat)
    requires k < |run|
  {
    run[k].result.how == Retried && !ResetAt(run, k)
  }

  // --- one selection -----------------------------------------------------------------

  /** Never two things pending at once; only a chipset target holds truncations; nothing is
      pending without a target. */
  ghost predicate Structured(s: State) {
    && (s.pendingHit.None? || s.pendingConfirm.None?)
    && (s.pendingConfirm.Some? ==> s.target.Some? && s.target.value.Chipset?)
    && (s.pendingHit.Some? ==> s.target.Some? && s.pendingHit.value.relStart.Some?)
  }

  /** Present offset of a remembered position, as re-projected. */
  function Projected(hit: Hit, c: Cycle): nat
    requires c.bufLen > 0
  {
    Wrap(hit.absStart - c.decodeStart, c.bufLen)
  }

  ghost predicate StillRetried(cfg: Config, s: State, c: Cycle)
    requires c.bufLen > 0
  {
    && s.pendingHit.Some?
    && Projected(s.pendingHit.value, c) < cfg.decodeSamples
    && c.now - s.pendingHit.value.firstSeen <= cfg.pendingTimeout
  }

  /** What the attempt behind a capture must be for its target. */
  ghost predicate Matches(target: Target, a: Attempt) {
    match target
    case Chipset(name) => a.chipset == Some(name) && !a.decoded && !IsTruncation(a.reason)
    case Device(id) => a.decoded && a.ntwId == Some(id)
  }

  /** The complete effect of one selection on a structured state. */
  ghost predicate Selected(cfg: Config, s: State, c: Cycle, sel: Selection)
    requires c.bufLen > 0 && cfg.sampleRate > 0 && 1 in cfg.slotOf
  {
    && Structured(sel.state) && sel.state.target == s.target
    && sel.state.pendingHit == sel.hit
    && (sel.how == Retried <==> StillRetried(cfg, s, c))
    && match sel.how
       case Retried =>
         && sel.hit == Some(s.pendingHit.value.(relStart := Some(Projected(s.pendingHit.value, c))))
       case Promoted =>
         && sel.hit.Some? && s.pendingConfirm.Some? && s.target.Some? && s.target.value.Chipset?
         && var hit := sel.hit.value;
            var rel := Projected(s.pendingConfirm.value, c);
            && hit == Hit(hit.attempt, hit.attempt.reason, s.pendingConfirm.value.absStart, Some(rel), c.now)
            && rel < cfg.decodeSamples
            && hit.attempt in c.attempts && Matches(s.target.value, hit.attempt)
            && FailedNear(cfg, s.target.value.name, hit.attempt, rel)
            && (forall a | a in c.attempts :: !DecodedNear(cfg, s.target.value.name, a, rel))
       case Fresh =>
         && sel.hit.Some? && s.target.Some?
         && var hit := sel.hit.value;
            var rel := StartSample(cfg, hit.attempt);
            && hit.absStart == Wrap(c.decodeStart + rel, c.bufLen)
            && hit.relStart == Some(rel) && hit.firstSeen == c.now
            && hit.attempt in c.attempts && Matches(s.target.value, hit.attempt)
            && (s.target.value.Chipset? ==> FreshFailure(cfg, s.target.value.name, c.attempts, hit.attempt))
       case Held =>
         && sel.hit.None? && sel.state.pendingConfirm.Some? && s.target.Some? && s.target.value.Chipset?
         && var held := sel.state.pendingConfirm.value;
            && held == Hit(held.attempt, held.attempt.reason,
                           Wrap(c.decodeStart + StartSample(cfg, held.attempt), c.bufLen), None, c.now)
            && held.attempt in c.attempts && IsTruncation(held.attempt.reason)
            && FreshFailure(cfg, s.target.value.name, c.attempts, held.attempt)
       case Nothing =>
         && sel.hit.None?
         && (sel.state.pendingConfirm.Some? ==>
               && sel.state.pendingConfirm == s.pendingConfirm
               && c.now - s.pendingConfirm.value.firstSeen <= cfg.confirmTimeout
               && Projected(s.pendingConfirm.value, c) < cfg.decodeSamples)
  }

  lemma RetrySelected(cfg: Config, s: State, c: Cycle)
    requires c.bufLen > 0 && Structured(s)
    ensures var r := RetryPending(cfg, s, c);
            if StillRetried(cfg, s, c)
            then r == Selection(s.(pendingHit := r.hit), r.hit, Retried)
                 && r.hit == Some(s.pendingHit.value.(relStart := Some(Projected(s.pendingHit.value, c))))
            else r == Selection(s.(pendingHit := None), None, Nothing)
  {
  }

  lemma ChipsetSelected(cfg: Config, s: State, name: string, c: Cycle)
    requires c.bufLen > 0 && cfg.sampleRate > 0 && 1 in cfg.slotOf
    requires Structured(s) && s.target == Some(Chipset(name))
    ensures Selected(cfg, s, c, SelectChipset(cfg, s, name, c))
  {
    var confirmed := ResolveConfirm(cfg, s, name, c);
    if confirmed.hit.None? {
      RetrySelected(cfg, confirmed.state, c);
    }
  }

  lemma DeviceSelected(cfg: Config, s: State, id: int, c: Cycle)
    requires c.bufLen > 0 && cfg.sampleRate > 0 && 1 in cfg.slotOf
    requires Structured(s) && s.target == Some(Device(id))
    ensures Selected(cfg, s, c, SelectDevice(cfg, s, id, c))
  {
    RetrySelected(cfg, s, c);
  }

  lemma SelectSelected(cfg: Config, s: State, c: Cycle)
    requires c.bufLen > 0 && cfg.sampleRate > 0 && 1 in cfg.slotOf
    requires Structured(s) && s.target == CurrentTarget(c)
    ensures Selected(cfg, s, c, Select(cfg, s, c))
  {
    match CurrentTarget(c)
    case Some(Chipset(name)) => ChipsetSelected(cfg, s, name, c);
    case Some(Device(id)) => DeviceSelected(cfg, s, id, c);
    case None =>
  }

  // --- what decides a selection ----------------------------------------------------------

  ghost predicate FirstWith(attempts: seq<Attempt>, p: Attempt -> bool, i: nat) {
    i < |attempts| && p(attempts[i]) && forall j :: 0 <= j < i ==> !p(attempts[j])
  }

  lemma {:induction false} FirstMatchIsFirst(attempts: seq<Attempt>, p: Attempt -> bool) returns (i: nat)
    requires FirstMatch(attempts, p).Some?
    ensures FirstWith(attempts, p, i) && FirstMatch(attempts, p) == Some(attempts[i])
  {
    if p(attempts[0]) {
      i := 0;
    } else {
      i := FirstMatchIsFirst(attempts[1..], p);
      i := i + 1;
    }
  }

  /** The held truncation decoded after all, or its position left the window. */
  ghost predicate Resolved(cfg: Config, s: State, name: string, c: Cycle)
    requires c.bufLen > 0 && s.pendingConfirm.Some?
  {
    var rel := Projected(s.pendingConfirm.value, c);
    rel >= cfg.decodeSamples || exists a | a in c.attempts :: DecodedNear(cfg, name, a, rel)
  }

  ghost predicate FirstFailure(cfg: Config, name: string, attempts: seq<Attempt>, rel: int, i: nat) {
    && i < |attempts| && FailedNear(cfg, name, attempts[i], rel)
    && forall j :: 0 <= j < i ==> !FailedNear(cfg, name, attempts[j], rel)
  }

  /** It is unresolved, and the first failure near it gives a real reason. */
  ghost predicate Promotable(cfg: Config, s: State, name: string, c: Cycle)
    requires c.bufLen > 0
  {
    && s.pendingConfirm.Some? && !Resolved(cfg, s, name, c)
    && var rel := Projected(s.pendingConfirm.value, c);
       exists i: nat :: FirstFailure(cfg, name, c.attempts, rel, i) && !IsTruncation(c.attempts[i].reason)
  }

  ghost predicate StillHeld(cfg: Config, s: State, name: string, c: Cycle)
    requires c.bufLen > 0
  {
    && s.pendingConfirm.Some? && !Resolved(cfg, s, name, c) && !Promotable(cfg, s, name, c)
    && c.now - s.pendingConfirm.value.firstSeen <= cfg.confirmTimeout
  }

  lemma ConfirmDecided(cfg: Config, s: State, name: string, c: Cycle)
    requires c.bufLen > 0
    ensures var r := ResolveConfirm(cfg, s, name, c);
            && (r.hit.Some? <==> Promotable(cfg, s, name, c))
            && (r.hit.None? ==> r.state.pendingHit == s.pendingHit)
            && (r.hit.None? ==> r.state.pendingConfirm == if StillHeld(cfg, s, name, c) then s.pendingConfirm else None)
  {
    if s.pendingConfirm.Some? && !Resolved(cfg, s, name, c) {
      var rel := Projected(s.pendingConfirm.value, c);
      var p := a => FailedNear(cfg, name, a, rel);
      if FirstMatch(c.attempts, p).Some? {
        var i := FirstMatchIsFirst(c.attempts, p);
        assert FirstFailure(cfg, name, c.attempts, rel, i);
        assert forall j: nat :: FirstFailure(cfg, name, c.attempts, rel, j) ==> j == i;
      } else {
        forall i: nat | i < |c.attempts|
          ensures !FirstFailure(cfg, name, c.attempts, rel, i)
        {
          assert c.attempts[i] in c.attempts && !p(c.attempts[i]);
        }
      }
    }
  }

  /** For a chipset: promotion comes first, then a retry, then waiting for a confirmation, and only
      then a search, which never passes over a failure that is no phantom. */
  lemma ChipsetDecided(cfg: Config, s: State, name: string, c: Cycle)
    requires c.bufLen > 0 && cfg.sampleRate > 0 && 1 in cfg.slotOf
    requires Structured(s) && s.target == Some(Chipset(name))
    ensures var sel := SelectChipset(cfg, s, name, c);
            && (sel.how == Promoted <==> Promotable(cfg, s, name, c))
            && (sel.how == Retried <==> StillRetried(cfg, s, c))
            && (sel.how in {Fresh, Held}
                <==> && !Promotable(cfg, s, name, c) && !StillRetried(cfg, s, c) && !StillHeld(cfg, s, name, c)
                     && exists a :: a in c.attempts && FreshFailure(cfg, name, c.attempts, a))
            && (sel.how == Nothing ==>
                  sel.state.pendingConfirm == if StillHeld(cfg, s, name, c) then s.pendingConfirm else None)
  {
    ChipsetSelected(cfg, s, name, c);
    ConfirmDecided(cfg, s, name, c);
    var r := ResolveConfirm(cfg, s, name, c);
    if r.hit.None? {
      RetrySelected(cfg, r.state, c);
    }
  }

  /** Of what a search can find, the first in the decoder's order is taken. */
  lemma FreshIsFirst(cfg: Config, s: State, name: string, c: Cycle) returns (i: nat)
    requires c.bufLen > 0 && cfg.sampleRate > 0 && 1 in cfg.slotOf
    requires FreshChipset(cfg, s, name, c).how != Nothing
    ensures FirstWith(c.attempts, a => FreshFailure(cfg, name, c.attempts, a), i)
    ensures var r := FreshChipset(cfg, s, name, c);
            if IsTruncation(c.attempts[i].reason)
            then r.hit.None? && r.state.pendingConfirm.Some? && r.state.pendingConfirm.value.attempt == c.attempts[i]
            else r.hit.Some? && r.hit.value.attempt == c.attempts[i]
  {
    i := FirstMatchIsFirst(c.attempts, a => FreshFailure(cfg, name, c.attempts, a));
  }

  lemma DeviceDecided(cfg: Config, s: State, id: int, c: Cycle)
    requires c.bufLen > 0 && Structured(s)
    ensures var sel := SelectDevice(cfg, s, id, c);
            && (sel.how == Retried <==> StillRetried(cfg, s, c))
            && (sel.how == Fresh
                <==> !StillRetried(cfg, s, c) && exists a :: a in c.attempts && a.decoded && a.ntwId == Some(id))
  {
    RetrySelected(cfg, s, c);
  }

  // --- one cycle ------------------------------------------------------------------------

  /** First offset too close to the trailing edge to be rendered. */
  function FirstDeferred(cfg: Config): int {
    cfg.decodeSamples - cfg.tdSamples + cfg.preRoll + 1
  }

  lemma DeferredExactly(cfg: Config, center: int)
    requires ValidConfig(cfg)
    ensures RenderStart(cfg, center) + cfg.tdSamples > cfg.decodeSamples <==> center >= FirstDeferred(cfg)
  {
  }

  /** A cycle is a selection on the entered state, then a rendering that clears what it served. */
  lemma AdvanceSelects(cfg: Config, size: nat, s: State, o: Observation)
    requires Observes(cfg, size, o) && Structured(s)
    ensures Structured(Entered(s, o.c)) && Structured(Advance(cfg, s, o.c).state)
    ensures o.c.tdOn ==>
              var sel := Select(cfg, Entered(s, o.c), o.c);
              var r := Advance(cfg, s, o.c);
              && Selected(cfg, Entered(s, o.c), o.c, sel) && r.how == sel.how
              && r.state == (if r.capture.Some? then sel.state.(pendingHit := None) else sel.state)
              && (r.capture.Some? <==> sel.hit.Some? && CenterOf(cfg, sel.hit.value) < FirstDeferred(cfg))
              && (r.capture.Some? ==> r.capture.value.hit == sel.hit.value)
    ensures !o.c.tdOn ==> Advance(cfg, s, o.c) == Result(State(None, None, CurrentTarget(o.c)), None, None, Nothing)
  {
    if o.c.tdOn {
      var sel := Select(cfg, Entered(s, o.c), o.c);
      SelectSelected(cfg, Entered(s, o.c), o.c);
      if sel.hit.Some? {
        DeferredExactly(cfg, CenterOf(cfg, sel.hit.value));
      }
    }
  }

  // --- invariant of all runs ---------------------------------------------------------------

  ghost predicate Carried(s: State, size: nat) {
    && Structured(s)
    && (s.pendingHit.Some? ==> s.pendingHit.value.absStart < size)
    && (s.pendingConfirm.Some? ==>
          s.pendingConfirm.value.absStart < size && IsTruncation(s.pendingConfirm.value.attempt.reason))
  }

  /** What holds of the state a cycle leaves: a deferred hit is at an offset that cannot be
      rendered yet, its remembered position is congruent to where it was just seen; a held
      truncation is inside the window; and both are within their timeouts. */
  ghost predicate Inv(cfg: Config, size: nat, s: State, o: Observation) {
    && size > 0 && Carried(s, size)
    && s.target == CurrentTarget(o.c)
    && (s.pendingHit.Some? ==> HitInv(cfg, size, s.pendingHit.value, o))
    && (s.pendingConfirm.Some? ==> ConfirmInv(cfg, size, s.pendingConfirm.value, o))
  }

  ghost predicate HitInv(cfg: Config, size: nat, hit: Hit, o: Observation)
    requires size > 0
  {
    && hit.relStart.Some?
    && FirstDeferred(cfg) <= hit.relStart.value < cfg.decodeSamples
    && hit.absStart == Wrap(o.window + hit.relStart.value, size)
    && o.c.now - hit.firstSeen <= cfg.pendingTimeout
  }

  ghost predicate ConfirmInv(cfg: Config, size: nat, held: Hit, o: Observation)
    requires size > 0
  {
    && Wrap(held.absStart - o.window, size) < cfg.decodeSamples
    && o.c.now - held.firstSeen <= cfg.confirmTimeout
  }

  /** Projecting a remembered position through the reduced window start gives its distance from
      the true window start, reduced. */
  lemma ProjectedPosition(abs: nat, window: int, decodeStart: nat, size: nat)
    requires abs < size && decodeStart == Wrap(window, size)
    ensures var rel := Wrap(abs - decodeStart, size);
            rel == Wrap(abs - window, size) && Wrap(window + rel, size) == abs
  {
    WrapPlus(window, 0, size);
    WrapSubtract(abs, decodeStart, window, size);
    WrapPlus(abs - window, window, size);
  }

  lemma PlacedPosition(rel: int, window: int, decodeStart: nat, size: nat)
    requires size > 0 && decodeStart == Wrap(window, size)
    ensures Wrap(decodeStart + rel, size) == Wrap(window + rel, size)
  {
    WrapPlus(window, rel, size);
  }

  ghost predicate PlacedInside(cfg: Config, size: nat, hit: Hit, o: Observation)
    requires size > 0
  {
    && hit.relStart.Some? && 0 <= hit.relStart.value < cfg.decodeSamples
    && hit.absStart == Wrap(o.window + hit.relStart.value, size)
  }

  lemma SelectedPlaced(cfg: Config, size: nat, s: State, o: Observation, sel: Selection)
    requires Observes(cfg, size, o) && Carried(s, size)
    requires Selected(cfg, s, o.c, sel) && sel.hit.Some?
    ensures PlacedInside(cfg, size, sel.hit.value, o)
  {
    match sel.how
    case Retried => ProjectedPosition(s.pendingHit.value.absStart, o.window, o.c.decodeStart, size);
    case Promoted => ProjectedPosition(s.pendingConfirm.value.absStart, o.window, o.c.decodeStart, size);
    case Fresh => PlacedPosition(StartSample(cfg, sel.hit.value.attempt), o.window, o.c.decodeStart, size);
    case Held =>
    case Nothing =>
  }

  /** Every hit a cycle chooses is congruent to where it claims to be and inside the window. */
  lemma ChosenHit(cfg: Config, size: nat, s: State, o: Observation)
    requires Observes(cfg, size, o) && o.c.tdOn && Carried(s, size)
    ensures var sel := Select(cfg, Entered(s, o.c), o.c);
            sel.hit.Some? ==> PlacedInside(cfg, size, sel.hit.value, o)
  {
    AdvanceSelects(cfg, size, s, o);
    var sel := Select(cfg, Entered(s, o.c), o.c);
    if sel.hit.Some? {
      SelectedPlaced(cfg, size, Entered(s, o.c), o, sel);
    }
  }

  lemma KeptConfirm(cfg: Config, size: nat, s: State, o: Observation)
    requires Observes(cfg, size, o) && o.c.tdOn && Carried(s, size)
    ensures var s' := Advance(cfg, s, o.c).state;
            s'.pendingConfirm.Some? ==>
              && s'.pendingConfirm.value.absStart < size && IsTruncation(s'.pendingConfirm.value.attempt.reason)
              && ConfirmInv(cfg, size, s'.pendingConfirm.value, o)
  {
    AdvanceSelects(cfg, size, s, o);
    var r := Advance(cfg, s, o.c);
    if r.state.pendingConfirm.Some? {
      var held := r.state.pendingConfirm.value;
      if r.how == Held {
        HeldPlaced(cfg, size, held, o);
      } else {
        ProjectedPosition(held.absStart, o.window, o.c.decodeStart, size);
      }
    }
  }

  lemma HeldPlaced(cfg: Config, size: nat, held: Hit, o: Observation)
    requires Observes(cfg, size, o) && held.attempt in o.c.attempts && held.firstSeen == o.c.now
    requires held.absStart == Wrap(o.c.decodeStart + StartSample(cfg, held.attempt), size)
    ensures ConfirmInv(cfg, size, held, o)
  {
    HeldInside(StartSample(cfg, held.attempt), o.window, o.c.decodeStart, cfg.decodeSamples, size);
  }

  lemma AdvanceKeepsInv(cfg: Config, size: nat, s: State, o: Observation)
    requires Observes(cfg, size, o) && Carried(s, size)
    ensures Inv(cfg, size, Advance(cfg, s, o.c).state, o)
  {
    AdvanceSelects(cfg, size, s, o);
    if o.c.tdOn {
      ChosenHit(cfg, size, s, o);
      KeptConfirm(cfg, size, s, o);
    }
  }

  lemma HeldInside(rel: nat, window: int, decodeStart: nat, length: nat, size: nat)
    requires rel < length < size && decodeStart == Wrap(window, size)
    ensures Wrap(Wrap(decodeStart + rel, size) - window, size) == rel
  {
    PlacedPosition(rel, window, decodeStart, size);
    WrapPlus(window + rel, 0 - window, size);
  }

  // --- whole runs -----------------------------------------------------------------------------

  /** What a run keeps, cycle by cycle. */
  lemma {:induction false} RunCarries(cfg: Config, size: nat, run: seq<Entry>, k: nat)
    requires IsRun(cfg, size, run) && k < |run|
    ensures EntryAt(cfg, size, run, k)
    ensures Carried(run[k].before, size)
    ensures Inv(cfg, size, run[k].result.state, Observation(run[k].c, run[k].window))
    ensures k > 0 ==> run[k].before == run[k - 1].result.state
  {
    if k > 0 {
      RunCarries(cfg, size, run, k - 1);
    }
    assert EntryAt(cfg, size, run, k);
    AdvanceKeepsInv(cfg, size, run[k].before, Observation(run[k].c, run[k].window));
  }

  /** In every reachable state at most one thing is pending, only a chipset target has a pending
      truncation, and nothing pending is older than its timeout. */
  lemma StateInvariant(cfg: Config, size: nat, run: seq<Entry>, k: nat)
    requires IsRun(cfg, size, run) && k < |run|
    ensures var s := run[k].result.state;
            && (s.pendingHit.None? || s.pendingConfirm.None?)
            && (s.pendingConfirm.Some? ==> CurrentTarget(run[k].c).Some? && CurrentTarget(run[k].c).value.Chipset?)
            && (s.pendingHit.Some? ==> run[k].c.now - s.pendingHit.value.firstSeen <= cfg.pendingTimeout)
            && (s.pendingConfirm.Some? ==> run[k].c.now - s.pendingConfirm.value.firstSeen <= cfg.confirmTimeout)
            && (!run[k].c.tdOn ==> s.pendingHit.None? && s.pendingConfirm.None?)
  {
    RunCarries(cfg, size, run, k);
  }

  /** What the status line tells: confirming exactly while a truncation is held, captured exactly
      when something is rendered, as decoded exactly for a device; no news exactly when stopped,
      deferring or without a target. */
  lemma StatusTells(cfg: Config, size: nat, run: seq<Entry>, k: nat)
    requires IsRun(cfg, size, run) && k < |run|
    ensures var e := run[k];
            var status := e.result.status;
            && (status.None? <==> !e.c.tdOn || CurrentTarget(e.c).None? || (e.hit.Some? && e.result.capture.None?))
            && (status.Some? && status.value.Confirming? <==> e.result.state.pendingConfirm.Some?)
            && (status.Some? && status.value.CapturedDecoded?
                <==> e.result.capture.Some? && CurrentTarget(e.c).Some? && CurrentTarget(e.c).value.Device?)
            && (status.Some? && status.value.CapturedFailed?
                <==> e.result.capture.Some? && CurrentTarget(e.c).Some? && CurrentTarget(e.c).value.Chipset?)
  {
    RunCarries(cfg, size, run, k);
    var o := Observation(run[k].c, run[k].window);
    AdvanceSelects(cfg, size, run[k].before, o);
    if run[k].hit.Some? {
      var j := HitOrigin(cfg, size, run, k);
    }
  }

  /** Every rendered segment lies in the window, has the full length and contains its packet start
      after at most the pre-roll. */
  lemma CaptureGeometry(cfg: Config, size: nat, run: seq<Entry>, k: nat)
    requires IsRun(cfg, size, run) && k < |run|
    ensures var r := run[k].result;
            r.capture.Some? ==>
              var cap := r.capture.value;
              && 0 <= cap.tdStart <= cap.tdCenter < cap.tdEnd <= run[k].c.chunkLen
              && cap.tdEnd - cap.tdStart == cfg.tdSamples
              && cap.tdCenter - cap.tdStart <= cfg.preRoll
              && (cap.tdCenter >= cfg.preRoll ==> cap.tdCenter - cap.tdStart == cfg.preRoll)
              && r.state.pendingHit.None?
  {
    RunCarries(cfg, size, run, k);
    var o := Observation(run[k].c, run[k].window);
    AdvanceSelects(cfg, size, run[k].before, o);
    if run[k].c.tdOn {
      ChosenHit(cfg, size, run[k].before, o);
    }
  }

  /** A fresh failure is not inside, or within the padding of, a packet decoded in its cycle. */
  ghost predicate NoPhantom(cfg: Config, e: Entry) {
    cfg.sampleRate > 0 && 1 in cfg.slotOf
    && (e.result.how == Fresh && e.hit.Some? && !e.hit.value.attempt.decoded ==>
          !InDecodedSpan(cfg, e.c.attempts, e.hit.value.attempt.timeS.GetOr(0.0)))
  }

  /** How one entry relates to the one before it, without the selection itself. */
  ghost predicate HitLink(cfg: Config, run: seq<Entry>, k: nat)
    requires k < |run|
  {
    var e := run[k];
    && (e.result.state.pendingHit.Some? ==> e.result.state.pendingHit == e.hit)
    && (e.result.capture.Some? ==> e.hit == Some(e.result.capture.value.hit)
                                   && e.result.capture.value.tdCenter == CenterOf(cfg, e.hit.value))
    && (e.hit.Some? ==>
          && CurrentTarget(e.c).Some?
          && (|| ((e.result.how == Fresh || e.result.how == Promoted)
                  && e.hit.value.attempt in e.c.attempts && Matches(CurrentTarget(e.c).value, e.hit.value.attempt)
                  && NoPhantom(cfg, e))
              || (&& e.result.how == Retried && k > 0 && !ResetAt(run, k)
                  && CurrentTarget(e.c) == CurrentTarget(run[k - 1].c)
                  && e.before.pendingHit.Some? && e.before.pendingHit == run[k - 1].hit
                  && e.before.pendingHit.value.attempt == e.hit.value.attempt)))
  }

  lemma HitStep(cfg: Config, size: nat, run: seq<Entry>, k: nat)
    requires IsRun(cfg, size, run) && k < |run|
    ensures HitLink(cfg, run, k)
  {
    RunCarries(cfg, size, run, k);
    AdvanceSelects(cfg, size, run[k].before, Observation(run[k].c, run[k].window));
    if k > 0 {
      RunCarries(cfg, size, run, k - 1);
      AdvanceSelects(cfg, size, run[k - 1].before, Observation(run[k - 1].c, run[k - 1].window));
    }
  }

  /** Provenance: every hit comes from an attempt of one earlier cycle, since when neither the
      target changed nor the capture stopped, and that attempt is what the target asks for: for a
      chipset an undecoded attempt with a reason that is not a truncation, for a device a decoded
      attempt of its id. */
  lemma {:induction false} HitOrigin(cfg: Config, size: nat, run: seq<Entry>, k: nat) returns (j: nat)
    requires IsRun(cfg, size, run) && k < |run| && run[k].hit.Some?
    ensures j <= k && run[j].hit.Some? && run[j].result.how in {Fresh, Promoted}
    ensures forall i :: j < i <= k ==> RetriedAt(run, i)
    ensures CurrentTarget(run[j].c) == CurrentTarget(run[k].c) && CurrentTarget(run[k].c).Some?
    ensures var a := run[k].hit.value.attempt;
            && a == run[j].hit.value.attempt
            && a in run[j].c.attempts && Matches(CurrentTarget(run[k].c).value, a) && NoPhantom(cfg, run[j])
  {
    HitStep(cfg, size, run, k);
    if run[k].result.how == Retried {
      j := HitOrigin(cfg, size, run, k - 1);
    } else {
      j := k;
    }
  }

  // --- no aliasing ------------------------------------------------------------------------------

  /** The window never moves back, and per cycle by at most the dead zone between window and
      buffer plus the first deferred offset. */
  ghost predicate Paced(cfg: Config, size: nat, from: int, to: int) {
    from <= to <= from + size - cfg.decodeSamples + FirstDeferred(cfg)
  }

  ghost predicate PacedAt(cfg: Config, size: nat, run: seq<Entry>, k: nat)
    requires k < |run|
  {
    k > 0 ==> Paced(cfg, size, run[k - 1].window, run[k].window)
  }

  /** Re-projecting a position at true offset `offset` after the window moved by `move` either
      gives its true new offset or a value outside the decode window, exactly up to a bound on the
      movement. */
  lemma ProjectionHonest(offset: nat, move: nat, length: nat, size: nat)
    requires offset < length < size && move <= size + offset
    ensures (Wrap(offset - move, size) == offset - move || Wrap(offset - move, size) >= length)
       <==> move <= size - length + offset
  {
    if offset < move {
      WrapShift(offset - move, size);
    }
  }

  lemma PacedProjection(cfg: Config, size: nat, abs: nat, from: int, offset: int, to: int, decodeStart: nat)
    requires ValidConfig(cfg) && cfg.decodeSamples < size && Paced(cfg, size, from, to)
    requires FirstDeferred(cfg) <= offset < cfg.decodeSamples
    requires abs == Wrap(from + offset, size) && decodeStart == Wrap(to, size)
    ensures Wrap(abs - decodeStart, size) < cfg.decodeSamples <==> from + offset >= to
    ensures from + offset >= to ==> Wrap(abs - decodeStart, size) == from + offset - to
  {
    ProjectedPosition(abs, to, decodeStart, size);
    WrapPlus(from + offset, 0 - to, size);
    ProjectionHonest(offset, to - from, cfg.decodeSamples, size);
  }

  /** One paced cycle retries a deferred hit exactly while its true position is still in the
      window and its age allowed, and then projects it to its true offset. */
  lemma RetryStep(cfg: Config, size: nat, s: State, prev: Observation, o: Observation)
    requires Inv(cfg, size, s, prev) && Observes(cfg, size, o) && Paced(cfg, size, prev.window, o.window)
    requires s.pendingHit.Some? && !Resets(s, o.c)
    ensures var hit := s.pendingHit.value;
            var position := prev.window + hit.relStart.value;
            var r := Advance(cfg, s, o.c);
            && (r.how == Retried <==> position >= o.window && o.c.now - hit.firstSeen <= cfg.pendingTimeout)
            && (r.how == Retried ==>
                  Select(cfg, Entered(s, o.c), o.c).hit == Some(hit.(relStart := Some(position - o.window))))
  {
    var hit := s.pendingHit.value;
    AdvanceSelects(cfg, size, s, o);
    PacedProjection(cfg, size, hit.absStart, prev.window, hit.relStart.value, o.window, o.c.decodeStart);
  }

  /** In a paced cycle a deferred hit is retried exactly while its true position is still in the
      window (and neither reset nor aged out); it is then projected to its true offset.  One that
      slid out is dropped, never re-projected. */
  lemma RetriedExactly(cfg: Config, size: nat, run: seq<Entry>, k: nat)
    requires IsRun(cfg, size, run) && 0 < k < |run| && PacedAt(cfg, size, run, k)
    requires run[k].before.pendingHit.Some? && !ResetAt(run, k)
    ensures var hit := run[k].before.pendingHit.value;
            hit.relStart.Some?
            && var position := run[k - 1].window + hit.relStart.value;
               && (run[k].result.how == Retried
                   <==> position >= run[k].window && run[k].c.now - hit.firstSeen <= cfg.pendingTimeout)
               && (run[k].result.how == Retried ==>
                     run[k].hit == Some(hit.(relStart := Some(position - run[k].window))))
  {
    RunCarries(cfg, size, run, k);
    RunCarries(cfg, size, run, k - 1);
    RetryStep(cfg, size, run[k].before, Observation(run[k - 1].c, run[k - 1].window),
              Observation(run[k].c, run[k].window));
  }

  /** True stream position at which an entry's hit is believed to start. */
  function Position(cfg: Config, e: Entry): int
    requires e.hit.Some?
  {
    e.window + CenterOf(cfg, e.hit.value)
  }

  /** The window never moves back: it ends with the stream, which only grows. */
  ghost predicate Forward(run: seq<Entry>, i: nat)
    requires 0 < i < |run|
  {
    run[i - 1].window <= run[i].window
  }

  /** A position projected inside the window before and after a forward move is never believed
      earlier than it was, and is believed where it was exactly up to a bound on the move. */
  lemma MoveHonest(abs: int, from: int, to: int, length: nat, size: nat)
    requires length < size && from <= to
    requires Wrap(abs - from, size) < length && Wrap(abs - to, size) < length
    ensures to + Wrap(abs - to, size) >= from + Wrap(abs - from, size)
    ensures to + Wrap(abs - to, size) == from + Wrap(abs - from, size)
       <==> to - from <= size - length + Wrap(abs - from, size)
  {
    var p := Wrap(abs - from, size);
    WrapPlus(abs - from, from - to, size);
    if p < to - from <= size - length + p {
      WrapShift(p - (to - from), size);
    }
  }

  /** In cycle `i` the window moves at most the dead zone plus the offset its hit had before. */
  ghost predicate HonestAt(cfg: Config, size: nat, run: seq<Entry>, i: nat)
    requires 0 < i < |run|
  {
    run[i - 1].hit.Some?
    && run[i].window - run[i - 1].window <= size - cfg.decodeSamples + CenterOf(cfg, run[i - 1].hit.value)
  }

  /** Both positions of a retried hit are projections of the one it remembers. */
  lemma RetriedPositions(cfg: Config, size: nat, run: seq<Entry>, k: nat) returns (abs: nat)
    requires IsRun(cfg, size, run) && 0 < k < |run| && run[k].hit.Some? && RetriedAt(run, k)
    ensures size > cfg.decodeSamples && run[k - 1].hit.Some?
    ensures CenterOf(cfg, run[k - 1].hit.value) == Wrap(abs - run[k - 1].window, size) < cfg.decodeSamples
    ensures CenterOf(cfg, run[k].hit.value) == Wrap(abs - run[k].window, size) < cfg.decodeSamples
  {
    HitStep(cfg, size, run, k);
    RunCarries(cfg, size, run, k);
    RunCarries(cfg, size, run, k - 1);
    abs := run[k].before.pendingHit.value.absStart;
    RetriedProjection(cfg, size, run[k].before, Observation(run[k - 1].c, run[k - 1].window),
                      Observation(run[k].c, run[k].window));
  }

  lemma RetryMove(cfg: Config, size: nat, run: seq<Entry>, k: nat)
    requires IsRun(cfg, size, run) && 0 < k < |run|
    requires run[k].hit.Some? && RetriedAt(run, k) && Forward(run, k)
    ensures run[k - 1].hit.Some? && Position(cfg, run[k]) >= Position(cfg, run[k - 1])
    ensures Position(cfg, run[k]) == Position(cfg, run[k - 1]) <==> HonestAt(cfg, size, run, k)
  {
    var abs := RetriedPositions(cfg, size, run, k);
    MoveHonest(abs, run[k - 1].window, run[k].window, cfg.decodeSamples, size);
  }

  /** What a retry projects, and that the position it remembers was projected truly before. */
  lemma RetriedProjection(cfg: Config, size: nat, s: State, prev: Observation, o: Observation)
    requires Inv(cfg, size, s, prev) && Observes(cfg, size, o) && s.pendingHit.Some?
    requires !Resets(s, o.c) && Advance(cfg, s, o.c).how == Retried
    ensures var hit := s.pendingHit.value;
            && hit.relStart.Some? && Wrap(hit.absStart - prev.window, size) == hit.relStart.value < cfg.decodeSamples
            && Wrap(hit.absStart - o.window, size) < cfg.decodeSamples
            && Select(cfg, Entered(s, o.c), o.c).hit
               == Some(hit.(relStart := Some(Wrap(hit.absStart - o.window, size))))
  {
    var hit := s.pendingHit.value;
    AdvanceSelects(cfg, size, s, o);
    ProjectedPosition(hit.absStart, o.window, o.c.decodeStart, size);
    WrapPlus(prev.window + hit.relStart.value, 0 - prev.window, size);
  }

  /** Along any chain of retries the position believed never moves back, and it is the position the
      hit was fixed at if and only if no cycle's window moved further than the dead zone plus the
      offset before. */
  lemma {:induction false} NoAliasingExactly(cfg: Config, size: nat, run: seq<Entry>, j: nat, k: nat)
    requires IsRun(cfg, size, run) && j <= k < |run| && run[k].hit.Some?
    requires forall i :: j < i <= k ==> RetriedAt(run, i) && Forward(run, i)
    ensures run[j].hit.Some? && Position(cfg, run[k]) >= Position(cfg, run[j])
    ensures Position(cfg, run[k]) == Position(cfg, run[j]) <==> forall i :: j < i <= k ==> HonestAt(cfg, size, run, i)
  {
    if j < k {
      assert RetriedAt(run, k) && Forward(run, k);
      RetryMove(cfg, size, run, k);
      NoAliasingExactly(cfg, size, run, j, k - 1);
    }
  }

  /** No aliasing over whole runs: along a chain of retries whose cycles keep the pace, the true
      position never changes, so a hit served many cycles later is rendered around the very sample
      it was fixed at. */
  lemma NoAliasing(cfg: Config, size: nat, run: seq<Entry>, j: nat, k: nat)
    requires IsRun(cfg, size, run) && j <= k < |run| && run[k].hit.Some?
    requires forall i :: j < i <= k ==> RetriedAt(run, i) && PacedAt(cfg, size, run, i)
    ensures run[j].hit.Some? && Position(cfg, run[k]) == Position(cfg, run[j])
  {
    forall i | j < i <= k
      ensures Forward(run, i)
    {
      assert PacedAt(cfg, size, run, i);
    }
    NoAliasingExactly(cfg, size, run, j, k);
    forall i | j < i <= k
      ensures HonestAt(cfg, size, run, i)
    {
      assert RetriedAt(run, i) && PacedAt(cfg, size, run, i);
      ChainHit(cfg, size, run, i, k);
      HitStep(cfg, size, run, i);
      RunCarries(cfg, size, run, i);
      RunCarries(cfg, size, run, i - 1);
    }
  }

  lemma {:induction false} ChainHit(cfg: Config, size: nat, run: seq<Entry>, i: nat, k: nat)
    requires IsRun(cfg, size, run) && i <= k < |run| && run[k].hit.Some?
    requires forall m :: i < m <= k ==> RetriedAt(run, m)
    ensures run[i].hit.Some?
  {
    if i < k {
      assert RetriedAt(run, k);
      HitStep(cfg, size, run, k);
      ChainHit(cfg, size, run, i, k - 1);
    }
  }

  /** The same, said of what is rendered: it is centred where its hit was fixed in cycle `j` if and
      only if no window moved too far on the way. */
  lemma ServedWhereFixed(cfg: Config, size: nat, run: seq<Entry>, k: nat) returns (j: nat)
    requires IsRun(cfg, size, run) && k < |run|
    requires run[k].result.capture.Some?
    ensures j <= k && run[j].hit.Some? && run[j].result.how in {Fresh, Promoted}
    ensures run[j].hit.value.attempt == run[k].result.capture.value.hit.attempt
    ensures forall i :: j < i <= k ==> RetriedAt(run, i)
    ensures (forall i :: j < i <= k ==> Forward(run, i)) ==>
              (run[k].window + run[k].result.capture.value.tdCenter == Position(cfg, run[j])
               <==> forall i :: j < i <= k ==> HonestAt(cfg, size, run, i))
    ensures (forall i :: j < i <= k ==> PacedAt(cfg, size, run, i)) ==>
              run[k].window + run[k].result.capture.value.tdCenter == Position(cfg, run[j])
  {
    HitStep(cfg, size, run, k);
    j := HitOrigin(cfg, size, run, k);
    if forall i :: j < i <= k ==> Forward(run, i) {
      NoAliasingExactly(cfg, size, run, j, k);
    }
    if forall i :: j < i <= k ==> PacedAt(cfg, size, run, i) {
      NoAliasing(cfg, size, run, j, k);
    }
  }

  // --- a deferred hit is served --------------------------------------------------------------------

  /** In cycle `k` the window moves forward by between `lo` and `hi` samples. */
  ghost predicate Moves(run: seq<Entry>, k: nat, lo: int, hi: int)
    requires 0 < k < |run|
  {
    lo <= run[k].window - run[k - 1].window <= hi
  }

  lemma RetriedNext(cfg: Config, size: nat, s: State, prev: Observation, o: Observation)
    requires Inv(cfg, size, s, prev) && Observes(cfg, size, o)
    requires s.pendingHit.Some? && !Resets(s, o.c)
    requires prev.window <= o.window <= prev.window + FirstDeferred(cfg)
    requires o.c.now - s.pendingHit.value.firstSeen <= cfg.pendingTimeout
    ensures var r := Advance(cfg, s, o.c);
            var hit := s.pendingHit.value;
            var hit' := hit.(relStart := Some(hit.relStart.value - (o.window - prev.window)));
            if hit'.relStart.value < FirstDeferred(cfg)
            then r.capture.Some? && r.capture.value.hit == hit' && r.capture.value.tdCenter == hit'.relStart.value
            else r.state.pendingHit == Some(hit') && r.capture.None?
  {
    RetryStep(cfg, size, s, prev, o);
    AdvanceSelects(cfg, size, s, o);
  }

  ghost predicate Unhurried(cfg: Config, run: seq<Entry>, i: nat, firstSeen: real, dmin: nat)
    requires 0 < i < |run|
  {
    && !ResetAt(run, i) && Moves(run, i, dmin, FirstDeferred(cfg))
    && run[i].c.now - firstSeen <= cfg.pendingTimeout
  }

  lemma BudgetStep(n: nat, dmin: nat)
    ensures if n == 0 then n * dmin == 0 else (n - 1) * dmin == n * dmin - dmin
  {
  }

  /** One unhurried cycle serves the hit or keeps it, at least `dmin` closer. */
  lemma ServedOrKept(cfg: Config, size: nat, run: seq<Entry>, k: nat, dmin: nat, hit: Hit)
    requires IsRun(cfg, size, run) && k + 1 < |run|
    requires run[k].result.state.pendingHit == Some(hit) && hit.relStart.Some?
    requires Unhurried(cfg, run, k + 1, hit.firstSeen, dmin)
    ensures var r := run[k + 1].result;
            var hit' := hit.(relStart := Some(run[k].window + hit.relStart.value - run[k + 1].window));
            && hit'.relStart.value <= hit.relStart.value - dmin
            && if hit'.relStart.value < FirstDeferred(cfg)
               then r.capture.Some? && r.capture.value.hit == hit' && r.capture.value.tdCenter == hit'.relStart.value
               else r.state.pendingHit == Some(hit') && r.capture.None?
  {
    RunCarries(cfg, size, run, k);
    RunCarries(cfg, size, run, k + 1);
    RetriedNext(cfg, size, run[k + 1].before, Observation(run[k].c, run[k].window),
                Observation(run[k + 1].c, run[k + 1].window));
  }

  /** Deferred hits are served: with the target unchanged, the timeout not reached and every
      window advance between `dmin` and the first deferred offset, a hit deferred at `offset` is
      never lost and is rendered within `n` cycles as soon as n * dmin >= offset - R + 1. */
  lemma {:induction false} DeferredServed(cfg: Config, size: nat, run: seq<Entry>, k: nat, n: nat, dmin: nat, hit: Hit)
    returns (m: nat)
    requires IsRun(cfg, size, run) && k + n < |run|
    requires run[k].result.state.pendingHit == Some(hit) && hit.relStart.Some?
    requires n * dmin >= hit.relStart.value - FirstDeferred(cfg) + 1
    requires forall i :: k < i <= k + n ==> Unhurried(cfg, run, i, hit.firstSeen, dmin)
    ensures k < m <= k + n && run[m].result.capture.Some?
    ensures run[m].result.capture.value.hit.attempt == hit.attempt
    ensures run[m].window + run[m].result.capture.value.tdCenter == run[k].window + hit.relStart.value
    ensures forall i {:trigger run[i]} :: k < i < m ==> run[i].result.state.pendingHit.Some?
    decreases n
  {
    BudgetStep(n, dmin);
    if n == 0 {
      RunCarries(cfg, size, run, k);
    }
    assert n > 0 && Unhurried(cfg, run, k + 1, hit.firstSeen, dmin);
    ServedOrKept(cfg, size, run, k, dmin, hit);
    if run[k + 1].result.capture.Some? {
      m := k + 1;
    } else {
      m := DeferredServed(cfg, size, run, k + 1, n - 1, dmin, run[k + 1].result.state.pendingHit.value);
    }
  }
}
