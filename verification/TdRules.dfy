/** What one call of the capture decision has to answer, as rules over the attempts' own fields.  They
    leave no choice (`RulesDecide`), and the decision follows them (`AdvanceFollows`). */
module TdRules {
  import opened Modular
  import opened Options
  import opened TdSelection
  import opened TdCaptureRuns

  // --- attempts ------------------------------------------------------------------------

  function Time(a: Attempt): real {
    if a.timeS.Some? then a.timeS.value else 0.0
  }

  /** The nearest integer; of two equally near, the even one. */
  predicate Nearest(x: real, n: int) {
    -1.0 <= 2.0 * (x - n as real) <= 1.0 && (2.0 * (x - n as real) in {-1.0, 1.0} ==> n % 2 == 0)
  }

  predicate StartsAt(cfg: Config, a: Attempt, n: int) {
    if a.startSample.Some? then n == a.startSample.value else NearestSample(cfg, Time(a), n)
  }

  predicate NearestSample(cfg: Config, t: real, n: int) {
    Nearest(t * cfg.sampleRate as real, n)
  }

  /** Slot length of the attempt's PHY version, of version 1 for one missing or unknown. */
  predicate SlotIs(cfg: Config, a: Attempt, slot: int) {
    var known := a.phyVer.Some? && a.phyVer.value in cfg.slotOf;
    if known then slot == cfg.slotOf[a.phyVer.value] else 1 in cfg.slotOf && slot == cfg.slotOf[1]
  }

  /** The duration given, if it is not zero; otherwise that of the symbols, at the slot length. */
  ghost predicate Lasts(cfg: Config, a: Attempt, d: real) {
    if a.signalDurationS.Some? && a.signalDurationS.value != 0.0 then d == a.signalDurationS.value
    else
      var payload := if a.numPduSymbols.Some? then a.numPduSymbols.value else 0;
      exists slot :: SlotIs(cfg, a, slot) && FillsSlots(cfg, cfg.fixedSymbols, payload, slot, d)
  }

  /** Preamble and header symbols and those of the payload, one slot each, take `d` seconds. */
  ghost predicate FillsSlots(cfg: Config, leading: int, payload: int, slot: int, d: real) {
    d * cfg.sampleRate as real == ((leading + payload) * slot) as real
  }

  /** The decoded attempt covers the time, with the padding on both sides. */
  ghost predicate Covers(cfg: Config, d: Attempt, t: real) {
    && d.decoded
    && exists dur :: Lasts(cfg, d, dur) && -cfg.phantomPad <= t - Time(d) <= dur + cfg.phantomPad
  }

  predicate Fails(name: string, a: Attempt) {
    !a.decoded && a.chipset.Some? && a.chipset.value == name
  }

  predicate Decodes(name: string, a: Attempt) {
    a.decoded && a.chipset.Some? && a.chipset.value == name
  }

  ghost predicate CloseTo(cfg: Config, a: Attempt, rel: int) {
    exists n :: StartsAt(cfg, a, n) && n - rel < cfg.matchTol && rel - n < cfg.matchTol
  }

  /** The decode window may only have cut it short. */
  predicate CutShort(reason: Option<string>) {
    reason.Some? && (reason.value == "unknown" || reason.value == "pdu_incomplete")
  }

  // --- what can be found ------------------------------------------------------------------

  /** A failure of the chipset that no decoded attempt covers. */
  ghost predicate Findable(cfg: Config, name: string, attempts: seq<Attempt>, i: nat) {
    && i < |attempts| && Fails(name, attempts[i])
    && forall j :: 0 <= j < |attempts| ==> !Covers(cfg, attempts[j], Time(attempts[i]))
  }

  ghost predicate Found(cfg: Config, name: string, attempts: seq<Attempt>, i: nat) {
    Findable(cfg, name, attempts, i) && forall j :: 0 <= j < i ==> !Findable(cfg, name, attempts, j)
  }

  ghost predicate FailsAgain(cfg: Config, name: string, attempts: seq<Attempt>, rel: int, i: nat) {
    && i < |attempts| && Fails(name, attempts[i]) && CloseTo(cfg, attempts[i], rel)
    && forall j :: 0 <= j < i ==> !(Fails(name, attempts[j]) && CloseTo(cfg, attempts[j], rel))
  }

  ghost predicate FoundDevice(attempts: seq<Attempt>, id: int, i: nat) {
    && i < |attempts| && attempts[i].decoded && attempts[i].ntwId == Some(id)
    && forall j :: 0 <= j < i ==> !(attempts[j].decoded && attempts[j].ntwId == Some(id))
  }

  // --- state ----------------------------------------------------------------------------------

  ghost predicate Targets(c: Cycle, target: Option<Target>) {
    if c.chipset.Some? && |c.chipset.value| > 0 then target == Some(Chipset(c.chipset.value))
    else if c.ntwId.Some? then target == Some(Device(c.ntwId.value))
    else target == None
  }

  /** The state the call starts from: emptied when the capture is off or the target has changed. */
  ghost predicate Enters(s: State, c: Cycle, e: State) {
    && Targets(c, e.target)
    && e == if c.tdOn && s.target == e.target then s else State(None, None, e.target)
  }

  /** Offset in this window of a position remembered. */
  function Offset(h: Hit, c: Cycle): nat
    requires c.bufLen > 0
  {
    Wrap(h.absStart - c.decodeStart, c.bufLen)
  }

  ghost predicate Retriable(cfg: Config, e: State, c: Cycle)
    requires c.bufLen > 0
  {
    && e.pendingHit.Some? && Offset(e.pendingHit.value, c) < cfg.decodeSamples
    && c.now <= e.pendingHit.value.firstSeen + cfg.pendingTimeout
  }

  /** Still in the window, and not decoded by now. */
  ghost predicate Open(cfg: Config, name: string, e: State, c: Cycle)
    requires c.bufLen > 0
  {
    && e.pendingConfirm.Some?
    && var rel := Offset(e.pendingConfirm.value, c);
       && rel < cfg.decodeSamples
       && forall j :: 0 <= j < |c.attempts| ==> !(Decodes(name, c.attempts[j]) && CloseTo(cfg, c.attempts[j], rel))
  }

  /** The attempt at which an open truncation turns out a real failure. */
  ghost predicate Confirms(cfg: Config, name: string, e: State, c: Cycle, i: nat)
    requires c.bufLen > 0
  {
    && Open(cfg, name, e, c) && FailsAgain(cfg, name, c.attempts, Offset(e.pendingConfirm.value, c), i)
    && !CutShort(c.attempts[i].reason)
  }

  ghost predicate Waits(cfg: Config, name: string, e: State, c: Cycle)
    requires c.bufLen > 0
  {
    && Open(cfg, name, e, c) && (forall i: nat :: !Confirms(cfg, name, e, c, i))
    && c.now <= e.pendingConfirm.value.firstSeen + cfg.confirmTimeout
  }

  // --- answers --------------------------------------------------------------------------------

  /** The segment starts the pre-roll before the packet, or with the window. */
  predicate RendersFrom(cfg: Config, center: int, first: int) {
    first >= 0 && first >= center - cfg.preRoll && (first == 0 || first == center - cfg.preRoll)
  }

  /** A chosen hit is rendered and forgotten, or kept when the window ends too early. */
  ghost predicate Serves(cfg: Config, c: Cycle, h: Hit, confirm: Option<Hit>, target: Option<Target>, r: Result) {
    && h.relStart.Some?
    && var center := h.relStart.value;
       exists first :: RendersFrom(cfg, center, first)
         && if first + cfg.tdSamples <= c.chunkLen
            then
              && r.state == State(None, confirm, target)
              && r.capture == Some(Capture(h, first, first + cfg.tdSamples, center))
              && r.status.Some? && TellsCaptured(h, center, r.status.value)
            else r.state == State(Some(h), confirm, target) && r.capture.None? && r.status.None?
  }

  ghost predicate TellsCaptured(h: Hit, center: int, status: Status) {
    if h.attempt.decoded then status == CapturedDecoded(center, h.attempt.seqNum)
    else status == CapturedFailed(center, if h.reason.Some? then h.reason.value else "unknown")
  }

  ghost predicate Answers(r: Result, state: State, status: Option<Status>) {
    r.state == state && r.capture.None? && r.status == status
  }

  ghost predicate ChipsetRule(cfg: Config, name: string, e: State, c: Cycle, r: Result)
    requires c.bufLen > 0
  {
    if exists i: nat :: Confirms(cfg, name, e, c, i) then
      exists i: nat :: Confirms(cfg, name, e, c, i) && r.how == Promoted
        && var a, held := c.attempts[i], e.pendingConfirm.value;
           Serves(cfg, c, Hit(a, a.reason, held.absStart, Some(Offset(held, c)), c.now), None, e.target, r)
    else if Retriable(cfg, e, c) then
      && r.how == Retried
      && var h := e.pendingHit.value;
         Serves(cfg, c, h.(relStart := Some(Offset(h, c))), None, e.target, r)
    else if Waits(cfg, name, e, c) then
      && r.how == Nothing
      && Answers(r, State(None, e.pendingConfirm, e.target), Some(Confirming(Time(e.pendingConfirm.value.attempt))))
    else if exists i: nat :: Found(cfg, name, c.attempts, i) then
      exists i: nat, n :: Found(cfg, name, c.attempts, i) && StartsAt(cfg, c.attempts[i], n)
        && FoundRule(cfg, e, c, c.attempts[i], n, r)
    else
      r.how == Nothing && Answers(r, State(None, None, e.target), Some(WaitingForFailure(name, c.packetCount)))
  }

  /** What was found is captured, or held when it may only be cut short. */
  ghost predicate FoundRule(cfg: Config, e: State, c: Cycle, a: Attempt, n: int, r: Result)
    requires c.bufLen > 0
  {
    var h := Hit(a, a.reason, Wrap(c.decodeStart + n, c.bufLen), if CutShort(a.reason) then None else Some(n), c.now);
    if CutShort(a.reason)
    then r.how == Held && Answers(r, State(None, Some(h), e.target), Some(Confirming(Time(a))))
    else r.how == Fresh && Serves(cfg, c, h, None, e.target, r)
  }

  ghost predicate DeviceRule(cfg: Config, id: int, e: State, c: Cycle, r: Result)
    requires c.bufLen > 0
  {
    if Retriable(cfg, e, c) then
      && r.how == Retried
      && var h := e.pendingHit.value;
         Serves(cfg, c, h.(relStart := Some(Offset(h, c))), None, e.target, r)
    else if exists i: nat :: FoundDevice(c.attempts, id, i) then
      exists i: nat, n :: FoundDevice(c.attempts, id, i) && StartsAt(cfg, c.attempts[i], n)
        && DeviceFoundRule(cfg, e, c, c.attempts[i], n, r)
    else
      r.how == Nothing && Answers(r, State(None, None, e.target), Some(Searching(c.packetCount)))
  }

  /** A device's packet is captured as it is; one without a reason counts as fine. */
  ghost predicate DeviceFoundRule(cfg: Config, e: State, c: Cycle, a: Attempt, n: int, r: Result)
    requires c.bufLen > 0
  {
    var reason := if a.reason.Some? then a.reason.value else "ok";
    && r.how == Fresh
    && Serves(cfg, c, Hit(a, Some(reason), Wrap(c.decodeStart + n, c.bufLen), Some(n), c.now), None, e.target, r)
  }

  ghost predicate TargetRule(cfg: Config, e: State, c: Cycle, r: Result)
    requires c.bufLen > 0
  {
    match e.target
    case Some(Chipset(name)) => ChipsetRule(cfg, name, e, c, r)
    case Some(Device(id)) => DeviceRule(cfg, id, e, c, r)
    case None => r.how == Nothing && Answers(r, e, None)
  }

  /** The answer to one call. */
  ghost predicate Rules(cfg: Config, s: State, c: Cycle, r: Result)
    requires c.bufLen > 0
  {
    exists e :: Enters(s, c, e)
      && if c.tdOn then TargetRule(cfg, e, c, r) else r.how == Nothing && Answers(r, e, None)
  }

  // --- the decision follows them --------------------------------------------------------------

  lemma NearestOnce(x: real, n: int)
    ensures Nearest(x, n) <==> n == RoundHalfEven(x)
  {
  }

  lemma SampleOnce(cfg: Config, t: real, n: int)
    ensures NearestSample(cfg, t, n) <==> n == SampleAt(cfg, t)
  {
    NearestOnce(t * cfg.sampleRate as real, n);
  }

  lemma StartsOnce(cfg: Config, a: Attempt, n: int)
    ensures StartsAt(cfg, a, n) <==> n == StartSample(cfg, a)
  {
    SampleOnce(cfg, Time(a), n);
    assert Time(a) == a.timeS.GetOr(0.0);
  }

  lemma Quotient(x: real, d: real, rate: real)
    requires rate > 0.0
    ensures d * rate == x <==> d == x / rate
  {
  }

  lemma FillsOnce(cfg: Config, leading: int, payload: int, slot: int, d: real)
    requires cfg.sampleRate > 0
    ensures FillsSlots(cfg, leading, payload, slot, d) <==> d == SlotTime(cfg, leading + payload, slot)
  {
    Quotient(((leading + payload) * slot) as real, d, cfg.sampleRate as real);
  }

  lemma LastsOnce(cfg: Config, a: Attempt, d: real)
    requires cfg.sampleRate > 0 && 1 in cfg.slotOf
    ensures Lasts(cfg, a, d) <==> d == Duration(cfg, a)
  {
    var slot := if a.phyVer.Some? && a.phyVer.value in cfg.slotOf then cfg.slotOf[a.phyVer.value] else cfg.slotOf[1];
    var payload := if a.numPduSymbols.Some? then a.numPduSymbols.value else 0;
    FillsOnce(cfg, cfg.fixedSymbols, payload, slot, d);
    assert payload == a.numPduSymbols.GetOr(0) && SlotIs(cfg, a, slot);
  }

  lemma CoversRight(cfg: Config, d: Attempt, t: real)
    requires cfg.sampleRate > 0 && 1 in cfg.slotOf
    ensures Covers(cfg, d, t) <==>
              && d.decoded
              && DecodedSpan(cfg, d).0 - cfg.phantomPad <= t <= DecodedSpan(cfg, d).1 + cfg.phantomPad
  {
    LastsOnce(cfg, d, Duration(cfg, d));
    if dur :| Lasts(cfg, d, dur) {
      LastsOnce(cfg, d, dur);
    }
  }

  lemma CloseOnce(cfg: Config, a: Attempt, rel: int)
    ensures CloseTo(cfg, a, rel) <==> Near(StartSample(cfg, a), rel, cfg.matchTol)
  {
    StartsOnce(cfg, a, StartSample(cfg, a));
    if n :| StartsAt(cfg, a, n) {
      StartsOnce(cfg, a, n);
    }
  }

  lemma FindableRight(cfg: Config, name: string, attempts: seq<Attempt>, i: nat)
    requires cfg.sampleRate > 0 && 1 in cfg.slotOf && i < |attempts|
    ensures Findable(cfg, name, attempts, i) <==> FreshFailure(cfg, name, attempts, attempts[i])
  {
    var t := Time(attempts[i]);
    forall j | 0 <= j < |attempts|
      ensures attempts[j] in attempts
      ensures Covers(cfg, attempts[j], t) <==>
                && attempts[j].decoded
                && DecodedSpan(cfg, attempts[j]).0 - cfg.phantomPad <= t
                && t <= DecodedSpan(cfg, attempts[j]).1 + cfg.phantomPad
    {
      CoversRight(cfg, attempts[j], t);
    }
  }

  /** A search finds the first attempt that can be found, or there is none. */
  lemma SearchFollows(cfg: Config, name: string, attempts: seq<Attempt>) returns (i: nat)
    requires cfg.sampleRate > 0 && 1 in cfg.slotOf
    ensures var found := FirstMatch(attempts, a => FreshFailure(cfg, name, attempts, a));
            if found.Some? then Found(cfg, name, attempts, i) && found.value == attempts[i]
            else forall j: nat :: !Found(cfg, name, attempts, j)
  {
    var p := a => FreshFailure(cfg, name, attempts, a);
    i := 0;
    forall j: nat | j < |attempts|
      ensures Findable(cfg, name, attempts, j) <==> p(attempts[j])
    {
      FindableRight(cfg, name, attempts, j);
    }
    if FirstMatch(attempts, p).Some? {
      i := FirstMatchIsFirst(attempts, p);
    } else {
      assert forall j :: 0 <= j < |attempts| ==> attempts[j] in attempts;
    }
  }

  lemma RetestFollows(cfg: Config, name: string, attempts: seq<Attempt>, rel: int) returns (i: nat)
    ensures var again := FirstMatch(attempts, a => FailedNear(cfg, name, a, rel));
            if again.Some? then FailsAgain(cfg, name, attempts, rel, i) && again.value == attempts[i]
            else forall j: nat :: !FailsAgain(cfg, name, attempts, rel, j)
  {
    var p := a => FailedNear(cfg, name, a, rel);
    i := 0;
    forall j: nat | j < |attempts|
      ensures Fails(name, attempts[j]) && CloseTo(cfg, attempts[j], rel) <==> p(attempts[j])
    {
      CloseOnce(cfg, attempts[j], rel);
    }
    if FirstMatch(attempts, p).Some? {
      i := FirstMatchIsFirst(attempts, p);
    } else {
      assert forall j :: 0 <= j < |attempts| ==> attempts[j] in attempts;
    }
  }

  lemma OpenRight(cfg: Config, name: string, e: State, c: Cycle)
    requires c.bufLen > 0 && e.pendingConfirm.Some?
    ensures Open(cfg, name, e, c) <==> !Resolved(cfg, e, name, c)
  {
    var rel := Offset(e.pendingConfirm.value, c);
    forall j | 0 <= j < |c.attempts|
      ensures c.attempts[j] in c.attempts
      ensures Decodes(name, c.attempts[j]) && CloseTo(cfg, c.attempts[j], rel)
         <==> DecodedNear(cfg, name, c.attempts[j], rel)
    {
      CloseOnce(cfg, c.attempts[j], rel);
    }
  }

  lemma ServesHit(cfg: Config, c: Cycle, sel: Selection, r: Result)
    requires sel.hit.Some? && sel.state.pendingHit == sel.hit && sel.hit.value.relStart.Some?
    requires var center := CenterOf(cfg, sel.hit.value);
             var start := RenderStart(cfg, center);
             r == if start + cfg.tdSamples > c.chunkLen then Result(sel.state, None, None, sel.how)
                  else Result(sel.state.(pendingHit := None),
                              Some(Capture(sel.hit.value, start, start + cfg.tdSamples, center)),
                              Some(CapturedStatus(sel.hit.value, center)), sel.how)
    ensures Serves(cfg, c, sel.hit.value, sel.state.pendingConfirm, sel.state.target, r) && r.how == sel.how
  {
    assert RendersFrom(cfg, CenterOf(cfg, sel.hit.value), RenderStart(cfg, CenterOf(cfg, sel.hit.value)));
  }

  /** One selection on a structured state follows its target's rule. */
  ghost predicate Callable(cfg: Config, e: State, c: Cycle) {
    c.bufLen > 0 && cfg.sampleRate > 0 && 1 in cfg.slotOf && Structured(e) && c.tdOn && CurrentTarget(c) == e.target
  }

  /** The rendering step of one call, after its selection. */
  ghost predicate Rendered(cfg: Config, e: State, c: Cycle, sel: Selection, r: Result) {
    && r.how == sel.how
    && match sel.hit
       case Some(hit) =>
         && sel.state.pendingHit == sel.hit && hit.relStart.Some? && sel.state.target == e.target
         && Serves(cfg, c, hit, sel.state.pendingConfirm, e.target, r)
       case None => Answers(r, sel.state, WaitingStatus(sel.state, c))
  }

  lemma SelectionRendered(cfg: Config, e: State, c: Cycle)
    requires Callable(cfg, e, c)
    ensures Rendered(cfg, e, c, Select(cfg, e, c), Advance(cfg, e, c))
  {
    SelectSelected(cfg, e, c);
    var sel := Select(cfg, e, c);
    assert Entered(e, c) == e;
    if sel.hit.Some? {
      ServesHit(cfg, c, sel, Advance(cfg, e, c));
    }
  }

  lemma PromotionFollows(cfg: Config, name: string, e: State, c: Cycle) returns (i: nat)
    requires Callable(cfg, e, c) && e.target == Some(Chipset(name))
    ensures var confirmed := ResolveConfirm(cfg, e, name, c);
            if confirmed.hit.Some? then
              && Confirms(cfg, name, e, c, i) && confirmed.how == Promoted
              && var a, held := c.attempts[i], e.pendingConfirm.value;
                 var hit := Hit(a, a.reason, held.absStart, Some(Offset(held, c)), c.now);
                 confirmed.hit == Some(hit) && confirmed.state == State(Some(hit), None, e.target)
            else
              && (forall j: nat :: !Confirms(cfg, name, e, c, j))
              && confirmed.state == e.(pendingConfirm := if Waits(cfg, name, e, c) then e.pendingConfirm else None)
  {
    i := 0;
    if e.pendingConfirm.Some? {
      OpenRight(cfg, name, e, c);
      i := RetestFollows(cfg, name, c.attempts, Offset(e.pendingConfirm.value, c));
    }
  }

  lemma ChipsetFollows(cfg: Config, name: string, e: State, c: Cycle)
    requires Callable(cfg, e, c) && e.target == Some(Chipset(name))
    ensures ChipsetRule(cfg, name, e, c, Advance(cfg, e, c))
  {
    SelectionRendered(cfg, e, c);
    var r, sel := Advance(cfg, e, c), SelectChipset(cfg, e, name, c);
    var i := PromotionFollows(cfg, name, e, c);
    var confirmed := ResolveConfirm(cfg, e, name, c);
    if confirmed.hit.None? && !Retriable(cfg, e, c) && !Waits(cfg, name, e, c) {
      assert sel == FreshChipset(cfg, State(None, None, e.target), name, c);
      SearchAnswered(cfg, name, e, c, r);
    }
  }

  lemma SearchAnswered(cfg: Config, name: string, e: State, c: Cycle, r: Result)
    requires Callable(cfg, e, c) && e.target == Some(Chipset(name))
    requires Rendered(cfg, e, c, FreshChipset(cfg, State(None, None, e.target), name, c), r)
    ensures if exists i: nat :: Found(cfg, name, c.attempts, i)
            then exists i: nat, n :: Found(cfg, name, c.attempts, i) && StartsAt(cfg, c.attempts[i], n)
                   && FoundRule(cfg, e, c, c.attempts[i], n, r)
            else r.how == Nothing
                 && Answers(r, State(None, None, e.target), Some(WaitingForFailure(name, c.packetCount)))
  {
    var i := SearchFollows(cfg, name, c.attempts);
    if FirstMatch(c.attempts, a => FreshFailure(cfg, name, c.attempts, a)).Some? {
      var a := c.attempts[i];
      StartsOnce(cfg, a, StartSample(cfg, a));
      assert FoundRule(cfg, e, c, a, StartSample(cfg, a), r);
    }
  }

  lemma DeviceSearchFollows(attempts: seq<Attempt>, id: int) returns (i: nat)
    ensures var found := FirstMatch(attempts, (a: Attempt) => a.decoded && a.ntwId == Some(id));
            if found.Some? then FoundDevice(attempts, id, i) && found.value == attempts[i]
            else forall j: nat :: !FoundDevice(attempts, id, j)
  {
    var p := (a: Attempt) => a.decoded && a.ntwId == Some(id);
    i := 0;
    if FirstMatch(attempts, p).Some? {
      i := FirstMatchIsFirst(attempts, p);
    } else {
      assert forall j :: 0 <= j < |attempts| ==> attempts[j] in attempts;
    }
  }

  lemma DeviceAnswered(cfg: Config, id: int, e: State, c: Cycle, r: Result)
    requires Callable(cfg, e, c) && e.target == Some(Device(id))
    requires Rendered(cfg, e, c, FreshDevice(cfg, State(None, None, e.target), id, c), r)
    ensures if exists i: nat :: FoundDevice(c.attempts, id, i)
            then exists i: nat, n :: FoundDevice(c.attempts, id, i) && StartsAt(cfg, c.attempts[i], n)
                   && DeviceFoundRule(cfg, e, c, c.attempts[i], n, r)
            else r.how == Nothing && Answers(r, State(None, None, e.target), Some(Searching(c.packetCount)))
  {
    var i := DeviceSearchFollows(c.attempts, id);
    if FirstMatch(c.attempts, (a: Attempt) => a.decoded && a.ntwId == Some(id)).Some? {
      var a := c.attempts[i];
      StartsOnce(cfg, a, StartSample(cfg, a));
      assert DeviceFoundRule(cfg, e, c, a, StartSample(cfg, a), r);
    }
  }

  lemma DeviceFollows(cfg: Config, id: int, e: State, c: Cycle)
    requires Callable(cfg, e, c) && e.target == Some(Device(id))
    ensures DeviceRule(cfg, id, e, c, Advance(cfg, e, c))
  {
    SelectionRendered(cfg, e, c);
    if !Retriable(cfg, e, c) {
      assert SelectDevice(cfg, e, id, c) == FreshDevice(cfg, State(None, None, e.target), id, c);
      DeviceAnswered(cfg, id, e, c, Advance(cfg, e, c));
    }
  }

  /** One call of the decision follows the rules. */
  lemma AdvanceFollows(cfg: Config, s: State, c: Cycle)
    requires c.bufLen > 0 && cfg.sampleRate > 0 && 1 in cfg.slotOf && Structured(s)
    ensures Rules(cfg, s, c, Advance(cfg, s, c))
  {
    var e := Entered(s, c);
    assert Enters(s, c, e);
    if c.tdOn {
      assert Advance(cfg, s, c) == Advance(cfg, e, c);
      match e.target
      case Some(Chipset(name)) => ChipsetFollows(cfg, name, e, c);
      case Some(Device(id)) => DeviceFollows(cfg, id, e, c);
      case None => SelectionRendered(cfg, e, c);
    }
  }

  // --- the rules leave no choice ---------------------------------------------------------------

  lemma ServedOnce(cfg: Config, c: Cycle, h: Hit, confirm: Option<Hit>, target: Option<Target>, a: Result, b: Result)
    requires Serves(cfg, c, h, confirm, target, a) && Serves(cfg, c, h, confirm, target, b) && a.how == b.how
    ensures a == b
  {
  }

  lemma FoundOnce(cfg: Config, e: State, c: Cycle, x: Attempt, n: int, m: int, a: Result, b: Result)
    requires c.bufLen > 0 && StartsAt(cfg, x, n) && StartsAt(cfg, x, m)
    requires FoundRule(cfg, e, c, x, n, a) && FoundRule(cfg, e, c, x, m, b)
    ensures a == b
  {
    StartsOnce(cfg, x, n);
    StartsOnce(cfg, x, m);
  }

  lemma ChipsetOnce(cfg: Config, name: string, e: State, c: Cycle, a: Result, b: Result)
    requires c.bufLen > 0 && ChipsetRule(cfg, name, e, c, a) && ChipsetRule(cfg, name, e, c, b)
    ensures a == b
  {
    if exists i: nat :: Confirms(cfg, name, e, c, i) {
    } else if !Retriable(cfg, e, c) && !Waits(cfg, name, e, c) && exists i: nat :: Found(cfg, name, c.attempts, i) {
      var i: nat, n :| Found(cfg, name, c.attempts, i) && StartsAt(cfg, c.attempts[i], n)
                    && FoundRule(cfg, e, c, c.attempts[i], n, a);
      var j: nat, m :| Found(cfg, name, c.attempts, j) && StartsAt(cfg, c.attempts[j], m)
                    && FoundRule(cfg, e, c, c.attempts[j], m, b);
      assert i == j;
      FoundOnce(cfg, e, c, c.attempts[i], n, m, a, b);
    }
  }

  lemma DeviceFoundOnce(cfg: Config, e: State, c: Cycle, x: Attempt, n: int, m: int, a: Result, b: Result)
    requires c.bufLen > 0 && StartsAt(cfg, x, n) && StartsAt(cfg, x, m)
    requires DeviceFoundRule(cfg, e, c, x, n, a) && DeviceFoundRule(cfg, e, c, x, m, b)
    ensures a == b
  {
    StartsOnce(cfg, x, n);
    StartsOnce(cfg, x, m);
  }

  lemma DeviceOnce(cfg: Config, id: int, e: State, c: Cycle, a: Result, b: Result)
    requires c.bufLen > 0 && DeviceRule(cfg, id, e, c, a) && DeviceRule(cfg, id, e, c, b)
    ensures a == b
  {
    if !Retriable(cfg, e, c) && exists i: nat :: FoundDevice(c.attempts, id, i) {
      var i: nat, n :| FoundDevice(c.attempts, id, i) && StartsAt(cfg, c.attempts[i], n)
                    && DeviceFoundRule(cfg, e, c, c.attempts[i], n, a);
      var j: nat, m :| FoundDevice(c.attempts, id, j) && StartsAt(cfg, c.attempts[j], m)
                    && DeviceFoundRule(cfg, e, c, c.attempts[j], m, b);
      assert i == j;
      DeviceFoundOnce(cfg, e, c, c.attempts[i], n, m, a, b);
    }
  }

  /** So what the rules ask for is what the decision answers, whole: state, capture and status. */
  lemma RulesDecide(cfg: Config, s: State, c: Cycle, r: Result)
    requires c.bufLen > 0 && cfg.sampleRate > 0 && 1 in cfg.slotOf && Structured(s)
    ensures Rules(cfg, s, c, r) <==> r == Advance(cfg, s, c)
  {
    AdvanceFollows(cfg, s, c);
    var r', e := Advance(cfg, s, c), Entered(s, c);
    if Rules(cfg, s, c, r) {
      assert forall e' :: Enters(s, c, e') ==> e' == e;
      match e.target
      case Some(Chipset(name)) => if c.tdOn { ChipsetOnce(cfg, name, e, c, r, r'); }
      case Some(Device(id)) => if c.tdOn { DeviceOnce(cfg, id, e, c, r, r'); }
      case None =>
    }
  }

  /** The attempt a cycle takes from its search, to capture or to hold. */
  ghost predicate Takes(r: Result, a: Attempt) {
    if r.how == Held then r.state.pendingConfirm.Some? && r.state.pendingConfirm.value.attempt == a
    else
      && r.how == Fresh
      && if r.capture.Some? then r.capture.value.hit.attempt == a
         else r.state.pendingHit.Some? && r.state.pendingHit.value.attempt == a
  }

  /** On a chipset: a failure inside the padded extent of a decoded packet is never taken, and one outside
      every such extent is never passed over: a search takes the first. */
  lemma PhantomsPassedOver(cfg: Config, name: string, e: State, c: Cycle)
    requires Callable(cfg, e, c) && e.target == Some(Chipset(name))
    ensures var r := Advance(cfg, e, c);
            && (r.how in {Fresh, Held} <==>
                  && (forall i: nat :: !Confirms(cfg, name, e, c, i))
                  && !Retriable(cfg, e, c) && !Waits(cfg, name, e, c)
                  && exists i: nat :: Findable(cfg, name, c.attempts, i))
            && (r.how in {Fresh, Held} ==> exists i: nat :: Found(cfg, name, c.attempts, i) && Takes(r, c.attempts[i]))
  {
    ChipsetFollows(cfg, name, e, c);
    FirstFindable(cfg, name, c.attempts);
  }

  lemma {:induction false} FirstFindable(cfg: Config, name: string, attempts: seq<Attempt>)
    ensures (exists i: nat :: Findable(cfg, name, attempts, i)) <==> exists i: nat :: Found(cfg, name, attempts, i)
  {
    if i: nat :| Findable(cfg, name, attempts, i) {
      var k := FindableBefore(cfg, name, attempts, i);
    }
  }

  lemma {:induction false} FindableBefore(cfg: Config, name: string, attempts: seq<Attempt>, i: nat) returns (k: nat)
    requires Findable(cfg, name, attempts, i)
    ensures k <= i && Found(cfg, name, attempts, k)
  {
    if j :| 0 <= j < i && Findable(cfg, name, attempts, j) {
      k := FindableBefore(cfg, name, attempts, j);
    } else {
      k := i;
    }
  }
}
