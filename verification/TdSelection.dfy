/** The Signal Viewer's capture decision: which detection to render this cycle, and what is
    carried to the next one.  This module is the decision as a function on values; `TdCapture`
    holds the mutable objects that compute it and `TdCaptureRuns` what it means over whole runs. */
module TdSelection {
  import opened Modular
  import opened Options

  datatype Config = Config(
    sampleRate: nat,
    decodeSamples: nat,       // length of the decode window
    pendingTimeout: real,     // TD_PENDING_TIMEOUT_S
    confirmTimeout: real,     // TD_TRUNCATION_CONFIRM_S
    matchTol: int,            // TD_TRUNCATION_MATCH_S in samples
    phantomPad: real,         // TD_PHANTOM_PAD_S
    tdSamples: nat,           // length of the rendered segment
    preRoll: nat,             // part of it before the packet
    fixedSymbols: int,        // preamble and header symbols
    slotOf: map<int, int>     // slot length by PHY version
  )

  /** Relations between the constants that the program's values satisfy. */
  ghost predicate ValidConfig(cfg: Config) {
    && cfg.sampleRate > 0
    && 0 <= cfg.preRoll < cfg.tdSamples <= cfg.decodeSamples
    && cfg.pendingTimeout >= 0.0 && cfg.confirmTimeout >= 0.0
    && 1 in cfg.slotOf
  }

  datatype Attempt = Attempt(
    chipset: Option<string>,
    decoded: bool,
    reason: Option<string>,
    startSample: Option<int>,
    timeS: Option<real>,
    signalDurationS: Option<real>,
    phyVer: Option<int>,
    numPduSymbols: Option<int>,
    ntwId: Option<int>,
    seqNum: Option<int>
  )

  datatype Hit = Hit(
    attempt: Attempt,
    reason: Option<string>,
    absStart: nat,            // position modulo the buffer
    relStart: Option<int>,    // offset in the present window
    firstSeen: real
  )

  datatype Target = Chipset(name: string) | Device(ntwId: int)

  datatype State = State(pendingHit: Option<Hit>, pendingConfirm: Option<Hit>, target: Option<Target>)

  const INITIAL := State(None, None, None)

  /** One cycle's observations. */
  datatype Cycle = Cycle(
    tdOn: bool,
    chipset: Option<string>,
    ntwId: Option<int>,
    attempts: seq<Attempt>,
    packetCount: nat,
    decodeStart: nat,
    bufLen: nat,
    chunkLen: int,
    now: real
  )

  datatype Capture = Capture(hit: Hit, tdStart: int, tdEnd: int, tdCenter: int)

  datatype Status =
    | CapturedDecoded(center: int, seqNum: Option<int>)
    | CapturedFailed(center: int, reason: string)
    | Confirming(timeS: real)
    | WaitingForFailure(chipset: string, packetCount: nat)
    | Searching(packetCount: nat)

  /** How a selection came about: the program does not record it, the properties do. */
  datatype How = Nothing | Held | Fresh | Retried | Promoted

  datatype Selection = Selection(state: State, hit: Option<Hit>, how: How)

  datatype Result = Result(state: State, capture: Option<Capture>, status: Option<Status>, how: How)

  // --- pure helpers -------------------------------------------------------------

  /** Python's int(round(x)): ties go to the even neighbour. */
  function RoundHalfEven(x: real): int {
    var f := x.Floor;
    var d := x - f as real;
    if d < 0.5 then f else if d > 0.5 then f + 1 else if f % 2 == 0 then f else f + 1
  }

  function SampleAt(cfg: Config, timeS: real): int {
    RoundHalfEven(timeS * cfg.sampleRate as real)
  }

  function StartSample(cfg: Config, a: Attempt): int {
    match a.startSample
    case Some(s) => s
    case None => SampleAt(cfg, a.timeS.GetOr(0.0))
  }

  predicate IsTruncation(reason: Option<string>) {
    reason == Some("pdu_incomplete") || reason == Some("unknown")
  }

  /** Duration of a decoded attempt, estimated from its symbols when it carries none. */
  function Duration(cfg: Config, a: Attempt): real
    requires cfg.sampleRate > 0 && 1 in cfg.slotOf
  {
    if a.signalDurationS.GetOr(0.0) != 0.0 then a.signalDurationS.value
    else
      var ver := a.phyVer.GetOr(1);
      var slot := if ver in cfg.slotOf then cfg.slotOf[ver] else cfg.slotOf[1];
      SlotTime(cfg, cfg.fixedSymbols + a.numPduSymbols.GetOr(0), slot)
  }

  function SlotTime(cfg: Config, symbols: int, slot: int): real
    requires cfg.sampleRate > 0
  {
    (symbols * slot) as real / cfg.sampleRate as real
  }

  /** (start, end) in seconds of a decoded attempt. */
  function DecodedSpan(cfg: Config, a: Attempt): (real, real)
    requires cfg.sampleRate > 0 && 1 in cfg.slotOf
  {
    var start := a.timeS.GetOr(0.0);
    (start, start + Duration(cfg, a))
  }

  predicate InDecodedSpan(cfg: Config, attempts: seq<Attempt>, t: real)
    requires cfg.sampleRate > 0 && 1 in cfg.slotOf
  {
    exists d | d in attempts ::
      d.decoded && DecodedSpan(cfg, d).0 - cfg.phantomPad <= t <= DecodedSpan(cfg, d).1 + cfg.phantomPad
  }

  function FirstMatch(attempts: seq<Attempt>, p: Attempt -> bool): (r: Option<Attempt>)
    ensures r.Some? ==> r.value in attempts && p(r.value)
    ensures r.None? ==> forall a | a in attempts :: !p(a)
  {
    if attempts == [] then None
    else if p(attempts[0]) then Some(attempts[0])
    else FirstMatch(attempts[1..], p)
  }

  predicate Near(a: int, b: int, tol: int) {
    -tol < a - b < tol
  }

  predicate FailedNear(cfg: Config, chipset: string, a: Attempt, rel: int) {
    a.chipset == Some(chipset) && !a.decoded && Near(StartSample(cfg, a), rel, cfg.matchTol)
  }

  predicate DecodedNear(cfg: Config, chipset: string, a: Attempt, rel: int) {
    a.decoded && a.chipset == Some(chipset) && Near(StartSample(cfg, a), rel, cfg.matchTol)
  }

  predicate FreshFailure(cfg: Config, chipset: string, attempts: seq<Attempt>, a: Attempt)
    requires cfg.sampleRate > 0 && 1 in cfg.slotOf
  {
    a.chipset == Some(chipset) && !a.decoded && !InDecodedSpan(cfg, attempts, a.timeS.GetOr(0.0))
  }

  function RenderStart(cfg: Config, center: int): int {
    if center - cfg.preRoll < 0 then 0 else center - cfg.preRoll
  }

  function CenterOf(cfg: Config, hit: Hit): int {
    match hit.relStart
    case Some(rel) => rel
    case None => StartSample(cfg, hit.attempt)
  }

  // --- the selectors ------------------------------------------------------------

  function CurrentTarget(c: Cycle): Option<Target> {
    if c.chipset.Some? && c.chipset.value != "" then Some(Chipset(c.chipset.value))
    else if c.ntwId.Some? then Some(Device(c.ntwId.value))
    else None
  }

  /** Re-project a deferred hit into this cycle's window, or age it out. */
  function RetryPending(cfg: Config, s: State, c: Cycle): Selection
    requires c.bufLen > 0
  {
    match s.pendingHit
    case None => Selection(s, None, Nothing)
    case Some(hit) =>
      var rel := Wrap(hit.absStart - c.decodeStart, c.bufLen);
      if rel >= cfg.decodeSamples || c.now - hit.firstSeen > cfg.pendingTimeout
      then Selection(s.(pendingHit := None), None, Nothing)
      else
        var hit' := hit.(relStart := Some(rel));
        Selection(s.(pendingHit := Some(hit')), Some(hit'), Retried)
  }

  /** Outcome of the truncation waiting for confirmation, before any retry or new search. */
  function ResolveConfirm(cfg: Config, s: State, chipset: string, c: Cycle): Selection
    requires c.bufLen > 0
  {
    match s.pendingConfirm
    case None => Selection(s, None, Nothing)
    case Some(held) =>
      var rel := Wrap(held.absStart - c.decodeStart, c.bufLen);
      if (exists a | a in c.attempts :: DecodedNear(cfg, chipset, a, rel)) || rel >= cfg.decodeSamples
      then Selection(s.(pendingConfirm := None), None, Nothing)
      else
        var again := FirstMatch(c.attempts, a => FailedNear(cfg, chipset, a, rel));
        if again.Some? && !IsTruncation(again.value.reason) then
          var hit := Hit(again.value, again.value.reason, held.absStart, Some(rel), c.now);
          Selection(s.(pendingConfirm := None, pendingHit := Some(hit)), Some(hit), Promoted)
        else if c.now - held.firstSeen > cfg.confirmTimeout
        then Selection(s.(pendingConfirm := None), None, Nothing)
        else Selection(s, None, Nothing)
  }

  /** A new search among this cycle's attempts. */
  function FreshChipset(cfg: Config, s: State, chipset: string, c: Cycle): Selection
    requires c.bufLen > 0 && cfg.sampleRate > 0 && 1 in cfg.slotOf
  {
    match FirstMatch(c.attempts, a => FreshFailure(cfg, chipset, c.attempts, a))
    case None => Selection(s, None, Nothing)
    case Some(a) =>
      var rel := StartSample(cfg, a);
      var hit := Hit(a, a.reason, Wrap(c.decodeStart + rel, c.bufLen), None, c.now);
      if IsTruncation(a.reason)
      then Selection(s.(pendingConfirm := Some(hit)), None, Held)
      else
        var hit' := hit.(relStart := Some(rel));
        Selection(s.(pendingHit := Some(hit')), Some(hit'), Fresh)
  }

  function SelectChipset(cfg: Config, s: State, chipset: string, c: Cycle): Selection
    requires c.bufLen > 0 && cfg.sampleRate > 0 && 1 in cfg.slotOf
  {
    var confirmed := ResolveConfirm(cfg, s, chipset, c);
    if confirmed.hit.Some? then confirmed
    else
      var retried := RetryPending(cfg, confirmed.state, c);
      if retried.hit.Some? || retried.state.pendingConfirm.Some? then retried
      else FreshChipset(cfg, retried.state, chipset, c)
  }

  function FreshDevice(cfg: Config, s: State, ntwId: int, c: Cycle): Selection
    requires c.bufLen > 0
  {
    match FirstMatch(c.attempts, (a: Attempt) => a.decoded && a.ntwId == Some(ntwId))
    case None => Selection(s, None, Nothing)
    case Some(a) =>
      var rel := StartSample(cfg, a);
      var reason := if a.reason.None? then Some("ok") else a.reason;
      var hit := Hit(a, reason, Wrap(c.decodeStart + rel, c.bufLen), Some(rel), c.now);
      Selection(s.(pendingHit := Some(hit)), Some(hit), Fresh)
  }

  function SelectDevice(cfg: Config, s: State, ntwId: int, c: Cycle): Selection
    requires c.bufLen > 0
  {
    var retried := RetryPending(cfg, s, c);
    if retried.hit.Some? then retried else FreshDevice(cfg, retried.state, ntwId, c)
  }

  /** Every cross-cycle field is cleared when the user stops or changes the target. */
  predicate Resets(s: State, c: Cycle) {
    !c.tdOn || CurrentTarget(c) != s.target
  }

  function Entered(s: State, c: Cycle): State {
    if Resets(s, c) then State(None, None, CurrentTarget(c)) else s
  }

  function Select(cfg: Config, s: State, c: Cycle): Selection
    requires c.bufLen > 0 && cfg.sampleRate > 0 && 1 in cfg.slotOf
  {
    match CurrentTarget(c)
    case Some(Chipset(name)) => SelectChipset(cfg, s, name, c)
    case Some(Device(id)) => SelectDevice(cfg, s, id, c)
    case None => Selection(s, None, Nothing)
  }

  function WaitingStatus(s: State, c: Cycle): Option<Status> {
    if s.pendingConfirm.Some? then Some(Confirming(s.pendingConfirm.value.attempt.timeS.GetOr(0.0)))
    else
      match CurrentTarget(c)
      case Some(Chipset(name)) => Some(WaitingForFailure(name, c.packetCount))
      case Some(Device(_)) => Some(Searching(c.packetCount))
      case None => None
  }

  function CapturedStatus(hit: Hit, center: int): Status {
    if hit.attempt.decoded then CapturedDecoded(center, hit.attempt.seqNum)
    else CapturedFailed(center, hit.reason.GetOr("unknown"))
  }

  /** One call of select_td_capture. */
  function Advance(cfg: Config, s: State, c: Cycle): Result
    requires c.bufLen > 0 && cfg.sampleRate > 0 && 1 in cfg.slotOf
  {
    var entered := Entered(s, c);
    if !c.tdOn then Result(entered, None, None, Nothing)
    else
      var sel := Select(cfg, entered, c);
      match sel.hit
      case None => Result(sel.state, None, WaitingStatus(sel.state, c), sel.how)
      case Some(hit) =>
        var center := CenterOf(cfg, hit);
        var start := RenderStart(cfg, center);
        if start + cfg.tdSamples > c.chunkLen
        then Result(sel.state, None, None, sel.how)
        else Result(sel.state.(pendingHit := None),
                    Some(Capture(hit, start, start + cfg.tdSamples, center)),
                    Some(CapturedStatus(hit, center)), sel.how)
  }
}
