/** Sample drops noted on failed attempts before the capture decision: what the note does to that
    decision, and which drops of the stream it stands for. */
module DropAnnotation {
  import opened Modular
  import opened Options
  import opened IqRing
  import opened TdSelection
  import opened TdCaptureRuns
  import opened ProcessorCycle

  /** Python's int(x): towards zero. */
  function Truncated(x: real): int {
    if x >= 0.0 then x.Floor else -((-x).Floor)
  }

  function WholeSamples(cfg: Config, timeS: real): int {
    Truncated(timeS * cfg.sampleRate as real)
  }

  function DropStart(cfg: Config, a: Attempt): int {
    match a.startSample
    case Some(s) => s
    case None => WholeSamples(cfg, a.timeS.GetOr(0.0))
  }

  function DropEnd(cfg: Config, a: Attempt): int {
    DropStart(cfg, a) + WholeSamples(cfg, a.signalDurationS.GetOr(0.05))
  }

  /** One of the drops lies in the attempt's extent. */
  predicate Dropped(cfg: Config, a: Attempt, offsets: seq<int>) {
    exists o | o in offsets :: DropStart(cfg, a) <= o <= DropEnd(cfg, a)
  }

  function NotedReason(reason: Option<string>): string {
    if reason.GetOr("") != "" && reason.value != "ok" then reason.value + "+sample_drop" else "sample_drop"
  }

  function Noted(cfg: Config, offsets: seq<int>, a: Attempt): Attempt {
    if a.decoded || !Dropped(cfg, a, offsets) then a else a.(reason := Some(NotedReason(a.reason)))
  }

  function AllNoted(cfg: Config, offsets: seq<int>, attempts: seq<Attempt>): (r: seq<Attempt>)
    ensures |r| == |attempts|
  {
    seq(|attempts|, i requires 0 <= i < |attempts| => Noted(cfg, offsets, attempts[i]))
  }

  /** The loop over the attempts, which it changes in place. */
  method NoteDrops(cfg: Config, attempts: array<Attempt>, offsets: seq<int>)
    modifies attempts
    ensures attempts[..] == AllNoted(cfg, offsets, old(attempts[..]))
    ensures forall i :: 0 <= i < attempts.Length ==> NoteRule(cfg, offsets, old(attempts[i]), attempts[i])
  {
    forall i | 0 <= i < attempts.Length
      ensures NoteRule(cfg, offsets, attempts[i], Noted(cfg, offsets, attempts[i]))
    {
      NoteDecided(cfg, offsets, attempts[i], Noted(cfg, offsets, attempts[i]));
    }
    if offsets == [] {
      return;
    }
    for i := 0 to attempts.Length
      invariant forall j :: 0 <= j < i ==> attempts[j] == Noted(cfg, offsets, old(attempts[j]))
      invariant forall j :: i <= j < attempts.Length ==> attempts[j] == old(attempts[j])
    {
      var att := attempts[i];
      if !att.decoded {
        var hit := FindDrop(DropStart(cfg, att), DropEnd(cfg, att), offsets);
        if hit {
          attempts[i] := att.(reason := Some(NotedReason(att.reason)));
        }
      }
    }
  }

  /** The inner loop, left at the first drop inside. */
  method FindDrop(pktStart: int, pktEnd: int, offsets: seq<int>) returns (hit: bool)
    ensures hit <==> exists o | o in offsets :: pktStart <= o <= pktEnd
  {
    hit := false;
    for k := 0 to |offsets|
      invariant !hit && forall j :: 0 <= j < k ==> !(pktStart <= offsets[j] <= pktEnd)
    {
      if pktStart <= offsets[k] <= pktEnd {
        assert offsets[k] in offsets;
        return true;
      }
    }
  }

  // --- the note as a rule -----------------------------------------------------------------

  /** The whole part of `x`, whatever its sign. */
  ghost predicate WholePart(x: real, n: int) {
    if x >= 0.0 then n as real <= x < (n + 1) as real else (n - 1) as real < x <= n as real
  }

  lemma WholePartOnce(x: real, n: int)
    ensures WholePart(x, n) <==> n == Truncated(x)
  {
  }

  /** A time in whole samples. */
  ghost predicate Samples(cfg: Config, timeS: real, n: int) {
    WholePart(timeS * cfg.sampleRate as real, n)
  }

  lemma SamplesOnce(cfg: Config, timeS: real, n: int)
    ensures Samples(cfg, timeS, n) <==> n == WholeSamples(cfg, timeS)
  {
    WholePartOnce(timeS * cfg.sampleRate as real, n);
  }

  /** From the start given, or else the time in whole samples, and as long as the duration given, or else
      50 ms, in whole samples. */
  ghost predicate Extends(cfg: Config, a: Attempt, first: int, last: int) {
    var time := if a.timeS.Some? then a.timeS.value else 0.0;
    var duration := if a.signalDurationS.Some? then a.signalDurationS.value else 0.05;
    && (if a.startSample.Some? then first == a.startSample.value else Samples(cfg, time, first))
    && Samples(cfg, duration, last - first)
  }

  lemma ExtendsOnce(cfg: Config, a: Attempt, first: int, last: int)
    ensures Extends(cfg, a, first, last) <==> first == DropStart(cfg, a) && last == DropEnd(cfg, a)
  {
    var time := if a.timeS.Some? then a.timeS.value else 0.0;
    var duration := if a.signalDurationS.Some? then a.signalDurationS.value else 0.05;
    SamplesOnce(cfg, time, first);
    SamplesOnce(cfg, duration, last - first);
    assert time == a.timeS.GetOr(0.0) && duration == a.signalDurationS.GetOr(0.05);
  }

  ghost predicate HasDrop(cfg: Config, a: Attempt, offsets: seq<int>) {
    exists first, last :: Extends(cfg, a, first, last) && exists k :: 0 <= k < |offsets| && first <= offsets[k] <= last
  }

  /** A failed attempt with a drop inside gets the drop as its reason, behind the one it has if that says
      anything; every other attempt stays as it is. */
  ghost predicate NoteRule(cfg: Config, offsets: seq<int>, a: Attempt, b: Attempt) {
    if !a.decoded && HasDrop(cfg, a, offsets) then
      b == a.(reason := Some(if a.reason.Some? && a.reason.value !in {"", "ok"} then a.reason.value + "+sample_drop"
                             else "sample_drop"))
    else b == a
  }

  lemma NoteDecided(cfg: Config, offsets: seq<int>, a: Attempt, b: Attempt)
    ensures NoteRule(cfg, offsets, a, b) <==> b == Noted(cfg, offsets, a)
  {
    ExtendsOnce(cfg, a, DropStart(cfg, a), DropEnd(cfg, a));
    if first, last :| Extends(cfg, a, first, last) {
      ExtendsOnce(cfg, a, first, last);
    }
    assert HasDrop(cfg, a, offsets) <==> Dropped(cfg, a, offsets) by {
      if k :| 0 <= k < |offsets| && DropStart(cfg, a) <= offsets[k] <= DropEnd(cfg, a) {
        assert offsets[k] in offsets;
      }
    }
  }

  // --- what the note changes -----------------------------------------------------------

  /** The reason noted is never one that is held for confirmation. */
  lemma NotedIsReal(reason: Option<string>)
    ensures !IsTruncation(Some(NotedReason(reason)))
  {
    var noted := NotedReason(reason);
    assert noted[|noted| - 1] == 'p';
    assert "pdu_incomplete"[|"pdu_incomplete"| - 1] == 'e' && "unknown"[|"unknown"| - 1] == 'n';
  }

  /** A failed attempt still waits for confirmation exactly when it did and no drop lies in it. */
  lemma NotedTruncation(cfg: Config, offsets: seq<int>, a: Attempt)
    ensures !a.decoded ==>
              (IsTruncation(Noted(cfg, offsets, a).reason) <==> IsTruncation(a.reason) && !Dropped(cfg, a, offsets))
  {
    NotedIsReal(a.reason);
  }

  /** The decoded attempts, and so the spans that make phantoms, are untouched. */
  lemma PhantomsKept(cfg: Config, offsets: seq<int>, attempts: seq<Attempt>, t: real)
    requires cfg.sampleRate > 0 && 1 in cfg.slotOf
    ensures InDecodedSpan(cfg, AllNoted(cfg, offsets, attempts), t) <==> InDecodedSpan(cfg, attempts, t)
  {
    var noted := AllNoted(cfg, offsets, attempts);
    assert forall i :: 0 <= i < |attempts| ==> noted[i].decoded == attempts[i].decoded;
    assert forall i :: 0 <= i < |attempts| && attempts[i].decoded ==> noted[i] == attempts[i];
    forall d: Attempt | d.decoded
      ensures d in noted <==> d in attempts
    {
      if d in noted {
        var i :| 0 <= i < |noted| && noted[i] == d;
        assert attempts[i] in attempts;
      }
      if d in attempts {
        var i :| 0 <= i < |attempts| && attempts[i] == d;
        assert noted[i] in noted;
      }
    }
  }

  lemma StartKept(cfg: Config, offsets: seq<int>, a: Attempt)
    ensures StartSample(cfg, Noted(cfg, offsets, a)) == StartSample(cfg, a)
  {
    var noted := Noted(cfg, offsets, a);
    assert noted.startSample == a.startSample && noted.timeS == a.timeS;
  }

  lemma PlaceKept(cfg: Config, offsets: seq<int>, name: string, a: Attempt, rel: int)
    ensures FailedNear(cfg, name, Noted(cfg, offsets, a), rel) <==> FailedNear(cfg, name, a, rel)
    ensures DecodedNear(cfg, name, Noted(cfg, offsets, a), rel) <==> DecodedNear(cfg, name, a, rel)
  {
    StartKept(cfg, offsets, a);
  }

  /** What is found where does not depend on reasons. */
  lemma FindingsKept(cfg: Config, offsets: seq<int>, attempts: seq<Attempt>, name: string, rel: int, i: nat)
    requires cfg.sampleRate > 0 && 1 in cfg.slotOf && i < |attempts|
    ensures var noted := AllNoted(cfg, offsets, attempts);
            && (FreshFailure(cfg, name, noted, noted[i]) <==> FreshFailure(cfg, name, attempts, attempts[i]))
            && (FailedNear(cfg, name, noted[i], rel) <==> FailedNear(cfg, name, attempts[i], rel))
            && (DecodedNear(cfg, name, noted[i], rel) <==> DecodedNear(cfg, name, attempts[i], rel))
  {
    PhantomsKept(cfg, offsets, attempts, attempts[i].timeS.GetOr(0.0));
    PlaceKept(cfg, offsets, name, attempts[i], rel);
  }

  function NotedCycle(cfg: Config, offsets: seq<int>, c: Cycle): Cycle {
    c.(attempts := AllNoted(cfg, offsets, c.attempts))
  }

  lemma ResolvedKept(cfg: Config, offsets: seq<int>, s: State, name: string, c: Cycle)
    requires c.bufLen > 0 && cfg.sampleRate > 0 && 1 in cfg.slotOf && s.pendingConfirm.Some?
    ensures Resolved(cfg, s, name, NotedCycle(cfg, offsets, c)) <==> Resolved(cfg, s, name, c)
  {
    var rel, noted := Projected(s.pendingConfirm.value, c), AllNoted(cfg, offsets, c.attempts);
    forall i | 0 <= i < |c.attempts|
      ensures DecodedNear(cfg, name, noted[i], rel) <==> DecodedNear(cfg, name, c.attempts[i], rel)
    {
      FindingsKept(cfg, offsets, c.attempts, name, rel, i);
    }
    if a :| a in c.attempts && DecodedNear(cfg, name, a, rel) {
      var i :| 0 <= i < |c.attempts| && c.attempts[i] == a;
      assert noted[i] in noted;
    }
    if a :| a in noted && DecodedNear(cfg, name, a, rel) {
      var i :| 0 <= i < |noted| && noted[i] == a;
      assert c.attempts[i] in c.attempts;
    }
  }

  lemma FirstFailureKept(cfg: Config, offsets: seq<int>, name: string, attempts: seq<Attempt>, rel: int, i: nat)
    requires cfg.sampleRate > 0 && 1 in cfg.slotOf
    ensures FirstFailure(cfg, name, AllNoted(cfg, offsets, attempts), rel, i)
       <==> FirstFailure(cfg, name, attempts, rel, i)
  {
    forall j: nat | j < |attempts|
      ensures var noted := AllNoted(cfg, offsets, attempts);
              FailedNear(cfg, name, noted[j], rel) <==> FailedNear(cfg, name, attempts[j], rel)
    {
      FindingsKept(cfg, offsets, attempts, name, rel, j);
    }
  }

  // --- what becomes of a cut-off attempt -------------------------------------------------

  /** The first failure near there has a real reason, or a drop inside. */
  ghost predicate FailsOrDropped(cfg: Config, offsets: seq<int>, name: string, attempts: seq<Attempt>, rel: int,
                                 i: nat)
  {
    && FirstFailure(cfg, name, attempts, rel, i)
    && (!IsTruncation(attempts[i].reason) || Dropped(cfg, attempts[i], offsets))
  }

  /** The held truncation is unresolved, and its position fails for real or with a drop. */
  ghost predicate PromotedByDrop(cfg: Config, offsets: seq<int>, s: State, name: string, c: Cycle)
    requires c.bufLen > 0
  {
    && s.pendingConfirm.Some? && !Resolved(cfg, s, name, c)
    && var rel := Projected(s.pendingConfirm.value, c);
       exists i: nat :: FailsOrDropped(cfg, offsets, name, c.attempts, rel, i)
  }

  lemma FailsForRealKept(cfg: Config, offsets: seq<int>, name: string, attempts: seq<Attempt>, rel: int, i: nat)
    requires cfg.sampleRate > 0 && 1 in cfg.slotOf
    ensures var noted := AllNoted(cfg, offsets, attempts);
            (FirstFailure(cfg, name, noted, rel, i) && !IsTruncation(noted[i].reason))
            <==> FailsOrDropped(cfg, offsets, name, attempts, rel, i)
  {
    FirstFailureKept(cfg, offsets, name, attempts, rel, i);
    if i < |attempts| {
      NotedTruncation(cfg, offsets, attempts[i]);
    }
  }

  /** So a drop in the attempt that fails again promotes a held truncation, as a real reason does. */
  lemma PromotableKept(cfg: Config, offsets: seq<int>, s: State, name: string, c: Cycle)
    requires c.bufLen > 0 && cfg.sampleRate > 0 && 1 in cfg.slotOf
    ensures Promotable(cfg, s, name, NotedCycle(cfg, offsets, c)) <==> PromotedByDrop(cfg, offsets, s, name, c)
  {
    if s.pendingConfirm.Some? {
      ResolvedKept(cfg, offsets, s, name, c);
      var rel := Projected(s.pendingConfirm.value, c);
      forall i: nat
        ensures var noted := AllNoted(cfg, offsets, c.attempts);
                (FirstFailure(cfg, name, noted, rel, i) && !IsTruncation(noted[i].reason))
                <==> FailsOrDropped(cfg, offsets, name, c.attempts, rel, i)
      {
        FailsForRealKept(cfg, offsets, name, c.attempts, rel, i);
      }
    }
  }

  /** The capture is on, and set to this chipset since before this cycle. */
  ghost predicate OnChipset(cfg: Config, s: State, name: string, c: Cycle) {
    && c.bufLen > 0 && cfg.sampleRate > 0 && 1 in cfg.slotOf
    && Structured(s) && s.target == Some(Chipset(name)) && CurrentTarget(c) == s.target && c.tdOn
  }

  /** The first attempt a search of the decoder's list can find. */
  ghost predicate FirstFresh(cfg: Config, name: string, attempts: seq<Attempt>, i: nat)
    requires cfg.sampleRate > 0 && 1 in cfg.slotOf
  {
    FirstWith(attempts, a => FreshFailure(cfg, name, attempts, a), i)
  }

  lemma FirstFreshKept(cfg: Config, offsets: seq<int>, name: string, attempts: seq<Attempt>, i: nat)
    requires cfg.sampleRate > 0 && 1 in cfg.slotOf && FirstFresh(cfg, name, AllNoted(cfg, offsets, attempts), i)
    ensures FirstFresh(cfg, name, attempts, i)
  {
    forall j: nat | j <= i
      ensures var noted := AllNoted(cfg, offsets, attempts);
              FreshFailure(cfg, name, noted, noted[j]) <==> FreshFailure(cfg, name, attempts, attempts[j])
    {
      FindingsKept(cfg, offsets, attempts, name, 0, j);
    }
  }

  /** A cycle's search with drops noted: it finds what it would find without, and holds that for
      confirmation if and only if it is a truncation with no drop in it. */
  lemma HeldExactlyUndropped(cfg: Config, offsets: seq<int>, s: State, name: string, c: Cycle) returns (i: nat)
    requires OnChipset(cfg, s, name, c)
    requires Advance(cfg, s, NotedCycle(cfg, offsets, c)).how in {Fresh, Held}
    ensures FirstFresh(cfg, name, c.attempts, i)
    ensures var r, a := Advance(cfg, s, NotedCycle(cfg, offsets, c)), c.attempts[i];
            && (r.how == Held <==> IsTruncation(a.reason) && !Dropped(cfg, a, offsets))
            && (r.how == Held ==> r.capture.None? && r.state.pendingConfirm.Some?
                                  && r.state.pendingConfirm.value.attempt == a)
            && (r.how == Fresh ==> CapturedOrKept(cfg, r, StartSample(cfg, a), c.chunkLen, Noted(cfg, offsets, a)))
  {
    var c' := NotedCycle(cfg, offsets, c);
    SelectionServed(cfg, s, name, c');
    i := SearchFinds(cfg, s, name, c');
    FirstFreshKept(cfg, offsets, name, c.attempts, i);
    NotedTruncation(cfg, offsets, c.attempts[i]);
    StartKept(cfg, offsets, c.attempts[i]);
  }

  /** Captured in this very cycle, or kept as the pending hit when the window ends too early for it. */
  ghost predicate CapturedOrKept(cfg: Config, r: Result, start: int, chunkLen: int, a: Attempt) {
    if RenderStart(cfg, start) + cfg.tdSamples <= chunkLen
    then r.capture.Some? && r.capture.value.hit.attempt == a
    else r.capture.None? && r.state.pendingHit.Some? && r.state.pendingHit.value.attempt == a
  }

  lemma SelectionServed(cfg: Config, s: State, name: string, c: Cycle)
    requires OnChipset(cfg, s, name, c)
    ensures var sel, r := SelectChipset(cfg, s, name, c), Advance(cfg, s, c);
            && r.how == sel.how
            && (sel.hit.None? ==> r.capture.None? && r.state == sel.state)
            && (sel.how == Fresh ==>
                  && sel.hit.Some?
                  && var a := sel.hit.value.attempt;
                     CapturedOrKept(cfg, r, StartSample(cfg, a), c.chunkLen, a))
  {
    ChipsetSelected(cfg, s, name, c);
  }

  /** A cycle that searches takes the first it can find. */
  lemma SearchFinds(cfg: Config, s: State, name: string, c: Cycle) returns (i: nat)
    requires OnChipset(cfg, s, name, c) && SelectChipset(cfg, s, name, c).how in {Fresh, Held}
    ensures FirstFresh(cfg, name, c.attempts, i)
    ensures var sel := SelectChipset(cfg, s, name, c);
            if IsTruncation(c.attempts[i].reason)
            then sel.how == Held && sel.hit.None? && sel.state.pendingConfirm.Some?
                 && sel.state.pendingConfirm.value.attempt == c.attempts[i]
            else sel.how == Fresh && sel.hit.Some? && sel.hit.value.attempt == c.attempts[i]
  {
    var confirmed := ResolveConfirm(cfg, s, name, c);
    var retried := RetryPending(cfg, confirmed.state, c);
    i := FreshIsFirst(cfg, retried.state, name, c);
  }

  /** The note is what makes the difference: with nothing pending, of a truncation found first the
      capture without it always waits for confirmation; with it, if and only if no drop lies inside. */
  lemma DropSkipsConfirmation(cfg: Config, offsets: seq<int>, s: State, name: string, c: Cycle, i: nat)
    requires OnChipset(cfg, s, name, c) && s.pendingHit.None? && s.pendingConfirm.None?
    requires FirstFresh(cfg, name, c.attempts, i) && IsTruncation(c.attempts[i].reason)
    ensures Advance(cfg, s, c).how == Held
    ensures Advance(cfg, s, NotedCycle(cfg, offsets, c)).how
         == if Dropped(cfg, c.attempts[i], offsets) then Fresh else Held
  {
    FoundFirst(cfg, s, name, c, i);
    var c' := NotedCycle(cfg, offsets, c);
    forall j: nat | j <= i
      ensures FreshFailure(cfg, name, c'.attempts, c'.attempts[j])
         <==> FreshFailure(cfg, name, c.attempts, c.attempts[j])
    {
      FindingsKept(cfg, offsets, c.attempts, name, 0, j);
    }
    FoundFirst(cfg, s, name, c', i);
    NotedTruncation(cfg, offsets, c.attempts[i]);
  }

  lemma FoundFirst(cfg: Config, s: State, name: string, c: Cycle, i: nat)
    requires OnChipset(cfg, s, name, c) && s.pendingHit.None? && s.pendingConfirm.None?
    requires FirstFresh(cfg, name, c.attempts, i)
    ensures Advance(cfg, s, c).how == if IsTruncation(c.attempts[i].reason) then Held else Fresh
  {
    var sel := SelectChipset(cfg, s, name, c);
    assert sel == FreshChipset(cfg, s, name, c);
    var p := a => FreshFailure(cfg, name, c.attempts, a);
    assert c.attempts[i] in c.attempts && p(c.attempts[i]);
    var k := SearchFinds(cfg, s, name, c);
    assert k == i;
    assert Advance(cfg, s, c).how == sel.how;
  }

  lemma {:induction false} DecodedKept(cfg: Config, offsets: seq<int>, attempts: seq<Attempt>, id: int)
    ensures FirstMatch(AllNoted(cfg, offsets, attempts), (a: Attempt) => a.decoded && a.ntwId == Some(id))
         == FirstMatch(attempts, (a: Attempt) => a.decoded && a.ntwId == Some(id))
  {
    if attempts != [] {
      DecodedKept(cfg, offsets, attempts[1..], id);
      assert AllNoted(cfg, offsets, attempts)[1..] == AllNoted(cfg, offsets, attempts[1..]);
    }
  }

  /** A search for a device decides as it would without: only failed attempts are noted. */
  lemma DeviceUnaffected(cfg: Config, offsets: seq<int>, s: State, id: int, c: Cycle)
    requires c.bufLen > 0
    ensures SelectDevice(cfg, s, id, NotedCycle(cfg, offsets, c)) == SelectDevice(cfg, s, id, c)
  {
    DecodedKept(cfg, offsets, c.attempts, id);
  }

  // --- which drops of the stream -------------------------------------------------------------

  function Positions(drops: seq<QueuedDrop>): seq<nat> {
    seq(|drops|, i requires 0 <= i < |drops| => drops[i].position)
  }

  lemma {:induction false} MappedFrom(drops: seq<QueuedDrop>, decodeStart: nat, widx: nat, size: nat, o: int)
    ensures o in MapDrops(Positions(drops), decodeStart, widx, size)
       <==> exists d :: d in drops && MapDrop(d.position, decodeStart, widx, size) == Some(o)
  {
    if drops != [] {
      var front, last := drops[..|drops| - 1], drops[|drops| - 1];
      MappedFrom(front, decodeStart, widx, size, o);
      assert Positions(drops)[..|drops| - 1] == Positions(front);
      assert drops == front + [last];
    }
  }

  /** The drop's first sample is in the attempt's extent on the stream, and was in the window. */
  ghost predicate DropInside(cfg: Config, cycle: Drain, window: nat, size: nat, a: Attempt, d: QueuedDrop)
    requires size > 0
  {
    && WindowHolds(cycle, d, window) && !(d.position == size && Wrap(cycle.widx - window, size) == 0)
    && var start := cycle.total - window;
       start + DropStart(cfg, a) <= d.total <= start + DropEnd(cfg, a)
  }

  /** From the queue to the note: an attempt of a cycle is noted if and only if one of the drops that
      cycle drained lies inside it on the stream, parked position apart. */
  lemma NotedByDrop(cfg: Config, cycle: Drain, window: nat, size: nat, a: Attempt)
    requires forall d :: d in cycle.drops ==> Sound(cycle, d, window, size)
    requires 0 < window < size
    ensures Dropped(cfg, a, MapDrops(Positions(cycle.drops), Wrap(cycle.widx - window, size), cycle.widx, size))
       <==> exists d :: d in cycle.drops && DropInside(cfg, cycle, window, size, a, d)
  {
    var decodeStart := Wrap(cycle.widx - window, size);
    var offsets := MapDrops(Positions(cycle.drops), decodeStart, cycle.widx, size);
    if o :| o in offsets && DropStart(cfg, a) <= o <= DropEnd(cfg, a) {
      MappedFrom(cycle.drops, decodeStart, cycle.widx, size, o);
      var d :| d in cycle.drops && MapDrop(d.position, decodeStart, cycle.widx, size) == Some(o);
      MappedInside(cfg, cycle, window, size, a, d);
    }
    if d :| d in cycle.drops && DropInside(cfg, cycle, window, size, a, d) {
      MappedInside(cfg, cycle, window, size, a, d);
      MappedFrom(cycle.drops, decodeStart, cycle.widx, size, d.total - (cycle.total - window));
    }
  }

  /** One drop's offset lies in the attempt exactly when its first sample does. */
  lemma MappedInside(cfg: Config, cycle: Drain, window: nat, size: nat, a: Attempt, d: QueuedDrop)
    requires Sound(cycle, d, window, size)
    ensures var m := MapDrop(d.position, Wrap(cycle.widx - window, size), cycle.widx, size);
            && (m.Some? ==> m.value == d.total - (cycle.total - window))
            && (DropInside(cfg, cycle, window, size, a, d)
                <==> m.Some? && DropStart(cfg, a) <= m.value <= DropEnd(cfg, a))
  {
    MapDropExact(d.position, d.total, cycle.widx, cycle.total, window, size);
  }
}
