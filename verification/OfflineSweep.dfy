/** The offline sweep over a recording: overlapping decoder windows, bucketed de-duplication and
    a final sort.  Times are kept in samples; the decoder is a parameter. */
module OfflineSweep {
  import opened Options

  // --- window offsets ----------------------------------------------------------------

  function Step(win: nat, interval: nat): nat {
    if win > interval + 1 then win - interval else 1
  }

  /** Neighbouring windows overlap by the interval, unless that would not move them on. */
  lemma StepOverlaps(win: nat, interval: nat)
    ensures Step(win, interval) >= 1
    ensures win - Step(win, interval) == interval || (Step(win, interval) == 1 && win <= interval)
  {
  }

  /** The windows start at 0, move forward by at most `step`, and end with the recording. */
  ghost predicate Covers(offsets: seq<nat>, n: nat, win: nat, step: nat) {
    && |offsets| > 0 && offsets[0] == 0
    && (n <= win ==> |offsets| == 1)
    && (n > win ==> offsets[|offsets| - 1] == n - win)
    && (forall i :: 0 < i < |offsets| ==> offsets[i - 1] < offsets[i] <= offsets[i - 1] + step)
  }

  /** They cover the recording, all but the last a whole step apart. */
  ghost predicate IsSchedule(offsets: seq<nat>, n: nat, win: nat, interval: nat) {
    && Covers(offsets, n, win, Step(win, interval))
    && forall i :: 0 < i < |offsets| - 1 ==> offsets[i] == offsets[i - 1] + Step(win, interval)
  }

  /** `_window_offsets`. */
  method WindowOffsets(n: nat, win: nat, interval: nat) returns (offsets: seq<nat>)
    ensures IsSchedule(offsets, n, win, interval)
  {
    if n <= win {
      return [0];
    }
    var step := Step(win, interval);
    offsets := [0];
    var next := step;
    while next < n - win + 1
      invariant |offsets| > 0 && offsets[0] == 0
      invariant next == offsets[|offsets| - 1] + step
      invariant offsets[|offsets| - 1] <= n - win
      invariant forall i :: 0 < i < |offsets| ==> offsets[i] == offsets[i - 1] + step
      decreases n - win + 1 - next
    {
      offsets := offsets + [next];
      next := next + step;
    }
    if offsets[|offsets| - 1] != n - win {
      offsets := offsets + [n - win];
    }
  }

  /** Every stretch no longer than the overlap of two windows lies wholly in one of them. */
  lemma {:induction false} StretchInWindow(offsets: seq<nat>, n: nat, win: nat, step: nat, a: nat, len: nat, i: nat)
    returns (j: nat)
    requires Covers(offsets, n, win, step) && a + len <= n
    requires n <= win || len + step <= win
    requires i < |offsets| && offsets[i] <= a
    ensures j < |offsets| && offsets[j] <= a && a + len <= offsets[j] + win
    decreases |offsets| - i
  {
    if i + 1 < |offsets| && offsets[i + 1] <= a {
      j := StretchInWindow(offsets, n, win, step, a, len, i + 1);
    } else {
      j := i;
      if i + 1 < |offsets| {
        assert offsets[i + 1 - 1] < offsets[i + 1] <= offsets[i + 1 - 1] + step;
      }
    }
  }

  // --- packets ---------------------------------------------------------------------------

  datatype Packet = Packet(ntwId: Option<int>, seqNum: Option<int>, authTag: Option<int>, payloadVal: Option<int>)

  datatype Attempt = Attempt(ntwId: Option<int>, seqNum: Option<int>, decoded: bool, startSample: Option<int>)

  /** What the decoder does with one window. */
  datatype Outcome = Raised | Decoded(packets: seq<Packet>, attempts: seq<Attempt>)

  datatype Record = Record(packet: Packet, absStart: int)

  datatype Ids = Ids(ntwId: Option<int>, seqNum: Option<int>)

  datatype Content = Content(seqNum: Option<int>, authTag: Option<int>, payloadVal: Option<int>)

  function IdsOf(p: Packet): Ids {
    Ids(p.ntwId, p.seqNum)
  }

  function ContentOf(p: Packet): Content {
    Content(p.seqNum, p.authTag, p.payloadVal)
  }

  /** Start samples of the decoded attempts; a later attempt replaces an earlier one. */
  function Starts(attempts: seq<Attempt>): map<Ids, int> {
    if attempts == [] then map[]
    else
      var m := Starts(attempts[..|attempts| - 1]);
      var a := attempts[|attempts| - 1];
      if a.decoded && a.startSample.Some? then m[Ids(a.ntwId, a.seqNum) := a.startSample.value] else m
  }

  /** Packets of one window with their absolute starts, before de-duplication. */
  function Sightings(starts: map<Ids, int>, offset: nat, packets: seq<Packet>): seq<Record> {
    if packets == [] then []
    else
      var p := packets[|packets| - 1];
      Sightings(starts, offset, packets[..|packets| - 1])
      + if IdsOf(p) in starts then [Record(p, offset + starts[IdsOf(p)])] else []
  }

  function SightingsOf(outcome: Outcome, offset: nat): seq<Record> {
    match outcome
    case Raised => []
    case Decoded(packets, attempts) => Sightings(Starts(attempts), offset, packets)
  }

  function Window<S>(iq: seq<S>, offset: nat, win: nat): seq<S> {
    if offset >= |iq| then [] else if offset + win <= |iq| then iq[offset..offset + win] else iq[offset..]
  }

  /** Sightings of all windows in order. */
  function AllSightings<S>(iq: seq<S>, win: nat, decode: seq<S> -> Outcome, offsets: seq<nat>): seq<Record> {
    if offsets == [] then []
    else
      var o := offsets[|offsets| - 1];
      AllSightings(iq, win, decode, offsets[..|offsets| - 1]) + SightingsOf(decode(Window(iq, o, win)), o)
  }

  predicate SameWithin(a: Record, b: Record, tol: int) {
    ContentOf(a.packet) == ContentOf(b.packet) && -tol < a.absStart - b.absStart < tol
  }

  /** A sighting is kept unless it repeats one already kept. */
  function Keep(kept: seq<Record>, r: Record, tol: int): seq<Record> {
    if exists k | k in kept :: SameWithin(r, k, tol) then kept else kept + [r]
  }

  function Dedup(kept: seq<Record>, records: seq<Record>, tol: int): seq<Record> {
    if records == [] then kept
    else Keep(Dedup(kept, records[..|records| - 1], tol), records[|records| - 1], tol)
  }

  // --- sorting --------------------------------------------------------------------------

  ghost predicate InTimeOrder(records: seq<Record>) {
    forall i, j :: 0 <= i < j < |records| ==> records[i].absStart <= records[j].absStart
  }

  /** Insert after everything that does not start later: a stable sort, one element at a time. */
  function Insert(records: seq<Record>, r: Record): (out: seq<Record>)
    requires InTimeOrder(records)
    ensures InTimeOrder(out) && |out| == |records| + 1
    ensures out[|records|].absStart ==
              if records != [] && records[|records| - 1].absStart > r.absStart
              then records[|records| - 1].absStart else r.absStart
  {
    if records == [] || records[|records| - 1].absStart <= r.absStart then records + [r]
    else Insert(records[..|records| - 1], r) + [records[|records| - 1]]
  }

  lemma {:induction false} InsertPermutes(records: seq<Record>, r: Record)
    requires InTimeOrder(records)
    ensures multiset(Insert(records, r)) == multiset(records) + multiset{r}
  {
    if !(records == [] || records[|records| - 1].absStart <= r.absStart) {
      var front, last := records[..|records| - 1], records[|records| - 1];
      InsertPermutes(front, r);
      assert Insert(records, r) == Insert(front, r) + [last];
      assert records == front + [last];
    }
  }

  function SortByStart(records: seq<Record>): (out: seq<Record>)
    ensures InTimeOrder(out)
  {
    if records == [] then []
    else Insert(SortByStart(records[..|records| - 1]), records[|records| - 1])
  }

  lemma {:induction false} SortPermutes(records: seq<Record>)
    ensures multiset(SortByStart(records)) == multiset(records)
  {
    if records != [] {
      var front, last := records[..|records| - 1], records[|records| - 1];
      SortPermutes(front);
      assert SortByStart(records) == Insert(SortByStart(front), last);
      InsertPermutes(SortByStart(front), last);
      assert records == front + [last];
      assert multiset(front + [last]) == multiset(front) + multiset{last};
    }
  }

  // --- the sweep --------------------------------------------------------------------------

  /** The dictionary of accepted starts, shared by all windows. */
  class SeenPackets {
    var buckets: map<Content, seq<int>>

    constructor ()
      ensures buckets == map[]
    {
      buckets := map[];
    }

    /** The buckets hold exactly the starts of the kept records, by content. */
    ghost predicate Holds(kept: seq<Record>)
      reads this
    {
      forall c: Content, t: int ::
        InBucket(c, t) <==> (exists k :: k in kept && ContentOf(k.packet) == c && k.absStart == t)
    }

    predicate InBucket(c: Content, t: int)
      reads this
    {
      c in buckets && t in buckets[c]
    }

    /** `_is_duplicate`: decides, and records the start of a new packet. */
    method IsDuplicate(r: Record, tol: int, ghost kept: seq<Record>) returns (dup: bool)
      requires Holds(kept)
      modifies this
      ensures dup <==> exists k :: k in kept && SameWithin(r, k, tol)
      ensures Holds(Keep(kept, r, tol))
    {
      var key := ContentOf(r.packet);
      var times := if key in buckets then buckets[key] else [];
      if exists t | t in times :: -tol < r.absStart - t < tol {
        ghost var t :| t in times && -tol < r.absStart - t < tol;
        assert InBucket(key, t);
        ghost var k :| k in kept && ContentOf(k.packet) == key && k.absStart == t;
        assert SameWithin(r, k, tol);
        return true;
      }
      dup := false;
      assert forall k :: k in kept && ContentOf(k.packet) == key ==> InBucket(key, k.absStart);
      label before:
      buckets := buckets[key := times + [r.absStart]];
      forall c: Content, t: int
        ensures InBucket(c, t) <==> (exists k :: k in kept + [r] && ContentOf(k.packet) == c && k.absStart == t)
      {
        assert InBucket(c, t) <==> old@before(InBucket(c, t)) || (c == key && t == r.absStart);
        if c == key && t == r.absStart {
          assert r in kept + [r];
        }
      }
    }
  }

  lemma DedupLast(kept: seq<Record>, records: seq<Record>, r: Record, tol: int)
    ensures Dedup(kept, records + [r], tol) == Keep(Dedup(kept, records, tol), r, tol)
  {
    assert (records + [r])[..|records|] == records;
  }

  lemma SightingsLast(starts: map<Ids, int>, offset: nat, packets: seq<Packet>, i: nat)
    requires i < |packets|
    ensures Sightings(starts, offset, packets[..i + 1])
         == Sightings(starts, offset, packets[..i])
            + if IdsOf(packets[i]) in starts then [Record(packets[i], offset + starts[IdsOf(packets[i])])] else []
  {
    assert packets[..i + 1][..i] == packets[..i];
  }

  lemma AllSightingsLast<S>(iq: seq<S>, win: nat, decode: seq<S> -> Outcome, offsets: seq<nat>, w: nat)
    requires w < |offsets|
    ensures AllSightings(iq, win, decode, offsets[..w + 1])
         == AllSightings(iq, win, decode, offsets[..w])
            + SightingsOf(decode(Window(iq, offsets[w], win)), offsets[w])
  {
    assert offsets[..w + 1][..w] == offsets[..w];
  }

  /** The loop over one window's packets. */
  method AddWindow(seen: SeenPackets, kept: seq<Record>, starts: map<Ids, int>, offset: nat, packets: seq<Packet>,
                   tol: int, ghost before: seq<Record>)
    returns (accepted: seq<Record>)
    requires seen.Holds(kept) && kept == Dedup([], before, tol)
    modifies seen
    ensures seen.Holds(accepted)
    ensures accepted == Dedup([], before + Sightings(starts, offset, packets), tol)
  {
    accepted := kept;
    assert before + [] == before;
    for i := 0 to |packets|
      invariant seen.Holds(accepted)
      invariant accepted == Dedup([], before + Sightings(starts, offset, packets[..i]), tol)
    {
      SightingsLast(starts, offset, packets, i);
      var p := packets[i];
      if IdsOf(p) in starts {
        var d := Record(p, offset + starts[IdsOf(p)]);
        ghost var sofar := before + Sightings(starts, offset, packets[..i]);
        DedupLast([], sofar, d, tol);
        assert sofar + [d] == before + Sightings(starts, offset, packets[..i + 1]);
        var dup := seen.IsDuplicate(d, tol, accepted);
        if !dup {
          accepted := accepted + [d];
        }
      } else {
        assert Sightings(starts, offset, packets[..i + 1]) == Sightings(starts, offset, packets[..i]);
      }
    }
    assert packets[..|packets|] == packets;
  }

  /** `decode_packets`: a window whose decode raises is skipped. */
  method DecodePackets<S>(iq: seq<S>, win: nat, interval: nat, tol: int, decode: seq<S> -> Outcome)
    returns (accepted: seq<Record>)
    ensures exists offsets :: IsSchedule(offsets, |iq|, win, interval)
                           && accepted == SortByStart(Dedup([], AllSightings(iq, win, decode, offsets), tol))
    ensures forall air: set<Air> :: Separated(air, tol) && DecodesRecording(iq, win, interval, decode, air) ==>
              InTimeOrder(accepted) && multiset(accepted) == multiset(RecordsOf(air))
  {
    var seen := new SeenPackets();
    accepted := [];
    var windows := WindowOffsets(|iq|, win, interval);
    for w := 0 to |windows|
      invariant fresh(seen) && seen.Holds(accepted)
      invariant accepted == Dedup([], AllSightings(iq, win, decode, windows[..w]), tol)
    {
      AllSightingsLast(iq, win, decode, windows, w);
      ghost var before := AllSightings(iq, win, decode, windows[..w]);
      match decode(Window(iq, windows[w], win)) {
        case Raised =>
          assert before + [] == before;
        case Decoded(packets, attempts) =>
          accepted := AddWindow(seen, accepted, Starts(attempts), windows[w], packets, tol, before);
      }
    }
    assert windows[..|windows|] == windows;
    accepted := SortByStart(accepted);
    forall air: set<Air> | Separated(air, tol) && DecodesRecording(iq, win, interval, decode, air)
      ensures InTimeOrder(accepted) && multiset(accepted) == multiset(RecordsOf(air))
    {
      RecordingSurveyed(iq, win, interval, decode, air, windows);
      OfflineExactlyOnce(iq, win, interval, decode, air, windows, tol);
    }
  }

  // --- what the sweep returns -----------------------------------------------------------------

  ghost predicate NoRepeats(kept: seq<Record>, tol: int) {
    forall i, j :: 0 <= i < j < |kept| ==> !SameWithin(kept[j], kept[i], tol)
  }

  /** Something kept stands for `r`. */
  ghost predicate Represented(kept: seq<Record>, r: Record, tol: int) {
    exists k :: k in kept && SameWithin(r, k, tol)
  }

  lemma KeepSound(kept: seq<Record>, r: Record, tol: int)
    requires tol > 0 && NoRepeats(kept, tol)
    ensures NoRepeats(Keep(kept, r, tol), tol)
    ensures Represented(Keep(kept, r, tol), r, tol)
    ensures forall x :: Represented(kept, x, tol) ==> Represented(Keep(kept, r, tol), x, tol)
  {
    var kept' := Keep(kept, r, tol);
    assert SameWithin(r, r, tol);
    if kept' != kept {
      assert kept' == kept + [r] && r in kept';
    }
    forall x | Represented(kept, x, tol)
      ensures Represented(kept', x, tol)
    {
      var k :| k in kept && SameWithin(x, k, tol);
      assert k in kept';
    }
  }

  /** For any decoder: nothing kept repeats another, and everything seen repeats something kept. */
  lemma {:induction false} DedupSound(records: seq<Record>, tol: int)
    requires tol > 0
    ensures NoRepeats(Dedup([], records, tol), tol)
    ensures forall k :: k in Dedup([], records, tol) ==> k in records
    ensures forall r :: r in records ==> Represented(Dedup([], records, tol), r, tol)
  {
    if records != [] {
      var front, last := records[..|records| - 1], records[|records| - 1];
      assert records == front + [last];
      DedupSound(front, tol);
      KeepSound(Dedup([], front, tol), last, tol);
    }
  }

  /** A packet on the recording. */
  datatype Air = Air(packet: Packet, start: nat, length: nat)

  function RecordOf(a: Air): Record {
    Record(a.packet, a.start)
  }

  predicate Inside(a: Air, lo: nat, hi: nat) {
    lo <= a.start && a.start + a.length <= hi
  }

  /** The decoder's contract on one window: it returns precisely the packets lying fully inside,
      each with a decoded attempt at its start. */
  ghost predicate Lists(air: set<Air>, lo: nat, hi: nat, outcome: Outcome) {
    && outcome.Decoded?
    && (forall a :: a in air && Inside(a, lo, hi) ==>
          && a.packet in outcome.packets
          && Attempt(a.packet.ntwId, a.packet.seqNum, true, Some(a.start - lo)) in outcome.attempts)
    && (forall p :: p in outcome.packets ==> exists a :: a in air && Inside(a, lo, hi) && a.packet == p)
    && (forall t :: t in outcome.attempts && t.decoded && t.startSample.Some? ==> AttemptFits(air, lo, hi, t))
  }

  /** And no two of them share their identifiers. */
  ghost predicate Precise(air: set<Air>, lo: nat, hi: nat, outcome: Outcome) {
    Lists(air, lo, hi, outcome) && OwnIds(air, lo, hi)
  }

  ghost predicate OwnIds(air: set<Air>, lo: nat, hi: nat) {
    forall a, b ::
      (a in air && b in air && Inside(a, lo, hi) && Inside(b, lo, hi) && IdsOf(a.packet) == IdsOf(b.packet))
      ==> a == b
  }

  ghost predicate AttemptFits(air: set<Air>, lo: nat, hi: nat, t: Attempt) {
    exists a :: a in air && Inside(a, lo, hi) && IdsOf(a.packet) == Ids(t.ntwId, t.seqNum)
                && t.startSample == Some(a.start - lo)
  }

  /** Packets of the same content are a tolerance or more apart. */
  ghost predicate Separated(air: set<Air>, tol: int) {
    && tol > 0
    && forall a, b :: a in air && b in air && a != b && ContentOf(a.packet) == ContentOf(b.packet) ==>
         a.start - b.start >= tol || b.start - a.start >= tol
  }

  lemma {:induction false} StartsFromAttempts(attempts: seq<Attempt>)
    ensures forall k :: k in Starts(attempts) ==>
              Attempt(k.ntwId, k.seqNum, true, Some(Starts(attempts)[k])) in attempts
    ensures forall t :: t in attempts && t.decoded && t.startSample.Some? ==> Ids(t.ntwId, t.seqNum) in Starts(attempts)
  {
    if attempts != [] {
      StartsFromAttempts(attempts[..|attempts| - 1]);
      var a := attempts[|attempts| - 1];
      assert attempts == attempts[..|attempts| - 1] + [a];
      assert a in attempts;
    }
  }

  lemma {:induction false} SightingsExactly(starts: map<Ids, int>, offset: nat, packets: seq<Packet>, r: Record)
    ensures r in Sightings(starts, offset, packets)
       <==> r.packet in packets && IdsOf(r.packet) in starts && r.absStart == offset + starts[IdsOf(r.packet)]
  {
    if packets != [] {
      var front, last := packets[..|packets| - 1], packets[|packets| - 1];
      SightingsExactly(starts, offset, front, r);
      assert r.packet in packets <==> r.packet in front || r.packet == last by {
        assert packets == front + [last];
      }
    }
  }

  /** A precise window sights exactly its packets, at their absolute starts. */
  lemma PreciseSightings(air: set<Air>, lo: nat, hi: nat, outcome: Outcome, r: Record)
    requires Precise(air, lo, hi, outcome)
    ensures r in SightingsOf(outcome, lo) <==> exists a :: a in air && Inside(a, lo, hi) && r == RecordOf(a)
  {
    var starts := Starts(outcome.attempts);
    StartsFromAttempts(outcome.attempts);
    SightingsExactly(starts, lo, outcome.packets, r);
    if r in SightingsOf(outcome, lo) {
      var a :| a in air && Inside(a, lo, hi) && a.packet == r.packet;
      StartIsTrue(air, lo, hi, outcome, a);
      assert r == RecordOf(a);
    }
    if a :| a in air && Inside(a, lo, hi) && r == RecordOf(a) {
      StartIsTrue(air, lo, hi, outcome, a);
    }
  }

  lemma StartIsTrue(air: set<Air>, lo: nat, hi: nat, outcome: Outcome, a: Air)
    requires Precise(air, lo, hi, outcome) && a in air && Inside(a, lo, hi)
    ensures IdsOf(a.packet) in Starts(outcome.attempts)
    ensures Starts(outcome.attempts)[IdsOf(a.packet)] == a.start - lo
  {
    StartsFromAttempts(outcome.attempts);
    var t := Attempt(a.packet.ntwId, a.packet.seqNum, true, Some(a.start - lo));
    assert t in outcome.attempts;
    var k := IdsOf(a.packet);
    var u := Attempt(k.ntwId, k.seqNum, true, Some(Starts(outcome.attempts)[k]));
    assert u in outcome.attempts && AttemptFits(air, lo, hi, u);
  }

  function End<S>(iq: seq<S>, offset: nat, win: nat): nat {
    if offset + win <= |iq| then offset + win else |iq|
  }

  /** The window at an offset is that stretch of the recording: `win` samples, or as many as there are. */
  lemma WindowIsStretch<S>(iq: seq<S>, o: nat, win: nat)
    requires o <= |iq|
    ensures o <= End(iq, o, win) <= |iq| && Window(iq, o, win) == iq[o..End(iq, o, win)]
    ensures |Window(iq, o, win)| == End(iq, o, win) - o == (if win < |iq| - o then win else |iq| - o)
    ensures forall k :: 0 <= k < |Window(iq, o, win)| ==> Window(iq, o, win)[k] == iq[o + k]
  {
  }

  /** Every window is either decoded precisely or its decode raises. */
  ghost predicate WindowSound<S>(iq: seq<S>, win: nat, decode: seq<S> -> Outcome, air: set<Air>, o: nat) {
    && o <= |iq|
    && var outcome := decode(iq[o..End(iq, o, win)]);
       outcome.Raised? || Precise(air, o, End(iq, o, win), outcome)
  }

  /** The packet lies fully inside a window that was decoded. */
  ghost predicate Caught<S>(iq: seq<S>, win: nat, decode: seq<S> -> Outcome, offsets: seq<nat>, a: Air) {
    exists o :: o in offsets && CaughtAt(iq, win, decode, o, a)
  }

  ghost predicate CaughtAt<S>(iq: seq<S>, win: nat, decode: seq<S> -> Outcome, o: nat, a: Air) {
    o <= |iq| && !decode(iq[o..End(iq, o, win)]).Raised? && Inside(a, o, End(iq, o, win))
  }

  lemma {:induction false} AllSightingsExactly<S>(iq: seq<S>, win: nat, decode: seq<S> -> Outcome, air: set<Air>,
                                                  offsets: seq<nat>, r: Record)
    requires forall o :: o in offsets ==> WindowSound(iq, win, decode, air, o)
    ensures r in AllSightings(iq, win, decode, offsets)
       <==> exists a :: a in air && Caught(iq, win, decode, offsets, a) && r == RecordOf(a)
  {
    if offsets != [] {
      var front := offsets[..|offsets| - 1];
      var o := offsets[|offsets| - 1];
      assert offsets == front + [o];
      AllSightingsExactly(iq, win, decode, air, front, r);
      assert forall a :: Caught(iq, win, decode, offsets, a)
                    <==> Caught(iq, win, decode, front, a) || CaughtAt(iq, win, decode, o, a);
      var outcome := decode(Window(iq, o, win));
      assert WindowSound(iq, win, decode, air, o);
      WindowIsStretch(iq, o, win);
      if outcome.Decoded? {
        PreciseSightings(air, o, End(iq, o, win), outcome, r);
      }
    }
  }

  /** When distinct sightings never repeat one another, de-duplication keeps each exactly once. */
  lemma {:induction false} DedupOnce(records: seq<Record>, tol: int)
    requires tol > 0
    requires forall x, y :: x in records && y in records && SameWithin(x, y, tol) ==> x == y
    ensures multiset(Dedup([], records, tol)) == multiset(set r | r in records)
  {
    if records != [] {
      var front := records[..|records| - 1];
      var last := records[|records| - 1];
      assert records == front + [last];
      assert forall x :: x in front ==> x in records;
      DedupOnce(front, tol);
      DedupSound(front, tol);
      DedupLast([], front, last, tol);
      NewOnce(front, Dedup([], front, tol), last, tol);
      assert (set r | r in records) == (set r | r in front) + {last};
    }
  }

  lemma NewOnce(front: seq<Record>, kept: seq<Record>, last: Record, tol: int)
    requires tol > 0 && multiset(kept) == multiset(set r | r in front)
    requires forall k :: k in kept && SameWithin(last, k, tol) ==> k == last
    requires forall k :: k in kept ==> k in front
    ensures multiset(Keep(kept, last, tol)) == multiset((set r | r in front) + {last})
  {
    var s := set r | r in front;
    assert last in s <==> last in multiset(kept);
    if last in s {
      assert last in kept && SameWithin(last, last, tol);
      assert s + {last} == s;
    } else {
      assert Keep(kept, last, tol) == kept + [last];
    }
  }

  function RecordsOf(air: set<Air>): set<Record> {
    set a | a in air :: RecordOf(a)
  }

  ghost function CaughtAir<S>(iq: seq<S>, win: nat, decode: seq<S> -> Outcome, offsets: seq<nat>, air: set<Air>):
    set<Air>
  {
    set a | a in air && Caught(iq, win, decode, offsets, a)
  }

  lemma DistinctRecords(air: set<Air>, tol: int, x: Record, y: Record)
    requires Separated(air, tol) && x in RecordsOf(air) && y in RecordsOf(air) && SameWithin(x, y, tol)
    ensures x == y
  {
    var a :| a in air && x == RecordOf(a);
    var b :| b in air && y == RecordOf(b);
  }

  lemma SightedExactly<S>(iq: seq<S>, win: nat, decode: seq<S> -> Outcome, air: set<Air>, offsets: seq<nat>, r: Record)
    requires forall o :: o in offsets ==> WindowSound(iq, win, decode, air, o)
    ensures r in AllSightings(iq, win, decode, offsets) <==> r in RecordsOf(CaughtAir(iq, win, decode, offsets, air))
  {
    AllSightingsExactly(iq, win, decode, air, offsets, r);
  }

  /** Exactly once, failed windows included: the sweep returns precisely the packets that lie
      fully inside some window whose decode did not raise, each once, at its absolute start, in
      time order. */
  lemma SweepReturnsCaught<S>(iq: seq<S>, win: nat, decode: seq<S> -> Outcome, air: set<Air>, offsets: seq<nat>,
                              tol: int)
    requires Separated(air, tol)
    requires forall o :: o in offsets ==> WindowSound(iq, win, decode, air, o)
    ensures var out := SortByStart(Dedup([], AllSightings(iq, win, decode, offsets), tol));
            InTimeOrder(out) && multiset(out) == multiset(RecordsOf(CaughtAir(iq, win, decode, offsets, air)))
  {
    var records := AllSightings(iq, win, decode, offsets);
    var caught := CaughtAir(iq, win, decode, offsets, air);
    forall r
      ensures r in records <==> r in RecordsOf(caught)
    {
      SightedExactly(iq, win, decode, air, offsets, r);
    }
    forall x, y | x in records && y in records && SameWithin(x, y, tol)
      ensures x == y
    {
      DistinctRecords(caught, tol, x, y);
    }
    SortedOnce(records, RecordsOf(caught), tol);
  }

  lemma SortedOnce(records: seq<Record>, distinct: set<Record>, tol: int)
    requires tol > 0
    requires forall x, y :: x in records && y in records && SameWithin(x, y, tol) ==> x == y
    requires forall r :: r in records <==> r in distinct
    ensures multiset(SortByStart(Dedup([], records, tol))) == multiset(distinct)
  {
    DedupOnce(records, tol);
    SortPermutes(Dedup([], records, tol));
    assert (set r | r in records) == distinct;
  }

  /** The windows are sound, none of them raised, and every packet is short enough for the overlap. */
  ghost predicate Surveyed<S>(iq: seq<S>, win: nat, interval: nat, decode: seq<S> -> Outcome, air: set<Air>,
                              offsets: seq<nat>)
  {
    && IsSchedule(offsets, |iq|, win, interval)
    && (forall o :: o in offsets ==>
          WindowSound(iq, win, decode, air, o) && !decode(iq[o..End(iq, o, win)]).Raised?)
    && (forall a :: a in air ==>
          a.start + a.length <= |iq| && (|iq| <= win || a.length + Step(win, interval) <= win))
  }

  /** The schedule leaves no choice. */
  lemma ScheduleDetermined(a: seq<nat>, b: seq<nat>, n: nat, win: nat, interval: nat)
    requires IsSchedule(a, n, win, interval) && IsSchedule(b, n, win, interval)
    ensures a == b
  {
    SameOffset(a, b, n, win, interval, |a| - 1);
    forall i | 0 <= i < |a|
      ensures i < |b| && a[i] == b[i]
    {
      SameOffset(a, b, n, win, interval, i);
    }
  }

  lemma {:induction false} SameOffset(a: seq<nat>, b: seq<nat>, n: nat, win: nat, interval: nat, i: nat)
    requires IsSchedule(a, n, win, interval) && IsSchedule(b, n, win, interval) && i < |a|
    ensures i < |b| && a[i] == b[i] && (i + 1 == |a| <==> i + 1 == |b|)
  {
    if i > 0 {
      SameOffset(a, b, n, win, interval, i - 1);
    }
    if n > win {
      EndsLast(a, n, win, interval, i);
      EndsLast(b, n, win, interval, i);
    }
  }

  /** Only the last window ends with the recording. */
  lemma {:induction false} EndsLast(a: seq<nat>, n: nat, win: nat, interval: nat, i: nat)
    requires IsSchedule(a, n, win, interval) && i < |a| && n > win
    ensures if i + 1 == |a| then a[i] == n - win else a[i] < n - win
    decreases |a| - i
  {
    if i + 1 < |a| {
      EndsLast(a, n, win, interval, i + 1);
      assert a[i + 1 - 1] < a[i + 1];
    }
  }

  lemma AllCaught<S>(iq: seq<S>, win: nat, interval: nat, decode: seq<S> -> Outcome, air: set<Air>, offsets: seq<nat>)
    requires Surveyed(iq, win, interval, decode, air, offsets)
    ensures CaughtAir(iq, win, decode, offsets, air) == air
  {
    forall a | a in air
      ensures Caught(iq, win, decode, offsets, a)
    {
      var j := StretchInWindow(offsets, |iq|, win, Step(win, interval), a.start, a.length, 0);
      assert offsets[j] in offsets && CaughtAt(iq, win, decode, offsets[j], a);
    }
  }

  /** With packets no longer than the window overlap and no failed window, that is every packet of
      the recording. */
  lemma OfflineExactlyOnce<S>(iq: seq<S>, win: nat, interval: nat, decode: seq<S> -> Outcome, air: set<Air>,
                              offsets: seq<nat>, tol: int)
    requires Separated(air, tol) && Surveyed(iq, win, interval, decode, air, offsets)
    ensures var out := SortByStart(Dedup([], AllSightings(iq, win, decode, offsets), tol));
            InTimeOrder(out) && multiset(out) == multiset(RecordsOf(air))
  {
    SweepReturnsCaught(iq, win, decode, air, offsets, tol);
    AllCaught(iq, win, interval, decode, air, offsets);
  }

  /** The decoder's contract for a recording: every stretch of one window, the whole recording if it is
      shorter, is decoded precisely; and packets lie in the recording, no longer than windows overlap. */
  ghost predicate DecodesRecording<S>(iq: seq<S>, win: nat, interval: nat, decode: seq<S> -> Outcome, air: set<Air>) {
    && (forall o: nat {:trigger End(iq, o, win)} :: (o == 0 || o + win <= |iq|) ==>
          Precise(air, o, End(iq, o, win), decode(iq[o..End(iq, o, win)])))
    && (forall a :: a in air ==>
          a.start + a.length <= |iq| && (|iq| <= win || (a.length <= interval && a.length < win)))
  }

  lemma ScheduleInside(offsets: seq<nat>, n: nat, win: nat, interval: nat, i: nat)
    requires IsSchedule(offsets, n, win, interval) && i < |offsets|
    ensures offsets[i] == 0 || offsets[i] + win <= n
  {
    if n > win {
      EndsLast(offsets, n, win, interval, i);
    }
  }

  /** So the sweep over such a recording returns every packet once, in time order. */
  lemma RecordingSurveyed<S>(iq: seq<S>, win: nat, interval: nat, decode: seq<S> -> Outcome, air: set<Air>,
                             offsets: seq<nat>)
    requires DecodesRecording(iq, win, interval, decode, air) && IsSchedule(offsets, |iq|, win, interval)
    ensures Surveyed(iq, win, interval, decode, air, offsets)
  {
    forall o | o in offsets
      ensures WindowSound(iq, win, decode, air, o) && !decode(iq[o..End(iq, o, win)]).Raised?
    {
      var i :| 0 <= i < |offsets| && offsets[i] == o;
      ScheduleInside(offsets, |iq|, win, interval, i);
      assert Precise(air, o, End(iq, o, win), decode(iq[o..End(iq, o, win)]));
    }
  }

  /** No two packets of the recording look like one within the tolerance.  The content compared has
      no device in it. */
  ghost predicate Distinguishable(air: set<Air>, tol: int) {
    AllApart(RecordsOf(air), tol)
  }

  /** And only then: the sweep returns every packet exactly once if and only if no two of them share
      sequence number, tag and payload within the tolerance. */
  lemma OfflineOnceExactlyWhen<S>(iq: seq<S>, win: nat, interval: nat, decode: seq<S> -> Outcome, air: set<Air>,
                                  offsets: seq<nat>, tol: int)
    requires tol > 0 && Surveyed(iq, win, interval, decode, air, offsets)
    ensures multiset(SortByStart(Dedup([], AllSightings(iq, win, decode, offsets), tol))) == multiset(RecordsOf(air))
       <==> Distinguishable(air, tol)
  {
    var records := AllSightings(iq, win, decode, offsets);
    AllCaught(iq, win, interval, decode, air, offsets);
    forall r
      ensures r in records <==> r in RecordsOf(air)
    {
      SightedExactly(iq, win, decode, air, offsets, r);
    }
    OnceExactlyWhen(records, RecordsOf(air), tol);
  }

  ghost predicate AllApart(distinct: set<Record>, tol: int) {
    forall x, y :: x in distinct && y in distinct && SameWithin(x, y, tol) ==> x == y
  }

  /** Of any sightings: each is returned exactly once if and only if no two of them repeat each other. */
  lemma OnceExactlyWhen(records: seq<Record>, distinct: set<Record>, tol: int)
    requires tol > 0 && forall r :: r in records <==> r in distinct
    ensures multiset(SortByStart(Dedup([], records, tol))) == multiset(distinct) <==> AllApart(distinct, tol)
  {
    if AllApart(distinct, tol) {
      SortedOnce(records, distinct, tol);
    }
    SortPermutes(Dedup([], records, tol));
    if multiset(Dedup([], records, tol)) == multiset(distinct) {
      KeptDistinct(records, distinct, tol);
    }
  }

  lemma KeptDistinct(records: seq<Record>, distinct: set<Record>, tol: int)
    requires tol > 0 && multiset(Dedup([], records, tol)) == multiset(distinct)
    ensures AllApart(distinct, tol)
  {
    var kept := Dedup([], records, tol);
    DedupSound(records, tol);
    forall x, y | x in distinct && y in distinct && SameWithin(x, y, tol)
      ensures x == y
    {
      assert x in multiset(kept) && y in multiset(kept);
      var i :| 0 <= i < |kept| && kept[i] == x;
      var j :| 0 <= j < |kept| && kept[j] == y;
      assert SameWithin(y, x, tol);
    }
  }

  lemma DedupTwo(first: Record, second: Record, tol: int)
    ensures Dedup([], [first, second], tol) == if SameWithin(second, first, tol) then [first] else [first, second]
  {
    DedupLast([], [], first, tol);
    DedupLast([], [first], second, tol);
    assert [] + [first] == [first] && [first] + [second] == [first, second];
    assert first in [first];
  }

  /** So two devices' packets can be merged: of two with the same sequence number, tag and payload
      sent within the tolerance, the sweep reports only the first, whoever sent them. */
  lemma DevicesMerged(p: Packet, q: Packet, start: int, gap: nat, tol: int)
    requires p.ntwId != q.ntwId
    ensures Dedup([], [Record(p, start), Record(q, start + gap)], tol)
         == if ContentOf(p) == ContentOf(q) && gap < tol then [Record(p, start)]
            else [Record(p, start), Record(q, start + gap)]
  {
    DedupTwo(Record(p, start), Record(q, start + gap), tol);
  }

  /** A recording of one window on which two devices send packets of the same content. */
  function TwoDevices(p: Packet, q: Packet, gap: nat, length: nat): set<Air> {
    {Air(p, 0, length), Air(q, gap, length)}
  }

  /** What the decoder makes of it: both packets and both starts. */
  function BothDecoded(p: Packet, q: Packet, gap: nat): Outcome {
    Decoded([p, q], [Attempt(p.ntwId, p.seqNum, true, Some(0)), Attempt(q.ntwId, q.seqNum, true, Some(gap))])
  }

  lemma BothSeen(p: Packet, q: Packet, gap: nat, length: nat, x: Air)
    requires x in TwoDevices(p, q, gap, length)
    ensures var outcome := BothDecoded(p, q, gap);
            x.packet in outcome.packets
            && Attempt(x.packet.ntwId, x.packet.seqNum, true, Some(x.start - 0)) in outcome.attempts
  {
    var outcome := BothDecoded(p, q, gap);
    assert outcome.packets[0] == p && outcome.packets[1] == q;
    assert outcome.attempts[0] in outcome.attempts && outcome.attempts[1] in outcome.attempts;
  }

  lemma BothFit(p: Packet, q: Packet, gap: nat, length: nat, n: nat, t: Attempt)
    requires gap + length <= n && t in BothDecoded(p, q, gap).attempts
    ensures AttemptFits(TwoDevices(p, q, gap, length), 0, n, t)
  {
    var a := if t == BothDecoded(p, q, gap).attempts[0] then Air(p, 0, length) else Air(q, gap, length);
    assert a in TwoDevices(p, q, gap, length) && Inside(a, 0, n);
    assert IdsOf(a.packet) == Ids(t.ntwId, t.seqNum) && t.startSample == Some(a.start - 0);
  }

  lemma BothListed(p: Packet, q: Packet, gap: nat, length: nat, n: nat)
    requires gap + length <= n
    ensures Lists(TwoDevices(p, q, gap, length), 0, n, BothDecoded(p, q, gap))
  {
    var air, outcome := TwoDevices(p, q, gap, length), BothDecoded(p, q, gap);
    var a, b := Air(p, 0, length), Air(q, gap, length);
    assert a in air && b in air && Inside(a, 0, n) && Inside(b, 0, n);
    forall x | x in air && Inside(x, 0, n)
      ensures x.packet in outcome.packets
      ensures Attempt(x.packet.ntwId, x.packet.seqNum, true, Some(x.start - 0)) in outcome.attempts
    {
      BothSeen(p, q, gap, length, x);
    }
    forall t | t in outcome.attempts && t.decoded && t.startSample.Some?
      ensures AttemptFits(air, 0, n, t)
    {
      BothFit(p, q, gap, length, n, t);
    }
  }

  lemma BothPrecise(p: Packet, q: Packet, gap: nat, length: nat, n: nat)
    requires p.ntwId != q.ntwId && gap + length <= n
    ensures Precise(TwoDevices(p, q, gap, length), 0, n, BothDecoded(p, q, gap))
  {
    BothListed(p, q, gap, length, n);
    TwoOwnIds(p, q, gap, length, n);
  }

  lemma TwoOwnIds(p: Packet, q: Packet, gap: nat, length: nat, n: nat)
    requires p.ntwId != q.ntwId
    ensures OwnIds(TwoDevices(p, q, gap, length), 0, n)
  {
  }

  /** Such a recording meets every assumption of the sweep, and is told apart if and only if the
      contents differ or the packets are a tolerance apart: two devices do not help. */
  lemma TwoDevicesSurveyed<S>(iq: seq<S>, win: nat, interval: nat, p: Packet, q: Packet, gap: nat, length: nat,
                              tol: int)
    requires p.ntwId != q.ntwId && gap + length <= |iq| <= win && tol > 0
    ensures var air := TwoDevices(p, q, gap, length);
            var decode := (w: seq<S>) => BothDecoded(p, q, gap);
            && Surveyed(iq, win, interval, decode, air, [0])
            && (Distinguishable(air, tol) <==> ContentOf(p) != ContentOf(q) || gap >= tol)
            && (multiset(SortByStart(Dedup([], AllSightings(iq, win, decode, [0]), tol))) == multiset(RecordsOf(air))
                <==> ContentOf(p) != ContentOf(q) || gap >= tol)
  {
    var air := TwoDevices(p, q, gap, length);
    var decode := (w: seq<S>) => BothDecoded(p, q, gap);
    BothPrecise(p, q, gap, length, |iq|);
    assert WindowSound(iq, win, decode, air, 0);
    assert Surveyed(iq, win, interval, decode, air, [0]);
    TwoDevicesTold(p, q, gap, length, tol);
    OfflineOnceExactlyWhen(iq, win, interval, decode, air, [0], tol);
  }

  lemma TwoDevicesTold(p: Packet, q: Packet, gap: nat, length: nat, tol: int)
    requires p.ntwId != q.ntwId && tol > 0
    ensures Distinguishable(TwoDevices(p, q, gap, length), tol) <==> ContentOf(p) != ContentOf(q) || gap >= tol
  {
    var air := TwoDevices(p, q, gap, length);
    var x, y := Record(p, 0), Record(q, gap);
    assert RecordOf(Air(p, 0, length)) == x && RecordOf(Air(q, gap, length)) == y;
    assert RecordsOf(air) == {x, y};
    assert SameWithin(x, y, tol) <==> ContentOf(p) == ContentOf(q) && gap < tol;
    assert SameWithin(y, x, tol) <==> SameWithin(x, y, tol);
  }
}
