/** The offline sweep where packets of one window share their identifiers, by which it looks up starts:
    what it then returns, and when that is still every packet once. */
module SharedIdentifiers {
  import opened Options
  import opened OfflineSweep

  /** Decoded attempts come in the order of their starts. */
  ghost predicate InStartOrder(attempts: seq<Attempt>) {
    forall i, j :: 0 <= i < j < |attempts| && Starting(attempts[i]) && Starting(attempts[j]) ==>
      attempts[i].startSample.value <= attempts[j].startSample.value
  }

  predicate Starting(t: Attempt) {
    t.decoded && t.startSample.Some?
  }

  /** The start found for some identifiers is the latest. */
  lemma {:induction false} StartsLatest(attempts: seq<Attempt>)
    requires InStartOrder(attempts)
    ensures forall t :: t in attempts && Starting(t) ==>
              Ids(t.ntwId, t.seqNum) in Starts(attempts)
              && t.startSample.value <= Starts(attempts)[Ids(t.ntwId, t.seqNum)]
  {
    if attempts != [] {
      var front, last := attempts[..|attempts| - 1], attempts[|attempts| - 1];
      StartsLatest(front);
      assert attempts == front + [last];
      forall t | t in attempts && Starting(t)
        ensures Starting(last) ==> t.startSample.value <= last.startSample.value
      {
        var i :| 0 <= i < |attempts| && attempts[i] == t;
      }
    }
  }

  /** Of the packets in a window with these identifiers, none starts later. */
  ghost predicate Latest(air: set<Air>, lo: nat, hi: nat, ids: Ids, b: Air) {
    && b in air && Inside(b, lo, hi) && IdsOf(b.packet) == ids
    && forall c :: c in air && Inside(c, lo, hi) && IdsOf(c.packet) == ids ==> c.start <= b.start
  }

  /** A packet of the window, at the start of the latest with its identifiers. */
  ghost predicate SightedAs(air: set<Air>, lo: nat, hi: nat, r: Record) {
    && (exists a :: a in air && Inside(a, lo, hi) && a.packet == r.packet)
    && (exists b :: Latest(air, lo, hi, IdsOf(r.packet), b) && r.absStart == b.start)
  }

  lemma LatestIsStart(air: set<Air>, lo: nat, hi: nat, outcome: Outcome, a: Air) returns (b: Air)
    requires Lists(air, lo, hi, outcome) && InStartOrder(outcome.attempts) && a in air && Inside(a, lo, hi)
    ensures IdsOf(a.packet) in Starts(outcome.attempts)
    ensures Latest(air, lo, hi, IdsOf(a.packet), b) && Starts(outcome.attempts)[IdsOf(a.packet)] == b.start - lo
  {
    var k, attempts := IdsOf(a.packet), outcome.attempts;
    NoLaterStart(air, lo, hi, outcome, a);
    StartsFromAttempts(attempts);
    assert AttemptFits(air, lo, hi, Attempt(k.ntwId, k.seqNum, true, Some(Starts(attempts)[k])));
    b :| b in air && Inside(b, lo, hi) && IdsOf(b.packet) == k && Starts(attempts)[k] == b.start - lo;
    forall c | c in air && Inside(c, lo, hi) && IdsOf(c.packet) == k
      ensures c.start <= b.start
    {
      NoLaterStart(air, lo, hi, outcome, c);
    }
  }

  lemma NoLaterStart(air: set<Air>, lo: nat, hi: nat, outcome: Outcome, c: Air)
    requires Lists(air, lo, hi, outcome) && InStartOrder(outcome.attempts) && c in air && Inside(c, lo, hi)
    ensures var starts, ids := Starts(outcome.attempts), IdsOf(c.packet);
            ids in starts && c.start - lo <= starts[ids]
  {
    StartsLatest(outcome.attempts);
    assert Starting(Attempt(c.packet.ntwId, c.packet.seqNum, true, Some(c.start - lo)));
  }

  /** Without distinct identifiers: what a window sights is each of its packets, placed at the start of
      the latest packet that shares its identifiers. */
  lemma SharedSightings(air: set<Air>, lo: nat, hi: nat, outcome: Outcome, r: Record)
    requires Lists(air, lo, hi, outcome) && InStartOrder(outcome.attempts)
    ensures r in SightingsOf(outcome, lo) <==> SightedAs(air, lo, hi, r)
  {
    SightingsExactly(Starts(outcome.attempts), lo, outcome.packets, r);
    if a :| a in air && Inside(a, lo, hi) && a.packet == r.packet {
      LatestDecides(air, lo, hi, outcome, a, r.absStart);
    }
  }

  lemma LatestDecides(air: set<Air>, lo: nat, hi: nat, outcome: Outcome, a: Air, start: int)
    requires Lists(air, lo, hi, outcome) && InStartOrder(outcome.attempts) && a in air && Inside(a, lo, hi)
    ensures var starts, ids := Starts(outcome.attempts), IdsOf(a.packet);
            && a.packet in outcome.packets && ids in starts
            && (start == lo + starts[ids] <==> exists b :: Latest(air, lo, hi, ids, b) && start == b.start)
  {
    var b := LatestIsStart(air, lo, hi, outcome, a);
  }

  /** Every window is either listed in order or its decode raises. */
  ghost predicate WindowListed<S>(iq: seq<S>, win: nat, decode: seq<S> -> Outcome, air: set<Air>, o: nat) {
    && o <= |iq|
    && var outcome := decode(iq[o..End(iq, o, win)]);
       outcome.Raised? || (Lists(air, o, End(iq, o, win), outcome) && InStartOrder(outcome.attempts))
  }

  ghost predicate SightedIn<S>(iq: seq<S>, win: nat, decode: seq<S> -> Outcome, air: set<Air>, offsets: seq<nat>,
                               r: Record)
  {
    exists o :: o in offsets && o <= |iq| && !decode(iq[o..End(iq, o, win)]).Raised?
             && SightedAs(air, o, End(iq, o, win), r)
  }

  lemma {:induction false} AllSightedIn<S>(iq: seq<S>, win: nat, decode: seq<S> -> Outcome, air: set<Air>,
                                           offsets: seq<nat>, r: Record)
    requires forall o :: o in offsets ==> WindowListed(iq, win, decode, air, o)
    ensures r in AllSightings(iq, win, decode, offsets) <==> SightedIn(iq, win, decode, air, offsets, r)
  {
    if offsets != [] {
      var front, o := offsets[..|offsets| - 1], offsets[|offsets| - 1];
      assert offsets == front + [o];
      AllSightedIn(iq, win, decode, air, front, r);
      var outcome := decode(Window(iq, o, win));
      assert WindowListed(iq, win, decode, air, o);
      WindowIsStretch(iq, o, win);
      if outcome.Decoded? {
        SharedSightings(air, o, End(iq, o, win), outcome, r);
      }
      assert SightedIn(iq, win, decode, air, offsets, r)
        <==> SightedIn(iq, win, decode, air, front, r)
             || (outcome.Decoded? && SightedAs(air, o, End(iq, o, win), r));
    }
  }

  /** So the sweep over any recording whose windows are listed in order returns, in time order, packets of
      a window placed at the latest start of their identifiers there; it represents every one of those;
      and it returns each exactly once if and only if no two of them repeat each other. */
  lemma SharedSweep<S>(iq: seq<S>, win: nat, decode: seq<S> -> Outcome, air: set<Air>, offsets: seq<nat>, tol: int)
    requires tol > 0 && forall o :: o in offsets ==> WindowListed(iq, win, decode, air, o)
    ensures var records := AllSightings(iq, win, decode, offsets);
            var out := SortByStart(Dedup([], records, tol));
            && InTimeOrder(out)
            && (forall r :: r in out ==> SightedIn(iq, win, decode, air, offsets, r))
            && (forall r :: SightedIn(iq, win, decode, air, offsets, r) ==> Represented(out, r, tol))
            && (forall sighted: set<Record> ::
                  (forall r :: r in sighted <==> SightedIn(iq, win, decode, air, offsets, r)) ==>
                    (multiset(out) == multiset(sighted) <==> AllApart(sighted, tol)))
  {
    var records := AllSightings(iq, win, decode, offsets);
    forall r
      ensures r in records <==> SightedIn(iq, win, decode, air, offsets, r)
    {
      AllSightedIn(iq, win, decode, air, offsets, r);
    }
    SortedSound(records, tol);
    forall sighted: set<Record> | forall r :: r in sighted <==> SightedIn(iq, win, decode, air, offsets, r)
      ensures multiset(SortByStart(Dedup([], records, tol))) == multiset(sighted) <==> AllApart(sighted, tol)
    {
      OnceExactlyWhen(records, sighted, tol);
    }
  }

  lemma SortedSound(records: seq<Record>, tol: int)
    requires tol > 0
    ensures var out := SortByStart(Dedup([], records, tol));
            && (forall r :: r in out ==> r in records)
            && (forall r :: r in records ==> Represented(out, r, tol))
  {
    var kept := Dedup([], records, tol);
    DedupSound(records, tol);
    SortPermutes(kept);
    forall r | r in records
      ensures Represented(SortByStart(kept), r, tol)
    {
      PermutedRepresents(kept, SortByStart(kept), r, tol);
    }
    forall r | r in SortByStart(kept)
      ensures r in records
    {
      assert r in multiset(SortByStart(kept));
    }
  }

  lemma PermutedRepresents(kept: seq<Record>, out: seq<Record>, r: Record, tol: int)
    requires multiset(out) == multiset(kept) && Represented(kept, r, tol)
    ensures Represented(out, r, tol)
  {
    var k :| k in kept && SameWithin(r, k, tol);
    assert k in multiset(out);
  }

  /** Packets that share their identifiers start together. */
  ghost predicate OneStartPerIds(air: set<Air>) {
    forall a, b :: a in air && b in air && IdsOf(a.packet) == IdsOf(b.packet) ==> a.start == b.start
  }

  /** Of a recording of one window: every packet is returned once, at its own start, if and only if none
      repeats another and none that share their identifiers start apart. */
  lemma OneWindowExactlyWhen<S>(iq: seq<S>, win: nat, decode: seq<S> -> Outcome, air: set<Air>, tol: int)
    requires |iq| <= win && tol > 0 && forall a :: a in air ==> a.start + a.length <= |iq|
    requires WindowListed(iq, win, decode, air, 0) && !decode(iq).Raised?
    ensures multiset(SortByStart(Dedup([], AllSightings(iq, win, decode, [0]), tol))) == multiset(RecordsOf(air))
       <==> Distinguishable(air, tol) && OneStartPerIds(air)
  {
    var records := AllSightings(iq, win, decode, [0]);
    assert iq[0..|iq|] == iq;
    forall r
      ensures r in records <==> SightedAs(air, 0, |iq|, r)
    {
      AllSightedIn(iq, win, decode, air, [0], r);
    }
    if OneStartPerIds(air) {
      forall r
        ensures r in records <==> r in RecordsOf(air)
      {
        OwnStart(air, |iq|, r);
      }
      OnceExactlyWhen(records, RecordsOf(air), tol);
    } else if multiset(SortByStart(Dedup([], records, tol))) == multiset(RecordsOf(air)) {
      SortedSound(records, tol);
      ReturnedOneStart(air, |iq|, SortByStart(Dedup([], records, tol)));
    }
  }

  lemma OwnStart(air: set<Air>, n: nat, r: Record)
    requires OneStartPerIds(air) && forall a :: a in air ==> a.start + a.length <= n
    ensures SightedAs(air, 0, n, r) <==> r in RecordsOf(air)
  {
    if a :| a in air && RecordOf(a) == r {
      assert Inside(a, 0, n) && Latest(air, 0, n, IdsOf(r.packet), a);
    }
    if SightedAs(air, 0, n, r) {
      var a :| a in air && Inside(a, 0, n) && a.packet == r.packet;
      assert r == RecordOf(a);
    }
  }

  lemma ReturnedOneStart(air: set<Air>, n: nat, out: seq<Record>)
    requires multiset(out) == multiset(RecordsOf(air)) && forall r :: r in out ==> SightedAs(air, 0, n, r)
    requires forall a :: a in air ==> a.start + a.length <= n
    ensures OneStartPerIds(air)
  {
    forall a, b | a in air && b in air && IdsOf(a.packet) == IdsOf(b.packet)
      ensures a.start == b.start
    {
      assert RecordOf(a) in multiset(out) && RecordOf(b) in multiset(out);
      assert SightedAs(air, 0, n, RecordOf(a)) && SightedAs(air, 0, n, RecordOf(b));
    }
  }

  /** Two packets of one window with the same identifiers, the second `gap` after the first: both are
      placed at the second's start, and if they are the same packet only one is returned, however far
      apart they are. */
  lemma TwoShareIds<S>(iq: seq<S>, win: nat, decode: seq<S> -> Outcome, p: Packet, q: Packet, gap: nat, length: nat,
                       tol: int)
    requires IdsOf(p) == IdsOf(q) && gap + length <= |iq| <= win && tol > 0
    requires decode(iq) == BothDecoded(p, q, gap)
    ensures WindowListed(iq, win, decode, TwoDevices(p, q, gap, length), 0)
    ensures SortByStart(Dedup([], AllSightings(iq, win, decode, [0]), tol))
         == if p == q then [Record(p, gap)] else [Record(p, gap), Record(q, gap)]
  {
    BothListed(p, q, gap, length, |iq|);
    WindowIsStretch(iq, 0, win);
    assert iq[0..|iq|] == iq;
    assert InStartOrder(BothDecoded(p, q, gap).attempts);
    TwoSightings(iq, win, decode, p, q, gap);
    DedupTwo(Record(p, gap), Record(q, gap), tol);
    SortTwo(Record(p, gap), Record(q, gap));
  }

  lemma TwoSightings<S>(iq: seq<S>, win: nat, decode: seq<S> -> Outcome, p: Packet, q: Packet, gap: nat)
    requires IdsOf(p) == IdsOf(q) && decode(Window(iq, 0, win)) == BothDecoded(p, q, gap)
    ensures AllSightings(iq, win, decode, [0]) == [Record(p, gap), Record(q, gap)]
  {
    var o := BothDecoded(p, q, gap);
    assert o.attempts[..1] == [o.attempts[0]] && [o.attempts[0]][..0] == [];
    assert Starts([o.attempts[0]]) == map[IdsOf(p) := 0];
    assert Starts(o.attempts) == map[IdsOf(p) := gap];
    SightingsLast(Starts(o.attempts), 0, o.packets, 0);
    SightingsLast(Starts(o.attempts), 0, o.packets, 1);
    assert o.packets[..0] == [] && o.packets[..2] == o.packets;
    assert [0][..0] == [];
  }

  lemma SortTwo(x: Record, y: Record)
    requires x.absStart == y.absStart
    ensures SortByStart([x]) == [x] && SortByStart([x, y]) == [x, y]
  {
    assert [x][..0] == [] && [x, y][..1] == [x];
  }
}
