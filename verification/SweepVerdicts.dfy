/** What the offline sweep returns for any decoder at all, record by record: which packets are sighted and
    where, which sightings are kept, and in which order they come back. */
module SweepVerdicts {
  import opened Options
  import opened OfflineSweep

  // --- sightings ---------------------------------------------------------------------------

  ghost predicate Gives(attempts: seq<Attempt>, p: Packet, m: nat) {
    && m < |attempts| && attempts[m].decoded && attempts[m].startSample.Some?
    && attempts[m].ntwId == p.ntwId && attempts[m].seqNum == p.seqNum
  }

  /** The last decoded attempt with the packet's device and sequence number that has a start. */
  ghost predicate GivesLast(attempts: seq<Attempt>, p: Packet, m: nat) {
    Gives(attempts, p, m) && forall i :: m < i < |attempts| ==> !Gives(attempts, p, i)
  }

  lemma {:induction false} StartsAreLast(attempts: seq<Attempt>, p: Packet)
    ensures IdsOf(p) in Starts(attempts) <==> exists m: nat :: GivesLast(attempts, p, m)
    ensures forall m: nat :: GivesLast(attempts, p, m) ==>
              IdsOf(p) in Starts(attempts) && Starts(attempts)[IdsOf(p)] == attempts[m].startSample.value
  {
    if attempts != [] {
      var front, last := attempts[..|attempts| - 1], |attempts| - 1;
      StartsAreLast(front, p);
      if Gives(attempts, p, last) {
        assert GivesLast(attempts, p, last);
      } else {
        forall m: nat
          ensures GivesLast(attempts, p, m) <==> GivesLast(front, p, m)
        {
          assert forall i: nat :: Gives(attempts, p, i) <==> Gives(front, p, i);
        }
      }
    }
  }

  /** The `index`-th packet of the `window`-th window. */
  datatype Source = Source(window: nat, index: nat)

  predicate Earlier(a: Source, b: Source) {
    a.window < b.window || (a.window == b.window && a.index < b.index)
  }

  /** A window that was decoded lists the packet, and gives it a start. */
  ghost predicate Sees<S>(iq: seq<S>, win: nat, decode: seq<S> -> Outcome, offsets: seq<nat>, src: Source, r: Record) {
    && src.window < |offsets| && offsets[src.window] <= |iq|
    && var o := offsets[src.window];
       SeesIn(decode(iq[o..End(iq, o, win)]), o, src.index, r)
  }

  ghost predicate SeesIn(outcome: Outcome, offset: nat, i: nat, r: Record) {
    && outcome.Decoded? && i < |outcome.packets| && r.packet == outcome.packets[i]
    && exists m: nat :: GivesLast(outcome.attempts, r.packet, m)
                     && r.absStart - offset == outcome.attempts[m].startSample.value
  }

  /** Every packet that is given a start is one record, in the order of the list. */
  ghost predicate ListsRecords(outcome: Outcome, offset: nat, n: nat, indices: seq<nat>, records: seq<Record>) {
    && |indices| == |records|
    && (forall j :: 0 <= j < |indices| ==> indices[j] < n && SeesIn(outcome, offset, indices[j], records[j]))
    && (forall i, j :: 0 <= i < j < |indices| ==> indices[i] < indices[j])
    && (forall i: nat, r :: i < n && SeesIn(outcome, offset, i, r) ==> i in indices)
  }

  lemma NextRecord(outcome: Outcome, offset: nat, n: nat, indices: seq<nat>, records: seq<Record>)
    returns (next: seq<nat>)
    requires outcome.Decoded? && n < |outcome.packets| && ListsRecords(outcome, offset, n, indices, records)
    ensures var p, starts := outcome.packets[n], Starts(outcome.attempts);
            ListsRecords(outcome, offset, n + 1, next,
                         records + if IdsOf(p) in starts then [Record(p, offset + starts[IdsOf(p)])] else [])
  {
    var p, starts := outcome.packets[n], Starts(outcome.attempts);
    SeenAt(outcome, offset, n);
    if IdsOf(p) in starts {
      next := indices + [n];
      RecordAdded(outcome, offset, n, indices, records, Record(p, offset + starts[IdsOf(p)]));
    } else {
      next := indices;
      RecordSkipped(outcome, offset, n, indices, records);
      assert records + [] == records;
    }
  }

  lemma RecordAdded(outcome: Outcome, offset: nat, n: nat, indices: seq<nat>, records: seq<Record>, r: Record)
    requires ListsRecords(outcome, offset, n, indices, records) && SeesIn(outcome, offset, n, r)
    ensures ListsRecords(outcome, offset, n + 1, indices + [n], records + [r])
  {
  }

  lemma RecordSkipped(outcome: Outcome, offset: nat, n: nat, indices: seq<nat>, records: seq<Record>)
    requires ListsRecords(outcome, offset, n, indices, records) && forall r :: !SeesIn(outcome, offset, n, r)
    ensures ListsRecords(outcome, offset, n + 1, indices, records)
  {
  }

  lemma {:induction false} WindowRecords(outcome: Outcome, offset: nat, n: nat) returns (indices: seq<nat>)
    requires outcome.Decoded? && n <= |outcome.packets|
    ensures ListsRecords(outcome, offset, n, indices,
                         Sightings(Starts(outcome.attempts), offset, outcome.packets[..n]))
  {
    indices := [];
    if n > 0 {
      indices := WindowRecords(outcome, offset, n - 1);
      SightingsLast(Starts(outcome.attempts), offset, outcome.packets, n - 1);
      indices := NextRecord(outcome, offset, n - 1, indices,
                            Sightings(Starts(outcome.attempts), offset, outcome.packets[..n - 1]));
    }
  }

  lemma SeenAt(outcome: Outcome, offset: nat, i: nat)
    requires outcome.Decoded? && i < |outcome.packets|
    ensures var p, starts := outcome.packets[i], Starts(outcome.attempts);
            forall r :: SeesIn(outcome, offset, i, r) <==>
                          IdsOf(p) in starts && r == Record(p, offset + starts[IdsOf(p)])
  {
    StartsAreLast(outcome.attempts, outcome.packets[i]);
  }

  lemma SightingsRecords(outcome: Outcome, offset: nat) returns (indices: seq<nat>)
    ensures if outcome.Decoded?
            then ListsRecords(outcome, offset, |outcome.packets|, indices, SightingsOf(outcome, offset))
            else indices == [] && SightingsOf(outcome, offset) == []
  {
    indices := [];
    if outcome.Decoded? {
      indices := WindowRecords(outcome, offset, |outcome.packets|);
      assert outcome.packets[..|outcome.packets|] == outcome.packets;
    }
  }

  ghost predicate SeesInOrder<S>(iq: seq<S>, win: nat, decode: seq<S> -> Outcome, offsets: seq<nat>, n: nat,
                                 sources: seq<Source>, records: seq<Record>)
  {
    && |sources| == |records|
    && (forall j :: 0 <= j < |sources| ==>
          sources[j].window < n && Sees(iq, win, decode, offsets, sources[j], records[j]))
    && (forall i, j :: 0 <= i < j < |sources| ==> Earlier(sources[i], sources[j]))
    && (forall src: Source, r :: src.window < n && Sees(iq, win, decode, offsets, src, r) ==> src in sources)
  }

  function Sources(window: nat, indices: seq<nat>): seq<Source> {
    seq(|indices|, j requires 0 <= j < |indices| => Source(window, indices[j]))
  }

  lemma WindowAdded<S>(iq: seq<S>, win: nat, decode: seq<S> -> Outcome, offsets: seq<nat>, n: nat,
                       sources: seq<Source>, records: seq<Record>, indices: seq<nat>, added: seq<Record>)
    requires n < |offsets| && offsets[n] <= |iq| && SeesInOrder(iq, win, decode, offsets, n, sources, records)
    requires var outcome := decode(iq[offsets[n]..End(iq, offsets[n], win)]);
             if outcome.Decoded? then ListsRecords(outcome, offsets[n], |outcome.packets|, indices, added)
             else indices == [] && added == []
    ensures SeesInOrder(iq, win, decode, offsets, n + 1, sources + Sources(n, indices), records + added)
  {
    var all, records' := sources + Sources(n, indices), records + added;
    forall j | 0 <= j < |all|
      ensures all[j].window < n + 1 && Sees(iq, win, decode, offsets, all[j], records'[j])
    {
      if j < |sources| {
        assert Sees(iq, win, decode, offsets, sources[j], records[j]);
      }
    }
    forall src: Source, r | src.window < n + 1 && Sees(iq, win, decode, offsets, src, r)
      ensures src in all
    {
      if src.window == n {
        var j :| 0 <= j < |indices| && indices[j] == src.index;
        assert all[|sources| + j] == src;
      }
    }
  }

  lemma NextWindow<S>(iq: seq<S>, win: nat, decode: seq<S> -> Outcome, offsets: seq<nat>, n: nat,
                      sources: seq<Source>)
    returns (sources': seq<Source>)
    requires n < |offsets| && offsets[n] <= |iq|
    requires SeesInOrder(iq, win, decode, offsets, n, sources, AllSightings(iq, win, decode, offsets[..n]))
    ensures SeesInOrder(iq, win, decode, offsets, n + 1, sources', AllSightings(iq, win, decode, offsets[..n + 1]))
  {
    var o := offsets[n];
    WindowIsStretch(iq, o, win);
    AllSightingsLast(iq, win, decode, offsets, n);
    var outcome := decode(iq[o..End(iq, o, win)]);
    var indices := SightingsRecords(outcome, o);
    WindowAdded(iq, win, decode, offsets, n, sources, AllSightings(iq, win, decode, offsets[..n]), indices,
                SightingsOf(outcome, o));
    sources' := sources + Sources(n, indices);
  }

  /** The sightings of a sweep are, window by window and packet by packet, exactly the packets that are
      given a start, at the offset plus that start. */
  lemma {:induction false} SightingsInOrder<S>(iq: seq<S>, win: nat, decode: seq<S> -> Outcome, offsets: seq<nat>,
                                               n: nat)
    returns (sources: seq<Source>)
    requires n <= |offsets| && forall w :: 0 <= w < |offsets| ==> offsets[w] <= |iq|
    ensures SeesInOrder(iq, win, decode, offsets, n, sources, AllSightings(iq, win, decode, offsets[..n]))
  {
    sources := [];
    if n > 0 {
      sources := SightingsInOrder(iq, win, decode, offsets, n - 1);
      sources := NextWindow(iq, win, decode, offsets, n - 1, sources);
    }
  }

  // --- which are kept --------------------------------------------------------------------------

  /** Same sequence number, tag and payload, and starts within the tolerance. */
  ghost predicate Repeats(r: Record, k: Record, tol: int) {
    && r.packet.seqNum == k.packet.seqNum && r.packet.authTag == k.packet.authTag
    && r.packet.payloadVal == k.packet.payloadVal
    && r.absStart - k.absStart < tol && k.absStart - r.absStart < tol
  }

  ghost predicate Increasing(picks: seq<nat>, n: nat) {
    && (forall j :: 0 <= j < |picks| ==> picks[j] < n)
    && (forall i, j :: 0 <= i < j < |picks| ==> picks[i] < picks[j])
  }

  /** One before `i` that was kept, and that it repeats. */
  ghost predicate RepeatsKept(records: seq<Record>, picks: seq<nat>, i: nat, tol: int)
    requires Increasing(picks, |records|) && i < |records|
  {
    exists j :: 0 <= j < |picks| && picks[j] < i && Repeats(records[i], records[picks[j]], tol)
  }

  /** The first of repeats is kept: a record is, exactly when it repeats none kept before it. */
  ghost predicate KeepsFirst(records: seq<Record>, picks: seq<nat>, kept: seq<Record>, tol: int) {
    && Increasing(picks, |records|) && |kept| == |picks|
    && (forall j :: 0 <= j < |picks| ==> kept[j] == records[picks[j]])
    && (forall i :: 0 <= i < |records| ==> (i in picks <==> !RepeatsKept(records, picks, i, tol)))
  }

  /** Repeating something kept is repeating one of the picks. */
  lemma RepeatsPick(records: seq<Record>, r: Record, picks: seq<nat>, kept: seq<Record>, tol: int)
    requires KeepsFirst(records, picks, kept, tol)
    ensures (exists k :: k in kept && SameWithin(r, k, tol))
       <==> exists j :: 0 <= j < |picks| && Repeats(r, records[picks[j]], tol)
  {
    assert forall k :: SameWithin(r, k, tol) <==> Repeats(r, k, tol);
    if j :| 0 <= j < |picks| && Repeats(r, records[picks[j]], tol) {
      assert kept[j] in kept;
    }
  }

  lemma StillRepeats(records: seq<Record>, r: Record, picks: seq<nat>, picks': seq<nat>, i: nat, tol: int)
    requires Increasing(picks, |records|) && i < |records|
    requires picks' == picks || picks' == picks + [|records|]
    ensures Increasing(picks', |records| + 1)
    ensures RepeatsKept(records + [r], picks', i, tol) <==> RepeatsKept(records, picks, i, tol)
  {
    assert forall j :: 0 <= j < |picks| ==> picks'[j] == picks[j] && (records + [r])[picks[j]] == records[picks[j]];
    if j :| 0 <= j < |picks| && picks[j] < i && Repeats(records[i], records[picks[j]], tol) {
      assert picks'[j] < i && Repeats((records + [r])[i], (records + [r])[picks'[j]], tol);
    }
  }

  lemma KeepNext(records: seq<Record>, r: Record, picks: seq<nat>, kept: seq<Record>, tol: int)
    returns (picks': seq<nat>)
    requires KeepsFirst(records, picks, kept, tol)
    ensures KeepsFirst(records + [r], picks', Keep(kept, r, tol), tol)
  {
    RepeatsPick(records, r, picks, kept, tol);
    if exists k | k in kept :: SameWithin(r, k, tol) {
      picks' := picks;
      Kept(records, r, picks, picks, kept, kept, tol);
    } else {
      picks' := picks + [|records|];
      Kept(records, r, picks, picks', kept, kept + [r], tol);
    }
  }

  lemma Kept(records: seq<Record>, r: Record, picks: seq<nat>, picks': seq<nat>, kept: seq<Record>,
             kept': seq<Record>, tol: int)
    requires KeepsFirst(records, picks, kept, tol)
    requires if exists j :: 0 <= j < |picks| && Repeats(r, records[picks[j]], tol)
             then picks' == picks && kept' == kept else picks' == picks + [|records|] && kept' == kept + [r]
    ensures KeepsFirst(records + [r], picks', kept', tol)
  {
    forall i | 0 <= i < |records|
      ensures Increasing(picks', |records| + 1) && (i in picks' <==> !RepeatsKept(records + [r], picks', i, tol))
    {
      StillRepeats(records, r, picks, picks', i, tol);
    }
    LastRepeats(records, r, picks, picks', tol);
  }

  lemma LastRepeats(records: seq<Record>, r: Record, picks: seq<nat>, picks': seq<nat>, tol: int)
    requires Increasing(picks, |records|) && (picks' == picks || picks' == picks + [|records|])
    ensures Increasing(picks', |records| + 1)
    ensures RepeatsKept(records + [r], picks', |records|, tol)
       <==> exists j :: 0 <= j < |picks| && Repeats(r, records[picks[j]], tol)
  {
    var all := records + [r];
    if j :| 0 <= j < |picks| && Repeats(r, records[picks[j]], tol) {
      assert picks'[j] == picks[j] && Repeats(all[|records|], all[picks'[j]], tol);
    }
  }

  lemma {:induction false} KeptExactly(records: seq<Record>, tol: int) returns (picks: seq<nat>)
    ensures KeepsFirst(records, picks, Dedup([], records, tol), tol)
  {
    picks := [];
    if records != [] {
      var front, last := records[..|records| - 1], records[|records| - 1];
      picks := KeptExactly(front, tol);
      picks := KeepNext(front, last, picks, Dedup([], front, tol), tol);
      assert front + [last] == records;
    }
  }

  // --- in which order --------------------------------------------------------------------------

  /** `order` lists every place once; starts rise, and of equal starts the earlier place comes first. */
  ghost predicate Stable(records: seq<Record>, order: seq<nat>, sorted: seq<Record>) {
    && |order| == |records| == |sorted|
    && (forall j :: 0 <= j < |order| ==> order[j] < |records| && sorted[j] == records[order[j]])
    && (forall i, j :: 0 <= i < j < |order| ==> InPlace(order, sorted, i, j))
  }

  ghost predicate InPlace(order: seq<nat>, sorted: seq<Record>, i: nat, j: nat)
    requires i < |order| == |sorted| && j < |order|
  {
    && order[i] != order[j] && sorted[i].absStart <= sorted[j].absStart
    && (sorted[i].absStart == sorted[j].absStart ==> order[i] < order[j])
  }

  ghost predicate GoesAt(sorted: seq<Record>, r: Record, k: nat, out: seq<Record>) {
    && k <= |sorted| && out == sorted[..k] + [r] + sorted[k..]
    && (forall i :: 0 <= i < k ==> sorted[i].absStart <= r.absStart)
    && (forall i :: k <= i < |sorted| ==> sorted[i].absStart > r.absStart)
  }

  /** Where a new record goes: behind everything that does not start later. */
  lemma {:induction false} InsertPlace(sorted: seq<Record>, r: Record) returns (k: nat)
    requires InTimeOrder(sorted)
    ensures GoesAt(sorted, r, k, Insert(sorted, r))
  {
    k := |sorted|;
    if !(sorted == [] || sorted[|sorted| - 1].absStart <= r.absStart) {
      var front, last := sorted[..|sorted| - 1], sorted[|sorted| - 1];
      k := InsertPlace(front, r);
      GoesBefore(front, r, k, Insert(front, r), last);
      assert sorted == front + [last] && Insert(sorted, r) == Insert(front, r) + [last];
    }
  }

  lemma GoesBefore(front: seq<Record>, r: Record, k: nat, out: seq<Record>, last: Record)
    requires GoesAt(front, r, k, out) && last.absStart > r.absStart
    ensures GoesAt(front + [last], r, k, out + [last])
  {
    var sorted := front + [last];
    assert sorted[..k] == front[..k] && sorted[k..] == front[k..] + [last];
  }

  /** The sort is stable. */
  lemma {:induction false} SortStable(records: seq<Record>) returns (order: seq<nat>)
    ensures Stable(records, order, SortByStart(records))
  {
    order := [];
    if records != [] {
      order := SortStable(records[..|records| - 1]);
      order := StableNext(records, order);
    }
  }

  lemma StableNext(records: seq<Record>, before: seq<nat>) returns (order: seq<nat>)
    requires records != []
    requires var front := records[..|records| - 1]; Stable(front, before, SortByStart(front))
    ensures Stable(records, order, SortByStart(records))
  {
    var front, last := records[..|records| - 1], records[|records| - 1];
    var k := InsertPlace(SortByStart(front), last);
    order := before[..k] + [|front|] + before[k..];
    Inserted(records, before, SortByStart(front), k, order, SortByStart(records));
  }

  lemma Inserted(records: seq<Record>, before: seq<nat>, sorted: seq<Record>, k: nat, order: seq<nat>,
                 out: seq<Record>)
    requires records != [] && Stable(records[..|records| - 1], before, sorted)
    requires GoesAt(sorted, records[|records| - 1], k, out)
    requires order == before[..k] + [|records| - 1] + before[k..]
    ensures Stable(records, order, out)
  {
    var n := |records| - 1;
    forall j | 0 <= j < |order|
      ensures order[j] <= n && out[j] == records[order[j]]
    {
      InsertedAt(before, n, k, j);
      InsertedAt(sorted, records[n], k, j);
    }
    forall i, j | 0 <= i < j < |order|
      ensures InPlace(order, out, i, j)
    {
      PairInserted(records, before, sorted, k, i, j);
    }
  }

  lemma PairInserted(records: seq<Record>, before: seq<nat>, sorted: seq<Record>, k: nat, i: nat, j: nat)
    requires records != [] && Stable(records[..|records| - 1], before, sorted)
    requires k <= |sorted| && i < j <= |sorted|
    requires GoesAt(sorted, records[|records| - 1], k, sorted[..k] + [records[|records| - 1]] + sorted[k..])
    ensures InPlace(before[..k] + [|records| - 1] + before[k..],
                    sorted[..k] + [records[|records| - 1]] + sorted[k..], i, j)
  {
    var n := |records| - 1;
    InsertedAt(before, n, k, i);
    InsertedAt(before, n, k, j);
    InsertedAt(sorted, records[n], k, i);
    InsertedAt(sorted, records[n], k, j);
    if i != k && j != k {
      assert InPlace(before, sorted, if i < k then i else i - 1, if j < k then j else j - 1);
    }
  }

  lemma InsertedAt<T>(xs: seq<T>, x: T, k: nat, j: nat)
    requires k <= |xs| && j <= |xs|
    ensures (xs[..k] + [x] + xs[k..])[j] == if j < k then xs[j] else if j == k then x else xs[j - 1]
  {
  }
}
