/** What the live de-duplication emits, packet by packet, whatever the decoder lists: the rule is in terms
    of the packets emitted before, and leaves no choice. */
module LiveVerdicts {
  import opened Options
  import opened LiveDedup

  /** A packet listed: the cycle, and its place there. */
  datatype Place = Place(look: nat, index: nat)

  predicate Listed(looks: seq<Look>, a: Place) {
    a.look < |looks| && a.index < |looks[a.look].packets|
  }

  predicate Earlier(a: Place, b: Place) {
    a.look < b.look || (a.look == b.look && a.index < b.index)
  }

  function PacketAt(looks: seq<Look>, a: Place): Packet
    requires Listed(looks, a)
  {
    looks[a.look].packets[a.index]
  }

  /** When the packet starts: its time after the beginning of the window, which ends with the cycle; a
      packet without a time starts with the window. */
  function Began(tm: Timing, looks: seq<Look>, a: Place): real
    requires Listed(looks, a)
  {
    var p := PacketAt(looks, a);
    looks[a.look].t0 - tm.windowS + if p.timeS.Some? then p.timeS.value else 0.0
  }

  ghost predicate AllListed(looks: seq<Look>, picks: seq<Place>) {
    forall j :: 0 <= j < |picks| ==> Listed(looks, picks[j])
  }

  /** Pick `j` is the last of its key before `a`. */
  ghost predicate LastBefore(looks: seq<Look>, picks: seq<Place>, j: nat, a: Place)
    requires AllListed(looks, picks) && Listed(looks, a)
  {
    && j < |picks| && Earlier(picks[j], a) && PacketAt(looks, picks[j]).key == PacketAt(looks, a).key
    && forall i :: j < i < |picks| && Earlier(picks[i], a) ==>
         PacketAt(looks, picks[i]).key != PacketAt(looks, a).key
  }

  /** The last packet picked with the key of `a` began within the tolerance of `a`, and less than the expiry
      before the cycle of `a` unless that is its own. */
  ghost predicate Blocks(tm: Timing, looks: seq<Look>, picks: seq<Place>, j: nat, a: Place)
    requires AllListed(looks, picks) && Listed(looks, a)
  {
    && LastBefore(looks, picks, j, a)
    && -tm.toleranceS < Began(tm, looks, a) - Began(tm, looks, picks[j]) < tm.toleranceS
    && (picks[j].look == a.look || looks[a.look].t0 - Began(tm, looks, picks[j]) < tm.expiryS)
  }

  ghost predicate Blocked(tm: Timing, looks: seq<Look>, picks: seq<Place>, a: Place)
    requires AllListed(looks, picks) && Listed(looks, a)
  {
    exists j: nat :: Blocks(tm, looks, picks, j, a)
  }

  ghost predicate InSequence(looks: seq<Look>, picks: seq<Place>, emitted: seq<Packet>) {
    && AllListed(looks, picks) && |picks| == |emitted|
    && (forall j :: 0 <= j < |picks| ==> emitted[j] == PacketAt(looks, picks[j]))
    && (forall i, j :: 0 <= i < j < |picks| ==> Earlier(picks[i], picks[j]))
  }

  /** The rule: what is emitted are the packets picked, in the order listed, and a packet is picked exactly
      when the last one picked of its key does not block it. */
  ghost predicate Verdicts(tm: Timing, looks: seq<Look>, picks: seq<Place>, emitted: seq<Packet>) {
    && InSequence(looks, picks, emitted)
    && forall a :: Listed(looks, a) ==> (a in picks <==> !Blocked(tm, looks, picks, a))
  }

  // --- the run follows it -----------------------------------------------------------------

  /** Pick `j` is the last of its key. */
  ghost predicate LastOfKey(looks: seq<Look>, picks: seq<Place>, j: nat)
    requires AllListed(looks, picks)
  {
    j < |picks| && forall i :: j < i < |picks| ==> PacketAt(looks, picks[i]).key != PacketAt(looks, picks[j]).key
  }

  /** What is remembered in cycle `k` are the starts of the last picks of their keys, those of earlier
      cycles only while less than the expiry old. */
  ghost predicate Remembers(tm: Timing, looks: seq<Look>, picks: seq<Place>, recent: Recent, k: nat)
    requires AllListed(looks, picks) && k < |looks|
  {
    && (forall key :: key in recent ==>
          exists j: nat :: LastOfKey(looks, picks, j) && PacketAt(looks, picks[j]).key == key)
    && (forall j: nat :: LastOfKey(looks, picks, j) ==>
          var key, start := PacketAt(looks, picks[j]).key, Began(tm, looks, picks[j]);
          && (key in recent <==> picks[j].look == k || looks[k].t0 - start < tm.expiryS)
          && (key in recent ==> recent[key] == start))
  }

  /** After the first `n` packets of cycle `k`. */
  ghost predicate Sofar(tm: Timing, looks: seq<Look>, k: nat, n: nat, picks: seq<Place>, s: Swept) {
    && k < |looks| && InSequence(looks, picks, s.emitted)
    && (forall j :: 0 <= j < |picks| ==> Earlier(picks[j], Place(k, n)))
    && (forall a :: Listed(looks, a) && Earlier(a, Place(k, n)) ==> (a in picks <==> !Blocked(tm, looks, picks, a)))
    && Remembers(tm, looks, picks, s.recent, k)
  }

  /** The packet next in line repeats what is remembered exactly when it is blocked. */
  lemma RepeatsWhenBlocked(tm: Timing, looks: seq<Look>, k: nat, n: nat, picks: seq<Place>, s: Swept)
    requires Sofar(tm, looks, k, n, picks, s) && Listed(looks, Place(k, n))
    ensures var p := PacketAt(looks, Place(k, n));
            Repeats(tm, s.recent, looks[k].t0, p) <==> Blocked(tm, looks, picks, Place(k, n))
  {
    var a, p := Place(k, n), PacketAt(looks, Place(k, n));
    assert StartOf(tm, looks[k].t0, p) == Began(tm, looks, a);
    if p.key in s.recent {
      var j: nat :| LastOfKey(looks, picks, j) && PacketAt(looks, picks[j]).key == p.key;
      assert forall i: nat :: LastBefore(looks, picks, i, a) ==> i == j;
      assert LastBefore(looks, picks, j, a);
      assert Repeats(tm, s.recent, looks[k].t0, p) <==> Blocks(tm, looks, picks, j, a);
    } else if j: nat :| Blocks(tm, looks, picks, j, a) {
      assert LastOfKey(looks, picks, j);
    }
  }

  /** Picks that come later block nothing before them. */
  lemma BlockedBefore(tm: Timing, looks: seq<Look>, picks: seq<Place>, last: Place, a: Place)
    requires AllListed(looks, picks) && Listed(looks, last) && Listed(looks, a) && !Earlier(last, a)
    ensures AllListed(looks, picks + [last])
    ensures Blocked(tm, looks, picks + [last], a) <==> Blocked(tm, looks, picks, a)
  {
    var all := picks + [last];
    if j: nat :| Blocks(tm, looks, picks, j, a) {
      assert Blocks(tm, looks, all, j, a);
    }
    if j: nat :| Blocks(tm, looks, all, j, a) {
      assert all[j] == picks[j];
      forall i | j < i < |picks| && Earlier(picks[i], a)
        ensures PacketAt(looks, picks[i]).key != PacketAt(looks, a).key
      {
        assert all[i] == picks[i];
      }
      assert Blocks(tm, looks, picks, j, a);
    }
  }

  /** A new pick is the last of its key; those of other keys stay the last of theirs. */
  lemma LastAfterPick(looks: seq<Look>, picks: seq<Place>, here: Place)
    requires AllListed(looks, picks) && Listed(looks, here)
    ensures AllListed(looks, picks + [here]) && LastOfKey(looks, picks + [here], |picks|)
    ensures forall j: nat :: j < |picks| ==>
              (LastOfKey(looks, picks + [here], j) <==>
                 LastOfKey(looks, picks, j) && PacketAt(looks, picks[j]).key != PacketAt(looks, here).key)
  {
    var all := picks + [here];
    forall j: nat | j < |picks|
      ensures LastOfKey(looks, all, j) <==>
                LastOfKey(looks, picks, j) && PacketAt(looks, picks[j]).key != PacketAt(looks, here).key
    {
      if LastOfKey(looks, all, j) {
        assert all[|picks|] == here;
        forall i | j < i < |picks|
          ensures PacketAt(looks, picks[i]).key != PacketAt(looks, picks[j]).key
        {
          assert all[i] == picks[i];
        }
      }
    }
  }

  lemma PickRemembered(tm: Timing, looks: seq<Look>, k: nat, n: nat, picks: seq<Place>, recent: Recent)
    requires AllListed(looks, picks) && Listed(looks, Place(k, n)) && Remembers(tm, looks, picks, recent, k)
    ensures AllListed(looks, picks + [Place(k, n)])
    ensures var p := PacketAt(looks, Place(k, n));
            Remembers(tm, looks, picks + [Place(k, n)], recent[p.key := StartOf(tm, looks[k].t0, p)], k)
  {
    var all, p := picks + [Place(k, n)], PacketAt(looks, Place(k, n));
    var recent' := recent[p.key := StartOf(tm, looks[k].t0, p)];
    LastAfterPick(looks, picks, Place(k, n));
    assert forall j: nat :: j < |picks| ==> all[j] == picks[j];
    forall key | key in recent'
      ensures exists j: nat :: LastOfKey(looks, all, j) && PacketAt(looks, all[j]).key == key
    {
      if key != p.key {
        var j: nat :| LastOfKey(looks, picks, j) && PacketAt(looks, picks[j]).key == key;
        assert LastOfKey(looks, all, j);
      }
    }
  }

  lemma PickInSequence(looks: seq<Look>, picks: seq<Place>, emitted: seq<Packet>, here: Place)
    requires InSequence(looks, picks, emitted) && Listed(looks, here)
    requires forall j :: 0 <= j < |picks| ==> Earlier(picks[j], here)
    ensures InSequence(looks, picks + [here], emitted + [PacketAt(looks, here)])
  {
  }

  lemma PickDecided(tm: Timing, looks: seq<Look>, picks: seq<Place>, emitted: seq<Packet>, here: Place, a: Place)
    requires InSequence(looks, picks, emitted) && Listed(looks, here) && Listed(looks, a)
    requires forall j :: 0 <= j < |picks| ==> Earlier(picks[j], here)
    requires !Blocked(tm, looks, picks, here)
    requires a == here || (Earlier(a, here) && (a in picks <==> !Blocked(tm, looks, picks, a)))
    ensures AllListed(looks, picks + [here])
    ensures a in picks + [here] <==> !Blocked(tm, looks, picks + [here], a)
  {
    BlockedBefore(tm, looks, picks, here, a);
  }

  lemma TakeFollows(tm: Timing, looks: seq<Look>, k: nat, n: nat, picks: seq<Place>, s: Swept)
    returns (picks': seq<Place>)
    requires Sofar(tm, looks, k, n, picks, s) && Listed(looks, Place(k, n))
    ensures Sofar(tm, looks, k, n + 1, picks', Take(tm, looks[k].t0, s, PacketAt(looks, Place(k, n))))
  {
    var here, p := Place(k, n), PacketAt(looks, Place(k, n));
    RepeatsWhenBlocked(tm, looks, k, n, picks, s);
    if Repeats(tm, s.recent, looks[k].t0, p) {
      picks' := picks;
      Skipped(tm, looks, k, n, picks, s);
    } else {
      picks' := picks + [here];
      Picked(tm, looks, k, n, picks, s);
    }
  }

  lemma Skipped(tm: Timing, looks: seq<Look>, k: nat, n: nat, picks: seq<Place>, s: Swept)
    requires Sofar(tm, looks, k, n, picks, s) && Listed(looks, Place(k, n))
    requires Blocked(tm, looks, picks, Place(k, n))
    ensures Sofar(tm, looks, k, n + 1, picks, s)
  {
    assert forall a :: Earlier(a, Place(k, n + 1)) ==> Earlier(a, Place(k, n)) || a == Place(k, n);
  }

  lemma Picked(tm: Timing, looks: seq<Look>, k: nat, n: nat, picks: seq<Place>, s: Swept)
    requires Sofar(tm, looks, k, n, picks, s) && Listed(looks, Place(k, n))
    requires !Blocked(tm, looks, picks, Place(k, n))
    ensures var p := PacketAt(looks, Place(k, n));
            Sofar(tm, looks, k, n + 1, picks + [Place(k, n)],
                  Swept(s.recent[p.key := StartOf(tm, looks[k].t0, p)], s.emitted + [p]))
  {
    var here := Place(k, n);
    PickInSequence(looks, picks, s.emitted, here);
    PickRemembered(tm, looks, k, n, picks, s.recent);
    forall a | Listed(looks, a) && Earlier(a, Place(k, n + 1))
      ensures a in picks + [here] <==> !Blocked(tm, looks, picks + [here], a)
    {
      assert Earlier(a, here) || a == here;
      PickDecided(tm, looks, picks, s.emitted, here, a);
    }
  }

  lemma {:induction false} SweepFollows(tm: Timing, looks: seq<Look>, k: nat, n: nat, picks: seq<Place>, s: Swept)
    returns (picks': seq<Place>)
    requires Sofar(tm, looks, k, 0, picks, s) && n <= |looks[k].packets|
    ensures Sofar(tm, looks, k, n, picks', Sweep(tm, looks[k].t0, s, looks[k].packets[..n]))
  {
    if n == 0 {
      picks' := picks;
    } else {
      var packets := looks[k].packets;
      picks' := SweepFollows(tm, looks, k, n - 1, picks, s);
      assert packets[..n][..n - 1] == packets[..n - 1];
      picks' := TakeFollows(tm, looks, k, n - 1, picks', Sweep(tm, looks[k].t0, s, packets[..n - 1]));
    }
  }

  /** The next cycle forgets what has expired by then. */
  lemma PruneFollows(tm: Timing, looks: seq<Look>, k: nat, picks: seq<Place>, s: Swept)
    requires k + 1 < |looks| && Sofar(tm, looks, k, |looks[k].packets|, picks, s)
    requires looks[k].t0 <= looks[k + 1].t0
    ensures Sofar(tm, looks, k + 1, 0, picks, s.(recent := Prune(tm, s.recent, looks[k + 1].t0)))
  {
    forall a | Listed(looks, a) && Earlier(a, Place(k + 1, 0))
      ensures Earlier(a, Place(k, |looks[k].packets|))
    {
    }
  }

  lemma RunNext(tm: Timing, looks: seq<Look>, k: nat)
    requires k < |looks|
    ensures var s := Run(tm, true, looks[..k]);
            Run(tm, true, looks[..k + 1])
            == Sweep(tm, looks[k].t0, s.(recent := Prune(tm, s.recent, looks[k].t0)),
                     looks[k].packets[..|looks[k].packets|])
    ensures k == 0 ==> Run(tm, true, looks[..k]) == Swept(map[], []) && Prune(tm, map[], looks[0].t0) == map[]
  {
    assert looks[..k + 1][..k] == looks[..k] && looks[k].packets[..|looks[k].packets|] == looks[k].packets;
  }

  lemma {:induction false} RunFollows(tm: Timing, looks: seq<Look>, k: nat) returns (picks: seq<Place>)
    requires Clocked(looks, 0.0) && k < |looks|
    ensures Sofar(tm, looks, k, |looks[k].packets|, picks, Run(tm, true, looks[..k + 1]))
  {
    var s := Run(tm, true, looks[..k]);
    RunNext(tm, looks, k);
    picks := [];
    if k > 0 {
      picks := RunFollows(tm, looks, k - 1);
      assert ClockAt(looks, k, 0.0);
      PruneFollows(tm, looks, k - 1, picks, s);
    } else {
      NothingPicked(tm, looks);
    }
    picks := SweepFollows(tm, looks, k, |looks[k].packets|, picks, s.(recent := Prune(tm, s.recent, looks[k].t0)));
  }

  lemma NothingPicked(tm: Timing, looks: seq<Look>)
    requires looks != []
    ensures Sofar(tm, looks, 0, 0, [], Swept(map[], []))
  {
  }

  /** Whatever the decoder lists, on a clock that does not run backwards: what a run emits follows the
      rule. */
  lemma RunVerdicts(tm: Timing, looks: seq<Look>) returns (picks: seq<Place>)
    requires Clocked(looks, 0.0)
    ensures Verdicts(tm, looks, picks, Run(tm, true, looks).emitted)
  {
    picks := [];
    if looks != [] {
      picks := RunFollows(tm, looks, |looks| - 1);
      assert looks[..|looks|] == looks;
    }
  }

  // --- which leaves no choice ----------------------------------------------------------------

  lemma PickedBefore(looks: seq<Look>, picks: seq<Place>, picks': seq<Place>, emitted: seq<Packet>,
                     emitted': seq<Packet>, n: nat)
    requires InSequence(looks, picks, emitted) && InSequence(looks, picks', emitted')
    requires n < |picks| && n <= |picks'| && picks[..n] == picks'[..n]
    requires n == |picks'| || Earlier(picks[n], picks'[n])
    ensures forall tm :: Blocked(tm, looks, picks, picks[n]) <==> Blocked(tm, looks, picks', picks[n])
    ensures picks[n] !in picks'
  {
    forall tm, j: nat
      ensures Blocks(tm, looks, picks, j, picks[n]) <==> Blocks(tm, looks, picks', j, picks[n])
    {
      assert forall i :: 0 <= i < n ==> picks[i] == picks[..n][i] && picks'[i] == picks'[..n][i];
    }
  }

  /** Two lists of picks that agree so far have the same next pick. */
  lemma SameNext(tm: Timing, looks: seq<Look>, picks: seq<Place>, picks': seq<Place>, emitted: seq<Packet>,
                 emitted': seq<Packet>, n: nat)
    requires Verdicts(tm, looks, picks, emitted) && Verdicts(tm, looks, picks', emitted')
    requires n < |picks| && n <= |picks'| && picks[..n] == picks'[..n]
    ensures n < |picks'| && !Earlier(picks[n], picks'[n])
  {
    assert picks[n] in picks;
    if n == |picks'| || Earlier(picks[n], picks'[n]) {
      PickedBefore(looks, picks, picks', emitted, emitted', n);
      assert false;
    }
  }

  lemma {:induction false} VerdictsAgree(tm: Timing, looks: seq<Look>, picks: seq<Place>, picks': seq<Place>,
                                         emitted: seq<Packet>, emitted': seq<Packet>, n: nat)
    requires Verdicts(tm, looks, picks, emitted) && Verdicts(tm, looks, picks', emitted')
    requires n <= |picks|
    ensures n <= |picks'| && picks[..n] == picks'[..n]
  {
    if n > 0 {
      var m := n - 1;
      VerdictsAgree(tm, looks, picks, picks', emitted, emitted', m);
      SameNext(tm, looks, picks, picks', emitted, emitted', m);
      SameNext(tm, looks, picks', picks, emitted', emitted, m);
      assert picks[m] == picks'[m];
      assert picks[..n] == picks[..m] + [picks[m]] && picks'[..n] == picks'[..m] + [picks'[m]];
    }
  }

  /** One list of looks, one list emitted. */
  lemma VerdictsDecide(tm: Timing, looks: seq<Look>, picks: seq<Place>, picks': seq<Place>, emitted: seq<Packet>,
                       emitted': seq<Packet>)
    requires Verdicts(tm, looks, picks, emitted) && Verdicts(tm, looks, picks', emitted')
    ensures picks == picks' && emitted == emitted'
  {
    VerdictsAgree(tm, looks, picks, picks', emitted, emitted', |picks|);
    VerdictsAgree(tm, looks, picks', picks, emitted', emitted, |picks'|);
    assert picks[..|picks|] == picks && picks'[..|picks'|] == picks';
  }

  /** In particular nothing is dropped but a repeat of what was emitted: every packet listed is emitted, or
      one of its key that was began within the tolerance of it. */
  lemma DroppedForEmitted(tm: Timing, looks: seq<Look>, picks: seq<Place>, emitted: seq<Packet>, a: Place)
    returns (j: nat)
    requires Verdicts(tm, looks, picks, emitted) && Listed(looks, a)
    ensures a in picks ||
            (&& j < |picks| && emitted[j].key == PacketAt(looks, a).key && Earlier(picks[j], a)
             && -tm.toleranceS < Began(tm, looks, a) - Began(tm, looks, picks[j]) < tm.toleranceS)
  {
    j := 0;
    if a !in picks {
      j :| Blocks(tm, looks, picks, j, a);
    }
  }
}
