/** Live de-duplication: the processor sees overlapping windows and must report every packet once.
    It remembers, per content key, the start of the decode it last accepted, and forgets entries
    older than an expiry. */
module LiveDedup {
  import opened Options

  datatype Timing = Timing(windowS: real, toleranceS: real, expiryS: real)

  datatype Key = Key(ntwId: Option<int>, authTag: Option<int>, payloadVal: Option<int>)

  /** A decoded packet.  `emission` says which transmission on air it is a decode of; the program
      has no such field and nothing below decides by it. */
  datatype Packet = Packet(key: Key, timeS: Option<real>, emission: nat)

  type Recent = map<Key, real>

  function Abs(x: real): real {
    if x < 0.0 then -x else x
  }

  /** Estimated start of a packet on the processor's clock. */
  function StartOf(tm: Timing, t0: real, p: Packet): real {
    t0 - (tm.windowS - p.timeS.GetOr(0.0))
  }

  function Prune(tm: Timing, recent: Recent, t0: real): Recent {
    map k | k in recent && t0 - recent[k] < tm.expiryS :: recent[k]
  }

  predicate Repeats(tm: Timing, recent: Recent, t0: real, p: Packet) {
    p.key in recent && Abs(StartOf(tm, t0, p) - recent[p.key]) < tm.toleranceS
  }

  datatype Swept = Swept(recent: Recent, emitted: seq<Packet>)

  function Take(tm: Timing, t0: real, s: Swept, p: Packet): Swept {
    if Repeats(tm, s.recent, t0, p) then s
    else Swept(s.recent[p.key := StartOf(tm, t0, p)], s.emitted + [p])
  }

  /** One cycle's packets, in the order listed. */
  function Sweep(tm: Timing, t0: real, s: Swept, packets: seq<Packet>): Swept {
    if packets == [] then s
    else Take(tm, t0, Sweep(tm, t0, s, packets[..|packets| - 1]), packets[|packets| - 1])
  }

  /** The loop's map and list, as the processor updates them. */
  class Deduplicator {
    var recentDecodes: Recent

    constructor ()
      ensures recentDecodes == map[]
    {
      recentDecodes := map[];
    }

    method Cycle(tm: Timing, t0: real, packets: seq<Packet>) returns (deduped: seq<Packet>)
      modifies this
      ensures Swept(recentDecodes, deduped) == Sweep(tm, t0, Swept(Prune(tm, old(recentDecodes), t0), []), packets)
    {
      recentDecodes := map k | k in recentDecodes && t0 - recentDecodes[k] < tm.expiryS :: recentDecodes[k];
      ghost var entered := Swept(recentDecodes, []);
      deduped := [];
      for i := 0 to |packets|
        invariant Swept(recentDecodes, deduped) == Sweep(tm, t0, entered, packets[..i])
      {
        assert packets[..i + 1][..i] == packets[..i];
        var p := packets[i];
        var startT := t0 - (tm.windowS - p.timeS.GetOr(0.0));
        if p.key in recentDecodes {
          var d := startT - recentDecodes[p.key];
          if (if d < 0.0 then -d else d) < tm.toleranceS {
            continue;
          }
        }
        recentDecodes := recentDecodes[p.key := startT];
        deduped := deduped + [p];
      }
      assert packets[..|packets|] == packets;
    }

    /** Cycle after cycle: all that is handed on is what the run emits. */
    method Cycles(tm: Timing, looks: seq<Look>) returns (emitted: seq<Packet>)
      requires recentDecodes == map[]
      modifies this
      ensures Swept(recentDecodes, emitted) == Run(tm, true, looks)
    {
      emitted := [];
      for k := 0 to |looks|
        invariant Swept(recentDecodes, emitted) == Run(tm, true, looks[..k])
      {
        assert looks[..k + 1][..k] == looks[..k];
        var t0, packets := looks[k].t0, looks[k].packets;
        SweepAppends(tm, t0, Prune(tm, recentDecodes, t0), emitted, packets);
        var deduped := Cycle(tm, t0, packets);
        emitted := emitted + deduped;
      }
      assert looks[..|looks|] == looks;
    }
  }

  /** What one cycle emits does not depend on what was emitted before. */
  lemma {:induction false} SweepAppends(tm: Timing, t0: real, recent: Recent, emitted: seq<Packet>,
                                        packets: seq<Packet>)
    ensures var s := Sweep(tm, t0, Swept(recent, []), packets);
            Sweep(tm, t0, Swept(recent, emitted), packets) == Swept(s.recent, emitted + s.emitted)
  {
    if packets != [] {
      SweepAppends(tm, t0, recent, emitted, packets[..|packets| - 1]);
    }
  }

  // --- runs -----------------------------------------------------------------------

  datatype Look = Look(t0: real, packets: seq<Packet>)

  /** All that has been emitted, and the map, after a run; `pruning` off gives the map that
      remembers everything. */
  function Run(tm: Timing, pruning: bool, looks: seq<Look>): Swept {
    if looks == [] then Swept(map[], [])
    else
      var last := looks[|looks| - 1];
      var s := Run(tm, pruning, looks[..|looks| - 1]);
      Sweep(tm, last.t0, if pruning then s.(recent := Prune(tm, s.recent, last.t0)) else s, last.packets)
  }

  /** Packets lie in their window. */
  ghost predicate InWindow(tm: Timing, look: Look) {
    forall p :: p in look.packets ==> 0.0 <= p.timeS.GetOr(0.0) < tm.windowS
  }

  ghost predicate ClockAt(looks: seq<Look>, k: nat, step: real)
    requires k < |looks|
  {
    k > 0 ==> looks[k].t0 >= looks[k - 1].t0 + step
  }

  /** Every cycle starts at least `step` after the one before. */
  ghost predicate Clocked(looks: seq<Look>, step: real) {
    forall k :: 0 <= k < |looks| ==> ClockAt(looks, k, step)
  }

  lemma ClockedPrefix(looks: seq<Look>, step: real)
    requires looks != [] && Clocked(looks, step)
    ensures Clocked(looks[..|looks| - 1], step)
    ensures |looks| > 1 ==> looks[|looks| - 1].t0 >= looks[|looks| - 2].t0 + step
  {
    var front := looks[..|looks| - 1];
    forall k | 0 <= k < |front|
      ensures ClockAt(front, k, step)
    {
      assert ClockAt(looks, k, step);
    }
    assert ClockAt(looks, |looks| - 1, step);
  }

  // --- pruning never changes a verdict ----------------------------------------------

  /** The pruned map agrees with the full one and lacks only entries expired at `t0`. */
  ghost predicate Forgets(tm: Timing, pruned: Recent, full: Recent, t0: real) {
    && (forall k :: k in pruned ==> k in full && full[k] == pruned[k])
    && (forall k :: k in full && k !in pruned ==> t0 - full[k] >= tm.expiryS)
  }

  lemma {:induction false} SweepForgets(tm: Timing, t0: real, a: Swept, b: Swept, packets: seq<Packet>)
    requires tm.windowS + tm.toleranceS <= tm.expiryS
    requires Forgets(tm, a.recent, b.recent, t0) && a.emitted == b.emitted
    requires forall p :: p in packets ==> 0.0 <= p.timeS.GetOr(0.0)
    ensures var a' := Sweep(tm, t0, a, packets);
            var b' := Sweep(tm, t0, b, packets);
            Forgets(tm, a'.recent, b'.recent, t0) && a'.emitted == b'.emitted
  {
    if packets != [] {
      SweepForgets(tm, t0, a, b, packets[..|packets| - 1]);
    }
  }

  /** With a clock that does not run backwards, the run with pruning emits exactly what the run
      that never forgets emits. */
  lemma {:induction false} PruningIsInvisible(tm: Timing, looks: seq<Look>)
    requires tm.windowS + tm.toleranceS <= tm.expiryS
    requires Clocked(looks, 0.0)
    requires forall look :: look in looks ==> InWindow(tm, look)
    ensures Run(tm, true, looks).emitted == Run(tm, false, looks).emitted
    ensures looks != [] ==>
              Forgets(tm, Run(tm, true, looks).recent, Run(tm, false, looks).recent, looks[|looks| - 1].t0)
    ensures looks == [] ==> Run(tm, true, looks) == Run(tm, false, looks)
  {
    if looks != [] {
      ClockedPrefix(looks, 0.0);
      PruningIsInvisible(tm, looks[..|looks| - 1]);
      var last := looks[|looks| - 1];
      var a := Run(tm, true, looks[..|looks| - 1]);
      var b := Run(tm, false, looks[..|looks| - 1]);
      assert InWindow(tm, last);
      SweepForgets(tm, last.t0, a.(recent := Prune(tm, a.recent, last.t0)), b, last.packets);
    }
  }

  // --- exactly once -------------------------------------------------------------------

  datatype Air = Air(key: Key, start: real, length: real)

  /** A cycle's packets are decodes of transmissions, placed with error at most `eps`, and listed
      in time order. */
  ghost predicate Decodes(tm: Timing, air: map<nat, Air>, eps: real, look: Look) {
    && InWindow(tm, look)
    && (forall p :: p in look.packets ==> DecodeOf(tm, air, eps, look.t0, p))
    && (forall i, j :: 0 <= i < j < |look.packets| ==>
          look.packets[i].timeS.GetOr(0.0) <= look.packets[j].timeS.GetOr(0.0))
  }

  ghost predicate DecodeOf(tm: Timing, air: map<nat, Air>, eps: real, t0: real, p: Packet) {
    && p.emission in air && air[p.emission].key == p.key
    && Abs(StartOf(tm, t0, p) - air[p.emission].start) <= eps
  }

  /** Transmissions with the same content are far enough apart to be told from re-decodes. */
  ghost predicate Separated(tm: Timing, air: map<nat, Air>, eps: real) {
    && 0.0 <= 2.0 * eps < tm.toleranceS
    && forall e, f :: e in air && f in air && e != f && air[e].key == air[f].key ==>
         Abs(air[e].start - air[f].start) >= tm.toleranceS + 2.0 * eps
  }

  function Emissions(packets: seq<Packet>): (r: seq<nat>)
    ensures |r| == |packets|
  {
    seq(|packets|, i requires 0 <= i < |packets| => packets[i].emission)
  }

  function SeenIn(packets: seq<Packet>): set<nat> {
    set p | p in packets :: p.emission
  }

  function SeenBy(looks: seq<Look>): set<nat> {
    set look, p | look in looks && p in look.packets :: p.emission
  }

  /** The remembered start for a key is an estimate of the latest transmission seen with it. */
  ghost predicate RemembersLatest(air: map<nat, Air>, eps: real, recent: Recent, seen: set<nat>) {
    && (forall e :: e in seen ==> e in air && air[e].key in recent)
    && (forall k :: k in recent ==> exists e :: IsLatest(air, eps, recent, seen, k, e))
  }

  ghost predicate IsLatest(air: map<nat, Air>, eps: real, recent: Recent, seen: set<nat>, k: Key, e: nat) {
    && e in seen && e in air && air[e].key == k && k in recent
    && Abs(recent[k] - air[e].start) <= eps
    && forall f :: f in seen && f in air && air[f].key == k ==> air[f].start <= air[e].start
  }

  /** No remembered start is a tolerance or more past a packet still to come. */
  ghost predicate NotAhead(tm: Timing, recent: Recent, start: real) {
    forall k :: k in recent ==> recent[k] < start + tm.toleranceS
  }

  ghost predicate Once(air: map<nat, Air>, eps: real, s: Swept, seen: set<nat>) {
    && multiset(Emissions(s.emitted)) == multiset(seen)
    && RemembersLatest(air, eps, s.recent, seen)
  }

  /** Against the latest transmission `f` of its key: repeated exactly when it is `f`, later than
      `f` otherwise. */
  lemma VerdictAgainst(tm: Timing, air: map<nat, Air>, eps: real, t0: real, start: real, p: Packet, f: nat)
    requires Separated(tm, air, eps) && DecodeOf(tm, air, eps, t0, p)
    requires f in air && air[f].key == p.key && Abs(start - air[f].start) <= eps
    requires start < StartOf(tm, t0, p) + tm.toleranceS
    ensures Abs(StartOf(tm, t0, p) - start) < tm.toleranceS <==> p.emission == f
    ensures p.emission != f ==> air[f].start < air[p.emission].start
  {
    if p.emission != f {
      assert Abs(air[p.emission].start - air[f].start) >= tm.toleranceS + 2.0 * eps;
    }
  }

  /** A packet repeats the remembered one exactly when its transmission has been seen. */
  lemma VerdictRight(tm: Timing, air: map<nat, Air>, eps: real, t0: real, recent: Recent, seen: set<nat>, p: Packet)
    requires Separated(tm, air, eps) && DecodeOf(tm, air, eps, t0, p)
    requires RemembersLatest(air, eps, recent, seen) && NotAhead(tm, recent, StartOf(tm, t0, p))
    ensures Repeats(tm, recent, t0, p) <==> p.emission in seen
    ensures p.emission !in seen ==>
              forall f :: f in seen && air[f].key == p.key ==> air[f].start <= air[p.emission].start
  {
    if p.key in recent {
      var f :| IsLatest(air, eps, recent, seen, p.key, f);
      VerdictAgainst(tm, air, eps, t0, recent[p.key], p, f);
    }
  }

  /** A new packet becomes the latest of its key. */
  lemma NewIsLatest(tm: Timing, air: map<nat, Air>, eps: real, t0: real, recent: Recent, seen: set<nat>, p: Packet)
    requires DecodeOf(tm, air, eps, t0, p) && RemembersLatest(air, eps, recent, seen)
    requires forall f :: f in seen && air[f].key == p.key ==> air[f].start <= air[p.emission].start
    ensures RemembersLatest(air, eps, recent[p.key := StartOf(tm, t0, p)], seen + {p.emission})
  {
    var recent' := recent[p.key := StartOf(tm, t0, p)];
    var seen' := seen + {p.emission};
    forall k | k in recent'
      ensures exists g :: IsLatest(air, eps, recent', seen', k, g)
    {
      if k == p.key {
        assert IsLatest(air, eps, recent', seen', k, p.emission);
      } else {
        var g :| IsLatest(air, eps, recent, seen, k, g);
        assert IsLatest(air, eps, recent', seen', k, g);
      }
    }
  }

  lemma EmitsNew(packets: seq<Packet>, seen: set<nat>, p: Packet)
    requires multiset(Emissions(packets)) == multiset(seen) && p.emission !in seen
    ensures multiset(Emissions(packets + [p])) == multiset(seen + {p.emission})
  {
    assert Emissions(packets + [p]) == Emissions(packets) + [p.emission];
  }

  /** A packet is emitted exactly when its transmission has not been seen yet. */
  lemma TakeOnce(tm: Timing, air: map<nat, Air>, eps: real, t0: real, s: Swept, seen: set<nat>, p: Packet)
    requires Separated(tm, air, eps) && DecodeOf(tm, air, eps, t0, p)
    requires Once(air, eps, s, seen) && NotAhead(tm, s.recent, StartOf(tm, t0, p))
    ensures Once(air, eps, Take(tm, t0, s, p), seen + {p.emission})
  {
    VerdictRight(tm, air, eps, t0, s.recent, seen, p);
    if p.emission in seen {
      assert seen + {p.emission} == seen;
      assert Take(tm, t0, s, p) == s;
    } else {
      NewIsLatest(tm, air, eps, t0, s.recent, seen, p);
      EmitsNew(s.emitted, seen, p);
      assert Take(tm, t0, s, p) == Swept(s.recent[p.key := StartOf(tm, t0, p)], s.emitted + [p]);
    }
  }

  /** Where the entries of a map can come from after part of a cycle. */
  ghost predicate Entries(tm: Timing, look: Look, before: Recent, after: Recent, n: nat)
    requires n <= |look.packets|
  {
    forall k :: k in after ==> EntryFrom(tm, look, before, after[k], k, n)
  }

  ghost predicate EntryFrom(tm: Timing, look: Look, before: Recent, start: real, k: Key, n: nat)
    requires n <= |look.packets|
  {
    || (k in before && start == before[k])
    || (exists i :: 0 <= i < n && start == StartOf(tm, look.t0, look.packets[i]))
  }

  lemma {:induction false} SweepEntries(tm: Timing, look: Look, s: Swept, n: nat)
    requires n <= |look.packets|
    ensures Entries(tm, look, s.recent, Sweep(tm, look.t0, s, look.packets[..n]).recent, n)
  {
    var after := Sweep(tm, look.t0, s, look.packets[..n]).recent;
    if n > 0 {
      SweepEntries(tm, look, s, n - 1);
      assert look.packets[..n][..n - 1] == look.packets[..n - 1];
      var before := Sweep(tm, look.t0, s, look.packets[..n - 1]).recent;
      forall k | k in after
        ensures EntryFrom(tm, look, s.recent, after[k], k, n)
      {
        if k in before && after[k] == before[k] {
          assert EntryFrom(tm, look, s.recent, before[k], k, n - 1);
        } else {
          assert after[k] == StartOf(tm, look.t0, look.packets[n - 1]);
        }
      }
    }
  }

  /** Within a cycle, packets in time order keep the map from running ahead. */
  lemma EntriesNotAhead(tm: Timing, air: map<nat, Air>, eps: real, look: Look, before: Recent, after: Recent, n: nat)
    requires Decodes(tm, air, eps, look) && n < |look.packets| && tm.toleranceS > 0.0
    requires NotAhead(tm, before, look.t0 - tm.windowS) && Entries(tm, look, before, after, n)
    ensures NotAhead(tm, after, StartOf(tm, look.t0, look.packets[n]))
  {
    assert look.packets[n] in look.packets;
    forall k | k in after
      ensures after[k] < StartOf(tm, look.t0, look.packets[n]) + tm.toleranceS
    {
      assert EntryFrom(tm, look, before, after[k], k, n);
    }
  }

  lemma SweepNotAhead(tm: Timing, air: map<nat, Air>, eps: real, look: Look, s: Swept, n: nat)
    requires Decodes(tm, air, eps, look) && n < |look.packets| && tm.toleranceS > 0.0
    requires NotAhead(tm, s.recent, look.t0 - tm.windowS)
    ensures NotAhead(tm, Sweep(tm, look.t0, s, look.packets[..n]).recent, StartOf(tm, look.t0, look.packets[n]))
    ensures DecodeOf(tm, air, eps, look.t0, look.packets[n])
  {
    SweepEntries(tm, look, s, n);
    EntriesNotAhead(tm, air, eps, look, s.recent, Sweep(tm, look.t0, s, look.packets[..n]).recent, n);
    assert look.packets[n] in look.packets;
  }

  lemma SweepLast(tm: Timing, look: Look, s: Swept, seen: set<nat>, n: nat)
    requires 0 < n <= |look.packets|
    ensures var front := look.packets[..n - 1];
            var p := look.packets[n - 1];
            && p in look.packets
            && Sweep(tm, look.t0, s, look.packets[..n]) == Take(tm, look.t0, Sweep(tm, look.t0, s, front), p)
            && seen + SeenIn(look.packets[..n]) == seen + SeenIn(front) + {p.emission}
  {
    assert look.packets[..n][..n - 1] == look.packets[..n - 1];
    assert look.packets[..n] == look.packets[..n - 1] + [look.packets[n - 1]];
  }

  /** What holds of a cycle's first `n` packets taken. */
  ghost predicate OnceAfter(tm: Timing, air: map<nat, Air>, eps: real, look: Look, s: Swept, seen: set<nat>, n: nat)
    requires n <= |look.packets|
  {
    Once(air, eps, Sweep(tm, look.t0, s, look.packets[..n]), seen + SeenIn(look.packets[..n]))
  }

  /** The next packet of a cycle in time order. */
  lemma NextOnce(tm: Timing, air: map<nat, Air>, eps: real, look: Look, s: Swept, seen: set<nat>, n: nat)
    requires Separated(tm, air, eps) && Decodes(tm, air, eps, look) && 0 < n <= |look.packets|
    requires NotAhead(tm, s.recent, look.t0 - tm.windowS)
    requires OnceAfter(tm, air, eps, look, s, seen, n - 1)
    ensures OnceAfter(tm, air, eps, look, s, seen, n)
  {
    var p := look.packets[n - 1];
    var s1, seen1 := Sweep(tm, look.t0, s, look.packets[..n - 1]), seen + SeenIn(look.packets[..n - 1]);
    SweepNotAhead(tm, air, eps, look, s, n - 1);
    TakeOnce(tm, air, eps, look.t0, s1, seen1, p);
    OnceLast(tm, air, eps, look, s, seen, n);
  }

  lemma OnceLast(tm: Timing, air: map<nat, Air>, eps: real, look: Look, s: Swept, seen: set<nat>, n: nat)
    requires 0 < n <= |look.packets|
    requires var p, front := look.packets[n - 1], look.packets[..n - 1];
             Once(air, eps, Take(tm, look.t0, Sweep(tm, look.t0, s, front), p), seen + SeenIn(front) + {p.emission})
    ensures OnceAfter(tm, air, eps, look, s, seen, n)
  {
    SweepLast(tm, look, s, seen, n);
  }

  lemma {:induction false} SweepOnce(tm: Timing, air: map<nat, Air>, eps: real, look: Look, s: Swept, seen: set<nat>,
                                     n: nat)
    requires Separated(tm, air, eps) && Decodes(tm, air, eps, look) && n <= |look.packets|
    requires Once(air, eps, s, seen)
    requires NotAhead(tm, s.recent, look.t0 - tm.windowS)
    ensures OnceAfter(tm, air, eps, look, s, seen, n)
  {
    if n == 0 {
      assert seen + SeenIn(look.packets[..0]) == seen;
    } else {
      SweepOnce(tm, air, eps, look, s, seen, n - 1);
      NextOnce(tm, air, eps, look, s, seen, n);
    }
  }

  /** Every entry is an estimate made before the head of the window it was made in. */
  ghost predicate Before(recent: Recent, t: real) {
    forall k :: k in recent ==> recent[k] < t
  }

  lemma EntriesBefore(tm: Timing, look: Look, before: Recent, after: Recent)
    requires InWindow(tm, look) && Before(before, look.t0)
    requires Entries(tm, look, before, after, |look.packets|)
    ensures Before(after, look.t0)
  {
    forall k | k in after
      ensures after[k] < look.t0
    {
      assert EntryFrom(tm, look, before, after[k], k, |look.packets|);
      if i :| 0 <= i < |look.packets| && after[k] == StartOf(tm, look.t0, look.packets[i]) {
        assert look.packets[i] in look.packets;
      }
    }
  }

  lemma {:induction false} NeverForgettingOnce(tm: Timing, air: map<nat, Air>, eps: real, looks: seq<Look>)
    requires Separated(tm, air, eps)
    requires tm.windowS >= tm.toleranceS && Clocked(looks, tm.windowS - tm.toleranceS)
    requires forall look :: look in looks ==> Decodes(tm, air, eps, look)
    ensures Once(air, eps, Run(tm, false, looks), SeenBy(looks))
    ensures looks != [] ==> Before(Run(tm, false, looks).recent, looks[|looks| - 1].t0)
  {
    if looks == [] {
      assert Emissions([]) == [];
    } else {
      var front := looks[..|looks| - 1];
      var last := looks[|looks| - 1];
      ClockedPrefix(looks, tm.windowS - tm.toleranceS);
      NeverForgettingOnce(tm, air, eps, front);
      var s := Run(tm, false, front);
      assert Decodes(tm, air, eps, last);
      assert last.packets[..|last.packets|] == last.packets;
      SweepOnce(tm, air, eps, last, s, SeenBy(front), |last.packets|);
      SweepEntries(tm, last, s, |last.packets|);
      EntriesBefore(tm, last, s.recent, Run(tm, false, looks).recent);
      SeenByLast(looks);
    }
  }

  lemma SeenByLast(looks: seq<Look>)
    requires looks != []
    ensures SeenBy(looks) == SeenBy(looks[..|looks| - 1]) + SeenIn(looks[|looks| - 1].packets)
  {
    assert looks == looks[..|looks| - 1] + [looks[|looks| - 1]];
  }

  /** Exactly once: every transmission seen in at least one cycle is emitted exactly once over the
      whole run, and nothing else is. */
  lemma LiveExactlyOnce(tm: Timing, air: map<nat, Air>, eps: real, looks: seq<Look>)
    requires tm.windowS >= tm.toleranceS && tm.windowS + tm.toleranceS <= tm.expiryS
    requires Separated(tm, air, eps) && Clocked(looks, tm.windowS - tm.toleranceS)
    requires forall look :: look in looks ==> Decodes(tm, air, eps, look)
    ensures multiset(Emissions(Run(tm, true, looks).emitted)) == multiset(SeenBy(looks))
  {
    NeverForgettingOnce(tm, air, eps, looks);
    forall k | 0 <= k < |looks|
      ensures ClockAt(looks, k, 0.0)
    {
      assert ClockAt(looks, k, tm.windowS - tm.toleranceS);
    }
    PruningIsInvisible(tm, looks);
  }

  // --- which transmissions are seen -----------------------------------------------------

  /** The decoder lists every packet that lies fully in the window. */
  ghost predicate Lists(tm: Timing, air: map<nat, Air>, look: Look) {
    forall e :: e in air && look.t0 - tm.windowS <= air[e].start && air[e].start + air[e].length <= look.t0
      ==> e in SeenIn(look.packets)
  }

  ghost predicate PromptAt(looks: seq<Look>, k: nat, step: real)
    requires k < |looks|
  {
    k > 0 ==> looks[k].t0 <= looks[k - 1].t0 + step
  }

  /** Every cycle starts at most `step` after the one before. */
  ghost predicate Prompt(looks: seq<Look>, step: real) {
    forall k :: 0 <= k < |looks| ==> PromptAt(looks, k, step)
  }

  /** When cycles are at most the window less the longest packet apart, every transmission between the
      first window's start and the last cycle lies fully in some window, so it is seen. */
  lemma {:induction false} SeenLive(tm: Timing, air: map<nat, Air>, looks: seq<Look>, longest: real, e: nat)
    requires looks != [] && Prompt(looks, tm.windowS - longest)
    requires forall look :: look in looks ==> Lists(tm, air, look)
    requires e in air && air[e].length <= longest
    requires looks[0].t0 - tm.windowS <= air[e].start && air[e].start + air[e].length <= looks[|looks| - 1].t0
    ensures e in SeenBy(looks)
  {
    var n := |looks|;
    var front, last := looks[..n - 1], looks[n - 1];
    SeenByLast(looks);
    assert Lists(tm, air, last);
    if n > 1 {
      assert PromptAt(looks, n - 1, tm.windowS - longest);
      if air[e].start + air[e].length <= looks[n - 2].t0 {
        var step := tm.windowS - longest;
        forall k | 0 <= k < |front|
          ensures PromptAt(front, k, step)
        {
          assert PromptAt(looks, k, step);
        }
        SeenLive(tm, air, front, longest, e);
      }
    }
  }

  /** So every such transmission is emitted exactly once. */
  lemma EveryTransmissionOnce(tm: Timing, air: map<nat, Air>, eps: real, looks: seq<Look>, longest: real, e: nat)
    requires tm.windowS >= tm.toleranceS && tm.windowS + tm.toleranceS <= tm.expiryS
    requires Separated(tm, air, eps)
    requires looks != [] && Clocked(looks, tm.windowS - tm.toleranceS) && Prompt(looks, tm.windowS - longest)
    requires forall look :: look in looks ==> Decodes(tm, air, eps, look) && Lists(tm, air, look)
    requires e in air && air[e].length <= longest
    requires looks[0].t0 - tm.windowS <= air[e].start && air[e].start + air[e].length <= looks[|looks| - 1].t0
    ensures multiset(Emissions(Run(tm, true, looks).emitted))[e] == 1
  {
    LiveExactlyOnce(tm, air, eps, looks);
    SeenLive(tm, air, looks, longest, e);
  }

  // --- exactly when, with exact starts ---------------------------------------------------

  /** Accepted transmissions of one key are a tolerance apart, in the order accepted, and the
      remembered start is that of the last. */
  ghost predicate Spaced(tm: Timing, air: map<nat, Air>, s: Swept) {
    && (forall i :: 0 <= i < |s.emitted| ==> Remembered(air, s, i))
    && (forall i, j :: 0 <= i < j < |s.emitted| ==> Apart(tm, air, s.emitted[i], s.emitted[j]))
  }

  ghost predicate Remembered(air: map<nat, Air>, s: Swept, i: nat)
    requires i < |s.emitted|
  {
    var p := s.emitted[i];
    p.emission in air && air[p.emission].key == p.key && p.key in s.recent && air[p.emission].start <= s.recent[p.key]
  }

  ghost predicate Apart(tm: Timing, air: map<nat, Air>, p: Packet, q: Packet) {
    p.emission in air && q.emission in air && p.key == q.key ==>
      air[p.emission].start + tm.toleranceS <= air[q.emission].start
  }

  lemma TakeSpaced(tm: Timing, air: map<nat, Air>, t0: real, s: Swept, p: Packet)
    requires tm.toleranceS > 0.0 && DecodeOf(tm, air, 0.0, t0, p) && Spaced(tm, air, s)
    requires NotAhead(tm, s.recent, StartOf(tm, t0, p))
    ensures Spaced(tm, air, Take(tm, t0, s, p))
  {
    var s' := Take(tm, t0, s, p);
    if !Repeats(tm, s.recent, t0, p) {
      forall i | 0 <= i < |s'.emitted|
        ensures Remembered(air, s', i)
        ensures i < |s.emitted| ==> Apart(tm, air, s.emitted[i], p)
      {
        if i < |s.emitted| {
          assert Remembered(air, s, i);
        }
      }
    }
  }

  lemma {:induction false} SweepSpaced(tm: Timing, air: map<nat, Air>, look: Look, s: Swept, n: nat)
    requires tm.toleranceS > 0.0 && Decodes(tm, air, 0.0, look) && n <= |look.packets|
    requires Spaced(tm, air, s) && NotAhead(tm, s.recent, look.t0 - tm.windowS)
    ensures Spaced(tm, air, Sweep(tm, look.t0, s, look.packets[..n]))
  {
    if n > 0 {
      SweepSpaced(tm, air, look, s, n - 1);
      SweepLast(tm, look, s, {}, n);
      var s1 := Sweep(tm, look.t0, s, look.packets[..n - 1]);
      SweepNotAhead(tm, air, 0.0, look, s, n - 1);
      TakeSpaced(tm, air, look.t0, s1, look.packets[n - 1]);
    }
  }

  lemma {:induction false} RunSpaced(tm: Timing, air: map<nat, Air>, looks: seq<Look>)
    requires tm.windowS >= tm.toleranceS > 0.0 && Clocked(looks, tm.windowS - tm.toleranceS)
    requires forall look :: look in looks ==> Decodes(tm, air, 0.0, look)
    ensures Spaced(tm, air, Run(tm, false, looks))
    ensures looks != [] ==> Before(Run(tm, false, looks).recent, looks[|looks| - 1].t0)
  {
    if looks != [] {
      var front, last := looks[..|looks| - 1], looks[|looks| - 1];
      ClockedPrefix(looks, tm.windowS - tm.toleranceS);
      RunSpaced(tm, air, front);
      var s := Run(tm, false, front);
      assert Decodes(tm, air, 0.0, last);
      assert last.packets[..|last.packets|] == last.packets;
      SweepSpaced(tm, air, last, s, |last.packets|);
      SweepEntries(tm, last, s, |last.packets|);
      EntriesBefore(tm, last, s.recent, Run(tm, false, looks).recent);
    }
  }

  /** No two transmissions seen share content within the tolerance. */
  ghost predicate Distinguishable(tm: Timing, air: map<nat, Air>, seen: set<nat>) {
    forall e, f :: e in seen && f in seen && e in air && f in air && e != f && air[e].key == air[f].key ==>
      Abs(air[e].start - air[f].start) >= tm.toleranceS
  }

  /** With exact start estimates: every transmission seen is emitted exactly once if and only if no two
      of them share content within the tolerance. */
  lemma LiveOnceExactlyWhen(tm: Timing, air: map<nat, Air>, looks: seq<Look>)
    requires tm.windowS >= tm.toleranceS > 0.0 && tm.windowS + tm.toleranceS <= tm.expiryS
    requires Clocked(looks, tm.windowS - tm.toleranceS)
    requires forall look :: look in looks ==> Decodes(tm, air, 0.0, look)
    ensures multiset(Emissions(Run(tm, true, looks).emitted)) == multiset(SeenBy(looks))
       <==> Distinguishable(tm, air, SeenBy(looks))
  {
    if Distinguishable(tm, air, SeenBy(looks)) {
      var heard := map e | e in air && e in SeenBy(looks) :: air[e];
      HeardDecodes(tm, air, looks, heard);
      LiveExactlyOnce(tm, heard, 0.0, looks);
    }
    forall k | 0 <= k < |looks|
      ensures ClockAt(looks, k, 0.0)
    {
      assert ClockAt(looks, k, tm.windowS - tm.toleranceS);
    }
    PruningIsInvisible(tm, looks);
    RunSpaced(tm, air, looks);
    if multiset(Emissions(Run(tm, true, looks).emitted)) == multiset(SeenBy(looks)) {
      SpacedDistinguishes(tm, air, Run(tm, false, looks), SeenBy(looks));
    }
  }

  lemma HeardDecodes(tm: Timing, air: map<nat, Air>, looks: seq<Look>, heard: map<nat, Air>)
    requires heard == map e | e in air && e in SeenBy(looks) :: air[e]
    requires forall look :: look in looks ==> Decodes(tm, air, 0.0, look)
    ensures forall look :: look in looks ==> Decodes(tm, heard, 0.0, look)
  {
    forall look | look in looks
      ensures Decodes(tm, heard, 0.0, look)
    {
      assert Decodes(tm, air, 0.0, look);
      forall p | p in look.packets
        ensures DecodeOf(tm, heard, 0.0, look.t0, p)
      {
        assert DecodeOf(tm, air, 0.0, look.t0, p) && p.emission in SeenBy(looks);
      }
    }
  }

  lemma SpacedDistinguishes(tm: Timing, air: map<nat, Air>, s: Swept, seen: set<nat>)
    requires Spaced(tm, air, s) && multiset(Emissions(s.emitted)) == multiset(seen)
    ensures Distinguishable(tm, air, seen)
  {
    forall e, f | e in seen && f in seen && e in air && f in air && e != f && air[e].key == air[f].key
      ensures Abs(air[e].start - air[f].start) >= tm.toleranceS
    {
      var i := EmittedAt(s.emitted, seen, e);
      var j := EmittedAt(s.emitted, seen, f);
      assert Remembered(air, s, i) && Remembered(air, s, j);
      assert if i < j then Apart(tm, air, s.emitted[i], s.emitted[j]) else Apart(tm, air, s.emitted[j], s.emitted[i]);
    }
  }

  lemma EmittedAt(packets: seq<Packet>, seen: set<nat>, e: nat) returns (i: nat)
    requires multiset(Emissions(packets)) == multiset(seen) && e in seen
    ensures i < |packets| && packets[i].emission == e
  {
    assert e in multiset(Emissions(packets));
    i :| 0 <= i < |packets| && Emissions(packets)[i] == e;
  }

  // --- the separation is needed, exactly ------------------------------------------------------

  /** Two transmissions of one content, `d` apart. */
  function TwoAlike(key: Key, d: real): map<nat, Air> {
    map[0 := Air(key, 0.0, 0.0), 1 := Air(key, d, 0.0)]
  }

  lemma TwoAlikeSeparated(tm: Timing, key: Key, eps: real, d: real)
    requires 0.0 <= 2.0 * eps < tm.toleranceS && d >= tm.toleranceS + 2.0 * eps
    ensures Separated(tm, TwoAlike(key, d), eps)
  {
    var air := TwoAlike(key, d);
    forall e, f | e in air && f in air && e != f
      ensures Abs(air[e].start - air[f].start) == d
    {
    }
  }

  /** One cycle with both in it, the earlier estimated `eps` late and the later `eps` early. */
  function CloseLook(tm: Timing, key: Key, eps: real, d: real): Look {
    var gap := d - 2.0 * eps;
    if gap >= 0.0
    then Look(tm.windowS + eps, [Packet(key, Some(0.0), 0), Packet(key, Some(gap), 1)])
    else Look(tm.windowS + d - eps, [Packet(key, Some(0.0), 1), Packet(key, Some(-gap), 0)])
  }

  lemma CloseLookDecodes(tm: Timing, key: Key, eps: real, d: real)
    requires 0.0 <= 2.0 * eps < tm.toleranceS <= tm.windowS && 0.0 <= d < tm.toleranceS + 2.0 * eps
    ensures Decodes(tm, TwoAlike(key, d), eps, CloseLook(tm, key, eps, d))
    ensures SeenBy([CloseLook(tm, key, eps, d)]) == {0, 1}
  {
    var look := CloseLook(tm, key, eps, d);
    var ps := look.packets;
    assert ps[0] in ps && ps[1] in ps && look in [look];
  }

  lemma CloseLookDropsOne(tm: Timing, key: Key, eps: real, d: real)
    requires 0.0 <= 2.0 * eps < tm.toleranceS && 0.0 <= d < tm.toleranceS + 2.0 * eps
    ensures var look := CloseLook(tm, key, eps, d);
            Run(tm, true, [look]).emitted == [look.packets[0]]
  {
    var look := CloseLook(tm, key, eps, d);
    var ps, none := look.packets, Swept(map[], []);
    assert [look][..0] == [] && Prune(tm, map[], look.t0) == map[];
    assert ps[..1] == [ps[0]] && [ps[0]][..0] == [];
    assert Sweep(tm, look.t0, none, [ps[0]]) == Take(tm, look.t0, Sweep(tm, look.t0, none, []), ps[0]);
    assert Repeats(tm, Take(tm, look.t0, none, ps[0]).recent, look.t0, ps[1]);
  }

  /** A run within the decoder's accuracy that does not emit each transmission seen exactly once. */
  ghost predicate Misreports(tm: Timing, air: map<nat, Air>, eps: real, looks: seq<Look>) {
    && Clocked(looks, tm.windowS - tm.toleranceS)
    && (forall look :: look in looks ==> Decodes(tm, air, eps, look))
    && multiset(Emissions(Run(tm, true, looks).emitted)) != multiset(SeenBy(looks))
  }

  /** The distance `Separated` asks for is exactly what starts estimated within `eps` need: of two
      transmissions of one content, some run reports one wrongly if and only if they are less than the
      tolerance and twice the error apart. */
  lemma SeparationExactly(tm: Timing, key: Key, eps: real, d: real)
    requires 0.0 <= 2.0 * eps < tm.toleranceS <= tm.windowS && tm.windowS + tm.toleranceS <= tm.expiryS && d >= 0.0
    ensures (exists looks :: Misreports(tm, TwoAlike(key, d), eps, looks)) <==> d < tm.toleranceS + 2.0 * eps
  {
    if d < tm.toleranceS + 2.0 * eps {
      var look := CloseLook(tm, key, eps, d);
      CloseLookDecodes(tm, key, eps, d);
      CloseLookDropsOne(tm, key, eps, d);
      assert |multiset(Emissions(Run(tm, true, [look]).emitted))| == 1;
      assert |multiset(SeenBy([look]))| == 2;
      assert ClockAt([look], 0, tm.windowS - tm.toleranceS);
      assert Misreports(tm, TwoAlike(key, d), eps, [look]);
    } else {
      TwoAlikeSeparated(tm, key, eps, d);
      forall looks
        ensures !Misreports(tm, TwoAlike(key, d), eps, looks)
      {
        NotMisreported(tm, TwoAlike(key, d), eps, looks);
      }
    }
  }

  lemma NotMisreported(tm: Timing, air: map<nat, Air>, eps: real, looks: seq<Look>)
    requires tm.windowS >= tm.toleranceS && tm.windowS + tm.toleranceS <= tm.expiryS && Separated(tm, air, eps)
    ensures !Misreports(tm, air, eps, looks)
  {
    if Misreports(tm, air, eps, looks) {
      LiveExactlyOnce(tm, air, eps, looks);
    }
  }

  // --- the pace is needed ---------------------------------------------------------------

  /** Both seen from a window ending at `t0`. */
  function LookAt(tm: Timing, key: Key, t0: real): Look {
    var first := tm.windowS - t0;
    Look(t0, [Packet(key, Some(first), 0), Packet(key, Some(first + tm.toleranceS), 1)])
  }

  lemma LookDecodes(tm: Timing, key: Key, t0: real)
    requires tm.toleranceS > 0.0 && tm.toleranceS < t0 <= tm.windowS
    ensures Decodes(tm, TwoAlike(key, tm.toleranceS), 0.0, LookAt(tm, key, t0))
    ensures SeenIn(LookAt(tm, key, t0).packets) == {0, 1}
  {
    var ps := LookAt(tm, key, t0).packets;
    assert ps[0] in ps && ps[1] in ps;
  }

  lemma LookEmitsBoth(tm: Timing, key: Key, t0: real, s: Swept)
    requires tm.toleranceS > 0.0 && (key in s.recent ==> s.recent[key] == tm.toleranceS)
    ensures Sweep(tm, t0, s, LookAt(tm, key, t0).packets)
         == Swept(s.recent[key := tm.toleranceS], s.emitted + LookAt(tm, key, t0).packets)
  {
    var ps := LookAt(tm, key, t0).packets;
    assert ps[..1] == [ps[0]] && [ps[0]][..0] == [];
    assert StartOf(tm, t0, ps[0]) == 0.0 && StartOf(tm, t0, ps[1]) == tm.toleranceS;
    var s1 := Take(tm, t0, s, ps[0]);
    assert s1 == Swept(s.recent[key := 0.0], s.emitted + [ps[0]]);
    assert Sweep(tm, t0, s, [ps[0]]) == Take(tm, t0, Sweep(tm, t0, s, []), ps[0]);
    assert Take(tm, t0, s1, ps[1]) == Swept(s1.recent[key := tm.toleranceS], s1.emitted + [ps[1]]);
    assert s.emitted + [ps[0]] + [ps[1]] == s.emitted + ps;
    assert s.recent[key := 0.0][key := tm.toleranceS] == s.recent[key := tm.toleranceS];
  }

  lemma RunOfTwo(tm: Timing, first: Look, second: Look)
    ensures var s := Sweep(tm, first.t0, Swept(map[], []), first.packets);
            Run(tm, true, [first, second])
            == Sweep(tm, second.t0, s.(recent := Prune(tm, s.recent, second.t0)), second.packets)
    ensures SeenBy([first, second]) == SeenIn(first.packets) + SeenIn(second.packets)
  {
    var looks := [first, second];
    assert looks[..1] == [first] && [first][..0] == [];
    assert Prune(tm, map[], first.t0) == map[];
    assert Run(tm, true, [first]) == Sweep(tm, first.t0, Swept(map[], []), first.packets);
    SeenByLast(looks);
    SeenByLast([first]);
  }

  lemma BothEmittedTwice(tm: Timing, key: Key, t0: real, t1: real)
    requires tm.toleranceS > 0.0 && t1 - tm.toleranceS < tm.expiryS
    ensures Run(tm, true, [LookAt(tm, key, t0), LookAt(tm, key, t1)]).emitted
         == LookAt(tm, key, t0).packets + LookAt(tm, key, t1).packets
  {
    RunOfTwo(tm, LookAt(tm, key, t0), LookAt(tm, key, t1));
    LookEmitsBoth(tm, key, t0, Swept(map[], []));
    var s := Swept(map[key := tm.toleranceS], LookAt(tm, key, t0).packets);
    assert Sweep(tm, t0, Swept(map[], []), LookAt(tm, key, t0).packets) == s;
    assert Prune(tm, s.recent, t1) == s.recent;
    LookEmitsBoth(tm, key, t1, s);
  }

  lemma EmissionsOfTwo(a: seq<Packet>, b: seq<Packet>)
    requires |a| == 2 && a[0].emission == 0 && a[1].emission == 1
    requires |b| == 2 && b[0].emission == 0 && b[1].emission == 1
    ensures Emissions(a + b) == [0, 1, 0, 1]
  {
  }

  /** Without that lower bound on the window's advance the theorem is false, at every slower pace: of
      two transmissions the tolerance apart, each is taken for new after the other. */
  lemma TooFastRepeats(tm: Timing, key: Key, step: real) returns (looks: seq<Look>)
    requires tm.toleranceS > 0.0 && tm.windowS < tm.expiryS
    requires 0.0 <= step < tm.windowS - tm.toleranceS
    ensures |looks| == 2 && looks[1].t0 == looks[0].t0 + step
    ensures Separated(tm, TwoAlike(key, tm.toleranceS), 0.0) && SeenBy(looks) == {0, 1}
    ensures forall look :: look in looks ==> Decodes(tm, TwoAlike(key, tm.toleranceS), 0.0, look)
    ensures Emissions(Run(tm, true, looks).emitted) == [0, 1, 0, 1]
  {
    var t0, t1 := tm.windowS - step, tm.windowS;
    looks := [LookAt(tm, key, t0), LookAt(tm, key, t1)];
    LookDecodes(tm, key, t0);
    LookDecodes(tm, key, t1);
    RunOfTwo(tm, looks[0], looks[1]);
    TwoAlikeSeparated(tm, key, 0.0, tm.toleranceS);
    BothEmittedTwice(tm, key, t0, t1);
    EmissionsOfTwo(looks[0].packets, looks[1].packets);
  }
}
