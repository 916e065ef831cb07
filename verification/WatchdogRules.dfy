/** The watchdog's rule, check by check, over the checks themselves: which deaths are answered by a restart,
    and which by giving up. */
module WatchdogRules {
  import opened Watchdog

  /** The worker is found dead while the program runs, and was not given up on before. */
  ghost predicate Down(checks: seq<Check>, gaveUp: set<nat>, i: nat)
    requires i < |checks| && Places(gaveUp, |checks|)
  {
    !checks[i].alive && checks[i].running && forall g :: g in gaveUp && g < i ==> checks[g].name != checks[i].name
  }

  /** Restarts of one worker at earlier checks, less than `window` before `now`. */
  ghost function Recent(checks: seq<Check>, restarts: set<nat>, i: nat, name: string, now: int, window: int): set<nat>
    requires Places(restarts, |checks|)
  {
    set r | r in restarts && r < i && checks[r].name == name && now - checks[r].now < window
  }

  /** A worker that is down is restarted when fewer than the limit of its restarts are recent, and is
      given up on otherwise. */
  ghost predicate Follows(checks: seq<Check>, restarts: set<nat>, gaveUp: set<nat>, limit: nat, window: int) {
    && Places(restarts, |checks|) && Places(gaveUp, |checks|)
    && forall i :: 0 <= i < |checks| ==> RuledAt(checks, restarts, gaveUp, i, limit, window)
  }

  ghost predicate Places(s: set<nat>, n: nat) {
    forall i :: i in s ==> i < n
  }

  ghost predicate RuledAt(checks: seq<Check>, restarts: set<nat>, gaveUp: set<nat>, i: nat, limit: nat, window: int)
    requires i < |checks| && Places(restarts, |checks|) && Places(gaveUp, |checks|)
  {
    var recent := |Recent(checks, restarts, i, checks[i].name, checks[i].now, window)|;
    && (i in restarts <==> Down(checks, gaveUp, i) && recent < limit)
    && (i in gaveUp <==> Down(checks, gaveUp, i) && recent >= limit)
  }

  /** The ledger says what was done at which check. */
  ghost predicate Tells(l: Ledger, checks: seq<Check>, restarts: set<nat>, gaveUp: set<nat>, window: int) {
    && Places(restarts, |checks|) && Places(gaveUp, |checks|)
    && (forall name :: name in l.gaveUp <==> exists g :: g in gaveUp && checks[g].name == name)
    && forall name, now ::
         |Within(l.Restarted(name), now, window)| == |Recent(checks, restarts, |checks|, name, now, window)|
  }

  lemma RecentEarlier(checks: seq<Check>, c: Check, restarts: set<nat>, restarts': set<nat>, i: nat, name: string,
                      now: int, window: int)
    requires Places(restarts, |checks|) && i <= |checks|
    requires restarts' == restarts || restarts' == restarts + {|checks|}
    ensures Places(restarts', |checks + [c]|)
    ensures Recent(checks + [c], restarts', i, name, now, window) == Recent(checks, restarts, i, name, now, window)
  {
  }

  lemma RecentGrows(checks: seq<Check>, c: Check, restarts: set<nat>, name: string, now: int, window: int)
    requires Places(restarts, |checks|)
    ensures var n, all := |checks|, checks + [c];
            var before := Recent(checks, restarts, n, name, now, window);
            && |Recent(all, restarts, n + 1, name, now, window)| == |before|
            && |Recent(all, restarts + {n}, n + 1, name, now, window)|
               == |before| + if c.name == name && now - c.now < window then 1 else 0
  {
    var n, all := |checks|, checks + [c];
    var before := Recent(checks, restarts, n, name, now, window);
    assert forall r :: r in restarts ==> all[r] == checks[r];
    assert Recent(all, restarts, n + 1, name, now, window) == before;
    var after := Recent(all, restarts + {n}, n + 1, name, now, window);
    if c.name == name && now - c.now < window {
      assert after == before + {n};
    } else {
      assert after == before;
    }
  }

  lemma RestartTold(l: Ledger, c: Check, name: string, now: int, window: int)
    ensures var l' := l.(history := l.history[c.name := l.Restarted(c.name) + [c.now]]);
            |Within(l'.Restarted(name), now, window)|
            == |Within(l.Restarted(name), now, window)| + if c.name == name && now - c.now < window then 1 else 0
  {
    var h := l.Restarted(c.name);
    assert (h + [c.now])[..|h|] == h;
  }

  lemma RuledOn(checks: seq<Check>, c: Check, restarts: set<nat>, restarts': set<nat>, gaveUp: set<nat>,
                gaveUp': set<nat>, limit: nat, window: int, i: nat)
    requires Places(restarts, |checks|) && (restarts' == restarts || restarts' == restarts + {|checks|})
    requires Places(gaveUp, |checks|) && (gaveUp' == gaveUp || gaveUp' == gaveUp + {|checks|})
    requires i < |checks| && RuledAt(checks, restarts, gaveUp, i, limit, window)
    ensures Places(restarts', |checks + [c]|) && Places(gaveUp', |checks + [c]|)
    ensures RuledAt(checks + [c], restarts', gaveUp', i, limit, window)
  {
    var all := checks + [c];
    RecentEarlier(checks, c, restarts, restarts', i, checks[i].name, checks[i].now, window);
    assert Down(all, gaveUp', i) <==> Down(checks, gaveUp, i) by {
      assert forall g :: g in gaveUp ==> all[g] == checks[g];
    }
  }

  lemma TellsOn(l: Ledger, checks: seq<Check>, c: Check, restarts: set<nat>, gaveUp: set<nat>, limit: nat, window: int)
    requires Tells(l, checks, restarts, gaveUp, window)
    ensures var n, acts := |checks|, l.Acts(c);
            Tells(l.Judge(c, limit, window), checks + [c],
                  if acts && !l.Spent(c, limit, window) then restarts + {n} else restarts,
                  if acts && l.Spent(c, limit, window) then gaveUp + {n} else gaveUp, window)
  {
    var n, all, l' := |checks|, checks + [c], l.Judge(c, limit, window);
    var restarted := l.Acts(c) && !l.Spent(c, limit, window);
    var restarts' := if restarted then restarts + {n} else restarts;
    var gaveUp' := if l.Acts(c) && l.Spent(c, limit, window) then gaveUp + {n} else gaveUp;
    forall name, now
      ensures |Within(l'.Restarted(name), now, window)| == |Recent(all, restarts', n + 1, name, now, window)|
    {
      RecentGrows(checks, c, restarts, name, now, window);
      if restarted {
        RestartTold(l, c, name, now, window);
      }
    }
    forall name
      ensures name in l'.gaveUp <==> exists g :: g in gaveUp' && all[g].name == name
    {
      if g :| g in gaveUp && checks[g].name == name {
        assert all[g].name == name;
      }
      if g :| g in gaveUp' && all[g].name == name && g != n {
        assert checks[g].name == name;
      }
      if gaveUp' != gaveUp && name == c.name {
        assert n in gaveUp' && all[n].name == name;
      }
    }
  }

  lemma DownActs(l: Ledger, checks: seq<Check>, c: Check, restarts: set<nat>, gaveUp: set<nat>, gaveUp': set<nat>,
                 window: int)
    requires Tells(l, checks, restarts, gaveUp, window)
    requires gaveUp' == gaveUp || gaveUp' == gaveUp + {|checks|}
    ensures Down(checks + [c], gaveUp', |checks|) <==> l.Acts(c)
  {
    assert forall g :: g in gaveUp ==> (checks + [c])[g] == checks[g] && g in gaveUp';
  }

  lemma LedgerNext(before: Ledger, front: seq<Check>, c: Check, r: set<nat>, g: set<nat>, limit: nat, window: int)
    returns (restarts: set<nat>, gaveUp: set<nat>)
    requires Follows(front, r, g, limit, window) && Tells(before, front, r, g, window)
    ensures Follows(front + [c], restarts, gaveUp, limit, window)
    ensures Tells(before.Judge(c, limit, window), front + [c], restarts, gaveUp, window)
    ensures |front| in restarts <==> before.Acts(c) && !before.Spent(c, limit, window)
    ensures |front| in gaveUp <==> before.Acts(c) && before.Spent(c, limit, window)
  {
    var n := |front|;
    restarts := if before.Acts(c) && !before.Spent(c, limit, window) then r + {n} else r;
    gaveUp := if before.Acts(c) && before.Spent(c, limit, window) then g + {n} else g;
    TellsOn(before, front, c, r, g, limit, window);
    LastRuled(before, front, c, r, restarts, g, gaveUp, limit, window);
    forall i | 0 <= i < n
      ensures RuledAt(front + [c], restarts, gaveUp, i, limit, window)
    {
      RuledOn(front, c, r, restarts, g, gaveUp, limit, window, i);
    }
  }

  lemma LastRuled(before: Ledger, front: seq<Check>, c: Check, r: set<nat>, restarts: set<nat>, g: set<nat>,
                  gaveUp: set<nat>, limit: nat, window: int)
    requires Places(r, |front|) && Places(g, |front|) && Tells(before, front, r, g, window)
    requires var n := |front|;
             && restarts == (if before.Acts(c) && !before.Spent(c, limit, window) then r + {n} else r)
             && gaveUp == (if before.Acts(c) && before.Spent(c, limit, window) then g + {n} else g)
    ensures Places(restarts, |front + [c]|) && Places(gaveUp, |front + [c]|)
    ensures RuledAt(front + [c], restarts, gaveUp, |front|, limit, window)
  {
    DownActs(before, front, c, r, g, gaveUp, window);
    RecentEarlier(front, c, r, restarts, |front|, c.name, c.now, window);
  }

  /** Whatever the checks, what the ledger records is what the rule says, check by check; the last check
      restarts its worker exactly when the rule says so. */
  lemma {:induction false} LedgerFollows(checks: seq<Check>, limit: nat, window: int)
    returns (restarts: set<nat>, gaveUp: set<nat>)
    ensures Follows(checks, restarts, gaveUp, limit, window)
    ensures Tells(NEW_LEDGER.JudgeAll(checks, limit, window), checks, restarts, gaveUp, window)
    ensures checks != [] ==>
              var before, n := NEW_LEDGER.JudgeAll(checks[..|checks| - 1], limit, window), |checks| - 1;
              && (n in restarts <==> before.Acts(checks[n]) && !before.Spent(checks[n], limit, window))
              && (n in gaveUp <==> before.Acts(checks[n]) && before.Spent(checks[n], limit, window))
  {
    restarts, gaveUp := {}, {};
    if checks != [] {
      var n := |checks| - 1;
      var front := checks[..n];
      restarts, gaveUp := LedgerFollows(front, limit, window);
      restarts, gaveUp := LedgerNext(NEW_LEDGER.JudgeAll(front, limit, window), front, checks[n], restarts, gaveUp,
                                     limit, window);
      assert checks == front + [checks[n]];
    }
  }

  ghost predicate AgreeBelow(r: set<nat>, r': set<nat>, i: nat) {
    forall k: nat :: k < i ==> (k in r <==> k in r')
  }

  lemma SameAt(checks: seq<Check>, r: set<nat>, g: set<nat>, r': set<nat>, g': set<nat>, window: int, k: nat)
    requires Places(r, |checks|) && Places(r', |checks|) && Places(g, |checks|) && Places(g', |checks|)
    requires k < |checks| && AgreeBelow(r, r', k) && AgreeBelow(g, g', k)
    ensures Recent(checks, r, k, checks[k].name, checks[k].now, window)
         == Recent(checks, r', k, checks[k].name, checks[k].now, window)
    ensures Down(checks, g, k) <==> Down(checks, g', k)
  {
  }

  /** The rule leaves no choice. */
  lemma {:induction false} FollowsOnce(checks: seq<Check>, r: set<nat>, g: set<nat>, r': set<nat>, g': set<nat>,
                                       limit: nat, window: int, i: nat)
    requires Follows(checks, r, g, limit, window) && Follows(checks, r', g', limit, window) && i <= |checks|
    ensures AgreeBelow(r, r', i) && AgreeBelow(g, g', i)
  {
    if i > 0 {
      FollowsOnce(checks, r, g, r', g', limit, window, i - 1);
      SameAt(checks, r, g, r', g', window, i - 1);
      assert RuledAt(checks, r, g, i - 1, limit, window) && RuledAt(checks, r', g', i - 1, limit, window);
    }
  }
}
