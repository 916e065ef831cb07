/** The worker watchdog: restarts dead workers, at most a fixed number of times per sliding
    window, and gives up on one that exceeds it.  Time is any integer unit of a monotone clock. */
module Watchdog {

  /** The times less than `window` before `now`. */
  function Within(times: seq<int>, now: int, window: int): seq<int> {
    if times == [] then []
    else
      var rest := Within(times[..|times| - 1], now, window);
      var t := times[|times| - 1];
      if now - t < window then rest + [t] else rest
  }

  ghost predicate Rising(times: seq<int>) {
    forall i, j :: 0 <= i < j < |times| ==> times[i] <= times[j]
  }

  /** Restarts that many apart are a whole window apart. */
  ghost predicate Budgeted(times: seq<int>, limit: nat, window: int) {
    forall i :: limit <= i < |times| ==> times[i] - times[i - limit] >= window
  }

  function CountIn(times: seq<int>, from: int, window: int): nat {
    if times == [] then 0
    else
      CountIn(times[..|times| - 1], from, window)
      + if from <= times[|times| - 1] < from + window then 1 else 0
  }

  /** Pruning at an earlier time loses nothing that a later pruning would keep. */
  lemma {:induction false} PruneTwice(times: seq<int>, earlier: int, now: int, window: int)
    requires earlier <= now
    ensures Within(Within(times, earlier, window), now, window) == Within(times, now, window)
  {
    if times != [] {
      var front, t := times[..|times| - 1], times[|times| - 1];
      PruneTwice(front, earlier, now, window);
      if earlier - t < window {
        var kept := Within(front, earlier, window);
        assert (kept + [t])[..|kept|] == kept;
      }
    }
  }

  /** Of rising times, what is within the window is the tail. */
  lemma {:induction false} WithinIsTail(times: seq<int>, now: int, window: int)
    requires Rising(times)
    ensures |Within(times, now, window)| <= |times|
    ensures var cut := |times| - |Within(times, now, window)|;
            && (forall i :: 0 <= i < cut ==> now - times[i] >= window)
            && (forall i :: cut <= i < |times| ==> now - times[i] < window)
  {
    if times != [] {
      WithinIsTail(times[..|times| - 1], now, window);
      if now - times[|times| - 1] >= window {
        forall i | 0 <= i < |times|
          ensures now - times[i] >= window
        {
        }
      }
    }
  }

  /** A restart allowed because fewer than `limit` are recent keeps the budget. */
  lemma RestartKeepsBudget(times: seq<int>, now: int, limit: nat, window: int)
    requires Rising(times) && Budgeted(times, limit, window)
    requires times != [] ==> times[|times| - 1] <= now
    requires |Within(times, now, window)| < limit
    ensures Rising(times + [now]) && Budgeted(times + [now], limit, window)
  {
    WithinIsTail(times, now, window);
  }

  lemma {:induction false} CountedReach(times: seq<int>, from: int, window: int)
    requires Rising(times) && (times != [] ==> times[|times| - 1] < from + window)
    ensures CountIn(times, from, window) <= |times|
    ensures forall i :: |times| - CountIn(times, from, window) <= i < |times| ==> times[i] >= from
  {
    if times != [] {
      var front := times[..|times| - 1];
      CountedReach(front, from, window);
      if times[|times| - 1] < from {
        NothingCounted(front, from, window);
      }
    }
  }

  lemma {:induction false} NothingCounted(times: seq<int>, from: int, window: int)
    requires forall i :: 0 <= i < |times| ==> times[i] < from
    ensures CountIn(times, from, window) == 0
  {
    if times != [] {
      NothingCounted(times[..|times| - 1], from, window);
    }
  }

  /** A budgeted history has at most `limit` restarts in any half-open window, wherever it starts. */
  lemma {:induction false} AtMostInWindow(times: seq<int>, from: int, limit: nat, window: int)
    requires Rising(times) && Budgeted(times, limit, window)
    ensures CountIn(times, from, window) <= limit
  {
    if times != [] {
      var front, t := times[..|times| - 1], times[|times| - 1];
      AtMostInWindow(front, from, limit, window);
      if from <= t < from + window {
        CountedReach(front, from, window);
        if limit <= |front| {
          assert times[|front|] - times[|front| - limit] >= window;
        }
      }
    }
  }

  /** One worker as a pass of the loop finds it. */
  datatype Check = Check(name: string, alive: bool, running: bool, now: int)

  /** Every restart ever made, unpruned, and the workers given up on. */
  datatype Ledger = Ledger(history: map<string, seq<int>>, gaveUp: set<string>) {
    function Restarted(name: string): seq<int> {
      if name in history then history[name] else []
    }

    predicate Acts(c: Check) {
      !c.alive && c.running && c.name !in gaveUp
    }

    /** The budget is judged on the whole history, not on a pruned list. */
    predicate Spent(c: Check, limit: nat, window: int) {
      |Within(Restarted(c.name), c.now, window)| >= limit
    }

    function Judge(c: Check, limit: nat, window: int): Ledger {
      if !Acts(c) then this
      else if Spent(c, limit, window) then this.(gaveUp := gaveUp + {c.name})
      else this.(history := history[c.name := Restarted(c.name) + [c.now]])
    }

    function JudgeAll(checks: seq<Check>, limit: nat, window: int): Ledger
      decreases |checks|
    {
      if checks == [] then this
      else JudgeAll(checks[..|checks| - 1], limit, window).Judge(checks[|checks| - 1], limit, window)
    }
  }

  const NEW_LEDGER: Ledger := Ledger(map[], {})

  /** Checks in the order of a monotone clock. */
  ghost predicate InOrder(checks: seq<Check>) {
    forall i, j :: 0 <= i < j < |checks| ==> checks[i].now <= checks[j].now
  }

  /** Over any run, every worker's history is rising and keeps the budget. */
  lemma {:induction false} RunKeepsBudget(checks: seq<Check>, name: string, limit: nat, window: int)
    requires InOrder(checks)
    ensures var h := NEW_LEDGER.JudgeAll(checks, limit, window).Restarted(name);
            && Rising(h) && Budgeted(h, limit, window)
            && (forall t :: t in h && checks != [] ==> t <= checks[|checks| - 1].now)
            && (checks == [] ==> h == [])
  {
    if checks != [] {
      var front, c := checks[..|checks| - 1], checks[|checks| - 1];
      RunKeepsBudget(front, name, limit, window);
      var before := NEW_LEDGER.JudgeAll(front, limit, window);
      if before.Acts(c) && !before.Spent(c, limit, window) && c.name == name {
        var h := before.Restarted(name);
        assert h == [] || h[|h| - 1] in h;
        RestartKeepsBudget(h, c.now, limit, window);
      }
    }
  }

  /** Over any run, any half-open window holds at most `limit` restarts of one worker. */
  lemma BudgetHolds(checks: seq<Check>, name: string, from: int, limit: nat, window: int)
    requires InOrder(checks)
    ensures CountIn(NEW_LEDGER.JudgeAll(checks, limit, window).Restarted(name), from, window) <= limit
  {
    RunKeepsBudget(checks, name, limit, window);
    AtMostInWindow(NEW_LEDGER.JudgeAll(checks, limit, window).Restarted(name), from, limit, window);
  }

  /** A worker given up on stays given up on and is never restarted again. */
  lemma {:induction false} GivenUpForGood(l: Ledger, checks: seq<Check>, i: nat, name: string, limit: nat, window: int)
    requires i <= |checks| && name in l.JudgeAll(checks[..i], limit, window).gaveUp
    ensures name in l.JudgeAll(checks, limit, window).gaveUp
    ensures l.JudgeAll(checks, limit, window).Restarted(name) == l.JudgeAll(checks[..i], limit, window).Restarted(name)
    decreases |checks|
  {
    if i < |checks| {
      var front := checks[..|checks| - 1];
      assert front[..i] == checks[..i];
      GivenUpForGood(l, front, i, name, limit, window);
    } else {
      assert checks[..i] == checks;
    }
  }

  /** A worker is given up on exactly when one of its deaths finds the budget spent. */
  lemma {:induction false} GivenUpExactly(checks: seq<Check>, name: string, limit: nat, window: int)
    ensures name in NEW_LEDGER.JudgeAll(checks, limit, window).gaveUp
       <==> exists i :: 0 <= i < |checks| && checks[i].name == name
                     && var before := NEW_LEDGER.JudgeAll(checks[..i], limit, window);
                        before.Acts(checks[i]) && before.Spent(checks[i], limit, window)
  {
    if checks != [] {
      var front := checks[..|checks| - 1];
      GivenUpExactly(front, name, limit, window);
      forall i | 0 <= i < |front|
        ensures front[i] == checks[i] && front[..i] == checks[..i]
      {
      }
      if name in NEW_LEDGER.JudgeAll(front, limit, window).gaveUp {
        var i :| 0 <= i < |front| && front[i].name == name
              && var before := NEW_LEDGER.JudgeAll(front[..i], limit, window);
                 before.Acts(front[i]) && before.Spent(front[i], limit, window);
        assert checks[..i] == front[..i] && checks[i] == front[i];
      }
    }
  }

  /** What is recorded of a worker is its history as pruned at its last restart. */
  ghost predicate Tracked(h: seq<int>, recorded: seq<int>, window: int, clock: int) {
    h != [] && h[|h| - 1] <= clock && recorded == Within(h, h[|h| - 1], window)
  }

  /** So pruning what is recorded gives what pruning the whole history would. */
  lemma PrunedAgain(h: seq<int>, recorded: seq<int>, window: int, now: int)
    requires if h == [] then recorded == [] else Tracked(h, recorded, window, now)
    ensures Within(recorded, now, window) == Within(h, now, window)
  {
    if h != [] {
      PruneTwice(h, h[|h| - 1], now, window);
    }
  }

  ghost predicate AllTracked(l: Ledger, restarts: map<string, seq<int>>, window: int, clock: int) {
    && restarts.Keys == l.history.Keys
    && forall name :: name in restarts ==> Tracked(l.history[name], restarts[name], window, clock)
  }

  function ClockAfter(checks: seq<Check>): int {
    if checks == [] then 0 else checks[|checks| - 1].now
  }

  /** The next check, not before the last: the ledger is judged on, and what was tracked still is. */
  lemma NextCheck(checks: seq<Check>, c: Check, restarts: map<string, seq<int>>, limit: nat, window: int)
    requires InOrder(checks) && (checks != [] ==> ClockAfter(checks) <= c.now)
    requires AllTracked(NEW_LEDGER.JudgeAll(checks, limit, window), restarts, window, ClockAfter(checks))
    ensures InOrder(checks + [c]) && ClockAfter(checks + [c]) == c.now
    ensures AllTracked(NEW_LEDGER.JudgeAll(checks, limit, window), restarts, window, c.now)
    ensures NEW_LEDGER.JudgeAll(checks + [c], limit, window)
         == NEW_LEDGER.JudgeAll(checks, limit, window).Judge(c, limit, window)
  {
    assert (checks + [c])[..|checks|] == checks;
  }

  lemma AllTrackedOnward(l: Ledger, restarts: map<string, seq<int>>, c: Check, window: int)
    requires window > 0 && AllTracked(l, restarts, window, c.now)
    ensures var h := l.Restarted(c.name);
            AllTracked(l.(history := l.history[c.name := h + [c.now]]),
                       restarts[c.name := Within(h, c.now, window) + [c.now]], window, c.now)
  {
    var h := l.Restarted(c.name);
    assert (h + [c.now])[..|h|] == h;
  }

  function RecordedOf(restarts: map<string, seq<int>>, name: string): seq<int> {
    if name in restarts then restarts[name] else []
  }

  /** A turn that acts: the verdict from what is recorded is the verdict from the whole history. */
  lemma ActsRight(l: Ledger, restarts: map<string, seq<int>>, c: Check, recent: seq<int>, limit: nat, window: int)
    requires window > 0 && l.Acts(c) && AllTracked(l, restarts, window, c.now)
    requires recent == Within(RecordedOf(restarts, c.name), c.now, window)
    ensures l.Spent(c, limit, window) <==> |recent| >= limit
    ensures AllTracked(l.Judge(c, limit, window),
                       if |recent| >= limit then restarts else restarts[c.name := recent + [c.now]], window, c.now)
  {
    PrunedAgain(l.Restarted(c.name), RecordedOf(restarts, c.name), window, c.now);
    AllTrackedOnward(l, restarts, c, window);
  }

  class WorkerWatchdog {
    const limit: nat
    const window: int
    var restarts: map<string, seq<int>>  // recent restarts, pruned when one is added
    var gaveUp: set<string>
    ghost var seen: seq<Check>           // every check made

    constructor (limit: nat, window: int)
      requires window > 0
      ensures Valid() && seen == []
      ensures this.limit == limit && this.window == window
    {
      this.limit := limit;
      this.window := window;
      restarts := map[];
      gaveUp := {};
      seen := [];
    }

    /** What the run so far ought to have done. */
    ghost function Record(): Ledger
      reads this
    {
      NEW_LEDGER.JudgeAll(seen, limit, window)
    }

    ghost predicate Valid()
      reads this
    {
      && window > 0
      && InOrder(seen)
      && gaveUp == Record().gaveUp
      && AllTracked(Record(), restarts, window, ClockAfter(seen))
    }

    /** One worker's turn: the verdict from the pruned list is the verdict from the whole history. */
    method Attend(c: Check) returns (respawn: bool)
      requires Valid() && (seen != [] ==> seen[|seen| - 1].now <= c.now)
      modifies this
      ensures Valid() && seen == old(seen) + [c]
      ensures respawn <==> old(Record().Acts(c) && !Record().Spent(c, limit, window))
    {
      ghost var before := Record();
      NextCheck(seen, c, restarts, limit, window);
      seen := seen + [c];
      if c.alive || c.name in gaveUp || !c.running {
        return false;
      }
      var recorded := if c.name in restarts then restarts[c.name] else [];
      var recent := Prune(recorded, c.now);
      ActsRight(before, restarts, c, recent, limit, window);
      if |recent| >= limit {
        gaveUp := gaveUp + {c.name};
        return false;
      }
      restarts := restarts[c.name := recent + [c.now]];
      respawn := true;
    }

    method Prune(times: seq<int>, now: int) returns (recent: seq<int>)
      ensures recent == Within(times, now, window)
    {
      recent := [];
      for i := 0 to |times|
        invariant recent == Within(times[..i], now, window)
      {
        assert times[..i + 1][..i] == times[..i];
        if now - times[i] < window {
          recent := recent + [times[i]];
        }
      }
      assert times[..|times|] == times;
    }

    /** A pass over the workers. */
    method Pass(checks: seq<Check>)
      requires Valid() && InOrder(seen + checks)
      modifies this
      ensures Valid() && seen == old(seen) + checks
    {
      for i := 0 to |checks|
        invariant Valid() && seen == old(seen) + checks[..i]
      {
        assert (old(seen) + checks)[|seen|] == checks[i];
        assert seen != [] ==> (old(seen) + checks)[|seen| - 1] == seen[|seen| - 1];
        var respawn := Attend(checks[i]);
      }
    }
  }
}
