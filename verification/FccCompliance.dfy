/** The FCC check of the strongest tone of an averaged spectrum: 47 CFR section 15.247(a)(1), channel
    separation against the 20 dB bandwidth, and section 15.247(d), emissions elsewhere.  Levels (in dB)
    and frequencies are reals; the candidate peaks are given. */
module FccCompliance {
  import opened Numbers
  import opened Options

  datatype Limits = Limits(minSnr: real, spacing: real, spurLimit: real)

  datatype Spectrum = Spectrum(freqs: seq<real>, levels: seq<real>, binHz: real, peaks: seq<nat>) {
    ghost predicate Sound() {
      && levels != [] && |freqs| == |levels| && binHz > 0.0
      && forall p :: p in peaks ==> p < |levels|
    }
  }

  datatype Spur = Spur(idx: nat, freq: real, power: real, dbc: real, pass: bool)

  datatype Report = Report(
    carrier: nat, carrierFreq: real, carrierPower: real, noise: real, snr: real,
    bandwidth: real, low: nat, high: nat, threshold: real, bandwidthLimit: real,
    spacing: real, spacingOk: bool, spurLimit: real, spurLevel: real,
    spurs: seq<Spur>, failed: nat, worst: Option<real>, spursOk: bool, overallOk: bool
  )

  // --- the noise floor ------------------------------------------------------------

  ghost predicate Ascending(levels: seq<real>) {
    forall i, j :: 0 <= i < j < |levels| ==> levels[i] <= levels[j]
  }

  function InsertLevel(sorted: seq<real>, x: real): (r: seq<real>)
    requires Ascending(sorted)
    ensures Ascending(r) && |r| == |sorted| + 1
    ensures r[|sorted|] == if sorted != [] && sorted[|sorted| - 1] > x then sorted[|sorted| - 1] else x
  {
    if sorted == [] || sorted[|sorted| - 1] <= x then sorted + [x]
    else InsertLevel(sorted[..|sorted| - 1], x) + [sorted[|sorted| - 1]]
  }

  function Sorted(levels: seq<real>): (r: seq<real>)
    ensures Ascending(r) && |r| == |levels|
  {
    if levels == [] then [] else InsertLevel(Sorted(levels[..|levels| - 1]), levels[|levels| - 1])
  }

  lemma {:induction false} InsertLevelPermutes(sorted: seq<real>, x: real)
    requires Ascending(sorted)
    ensures multiset(InsertLevel(sorted, x)) == multiset(sorted) + multiset{x}
  {
    if !(sorted == [] || sorted[|sorted| - 1] <= x) {
      var front, last := sorted[..|sorted| - 1], sorted[|sorted| - 1];
      InsertLevelPermutes(front, x);
      assert InsertLevel(sorted, x) == InsertLevel(front, x) + [last];
      assert sorted == front + [last];
    }
  }

  lemma {:induction false} SortedPermutes(levels: seq<real>)
    ensures multiset(Sorted(levels)) == multiset(levels)
  {
    if levels != [] {
      var front, last := levels[..|levels| - 1], levels[|levels| - 1];
      SortedPermutes(front);
      assert Sorted(levels) == InsertLevel(Sorted(front), last);
      InsertLevelPermutes(Sorted(front), last);
      assert levels == front + [last];
      assert multiset(front + [last]) == multiset(front) + multiset{last};
    }
  }

  /** The middle one, or the mean of the middle two. */
  function Middle(sorted: seq<real>): real
    requires sorted != []
  {
    var m := |sorted| / 2;
    if |sorted| % 2 == 1 then sorted[m] else (sorted[m - 1] + sorted[m]) / 2.0
  }

  function Median(levels: seq<real>): real
    requires levels != []
  {
    Middle(Sorted(levels))
  }

  lemma MiddleSplits(s: seq<real>, i: nat)
    requires Ascending(s) && i < |s|
    ensures i < (|s| + 1) / 2 ==> s[i] <= Middle(s)
    ensures i >= |s| / 2 ==> s[i] >= Middle(s)
  {
  }

  /** In sorted order, the first half of the bins is at or below the floor and the other half at or
      above it. */
  lemma MedianSplits(levels: seq<real>, i: nat)
    requires i < |levels|
    ensures var s := Sorted(levels);
            && multiset(s) == multiset(levels)
            && (i < (|s| + 1) / 2 ==> s[i] <= Median(levels))
            && (i >= |s| / 2 ==> s[i] >= Median(levels))
  {
    SortedPermutes(levels);
    MiddleSplits(Sorted(levels), i);
  }

  lemma LastIsMost(a: seq<real>, b: seq<real>)
    requires a != [] && b != [] && Ascending(b) && multiset(a) == multiset(b)
    ensures a[|a| - 1] <= b[|b| - 1]
  {
    assert a[|a| - 1] in multiset(b);
    var i :| 0 <= i < |b| && b[i] == a[|a| - 1];
  }

  lemma FrontOf(a: seq<real>)
    requires a != []
    ensures multiset(a) == multiset(a[..|a| - 1]) + multiset{a[|a| - 1]}
  {
    assert a == a[..|a| - 1] + [a[|a| - 1]];
  }

  lemma SameLast(a: seq<real>, b: seq<real>)
    requires Ascending(a) && Ascending(b) && multiset(a) == multiset(b) && a != []
    ensures |a| == |b| && a[|a| - 1] == b[|b| - 1] && multiset(a[..|a| - 1]) == multiset(b[..|b| - 1])
  {
    assert |multiset(a)| == |a| && |multiset(b)| == |b|;
    LastIsMost(a, b);
    LastIsMost(b, a);
    FrontOf(a);
    FrontOf(b);
    var last := multiset{a[|a| - 1]};
    assert multiset(a[..|a| - 1]) == multiset(a) - last && multiset(b[..|b| - 1]) == multiset(b) - last;
  }

  /** Ascending order leaves one arrangement. */
  lemma {:induction false} AscendingOnce(a: seq<real>, b: seq<real>)
    requires Ascending(a) && Ascending(b) && multiset(a) == multiset(b)
    ensures a == b
  {
    if a == [] {
      assert |multiset(b)| == |b|;
    } else {
      var n := |a| - 1;
      SameLast(a, b);
      FrontAscends(a);
      FrontAscends(b);
      AscendingOnce(a[..n], b[..n]);
      assert a == a[..n] + [a[n]] && b == b[..n] + [b[n]];
    }
  }

  lemma FrontAscends(a: seq<real>)
    requires a != [] && Ascending(a)
    ensures Ascending(a[..|a| - 1])
  {
  }

  lemma MiddleRight(s: seq<real>)
    requires s != []
    ensures var n := |s|; 2.0 * Middle(s) == s[(n - 1) / 2] + s[n / 2]
  {
  }

  /** The median, however the levels are brought into order: the middle one, or halfway between the
      middle two. */
  lemma MedianIsMiddle(levels: seq<real>, s: seq<real>)
    requires levels != [] && Ascending(s) && multiset(s) == multiset(levels)
    ensures |s| == |levels|
    ensures var n := |s|; 2.0 * Median(levels) == s[(n - 1) / 2] + s[n / 2]
  {
    SortedPermutes(levels);
    AscendingOnce(s, Sorted(levels));
    MiddleRight(s);
  }

  // --- what the rules ask for -------------------------------------------------------

  /** The first of the highest bins. */
  ghost predicate Peak(levels: seq<real>, k: nat) {
    && k < |levels|
    && (forall j :: 0 <= j < |levels| ==> levels[j] <= levels[k])
    && (forall j :: 0 <= j < k ==> levels[j] < levels[k])
  }

  /** Every bin from the peak down to `low`, exclusive, is above the threshold; `low` is not, unless
      the trace ends there. */
  ghost predicate LowEdge(levels: seq<real>, threshold: real, k: nat, low: nat) {
    && low <= k < |levels|
    && (forall j :: low < j <= k ==> levels[j] > threshold)
    && (low == 0 || levels[low] <= threshold)
  }

  ghost predicate HighEdge(levels: seq<real>, threshold: real, k: nat, high: nat) {
    && k <= high < |levels|
    && (forall j :: k <= j < high ==> levels[j] > threshold)
    && (high == |levels| - 1 || levels[high] <= threshold)
  }

  function Bandwidth(low: nat, high: nat, binHz: real): real {
    (high - low) as real * binHz
  }

  /** Half a channel in whole bins. */
  function HalfChannel(spacing: real, binHz: real): int
    requires binHz > 0.0
  {
    (spacing / 2.0 / binHz).Floor
  }

  function Guard(carrier: nat, low: nat, high: nat, halfChannel: int): int {
    Larger(Larger(carrier - low, high - carrier), halfChannel) + 3
  }

  /** The candidates further than the guard from the carrier, in their order. */
  function Beyond(peaks: seq<nat>, carrier: nat, guard: int): seq<nat> {
    if peaks == [] then []
    else
      var rest, p := Beyond(peaks[..|peaks| - 1], carrier, guard), peaks[|peaks| - 1];
      if Distance(p, carrier) <= guard then rest else rest + [p]
  }

  lemma {:induction false} BeyondExactly(peaks: seq<nat>, carrier: nat, guard: int, p: nat)
    ensures p in Beyond(peaks, carrier, guard) <==> p in peaks && Distance(p, carrier) > guard
  {
    if peaks != [] {
      BeyondExactly(peaks[..|peaks| - 1], carrier, guard, p);
    }
  }

  ghost predicate MeasuresCarrier(s: Spectrum, noise: real, limits: Limits, r: Report)
    requires s.Sound()
  {
    && Peak(s.levels, r.carrier)
    && r.carrierPower == s.levels[r.carrier] && r.carrierFreq == s.freqs[r.carrier]
    && r.noise == noise && r.snr == r.carrierPower - r.noise >= limits.minSnr
  }

  /** Section 15.247(a)(1). */
  ghost predicate MeasuresWidth(s: Spectrum, limits: Limits, r: Report)
    requires s.Sound()
  {
    && r.threshold == r.carrierPower - 20.0
    && LowEdge(s.levels, r.threshold, r.carrier, r.low) && HighEdge(s.levels, r.threshold, r.carrier, r.high)
    && r.bandwidth == Bandwidth(r.low, r.high, s.binHz)
    && r.spacing == limits.spacing && r.bandwidthLimit == 1.5 * r.spacing
    && (r.spacingOk <==> r.bandwidth <= r.bandwidthLimit)
  }

  /** Section 15.247(d). */
  ghost predicate MeasuresSpurs(s: Spectrum, limits: Limits, r: Report, halfChannel: int)
    requires s.Sound()
  {
    && r.spurLimit == limits.spurLimit && r.spurLevel == r.carrierPower - r.spurLimit
    && Lists(s, r, r.spurs, Beyond(s.peaks, r.carrier, Guard(r.carrier, r.low, r.high, halfChannel)))
    && r.failed == |Failing(r.spurs)| && IsWorst(r.spurs, r.worst)
    && (r.spursOk <==> forall i :: 0 <= i < |r.spurs| ==> r.spurs[i].power <= r.spurLevel)
  }

  /** The report the rules ask for, above a given noise floor. */
  ghost predicate Judges(s: Spectrum, noise: real, limits: Limits, r: Report)
    requires s.Sound()
  {
    && MeasuresCarrier(s, noise, limits, r) && MeasuresWidth(s, limits, r)
    && MeasuresSpurs(s, limits, r, HalfChannel(limits.spacing, s.binHz))
    && (r.overallOk <==> r.spacingOk && r.spursOk)
  }

  /** One entry for each bin, in order, each with its level against the carrier and the limit. */
  ghost predicate Lists(s: Spectrum, r: Report, spurs: seq<Spur>, bins: seq<nat>)
    requires s.Sound()
  {
    |spurs| == |bins| && forall i :: 0 <= i < |bins| ==> Entry(s, r, bins[i], spurs[i])
  }

  ghost predicate Entry(s: Spectrum, r: Report, bin: nat, spur: Spur)
    requires s.Sound()
  {
    && bin < |s.levels| && spur.idx == bin && spur.freq == s.freqs[bin] && spur.power == s.levels[bin]
    && spur.dbc == spur.power - r.carrierPower && (spur.pass <==> spur.power <= r.spurLevel)
  }

  ghost predicate IsWorst(spurs: seq<Spur>, worst: Option<real>) {
    && (worst.None? <==> spurs == [])
    && (worst.Some? ==> exists i :: 0 <= i < |spurs| && spurs[i].dbc == worst.value)
    && (worst.Some? ==> forall i :: 0 <= i < |spurs| ==> spurs[i].dbc <= worst.value)
  }

  function Failing(spurs: seq<Spur>): seq<Spur> {
    if spurs == [] then []
    else
      var rest, last := Failing(spurs[..|spurs| - 1]), spurs[|spurs| - 1];
      if last.pass then rest else rest + [last]
  }

  lemma {:induction false} FailingExactly(spurs: seq<Spur>)
    ensures Failing(spurs) == [] <==> forall i :: 0 <= i < |spurs| ==> spurs[i].pass
  {
    if spurs != [] {
      FailingExactly(spurs[..|spurs| - 1]);
    }
  }

  /** As many as do not pass. */
  lemma {:induction false} FailingCounted(spurs: seq<Spur>)
    ensures |Failing(spurs)| == |set i | 0 <= i < |spurs| && !spurs[i].pass|
  {
    var failed := set i | 0 <= i < |spurs| && !spurs[i].pass;
    if spurs == [] {
      assert failed == {};
    } else {
      var n := |spurs| - 1;
      FailingCounted(spurs[..n]);
      var before := set i | 0 <= i < n && !spurs[i].pass;
      assert before == set i | 0 <= i < |spurs[..n]| && !spurs[..n][i].pass;
      assert failed == if spurs[n].pass then before else before + {n};
    }
  }

  method ArgMax(levels: seq<real>) returns (k: nat)
    requires levels != []
    ensures Peak(levels, k)
  {
    k := 0;
    for i := 1 to |levels|
      invariant k < i
      invariant Peak(levels[..i], k)
    {
      if levels[i] > levels[k] {
        k := i;
      }
    }
  }

  method WalkOut(levels: seq<real>, peak: nat, threshold: real) returns (low: nat, high: nat)
    requires peak < |levels|
    ensures LowEdge(levels, threshold, peak, low) && HighEdge(levels, threshold, peak, high)
  {
    low := peak;
    while low > 0 && levels[low] > threshold
      invariant low <= peak
      invariant forall j :: low < j <= peak ==> levels[j] > threshold
    {
      low := low - 1;
    }
    high := peak;
    while high < |levels| - 1 && levels[high] > threshold
      invariant peak <= high < |levels|
      invariant forall j :: peak <= j < high ==> levels[j] > threshold
    {
      high := high + 1;
    }
  }

  /** The walk over the first `n` candidates. */
  ghost predicate Walked(s: Spectrum, r: Report, guard: int, n: nat, spurs: seq<Spur>, failed: nat, worst: Option<real>)
    requires s.Sound() && n <= |s.peaks|
  {
    && Lists(s, r, spurs, Beyond(s.peaks[..n], r.carrier, guard))
    && failed == |Failing(spurs)| && IsWorst(spurs, worst)
  }

  lemma WalkedOn(s: Spectrum, r: Report, guard: int, n: nat, spurs: seq<Spur>, failed: nat, worst: Option<real>)
    requires s.Sound() && n < |s.peaks| && Walked(s, r, guard, n, spurs, failed, worst)
    ensures Distance(s.peaks[n], r.carrier) <= guard ==> Walked(s, r, guard, n + 1, spurs, failed, worst)
    ensures Distance(s.peaks[n], r.carrier) > guard ==>
      forall spur :: Entry(s, r, s.peaks[n], spur) ==>
        Walked(s, r, guard, n + 1, spurs + [spur], failed + if spur.pass then 0 else 1,
               if worst.None? || spur.dbc > worst.value then Some(spur.dbc) else worst)
  {
    assert s.peaks[..n + 1][..n] == s.peaks[..n];
    if Distance(s.peaks[n], r.carrier) > guard {
      forall spur | Entry(s, r, s.peaks[n], spur)
        ensures Walked(s, r, guard, n + 1, spurs + [spur], failed + if spur.pass then 0 else 1,
                       if worst.None? || spur.dbc > worst.value then Some(spur.dbc) else worst)
      {
        assert (spurs + [spur])[..|spurs|] == spurs;
        Worst(spurs, worst, spur);
      }
    }
  }

  /** The measuring walk: one entry per candidate beyond the guard. */
  method ListSpurs(s: Spectrum, r: Report, guard: int) returns (result: Report)
    requires s.Sound() && r.carrier < |s.levels|
    requires r.carrierPower == s.levels[r.carrier] && r.spurLevel == r.carrierPower - r.spurLimit
    ensures result == r.(spurs := result.spurs, failed := |Failing(result.spurs)|, worst := result.worst)
    ensures Lists(s, result, result.spurs, Beyond(s.peaks, r.carrier, guard)) && IsWorst(result.spurs, result.worst)
  {
    var spurs: seq<Spur>, failed, worst := [], 0, None;
    for i := 0 to |s.peaks|
      invariant Walked(s, r, guard, i, spurs, failed, worst)
    {
      var p := s.peaks[i];
      assert p in s.peaks;
      WalkedOn(s, r, guard, i, spurs, failed, worst);
      if Distance(p, r.carrier) <= guard {
        continue;
      }
      var dbc := s.levels[p] - r.carrierPower;
      var spur := Spur(p, s.freqs[p], s.levels[p], dbc, dbc <= -r.spurLimit);
      assert Entry(s, r, p, spur);
      if worst.None? || dbc > worst.value {
        worst := Some(dbc);
      }
      if !spur.pass {
        failed := failed + 1;
      }
      spurs := spurs + [spur];
    }
    assert s.peaks[..|s.peaks|] == s.peaks;
    result := r.(spurs := spurs, failed := failed, worst := worst);
    EntriesAlike(s, r, result, spurs, Beyond(s.peaks, r.carrier, guard));
  }

  /** An entry depends on the report's levels only. */
  lemma EntriesAlike(s: Spectrum, a: Report, b: Report, spurs: seq<Spur>, bins: seq<nat>)
    requires s.Sound() && a.carrierPower == b.carrierPower && a.spurLevel == b.spurLevel
    requires Lists(s, a, spurs, bins)
    ensures Lists(s, b, spurs, bins)
  {
    forall i | 0 <= i < |bins|
      ensures Entry(s, b, bins[i], spurs[i])
    {
      assert Entry(s, a, bins[i], spurs[i]);
    }
  }

  lemma Worst(spurs: seq<Spur>, worst: Option<real>, spur: Spur)
    requires IsWorst(spurs, worst)
    ensures IsWorst(spurs + [spur], if worst.None? || spur.dbc > worst.value then Some(spur.dbc) else worst)
  {
    var all := spurs + [spur];
    assert all[|spurs|] == spur;
    if worst.Some? {
      var i :| 0 <= i < |spurs| && spurs[i].dbc == worst.value;
      assert all[i] == spurs[i];
    }
  }

  lemma PassingAlike(s: Spectrum, r: Report, bins: seq<nat>)
    requires s.Sound() && Lists(s, r, r.spurs, bins)
    ensures |Failing(r.spurs)| == 0 <==> forall i :: 0 <= i < |r.spurs| ==> r.spurs[i].power <= r.spurLevel
  {
    FailingExactly(r.spurs);
    forall i | 0 <= i < |bins|
      ensures r.spurs[i].pass <==> r.spurs[i].power <= r.spurLevel
    {
      assert Entry(s, r, bins[i], r.spurs[i]);
    }
  }

  /** The carrier and its width; the emissions are yet to be measured. */
  method MeasureCarrier(s: Spectrum, limits: Limits) returns (report: Option<Report>)
    requires s.Sound()
    ensures report.None? <==> forall j :: 0 <= j < |s.levels| ==> s.levels[j] - Median(s.levels) < limits.minSnr
    ensures report.Some? ==> MeasuresCarrier(s, Median(s.levels), limits, report.value)
    ensures report.Some? ==> MeasuresWidth(s, limits, report.value)
    ensures report.Some? ==>
      var r := report.value; r.spurLimit == limits.spurLimit && r.spurLevel == r.carrierPower - r.spurLimit
  {
    var noise := Median(s.levels);
    var carrier := ArgMax(s.levels);
    var power := s.levels[carrier];
    if power - noise < limits.minSnr {
      return None;
    }
    var threshold := power - 20.0;
    var low, high := WalkOut(s.levels, carrier, threshold);
    var bandwidth := Bandwidth(low, high, s.binHz);
    report := Some(Report(carrier, s.freqs[carrier], power, noise, power - noise, bandwidth, low, high, threshold,
                          1.5 * limits.spacing, limits.spacing, (2.0 / 3.0) * bandwidth <= limits.spacing,
                          limits.spurLimit, power - limits.spurLimit, [], 0, None, false, false));
  }

  /** No report exactly when the strongest bin does not stand far enough above the noise floor;
      otherwise the report the rules ask for. */
  method Evaluate(s: Spectrum, limits: Limits) returns (report: Option<Report>)
    requires s.Sound() && limits.spacing >= 0.0
    ensures report.None? <==> forall j :: 0 <= j < |s.levels| ==> s.levels[j] - Median(s.levels) < limits.minSnr
    ensures report.Some? ==> Judges(s, Median(s.levels), limits, report.value)
  {
    report := MeasureCarrier(s, limits);
    if report.None? {
      return;
    }
    var r := report.value;
    var guard := Guard(r.carrier, r.low, r.high, HalfChannel(limits.spacing, s.binHz));
    var measured := ListSpurs(s, r, guard);
    var spursOk := measured.failed == 0;
    var judged := measured.(spursOk := spursOk, overallOk := r.spacingOk && spursOk);
    SpursJudged(s, limits, measured, HalfChannel(limits.spacing, s.binHz), judged.overallOk);
    report := Some(judged);
  }

  lemma SpursJudged(s: Spectrum, limits: Limits, r: Report, halfChannel: int, overall: bool)
    requires s.Sound() && r.spurLimit == limits.spurLimit && r.spurLevel == r.carrierPower - r.spurLimit
    requires Lists(s, r, r.spurs, Beyond(s.peaks, r.carrier, Guard(r.carrier, r.low, r.high, halfChannel)))
    requires r.failed == |Failing(r.spurs)| && IsWorst(r.spurs, r.worst)
    ensures MeasuresSpurs(s, limits, r.(spursOk := r.failed == 0, overallOk := overall), halfChannel)
  {
    var bins := Beyond(s.peaks, r.carrier, Guard(r.carrier, r.low, r.high, halfChannel));
    PassingAlike(s, r, bins);
    EntriesAlike(s, r, r.(spursOk := r.failed == 0, overallOk := overall), r.spurs, bins);
  }

  /** The rules leave no choice: one spectrum has one report. */
  lemma JudgedOnce(s: Spectrum, noise: real, limits: Limits, a: Report, b: Report)
    requires s.Sound() && Judges(s, noise, limits, a) && Judges(s, noise, limits, b)
    ensures a == b
  {
    var halfChannel := HalfChannel(limits.spacing, s.binHz);
    SameCarrier(s, noise, limits, a, b);
    SameWidth(s, limits, a, b);
    SameSpurs(s, limits, a, b, halfChannel);
  }

  lemma SameCarrier(s: Spectrum, noise: real, limits: Limits, a: Report, b: Report)
    requires s.Sound() && MeasuresCarrier(s, noise, limits, a) && MeasuresCarrier(s, noise, limits, b)
    ensures a.carrier == b.carrier && a.carrierPower == b.carrierPower && a.carrierFreq == b.carrierFreq
    ensures a.noise == b.noise && a.snr == b.snr
  {
  }

  lemma SameWidth(s: Spectrum, limits: Limits, a: Report, b: Report)
    requires s.Sound() && a.carrier == b.carrier && a.carrierPower == b.carrierPower
    requires MeasuresWidth(s, limits, a) && MeasuresWidth(s, limits, b)
    ensures a.threshold == b.threshold && a.low == b.low && a.high == b.high && a.bandwidth == b.bandwidth
    ensures a.spacing == b.spacing && a.bandwidthLimit == b.bandwidthLimit && a.spacingOk == b.spacingOk
  {
    SameEdges(s.levels, a.threshold, a.carrier, a.low, b.low, a.high, b.high);
  }

  lemma SameEdges(levels: seq<real>, threshold: real, k: nat, low: nat, low': nat, high: nat, high': nat)
    requires LowEdge(levels, threshold, k, low) && LowEdge(levels, threshold, k, low')
    requires HighEdge(levels, threshold, k, high) && HighEdge(levels, threshold, k, high')
    ensures low == low' && high == high'
  {
  }

  lemma SameSpurs(s: Spectrum, limits: Limits, a: Report, b: Report, halfChannel: int)
    requires s.Sound() && a.carrierPower == b.carrierPower
    requires a.carrier == b.carrier && a.low == b.low && a.high == b.high
    requires MeasuresSpurs(s, limits, a, halfChannel) && MeasuresSpurs(s, limits, b, halfChannel)
    ensures a.spurs == b.spurs && a.worst == b.worst && a.failed == b.failed && a.spursOk == b.spursOk
    ensures a.spurLimit == b.spurLimit && a.spurLevel == b.spurLevel
  {
    var bins := Beyond(s.peaks, a.carrier, Guard(a.carrier, a.low, a.high, halfChannel));
    forall i | 0 <= i < |bins|
      ensures a.spurs[i] == b.spurs[i]
    {
      assert Entry(s, a, bins[i], a.spurs[i]) && Entry(s, b, bins[i], b.spurs[i]);
    }
  }

  /** Spurs by bin. */
  lemma Listed(s: Spectrum, limits: Limits, r: Report, halfChannel: int, p: nat)
    requires s.Sound() && MeasuresSpurs(s, limits, r, halfChannel)
    ensures p in s.peaks && Distance(p, r.carrier) > Guard(r.carrier, r.low, r.high, halfChannel)
       <==> exists i :: 0 <= i < |r.spurs| && r.spurs[i].idx == p
  {
    var guard := Guard(r.carrier, r.low, r.high, halfChannel);
    var bins := Beyond(s.peaks, r.carrier, guard);
    BeyondExactly(s.peaks, r.carrier, guard, p);
    forall i | 0 <= i < |bins|
      ensures r.spurs[i].idx == bins[i]
    {
      assert Entry(s, r, bins[i], r.spurs[i]);
    }
    if p in bins {
      var i :| 0 <= i < |bins| && bins[i] == p;
      assert r.spurs[i].idx == p;
    }
  }

  /** The verdict in the rules' own terms: two thirds of the 20 dB bandwidth within the spacing, and
      every candidate beyond the guard at least the limit below the carrier. */
  lemma Verdict(s: Spectrum, noise: real, limits: Limits, r: Report)
    requires s.Sound() && Judges(s, noise, limits, r)
    ensures var guard := Guard(r.carrier, r.low, r.high, HalfChannel(limits.spacing, s.binHz));
            r.overallOk <==>
              && (2.0 / 3.0) * r.bandwidth <= limits.spacing
              && forall p: nat :: p in s.peaks && Distance(p, r.carrier) > guard
                   ==> s.levels[p] <= s.levels[r.carrier] - limits.spurLimit
  {
    QuietExactly(s, noise, limits, r, HalfChannel(limits.spacing, s.binHz));
  }

  /** More bins from the carrier than three past either edge of its span, and than three past half a
      channel. */
  ghost predicate OffChannel(s: Spectrum, limits: Limits, r: Report, p: nat) {
    var d := if p < r.carrier then r.carrier - p else p - r.carrier;
    d - 3 > r.carrier - r.low && d - 3 > r.high - r.carrier && 2.0 * ((d - 3) as real * s.binHz) > limits.spacing
  }

  lemma HalfChannelRight(spacing: real, binHz: real, d: int)
    requires binHz > 0.0
    ensures d > HalfChannel(spacing, binHz) <==> 2.0 * (d as real * binHz) > spacing
  {
    var x := spacing / 2.0 / binHz;
    assert d > x.Floor <==> d as real > x;
    assert x * binHz == spacing / 2.0;
    if d as real > x {
      assert d as real * binHz > x * binHz;
    } else {
      assert d as real * binHz <= x * binHz;
    }
  }

  lemma OffChannelRight(s: Spectrum, limits: Limits, r: Report, p: nat)
    requires s.Sound() && r.low <= r.carrier <= r.high
    ensures OffChannel(s, limits, r, p) <==>
              Distance(p, r.carrier) > Guard(r.carrier, r.low, r.high, HalfChannel(limits.spacing, s.binHz))
  {
    HalfChannelRight(limits.spacing, s.binHz, Distance(p, r.carrier) - 3);
  }

  lemma WidthRight(s: Spectrum, limits: Limits, r: Report)
    requires s.Sound() && MeasuresWidth(s, limits, r)
    ensures r.spacingOk <==> 2.0 * ((r.high - r.low) as real * s.binHz) <= 3.0 * limits.spacing
    ensures r.bandwidth == s.binHz * (r.high - r.low) as real
  {
  }

  /** Every candidate off the channel is at least the limit below the carrier. */
  ghost predicate Quiet(s: Spectrum, limits: Limits, r: Report)
    requires s.Sound() && r.carrier < |s.levels|
  {
    forall p: nat :: p in s.peaks && OffChannel(s, limits, r, p) ==>
      s.levels[p] <= s.levels[r.carrier] - limits.spurLimit
  }

  lemma QuietRight(s: Spectrum, limits: Limits, r: Report)
    requires s.Sound() && r.low <= r.carrier <= r.high && r.carrier < |s.levels|
    ensures var guard := Guard(r.carrier, r.low, r.high, HalfChannel(limits.spacing, s.binHz));
            Quiet(s, limits, r) <==>
              forall p: nat :: p in s.peaks && Distance(p, r.carrier) > guard
                ==> s.levels[p] <= s.levels[r.carrier] - limits.spurLimit
  {
    forall p: nat
      ensures OffChannel(s, limits, r, p) <==>
                Distance(p, r.carrier) > Guard(r.carrier, r.low, r.high, HalfChannel(limits.spacing, s.binHz))
    {
      OffChannelRight(s, limits, r, p);
    }
  }

  lemma SpursQuiet(s: Spectrum, noise: real, limits: Limits, r: Report)
    requires s.Sound() && MeasuresCarrier(s, noise, limits, r) && r.low <= r.carrier <= r.high
    requires MeasuresSpurs(s, limits, r, HalfChannel(limits.spacing, s.binHz))
    ensures r.spursOk <==> Quiet(s, limits, r)
  {
    QuietExactly(s, noise, limits, r, HalfChannel(limits.spacing, s.binHz));
    QuietRight(s, limits, r);
  }

  /** And in bins and frequencies alone. */
  lemma VerdictInNumbers(s: Spectrum, noise: real, limits: Limits, r: Report)
    requires s.Sound() && Judges(s, noise, limits, r)
    ensures r.overallOk <==>
              2.0 * ((r.high - r.low) as real * s.binHz) <= 3.0 * limits.spacing && Quiet(s, limits, r)
    ensures r.bandwidth == s.binHz * (r.high - r.low) as real
    ensures r.failed == |set i | 0 <= i < |r.spurs| && !r.spurs[i].pass|
  {
    FailingCounted(r.spurs);
    WidthRight(s, limits, r);
    SpursQuiet(s, noise, limits, r);
  }

  /** The bins are the candidates past the guard, at the places picked. */
  ghost predicate PicksBeyond(peaks: seq<nat>, carrier: nat, guard: int, picks: seq<nat>, bins: seq<nat>) {
    && |picks| == |bins|
    && (forall j :: 0 <= j < |picks| ==> picks[j] < |peaks| && bins[j] == peaks[picks[j]])
    && (forall i, j :: 0 <= i < j < |picks| ==> picks[i] < picks[j])
    && (forall k :: 0 <= k < |peaks| ==> (k in picks <==> Distance(peaks[k], carrier) > guard))
  }

  lemma PickNext(peaks: seq<nat>, p: nat, carrier: nat, guard: int, picks: seq<nat>, bins: seq<nat>)
    requires PicksBeyond(peaks, carrier, guard, picks, bins)
    ensures if Distance(p, carrier) > guard
            then PicksBeyond(peaks + [p], carrier, guard, picks + [|peaks|], bins + [p])
            else PicksBeyond(peaks + [p], carrier, guard, picks, bins)
  {
  }

  lemma {:induction false} BeyondInOrder(peaks: seq<nat>, carrier: nat, guard: int) returns (picks: seq<nat>)
    ensures PicksBeyond(peaks, carrier, guard, picks, Beyond(peaks, carrier, guard))
  {
    picks := [];
    if peaks != [] {
      var n := |peaks| - 1;
      picks := BeyondInOrder(peaks[..n], carrier, guard);
      PickNext(peaks[..n], peaks[n], carrier, guard, picks, Beyond(peaks[..n], carrier, guard));
      assert peaks == peaks[..n] + [peaks[n]];
      if Distance(peaks[n], carrier) > guard {
        picks := picks + [n];
      }
    }
  }

  /** The spurs are the candidates off the channel, each once, in their order. */
  lemma SpursInOrder(s: Spectrum, noise: real, limits: Limits, r: Report) returns (picks: seq<nat>)
    requires s.Sound() && Judges(s, noise, limits, r)
    ensures |picks| == |r.spurs|
    ensures forall j :: 0 <= j < |picks| ==> picks[j] < |s.peaks| && r.spurs[j].idx == s.peaks[picks[j]]
    ensures forall i, j :: 0 <= i < j < |picks| ==> picks[i] < picks[j]
    ensures forall k :: 0 <= k < |s.peaks| ==> (k in picks <==> OffChannel(s, limits, r, s.peaks[k]))
  {
    var guard := Guard(r.carrier, r.low, r.high, HalfChannel(limits.spacing, s.binHz));
    var bins := Beyond(s.peaks, r.carrier, guard);
    picks := BeyondInOrder(s.peaks, r.carrier, guard);
    forall j | 0 <= j < |bins|
      ensures r.spurs[j].idx == bins[j]
    {
      assert Entry(s, r, bins[j], r.spurs[j]);
    }
    forall k | 0 <= k < |s.peaks|
      ensures OffChannel(s, limits, r, s.peaks[k]) <==> Distance(s.peaks[k], r.carrier) > guard
    {
      OffChannelRight(s, limits, r, s.peaks[k]);
    }
  }

  lemma QuietExactly(s: Spectrum, noise: real, limits: Limits, r: Report, halfChannel: int)
    requires s.Sound() && MeasuresCarrier(s, noise, limits, r) && MeasuresSpurs(s, limits, r, halfChannel)
    ensures r.spursOk <==>
      forall p: nat :: p in s.peaks && Distance(p, r.carrier) > Guard(r.carrier, r.low, r.high, halfChannel)
        ==> s.levels[p] <= s.levels[r.carrier] - limits.spurLimit
  {
    var guard := Guard(r.carrier, r.low, r.high, halfChannel);
    var bins := Beyond(s.peaks, r.carrier, guard);
    forall i | 0 <= i < |bins|
      ensures r.spurs[i].power == s.levels[bins[i]] && r.spurs[i].idx == bins[i] && bins[i] in s.peaks
      ensures Distance(bins[i], r.carrier) > guard
    {
      assert Entry(s, r, bins[i], r.spurs[i]) && bins[i] in bins;
      BeyondExactly(s.peaks, r.carrier, guard, bins[i]);
    }
    forall p: nat | p in s.peaks && Distance(p, r.carrier) > guard && r.spursOk
      ensures s.levels[p] <= r.spurLevel
    {
      Listed(s, limits, r, halfChannel, p);
      var i :| 0 <= i < |r.spurs| && r.spurs[i].idx == p;
      assert r.spurs[i].power <= r.spurLevel;
    }
  }

  /** No listed spur lies on the carrier's own skirt. */
  lemma SpursOffSkirt(s: Spectrum, noise: real, limits: Limits, r: Report, i: nat)
    requires s.Sound() && Judges(s, noise, limits, r) && i < |r.spurs|
    ensures r.spurs[i].idx < r.low || r.spurs[i].idx > r.high
  {
    Listed(s, limits, r, HalfChannel(limits.spacing, s.binHz), r.spurs[i].idx);
  }

  function Raised(levels: seq<real>, gain: real): seq<real> {
    seq(|levels|, i requires 0 <= i < |levels| => levels[i] + gain)
  }

  function RaisedSpurs(spurs: seq<Spur>, gain: real): seq<Spur> {
    seq(|spurs|, i requires 0 <= i < |spurs| => spurs[i].(power := spurs[i].power + gain))
  }

  function RaisedReport(r: Report, gain: real): Report {
    r.(carrierPower := r.carrierPower + gain, noise := r.noise + gain, threshold := r.threshold + gain,
       spurLevel := r.spurLevel + gain, spurs := RaisedSpurs(r.spurs, gain))
  }

  function RaisedSpectrum(s: Spectrum, gain: real): Spectrum {
    s.(levels := Raised(s.levels, gain))
  }

  lemma {:induction false} RaisedFailing(spurs: seq<Spur>, gain: real)
    ensures |Failing(RaisedSpurs(spurs, gain))| == |Failing(spurs)|
  {
    if spurs != [] {
      var front := spurs[..|spurs| - 1];
      RaisedFailing(front, gain);
      assert RaisedSpurs(spurs, gain)[..|front|] == RaisedSpurs(front, gain);
    }
  }

  lemma RaisedWorst(spurs: seq<Spur>, worst: Option<real>, gain: real)
    requires IsWorst(spurs, worst)
    ensures IsWorst(RaisedSpurs(spurs, gain), worst)
  {
    if worst.Some? {
      var i :| 0 <= i < |spurs| && spurs[i].dbc == worst.value;
      assert RaisedSpurs(spurs, gain)[i].dbc == worst.value;
    }
  }

  lemma RaisedSpursMeasured(s: Spectrum, limits: Limits, r: Report, halfChannel: int, gain: real)
    requires s.Sound() && RaisedSpectrum(s, gain).Sound() && MeasuresSpurs(s, limits, r, halfChannel)
    ensures MeasuresSpurs(RaisedSpectrum(s, gain), limits, RaisedReport(r, gain), halfChannel)
  {
    var raised, r' := RaisedSpectrum(s, gain), RaisedReport(r, gain);
    var bins := Beyond(s.peaks, r.carrier, Guard(r.carrier, r.low, r.high, halfChannel));
    forall i | 0 <= i < |bins|
      ensures Entry(raised, r', bins[i], r'.spurs[i])
    {
      assert Entry(s, r, bins[i], r.spurs[i]);
    }
    RaisedFailing(r.spurs, gain);
    RaisedWorst(r.spurs, r.worst, gain);
    PassingAlike(s, r, bins);
    PassingAlike(raised, r', bins);
  }

  lemma RaisedEdges(levels: seq<real>, threshold: real, k: nat, low: nat, high: nat, gain: real)
    requires LowEdge(levels, threshold, k, low) && HighEdge(levels, threshold, k, high)
    ensures LowEdge(Raised(levels, gain), threshold + gain, k, low)
    ensures HighEdge(Raised(levels, gain), threshold + gain, k, high)
  {
  }

  ghost predicate RaisedBy(a: seq<real>, b: seq<real>, gain: real) {
    |a| == |b| && forall i :: 0 <= i < |a| ==> b[i] == a[i] + gain
  }

  lemma {:induction false} InsertRaised(a: seq<real>, b: seq<real>, x: real, gain: real)
    requires Ascending(a) && Ascending(b) && RaisedBy(a, b, gain)
    ensures RaisedBy(InsertLevel(a, x), InsertLevel(b, x + gain), gain)
  {
    if !(a == [] || a[|a| - 1] <= x) {
      InsertRaised(a[..|a| - 1], b[..|b| - 1], x, gain);
    }
  }

  lemma {:induction false} SortedRaised(a: seq<real>, b: seq<real>, gain: real)
    requires RaisedBy(a, b, gain)
    ensures RaisedBy(Sorted(a), Sorted(b), gain)
  {
    if a != [] {
      SortedRaised(a[..|a| - 1], b[..|b| - 1], gain);
      InsertRaised(Sorted(a[..|a| - 1]), Sorted(b[..|b| - 1]), a[|a| - 1], gain);
    }
  }

  lemma MiddleRaised(a: seq<real>, b: seq<real>, gain: real)
    requires a != [] && RaisedBy(a, b, gain)
    ensures Middle(b) == Middle(a) + gain
  {
  }

  lemma RaisedMedian(levels: seq<real>, gain: real)
    requires levels != []
    ensures Median(Raised(levels, gain)) == Median(levels) + gain
  {
    SortedRaised(levels, Raised(levels, gain), gain);
    MiddleRaised(Sorted(levels), Sorted(Raised(levels, gain)), gain);
  }

  /** Gain does not change the verdict: raising every level raises the floor (`RaisedMedian`) and the
      powers reported, and nothing else. */
  lemma GainInvariant(s: Spectrum, noise: real, limits: Limits, r: Report, gain: real)
    requires s.Sound() && Judges(s, noise, limits, r)
    ensures RaisedSpectrum(s, gain).Sound()
    ensures Judges(RaisedSpectrum(s, gain), noise + gain, limits, RaisedReport(r, gain))
  {
    RaisedEdges(s.levels, r.threshold, r.carrier, r.low, r.high, gain);
    RaisedSpursMeasured(s, limits, r, HalfChannel(limits.spacing, s.binHz), gain);
  }
}
