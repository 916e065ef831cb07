/** What the symbol edge tracker has to answer, as rules over the crossings and the arguments themselves.
    They leave no choice, and what the tracker computes is their answer. */
module EdgeRules {
  import opened Numbers
  import opened SymbolEdges

  /** Of the crossings in `lo..hi`, none is nearer to the target, and none before it is as near. */
  ghost predicate NearestIn(xs: seq<int>, lo: int, hi: int, target: int, i: nat) {
    && i < |xs| && lo <= xs[i] <= hi
    && forall j :: 0 <= j < |xs| && lo <= xs[j] <= hi ==>
         if j < i then Distance(xs[i], target) < Distance(xs[j], target)
         else Distance(xs[i], target) <= Distance(xs[j], target)
  }

  ghost predicate NoneIn(xs: seq<int>, lo: int, hi: int) {
    forall j :: 0 <= j < |xs| ==> xs[j] < lo || xs[j] > hi
  }

  /** A crossing in the window, or none there and the default. */
  ghost predicate Search(xs: seq<int>, lo: int, hi: int, target: int, otherwise: int, x: int) {
    if NoneIn(xs, lo, hi) then x == otherwise else exists i: nat :: NearestIn(xs, lo, hi, target, i) && x == xs[i]
  }

  /** The first window if it holds a crossing, and otherwise the second. */
  ghost predicate SearchTwice(xs: seq<int>, lo: int, hi: int, lo': int, hi': int, target: int, otherwise: int, x: int) {
    if NoneIn(xs, lo, hi) then Search(xs, lo', hi', target, otherwise, x) else Search(xs, lo, hi, target, target, x)
  }

  /** Where the end before puts a start; the first start is due where it nominally is. */
  function DueAfter(prev: Prev, gap: int, nominal: int): int {
    match prev
    case NoPrev => nominal
    case Prev(end) => end + gap
  }

  /** No start lies before the end of the symbol before, or of the segment. */
  function FloorAfter(prev: Prev): int {
    match prev
    case NoPrev => 0
    case Prev(end) => end + 1
  }

  /** A rise within the margin of where it is due; if there is none, one within the margin of the nominal
      position; if there is none, where it is due, behind the symbol before.  No rise before the floor. */
  ghost predicate StartRule(rising: seq<int>, due: int, floor: int, otherwise: int, margin: int, nominal: int, s: int) {
    SearchTwice(rising, Larger(due - margin, floor), due + margin, Larger(nominal - margin, floor), nominal + margin,
                due, otherwise, s)
  }

  /** A fall in the window, nearest to the target, or the target; after the start. */
  ghost predicate EndRule(falling: seq<int>, lo: int, hi: int, target: int, s: int, e: int) {
    exists x :: Search(falling, lo, hi, target, target, x) && e == Larger(x, s + 1)
  }

  /** Moved into the segment, the end behind the start. */
  ghost predicate Fitted(n: nat, s: int, e: int, edge: Edge) {
    && edge.0 == (if s < 0 || n == 0 then 0 else if s >= n then n - 1 else s)
    && edge.1 == (if e <= edge.0 then edge.0 + 1 else if e > n then Larger(n, edge.0 + 1) else e)
  }

  /** One symbol's edge: its rise, then its fall, then both fitted. */
  ghost predicate EdgeRule(n: nat, rising: seq<int>, falling: seq<int>, gap: int, symLen: int, margin: int,
                           fallMargin: int, prev: Prev, nominal: int, edge: Edge) {
    exists s, e :: Rises(rising, prev, gap, margin, nominal, s) && Falls(falling, n, s, symLen, fallMargin, e)
                && Fitted(n, s, e, edge)
  }

  ghost predicate Rises(rising: seq<int>, prev: Prev, gap: int, margin: int, nominal: int, s: int) {
    var due, floor := DueAfter(prev, gap, nominal), FloorAfter(prev);
    StartRule(rising, due, floor, if prev.NoPrev? then due else Larger(due, floor), margin, nominal, s)
  }

  ghost predicate Falls(falling: seq<int>, n: nat, s: int, symLen: int, margin: int, e: int) {
    var target := s + symLen;
    EndRule(falling, Larger(0, target - margin), Smaller(n, target + margin), target, s, e)
  }

  /** The larger of the gap and an eighth of a symbol; a quarter of the gap: whole samples, rounded down. */
  ghost predicate Margins(slot: int, symLen: int, margin: int, fallMargin: int) {
    && margin >= slot - symLen && 8 * margin > symLen - 8 && (margin == slot - symLen || 8 * margin <= symLen)
    && 4 * fallMargin <= slot - symLen < 4 * fallMargin + 4
  }

  /** The tracker's arguments, with the margins they imply. */
  datatype Task = Task(n: nat, rising: seq<int>, falling: seq<int>, startSample: int, viewStart: int, symOffset: int,
                       slot: int, symLen: int, margin: int, fallMargin: int)
  {
    /** Where symbol `k` ought to start in the segment. */
    function Due(k: nat): int {
      startSample + (symOffset + k) * slot - viewStart
    }

    predicate Shown(k: nat) {
      0 <= Due(k) && Due(k) + symLen <= n
    }

    ghost predicate Sound() {
      Margins(slot, symLen, margin, fallMargin)
    }

    /** `symbols` are the ones of the first `k` that lie in the segment, in order, and each has an edge,
        chained to the one before. */
    ghost predicate Answered(k: nat, symbols: seq<nat>, edges: seq<Edge>) {
      && |symbols| == |edges|
      && (forall j :: 0 <= j < |symbols| ==> symbols[j] < k && Shown(symbols[j]))
      && (forall i, j :: 0 <= i < j < |symbols| ==> symbols[i] < symbols[j])
      && (forall i: nat :: i < k && Shown(i) ==> i in symbols)
      && (forall j :: 0 <= j < |symbols| ==> EdgeAt(symbols, edges, j))
    }

    ghost predicate EdgeAt(symbols: seq<nat>, edges: seq<Edge>, j: nat)
      requires j < |symbols| == |edges|
    {
      EdgeFor(if j == 0 then NoPrev else Prev(edges[j - 1].1), Due(symbols[j]), edges[j])
    }

    ghost predicate EdgeFor(prev: Prev, nominal: int, edge: Edge) {
      EdgeRule(n, rising, falling, Pause(), symLen, margin, fallMargin, prev, nominal, edge)
    }

    /** Between the end of a symbol and the start of the next. */
    function Pause(): int {
      slot - symLen
    }

    function AsGrid(): Grid {
      GridOf(n, startSample, viewStart, symOffset, slot, symLen)
    }
  }

  // --- the answer ----------------------------------------------------------------------------

  lemma {:induction false} FirstNearest(xs: seq<int>, lo: int, hi: int, target: int) returns (i: nat)
    ensures if NoneIn(xs, lo, hi) then Between(xs, lo, hi) == []
            else NearestIn(xs, lo, hi, target, i) && Between(xs, lo, hi) != []
                 && Nearest(Between(xs, lo, hi), target) == xs[i]
  {
    i := 0;
    if xs != [] {
      var front, last := xs[..|xs| - 1], xs[|xs| - 1];
      var k := FirstNearest(front, lo, hi, target);
      assert NoneIn(xs, lo, hi) <==> NoneIn(front, lo, hi) && !(lo <= last <= hi);
      if NoneIn(front, lo, hi) {
        i := |xs| - 1;
      } else {
        var cands := Between(front, lo, hi);
        assert (cands + [last])[..|cands|] == cands;
        i := if lo <= last <= hi && Distance(last, target) < Distance(xs[k], target) then |xs| - 1 else k;
      }
    }
  }

  function Found(xs: seq<int>, lo: int, hi: int, target: int, otherwise: int): int {
    var cands := Between(xs, lo, hi);
    if cands == [] then otherwise else Nearest(cands, target)
  }

  lemma SearchOnce(xs: seq<int>, lo: int, hi: int, target: int, otherwise: int, x: int)
    ensures Search(xs, lo, hi, target, otherwise, x) <==> x == Found(xs, lo, hi, target, otherwise)
  {
    var k := FirstNearest(xs, lo, hi, target);
    if i: nat :| NearestIn(xs, lo, hi, target, i) && x == xs[i] {
      assert i == k;
    }
  }

  lemma EmptyOnce(xs: seq<int>, lo: int, hi: int)
    ensures NoneIn(xs, lo, hi) <==> Between(xs, lo, hi) == []
  {
    var i := FirstNearest(xs, lo, hi, 0);
  }

  /** The two searches, one after the other. */
  function FoundTwice(xs: seq<int>, lo: int, hi: int, lo': int, hi': int, target: int, otherwise: int): int {
    if Between(xs, lo, hi) != [] then Found(xs, lo, hi, target, target) else Found(xs, lo', hi', target, otherwise)
  }

  lemma TwiceOnce(xs: seq<int>, lo: int, hi: int, lo': int, hi': int, target: int, otherwise: int, x: int)
    ensures SearchTwice(xs, lo, hi, lo', hi', target, otherwise, x)
       <==> x == FoundTwice(xs, lo, hi, lo', hi', target, otherwise)
  {
    EmptyOnce(xs, lo, hi);
    SearchOnce(xs, lo, hi, target, target, x);
    SearchOnce(xs, lo', hi', target, otherwise, x);
  }

  /** The tracker's two searches, by their windows. */
  lemma TwiceFound(xs: seq<int>, lo: int, hi: int, lo': int, hi': int, target: int, floor: int)
    requires floor <= lo && floor <= lo'
    ensures var first := Between(xs, lo, hi);
            var cands := if first == [] then Between(xs, lo', hi') else first;
            Larger(Nearest(cands, target), floor) == FoundTwice(xs, lo, hi, lo', hi', target, Larger(target, floor))
  {
    SearchLands(xs, lo, hi, target);
    SearchLands(xs, lo', hi', target);
  }

  lemma RawStartFound(g: Grid, rising: seq<int>, prev: Prev, nominal: int, due: int, floor: int, m: int)
    requires due == SearchCenter(g, prev, nominal) && floor == LowBound(prev) && m == g.searchMargin
    ensures RawStart(g, rising, prev, nominal)
         == FoundTwice(rising, Larger(due - m, floor), due + m, Larger(nominal - m, floor), nominal + m, due,
                       if prev.NoPrev? then due else Larger(due, floor))
  {
    if prev.Prev? {
      TwiceFound(rising, Larger(due - m, floor), due + m, Larger(nominal - m, floor), nominal + m, due, floor);
    }
  }

  lemma StartRuleOnce(rising: seq<int>, due: int, floor: int, otherwise: int, m: int, nominal: int, s: int)
    ensures StartRule(rising, due, floor, otherwise, m, nominal, s)
       <==> s == FoundTwice(rising, Larger(due - m, floor), due + m, Larger(nominal - m, floor), nominal + m, due,
                            otherwise)
  {
    TwiceOnce(rising, Larger(due - m, floor), due + m, Larger(nominal - m, floor), nominal + m, due, otherwise, s);
  }

  lemma StartOnce(g: Grid, rising: seq<int>, prev: Prev, m: int, nominal: int, due: int, floor: int, s: int)
    requires m == g.searchMargin && due == DueAfter(prev, Gap(g), nominal) && floor == FloorAfter(prev)
    ensures StartRule(rising, due, floor, if prev.NoPrev? then due else Larger(due, floor), m, nominal, s)
       <==> s == RawStart(g, rising, prev, nominal)
  {
    RawStartFound(g, rising, prev, nominal, due, floor, m);
    StartRuleOnce(rising, due, floor, if prev.NoPrev? then due else Larger(due, floor), m, nominal, s);
  }

  lemma FallOnce(falling: seq<int>, lo: int, hi: int, target: int, s: int, e: int)
    ensures EndRule(falling, lo, hi, target, s, e) <==> e == Larger(Found(falling, lo, hi, target, target), s + 1)
  {
    var x := Found(falling, lo, hi, target, target);
    SearchOnce(falling, lo, hi, target, target, x);
    if EndRule(falling, lo, hi, target, s, e) {
      var y :| Search(falling, lo, hi, target, target, y) && e == Larger(y, s + 1);
      SearchOnce(falling, lo, hi, target, target, y);
    }
  }

  lemma FittedOnce(n: nat, s: int, e: int, edge: Edge)
    ensures Fitted(n, s, e, edge) <==> edge == Clamp(n, s, e)
  {
  }

  lemma RisesOnce(g: Grid, rising: seq<int>, prev: Prev, gap: int, m: int, nominal: int, s: int)
    requires gap == Gap(g) && m == g.searchMargin
    ensures Rises(rising, prev, gap, m, nominal, s) <==> s == RawStart(g, rising, prev, nominal)
  {
    StartOnce(g, rising, prev, m, nominal, DueAfter(prev, gap, nominal), FloorAfter(prev), s);
  }

  lemma FallAt(falling: seq<int>, n: nat, target: int, margin: int, s: int, e: int)
    ensures EndRule(falling, Larger(0, target - margin), Smaller(n, target + margin), target, s, e) <==>
              e == Larger(Found(falling, Larger(0, target - margin), Smaller(n, target + margin), target, target),
                          s + 1)
  {
    FallOnce(falling, Larger(0, target - margin), Smaller(n, target + margin), target, s, e);
  }

  lemma FallsOnce(g: Grid, falling: seq<int>, n: nat, symLen: int, margin: int, s: int, e: int)
    requires n == g.n && symLen == g.symLen && margin == g.fallMargin
    ensures Falls(falling, n, s, symLen, margin, e) <==> e == RawEnd(g, falling, s)
  {
    FallAt(falling, n, s + symLen, margin, s, e);
  }

  lemma EdgeOnce(g: Grid, n: nat, rising: seq<int>, falling: seq<int>, gap: int, symLen: int, m: int, f: int,
                 prev: Prev, nominal: int, edge: Edge)
    requires n == g.n && gap == Gap(g) && symLen == g.symLen && m == g.searchMargin && f == g.fallMargin
    ensures EdgeRule(n, rising, falling, gap, symLen, m, f, prev, nominal, edge)
       <==> edge == Correct(g, rising, falling, prev, nominal)
  {
    var s := RawStart(g, rising, prev, nominal);
    var e := RawEnd(g, falling, s);
    RisesOnce(g, rising, prev, gap, m, nominal, s);
    FallsOnce(g, falling, n, symLen, f, s, e);
    FittedOnce(n, s, e, edge);
    if EdgeRule(n, rising, falling, gap, symLen, m, f, prev, nominal, edge) {
      var s', e' :| Rises(rising, prev, gap, m, nominal, s') && Falls(falling, n, s', symLen, f, e')
                    && Fitted(n, s', e', edge);
      RisesOnce(g, rising, prev, gap, m, nominal, s');
      FallsOnce(g, falling, n, symLen, f, s', e');
    }
  }

  lemma MarginsOnce(t: Task)
    ensures t.Sound() <==> t.margin == t.AsGrid().searchMargin && t.fallMargin == t.AsGrid().fallMargin
  {
  }

  lemma ShownFits(t: Task, k: nat)
    ensures t.Due(k) == Nominal(t.AsGrid(), k) && (t.Shown(k) <==> Fits(t.AsGrid(), k))
  {
    NominalFormula(t.AsGrid(), t.startSample, t.viewStart, t.symOffset, k);
  }

  lemma TaskEdge(t: Task, g: Grid, prev: Prev, nominal: int, edge: Edge)
    requires t.Sound() && g == t.AsGrid()
    ensures t.EdgeFor(prev, nominal, edge) <==> edge == Correct(g, t.rising, t.falling, prev, nominal)
  {
    MarginsOnce(t);
    EdgeOnce(g, t.n, t.rising, t.falling, t.Pause(), t.symLen, t.margin, t.fallMargin, prev, nominal, edge);
  }

  lemma EdgeAtOnce(t: Task, symbols: seq<nat>, edges: seq<Edge>, j: nat)
    requires t.Sound() && j < |symbols| == |edges|
    ensures t.EdgeAt(symbols, edges, j) <==>
              edges[j] == Correct(t.AsGrid(), t.rising, t.falling, PrevOf(edges[..j]), Nominal(t.AsGrid(), symbols[j]))
  {
    ShownFits(t, symbols[j]);
    assert PrevOf(edges[..j]) == if j == 0 then NoPrev else Prev(edges[j - 1].1);
    TaskEdge(t, t.AsGrid(), PrevOf(edges[..j]), t.Due(symbols[j]), edges[j]);
  }

  /** The symbols that lie in the segment. */
  function Symbols(t: Task, k: nat): seq<nat> {
    if k == 0 then [] else Symbols(t, k - 1) + if t.Shown(k - 1) then [k - 1] else []
  }

  lemma NextEdges(g: Grid, rising: seq<int>, falling: seq<int>, k: nat)
    requires k > 0
    ensures var front := Edges(g, rising, falling, k - 1);
            Edges(g, rising, falling, k)
            == if Fits(g, k - 1) then front + [Correct(g, rising, falling, PrevOf(front), Nominal(g, k - 1))] else front
  {
  }

  /** The tracker's edges answer its task. */
  lemma {:induction false} EdgesAnswer(t: Task, k: nat)
    requires t.Sound()
    ensures t.Answered(k, Symbols(t, k), Edges(t.AsGrid(), t.rising, t.falling, k))
  {
    if k > 0 {
      var g := t.AsGrid();
      var before, front := Symbols(t, k - 1), Edges(g, t.rising, t.falling, k - 1);
      EdgesAnswer(t, k - 1);
      ShownFits(t, k - 1);
      NextEdges(g, t.rising, t.falling, k);
      AnswerNext(t, k, before, front);
    }
  }

  lemma AnswerNext(t: Task, k: nat, symbols: seq<nat>, edges: seq<Edge>)
    requires t.Sound() && k > 0 && t.Answered(k - 1, symbols, edges)
    ensures var edge := Correct(t.AsGrid(), t.rising, t.falling, PrevOf(edges), Nominal(t.AsGrid(), k - 1));
            t.Answered(k, symbols + if t.Shown(k - 1) then [k - 1] else [],
                       if t.Shown(k - 1) then edges + [edge] else edges)
  {
    if t.Shown(k - 1) {
      AnswerAdded(t, k, symbols, edges,
                  Correct(t.AsGrid(), t.rising, t.falling, PrevOf(edges), Nominal(t.AsGrid(), k - 1)));
    } else {
      AnswerSame(t, k, symbols, edges);
      assert symbols + [] == symbols;
    }
  }

  lemma AnswerSame(t: Task, k: nat, symbols: seq<nat>, edges: seq<Edge>)
    requires k > 0 && !t.Shown(k - 1) && t.Answered(k - 1, symbols, edges)
    ensures t.Answered(k, symbols, edges)
  {
  }

  lemma AnswerAdded(t: Task, k: nat, symbols: seq<nat>, edges: seq<Edge>, edge: Edge)
    requires t.Sound() && k > 0 && t.Shown(k - 1) && t.Answered(k - 1, symbols, edges)
    requires edge == Correct(t.AsGrid(), t.rising, t.falling, PrevOf(edges), Nominal(t.AsGrid(), k - 1))
    ensures t.Answered(k, symbols + [k - 1], edges + [edge])
  {
    var symbols', edges' := symbols + [k - 1], edges + [edge];
    forall j | 0 <= j < |symbols'|
      ensures t.EdgeAt(symbols', edges', j)
    {
      if j < |symbols| {
        assert t.EdgeAt(symbols, edges, j);
      } else {
        assert edges'[..j] == edges;
        EdgeAtOnce(t, symbols', edges', j);
      }
    }
  }

  lemma {:induction false} AnswerOnce(t: Task, k: nat, symbols: seq<nat>, edges: seq<Edge>)
    requires t.Sound() && t.Answered(k, symbols, edges)
    ensures edges == Edges(t.AsGrid(), t.rising, t.falling, k)
  {
    if k > 0 {
      ShownFits(t, k - 1);
      NextEdges(t.AsGrid(), t.rising, t.falling, k);
      if t.Shown(k - 1) {
        LastShown(t, k, symbols, edges);
        AnswerOnce(t, k - 1, symbols[..|symbols| - 1], edges[..|symbols| - 1]);
        LastEdge(t, k, symbols, edges);
      } else {
        NoLast(t, k, symbols, edges);
        AnswerOnce(t, k - 1, symbols, edges);
      }
    }
  }

  lemma NoLast(t: Task, k: nat, symbols: seq<nat>, edges: seq<Edge>)
    requires t.Answered(k, symbols, edges) && k > 0 && !t.Shown(k - 1)
    ensures t.Answered(k - 1, symbols, edges)
  {
  }

  lemma LastEdge(t: Task, k: nat, symbols: seq<nat>, edges: seq<Edge>)
    requires t.Sound() && t.Answered(k, symbols, edges) && symbols != [] && symbols[|symbols| - 1] == k - 1
    ensures var m := |symbols| - 1;
            edges == edges[..m] + [Correct(t.AsGrid(), t.rising, t.falling, PrevOf(edges[..m]),
                                           Nominal(t.AsGrid(), k - 1))]
  {
    var m := |symbols| - 1;
    EdgeAtOnce(t, symbols, edges, m);
    assert edges == edges[..m] + [edges[m]];
  }

  /** When the last symbol asked for is shown, it has the last edge. */
  lemma LastShown(t: Task, k: nat, symbols: seq<nat>, edges: seq<Edge>)
    requires t.Answered(k, symbols, edges) && k > 0 && t.Shown(k - 1)
    ensures symbols != [] && symbols[|symbols| - 1] == k - 1
    ensures var m := |symbols| - 1; t.Answered(k - 1, symbols[..m], edges[..m])
  {
    assert k - 1 in symbols;
    LastIs(symbols, k);
    var m := |symbols| - 1;
    forall j | 0 <= j < m
      ensures t.EdgeAt(symbols[..m], edges[..m], j)
    {
      EarlierEdge(t, symbols, edges, j);
    }
    forall i: nat | i < k - 1 && t.Shown(i)
      ensures i in symbols[..m]
    {
      assert i in symbols && symbols == symbols[..m] + [k - 1];
    }
  }

  lemma LastIs(symbols: seq<nat>, k: nat)
    requires k > 0 && k - 1 in symbols && forall j :: 0 <= j < |symbols| ==> symbols[j] < k
    requires forall i, j :: 0 <= i < j < |symbols| ==> symbols[i] < symbols[j]
    ensures symbols[|symbols| - 1] == k - 1
    ensures forall j :: 0 <= j < |symbols| - 1 ==> symbols[j] < k - 1
  {
    assert forall j :: 0 <= j < |symbols| - 1 ==> symbols[j] < symbols[|symbols| - 1];
  }

  lemma EarlierEdge(t: Task, symbols: seq<nat>, edges: seq<Edge>, j: nat)
    requires |symbols| == |edges| && j + 1 < |symbols| && t.EdgeAt(symbols, edges, j)
    ensures var m := |symbols| - 1; t.EdgeAt(symbols[..m], edges[..m], j)
  {
  }

  /** The edges the tracker computes are the one answer to its task. */
  lemma EdgesDecided(t: Task, k: nat, edges: seq<Edge>)
    requires t.Sound()
    ensures edges == Edges(t.AsGrid(), t.rising, t.falling, k) <==> exists symbols :: t.Answered(k, symbols, edges)
  {
    EdgesAnswer(t, k);
    if symbols :| t.Answered(k, symbols, edges) {
      AnswerOnce(t, k, symbols, edges);
    }
  }
}
