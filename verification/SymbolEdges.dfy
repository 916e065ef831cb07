/** The symbol edge tracker: corrects nominal symbol positions by chaining each search to the end
    of the symbol before.  Crossings are given; every integer division is exact floor division of
    nonnegative values. */
module SymbolEdges {
  import opened Numbers

  datatype Grid = Grid(
    n: nat,              // length of the segment
    origin: int,         // nominal start of the first symbol asked for, relative to the segment
    slot: int,
    symLen: int,
    searchMargin: int,
    fallMargin: int
  )

  function GridOf(n: nat, startSample: int, viewStart: int, symOffset: int, slot: int, symLen: int): Grid {
    var gap := slot - symLen;
    Grid(n, startSample + symOffset * slot - viewStart, slot, symLen, Larger(gap, symLen / 8), gap / 4)
  }

  /** A slot is longer than its symbol, and a symbol longer than the falling-edge margin. */
  ghost predicate Sound(g: Grid) {
    0 < g.symLen < g.slot && 0 <= g.fallMargin < g.symLen && 0 < g.searchMargin
  }

  lemma GridSound(n: nat, startSample: int, viewStart: int, symOffset: int, slot: int, symLen: int)
    requires (slot - symLen) / 4 < symLen < slot
    ensures Sound(GridOf(n, startSample, viewStart, symOffset, slot, symLen))
  {
  }

  function Gap(g: Grid): int {
    g.slot - g.symLen
  }

  /** Nominal start of the k-th symbol asked for, relative to the segment. */
  function Nominal(g: Grid, k: nat): int {
    if k == 0 then g.origin else Nominal(g, k - 1) + g.slot
  }

  lemma {:induction false} NominalFormula(g: Grid, startSample: int, viewStart: int, symOffset: int, k: nat)
    requires g.origin == startSample + symOffset * g.slot - viewStart
    ensures Nominal(g, k) == startSample + (symOffset + k) * g.slot - viewStart
  {
    if k > 0 {
      NominalFormula(g, startSample, viewStart, symOffset, k - 1);
      assert (symOffset + k) * g.slot == (symOffset + k - 1) * g.slot + g.slot;
    }
  }

  /** The symbol's nominal extent fits the segment. */
  predicate Fits(g: Grid, k: nat) {
    Nominal(g, k) >= 0 && Nominal(g, k) + g.symLen <= g.n
  }

  type Edge = (int, int)

  function Between(xs: seq<int>, lo: int, hi: int): seq<int> {
    if xs == [] then []
    else
      var rest := Between(xs[..|xs| - 1], lo, hi);
      var x := xs[|xs| - 1];
      if lo <= x <= hi then rest + [x] else rest
  }

  lemma {:induction false} BetweenExactly(xs: seq<int>, lo: int, hi: int)
    ensures forall x :: x in Between(xs, lo, hi) <==> x in xs && lo <= x <= hi
  {
    if xs != [] {
      BetweenExactly(xs[..|xs| - 1], lo, hi);
      assert xs == xs[..|xs| - 1] + [xs[|xs| - 1]];
    }
  }

  /** First of the candidates nearest to the target, or the target itself without any. */
  function Nearest(xs: seq<int>, target: int): int {
    if xs == [] then target
    else if |xs| == 1 then xs[0]
    else
      var best := Nearest(xs[..|xs| - 1], target);
      var x := xs[|xs| - 1];
      if Distance(x, target) < Distance(best, target) then x else best
  }

  lemma {:induction false} NearestRight(xs: seq<int>, target: int)
    requires xs != []
    ensures var r := Nearest(xs, target);
            r in xs && forall x :: x in xs ==> Distance(r, target) <= Distance(x, target)
  {
    if |xs| > 1 {
      NearestRight(xs[..|xs| - 1], target);
      assert xs == xs[..|xs| - 1] + [xs[|xs| - 1]];
    }
  }

  /** Of crossings equally near, the earliest is taken. */
  lemma {:induction false} NearestFirst(xs: seq<int>, target: int) returns (i: nat)
    requires xs != []
    ensures i < |xs| && xs[i] == Nearest(xs, target)
    ensures forall j :: 0 <= j < i ==> Distance(xs[j], target) > Distance(xs[i], target)
  {
    if |xs| == 1 {
      i := 0;
    } else {
      i := NearestFirst(xs[..|xs| - 1], target);
      if Nearest(xs, target) != xs[i] {
        NearestRight(xs[..|xs| - 1], target);
        i := |xs| - 1;
      }
    }
  }

  /** A search lands inside its window, or on its target when the window holds no crossing. */
  lemma SearchLands(xs: seq<int>, lo: int, hi: int, target: int)
    ensures var cands := Between(xs, lo, hi);
            if cands == [] then Nearest(cands, target) == target else lo <= Nearest(cands, target) <= hi
  {
    BetweenExactly(xs, lo, hi);
    if Between(xs, lo, hi) != [] {
      NearestRight(Between(xs, lo, hi), target);
    }
  }

  datatype Prev = NoPrev | Prev(end: int)

  function LowBound(prev: Prev): int {
    if prev.NoPrev? then 0 else prev.end + 1
  }

  function SearchCenter(g: Grid, prev: Prev, nomS: int): int {
    if prev.NoPrev? then nomS else prev.end + Gap(g)
  }

  /** Start before the final clamp: chained search, then nominal search, then no crossing. */
  function RawStart(g: Grid, rising: seq<int>, prev: Prev, nomS: int): int {
    var center := SearchCenter(g, prev, nomS);
    var m := g.searchMargin;
    var chained := Between(rising, Larger(center - m, LowBound(prev)), center + m);
    var cands := if chained == [] then Between(rising, Larger(nomS - m, LowBound(prev)), nomS + m) else chained;
    var s := Nearest(cands, center);
    if prev.NoPrev? then s else Larger(s, prev.end + 1)
  }

  function RawEnd(g: Grid, falling: seq<int>, s: int): int {
    var target := s + g.symLen;
    var cands := Between(falling, Larger(0, target - g.fallMargin), Smaller(g.n, target + g.fallMargin));
    Larger(Nearest(cands, target), s + 1)
  }

  function Clamp(n: nat, s: int, e: int): Edge {
    var s' := Larger(0, Smaller(s, n - 1));
    (s', Larger(s' + 1, Smaller(e, n)))
  }

  /** The corrected edges of one symbol, after the one before. */
  function Correct(g: Grid, rising: seq<int>, falling: seq<int>, prev: Prev, nomS: int): Edge {
    var s := RawStart(g, rising, prev, nomS);
    Clamp(g.n, s, RawEnd(g, falling, s))
  }

  function Corrector(g: Grid, rising: seq<int>, falling: seq<int>): (Prev, int) -> Edge {
    (prev: Prev, nomS: int) => Correct(g, rising, falling, prev, nomS)
  }

  function PrevOf(edges: seq<Edge>): Prev {
    if edges == [] then NoPrev else Prev(edges[|edges| - 1].1)
  }

  /** Edges of the symbols 0..k asked for, each corrected from the end of the one emitted before. */
  function Chain(g: Grid, correct: (Prev, int) -> Edge, k: nat): seq<Edge> {
    if k == 0 then []
    else
      var before := Chain(g, correct, k - 1);
      if Fits(g, k - 1) then before + [correct(PrevOf(before), Nominal(g, k - 1))] else before
  }

  function Edges(g: Grid, rising: seq<int>, falling: seq<int>, k: nat): seq<Edge> {
    Chain(g, Corrector(g, rising, falling), k)
  }

  /** The search for a symbol's rise, from the end of the one before. */
  method FindStart(rising: seq<int>, prevEnd: Prev, nomS: int, gapSamples: int, searchMargin: int, ghost g: Grid)
    returns (s: int)
    requires gapSamples == Gap(g) && searchMargin == g.searchMargin
    ensures s == RawStart(g, rising, prevEnd, nomS)
  {
    var searchCenter := if prevEnd.Prev? then prevEnd.end + gapSamples else nomS;
    var lowest := if prevEnd.Prev? then prevEnd.end + 1 else 0;
    var cands := Between(rising, Larger(searchCenter - searchMargin, lowest), searchCenter + searchMargin);
    if cands == [] {
      cands := Between(rising, Larger(nomS - searchMargin, lowest), nomS + searchMargin);
    }
    s := Nearest(cands, searchCenter);
    if prevEnd.Prev? {
      s := Larger(s, prevEnd.end + 1);
    }
  }

  /** The search for its fall. */
  method FindEnd(falling: seq<int>, s: int, n: nat, symLen: int, fallMargin: int, ghost g: Grid) returns (e: int)
    requires n == g.n && symLen == g.symLen && fallMargin == g.fallMargin
    ensures e == RawEnd(g, falling, s)
  {
    var nomECorr := s + symLen;
    var feLo := Larger(0, nomECorr - fallMargin);
    var feHi := Smaller(n, nomECorr + fallMargin);
    assert feLo == Larger(0, s + g.symLen - g.fallMargin) && feHi == Smaller(g.n, s + g.symLen + g.fallMargin);
    var cands := Between(falling, feLo, feHi);
    e := Larger(Nearest(cands, nomECorr), s + 1);
  }

  /** `correct_symbol_edges`. */
  method CorrectSymbolEdges(n: nat, rising: seq<int>, falling: seq<int>, startSample: int, viewStart: int, nSym: nat,
                            symOffset: int, slot: int, symLen: int)
    returns (edges: seq<Edge>)
    ensures edges == Edges(GridOf(n, startSample, viewStart, symOffset, slot, symLen), rising, falling, nSym)
  {
    ghost var g := GridOf(n, startSample, viewStart, symOffset, slot, symLen);
    var gapSamples := slot - symLen;
    var searchMargin := Larger(gapSamples, symLen / 8);
    var fallMargin := gapSamples / 4;
    edges := [];
    var prevEnd: Prev := NoPrev;
    for k := 0 to nSym
      invariant edges == Edges(g, rising, falling, k)
      invariant prevEnd == PrevOf(edges)
    {
      NominalFormula(g, startSample, viewStart, symOffset, k);
      var nomS := startSample + (symOffset + k) * slot - viewStart;
      if nomS >= 0 && nomS + symLen <= n {
        var s := FindStart(rising, prevEnd, nomS, gapSamples, searchMargin, g);
        var e := FindEnd(falling, s, n, symLen, fallMargin, g);
        s := Larger(0, Smaller(s, n - 1));
        e := Larger(s + 1, Smaller(e, n));
        prevEnd := Prev(e);
        edges := edges + [(s, e)];
      }
    }
  }

  // --- which symbols are emitted ------------------------------------------------------

  lemma {:induction false} NominalIncreases(g: Grid, a: nat, b: nat)
    requires g.slot > 0 && a <= b
    ensures Nominal(g, a) <= Nominal(g, b)
  {
    if a < b {
      NominalIncreases(g, a, b - 1);
    }
  }

  /** Emitted symbols are a contiguous range of protocol symbols: `first` and its successors. */
  ghost predicate Contiguous(g: Grid, edges: seq<Edge>, k: nat, first: nat) {
    && first + |edges| <= k
    && (forall i :: 0 <= i < k ==> (Fits(g, i) <==> first <= i < first + |edges|))
  }

  lemma {:induction false} EmittedContiguous(g: Grid, correct: (Prev, int) -> Edge, k: nat) returns (first: nat)
    requires g.slot > 0
    ensures Contiguous(g, Chain(g, correct, k), k, first)
  {
    if k == 0 {
      first := 0;
    } else {
      first := EmittedContiguous(g, correct, k - 1);
      var before := Chain(g, correct, k - 1);
      if Fits(g, k - 1) {
        if before == [] {
          first := k - 1;
        } else {
          FitsBetween(g, first, first + |before|, k - 1);
        }
      }
    }
  }

  /** Symbols between two that fit fit as well. */
  lemma FitsBetween(g: Grid, a: nat, b: nat, c: nat)
    requires g.slot > 0 && a <= b <= c && Fits(g, a) && Fits(g, c)
    ensures Fits(g, b)
  {
    NominalIncreases(g, a, b);
    NominalIncreases(g, b, c);
  }

  // --- drift ------------------------------------------------------------------------------

  /** Drift allowed to the j-th emitted symbol. */
  function Bound(g: Grid, j: nat): int {
    if j == 0 then g.searchMargin else Bound(g, j - 1) + g.fallMargin + g.searchMargin
  }

  lemma {:induction false} BoundFormula(g: Grid, j: nat)
    ensures Bound(g, j) == (j + 1) * g.searchMargin + j * g.fallMargin
    ensures Sound(g) ==> Bound(g, j) > 0
  {
    if j > 0 {
      BoundFormula(g, j - 1);
      assert (j + 1) * g.searchMargin == j * g.searchMargin + g.searchMargin;
      assert j * g.fallMargin == (j - 1) * g.fallMargin + g.fallMargin;
    }
  }

  /** The edges before the final clamp, against a nominal position. */
  lemma RawStartDrift(g: Grid, rising: seq<int>, prev: Prev, nomS: int, drift: int)
    requires Sound(g) && drift >= 0
    requires prev.Prev? ==> Distance(prev.end + Gap(g), nomS) <= drift
    ensures var s := RawStart(g, rising, prev, nomS);
            Distance(s, nomS) <= (if prev.NoPrev? then 0 else drift) + g.searchMargin
    ensures prev.Prev? ==> RawStart(g, rising, prev, nomS) > prev.end
    ensures prev.NoPrev? && nomS >= 0 ==> RawStart(g, rising, prev, nomS) >= 0
  {
    var center := SearchCenter(g, prev, nomS);
    var m := g.searchMargin;
    SearchLands(rising, Larger(center - m, LowBound(prev)), center + m, center);
    SearchLands(rising, Larger(nomS - m, LowBound(prev)), nomS + m, center);
  }

  lemma RawEndDrift(g: Grid, falling: seq<int>, s: int)
    requires Sound(g)
    ensures s < RawEnd(g, falling, s) && Distance(RawEnd(g, falling, s), s + g.symLen) <= g.fallMargin
  {
    var target := s + g.symLen;
    SearchLands(falling, Larger(0, target - g.fallMargin), Smaller(g.n, target + g.fallMargin), target);
  }

  /** What a corrected edge owes its nominal position, when the search center of its predecessor
      is off by at most `drift`. */
  ghost predicate Close(g: Grid, edge: Edge, prev: Prev, nomS: int, drift: int) {
    var (s, e) := edge;
    var bound := (if prev.NoPrev? then 0 else drift) + g.searchMargin;
    && 0 <= s < e <= g.n
    && Distance(s, nomS) <= bound
    && Distance(e, nomS + g.symLen) <= bound + g.fallMargin
    && (prev.Prev? ==> s >= Smaller(prev.end + 1, g.n - 1))
    && (e < g.n ==> Distance(e - s, g.symLen) <= g.fallMargin)
  }

  /** Clamping moves an edge only towards a nominal position inside the segment. */
  lemma ClampClose(g: Grid, s: int, e: int, prev: Prev, nomS: int, drift: int)
    requires Sound(g) && 0 <= nomS && nomS + g.symLen <= g.n
    requires 0 <= s < e && (prev.Prev? ==> s > prev.end)
    requires Distance(s, nomS) <= (if prev.NoPrev? then 0 else drift) + g.searchMargin
    requires Distance(e, s + g.symLen) <= g.fallMargin
    ensures Close(g, Clamp(g.n, s, e), prev, nomS, drift)
  {
  }

  lemma CorrectClose(g: Grid, rising: seq<int>, falling: seq<int>, prev: Prev, nomS: int, drift: int)
    requires Sound(g) && drift >= 0 && 0 <= nomS && nomS + g.symLen <= g.n
    requires prev.Prev? ==> prev.end > 0 && Distance(prev.end + Gap(g), nomS) <= drift
    ensures Close(g, Correct(g, rising, falling, prev, nomS), prev, nomS, drift)
  {
    RawStartDrift(g, rising, prev, nomS, drift);
    var s := RawStart(g, rising, prev, nomS);
    RawEndDrift(g, falling, s);
    ClampClose(g, s, RawEnd(g, falling, s), prev, nomS, drift);
  }

  /** A correction that is close whatever it is chained to. */
  ghost predicate Tracks(g: Grid, correct: (Prev, int) -> Edge) {
    forall prev: Prev, nomS: int, drift: int {:trigger Close(g, correct(prev, nomS), prev, nomS, drift)} ::
      drift >= 0 && 0 <= nomS && nomS + g.symLen <= g.n
      && (prev.Prev? ==> prev.end > 0 && Distance(prev.end + Gap(g), nomS) <= drift) ==>
        Close(g, correct(prev, nomS), prev, nomS, drift)
  }

  /** What is guaranteed of the j-th emitted symbol. */
  ghost predicate EdgeRight(g: Grid, edges: seq<Edge>, first: nat, j: nat)
    requires j < |edges|
  {
    var (s, e) := edges[j];
    && 0 <= s < e <= g.n
    && Distance(s, Nominal(g, first + j)) <= Bound(g, j)
    && Distance(e, Nominal(g, first + j) + g.symLen) <= Bound(g, j) + g.fallMargin
    && (j > 0 ==> s >= Smaller(edges[j - 1].1 + 1, g.n - 1))
    && (e < g.n ==> Distance(e - s, g.symLen) <= g.fallMargin)
  }

  lemma NextEdgeRight(g: Grid, correct: (Prev, int) -> Edge, before: seq<Edge>, first: nat)
    requires Sound(g) && Tracks(g, correct) && Fits(g, first + |before|)
    requires before != [] ==> EdgeRight(g, before, first, |before| - 1)
    ensures EdgeRight(g, before + [correct(PrevOf(before), Nominal(g, first + |before|))], first, |before|)
  {
    var j, prev := |before|, PrevOf(before);
    var nomS, drift := Nominal(g, first + j), if j == 0 then 0 else Bound(g, j - 1) + g.fallMargin;
    if j > 0 {
      BoundFormula(g, j - 1);
      assert nomS == Nominal(g, first + j - 1) + g.slot;
    }
    assert Close(g, correct(prev, nomS), prev, nomS, drift);
    CloseIsRight(g, before, correct(prev, nomS), first, drift);
  }

  /** Close to its nominal position, after the drift of the symbol before, is within its own bound. */
  lemma CloseIsRight(g: Grid, before: seq<Edge>, edge: Edge, first: nat, drift: int)
    requires drift == if before == [] then 0 else Bound(g, |before| - 1) + g.fallMargin
    requires Close(g, edge, PrevOf(before), Nominal(g, first + |before|), drift)
    ensures EdgeRight(g, before + [edge], first, |before|)
  {
    assert (before + [edge])[|before|] == edge;
    assert before != [] ==> (before + [edge])[|before| - 1] == before[|before| - 1];
  }

  lemma {:induction false} ChainRight(g: Grid, correct: (Prev, int) -> Edge, k: nat, first: nat, j: nat)
    requires Sound(g) && Tracks(g, correct)
    requires Contiguous(g, Chain(g, correct, k), k, first)
    requires j < |Chain(g, correct, k)|
    ensures EdgeRight(g, Chain(g, correct, k), first, j)
  {
    var before := Chain(g, correct, k - 1);
    if j < |before| {
      ChainRight(g, correct, k - 1, first, j);
    } else {
      if before != [] {
        ChainRight(g, correct, k - 1, first, j - 1);
      }
      NextEdgeRight(g, correct, before, first);
    }
  }

  /** Drift, order and duration, for any crossings: the emitted symbols are consecutive protocol
      symbols, and the j-th starts within (j+1) * search_margin + j * fall_margin of its nominal
      start. */
  lemma EdgesRight(g: Grid, rising: seq<int>, falling: seq<int>, k: nat) returns (first: nat)
    requires Sound(g)
    ensures var edges := Edges(g, rising, falling, k);
            && Contiguous(g, edges, k, first)
            && forall j :: 0 <= j < |edges| ==>
                 && EdgeRight(g, edges, first, j)
                 && Distance(edges[j].0, Nominal(g, first + j)) <= (j + 1) * g.searchMargin + j * g.fallMargin
  {
    var correct := Corrector(g, rising, falling);
    first := EmittedContiguous(g, correct, k);
    CorrectorTracks(g, rising, falling);
    var edges := Chain(g, correct, k);
    forall j | 0 <= j < |edges|
      ensures EdgeRight(g, edges, first, j)
      ensures Distance(edges[j].0, Nominal(g, first + j)) <= (j + 1) * g.searchMargin + j * g.fallMargin
    {
      ChainRight(g, correct, k, first, j);
      BoundFormula(g, j);
    }
  }

  lemma CorrectorTracks(g: Grid, rising: seq<int>, falling: seq<int>)
    requires Sound(g)
    ensures Tracks(g, Corrector(g, rising, falling))
  {
    forall prev: Prev, nomS: int, drift: int |
      drift >= 0 && 0 <= nomS && nomS + g.symLen <= g.n
      && (prev.Prev? ==> prev.end > 0 && Distance(prev.end + Gap(g), nomS) <= drift)
      ensures Close(g, Correct(g, rising, falling, prev, nomS), prev, nomS, drift)
    {
      CorrectClose(g, rising, falling, prev, nomS, drift);
    }
  }

  // --- and the bound is attained ----------------------------------------------------------------

  /** The j-th symbol with every rise before it a search margin late and every fall a fall margin. */
  function LateEdge(g: Grid, j: nat): Edge {
    var s := Nominal(g, j) + Bound(g, j);
    (s, s + g.symLen + g.fallMargin)
  }

  function LateRises(g: Grid, k: nat): seq<int> {
    seq(k, j requires 0 <= j < k => LateEdge(g, j).0)
  }

  function LateFalls(g: Grid, k: nat): seq<int> {
    seq(k, j requires 0 <= j < k => LateEdge(g, j).1)
  }

  function LateEdges(g: Grid, k: nat): seq<Edge> {
    seq(k, j requires 0 <= j < k => LateEdge(g, j))
  }

  lemma {:induction false} LateSpaced(g: Grid, i: nat, j: nat)
    requires Sound(g) && i < j
    ensures LateEdge(g, j).0 >= LateEdge(g, i).1 + Gap(g) + g.searchMargin
    ensures j == i + 1 ==> LateEdge(g, j).0 == LateEdge(g, i).1 + Gap(g) + g.searchMargin
  {
    if i + 1 < j {
      LateSpaced(g, i, j - 1);
    }
  }

  lemma {:induction false} LateFits(g: Grid, k: nat, j: nat)
    requires Sound(g) && g.origin >= 0 && j < k && LateEdge(g, k - 1).1 <= g.n
    ensures Fits(g, j) && 0 <= LateEdge(g, j).0 && LateEdge(g, j).1 <= g.n
  {
    NominalIncreases(g, 0, j);
    BoundFormula(g, j);
    if j + 1 < k {
      LateSpaced(g, j, k - 1);
    }
  }

  /** An earlier rise lies before the end of the symbol before, a later one after the present one. */
  lemma LateRiseFar(g: Grid, i: nat, j: nat)
    requires Sound(g) && i != j
    ensures i < j ==> LateEdge(g, i).0 <= LateEdge(g, j - 1).0 < LateEdge(g, j - 1).1
    ensures i > j ==> LateEdge(g, i).0 > LateEdge(g, j).0 + g.searchMargin
  {
    if i > j {
      LateSpaced(g, j, i);
      assert LateEdge(g, j).0 < LateEdge(g, j).1;
    } else if i < j - 1 {
      LateSpaced(g, i, j - 1);
      assert LateEdge(g, i).0 < LateEdge(g, i).1;
    }
  }

  /** The chained search finds the one crossing its window holds. */
  lemma FindsStart(g: Grid, rising: seq<int>, prev: Prev, nomS: int, s: int)
    requires var center := SearchCenter(g, prev, nomS);
             s in rising && LowBound(prev) <= s && center - g.searchMargin <= s <= center + g.searchMargin
    requires forall y :: y in rising && LowBound(prev) <= y <= SearchCenter(g, prev, nomS) + g.searchMargin ==>
               y < SearchCenter(g, prev, nomS) - g.searchMargin || y == s
    ensures RawStart(g, rising, prev, nomS) == s
  {
    var center := SearchCenter(g, prev, nomS);
    FindsOnly(rising, Larger(center - g.searchMargin, LowBound(prev)), center + g.searchMargin, center, s);
  }

  /** Each rise is a search margin past where the one before puts it. */
  lemma LateCenter(g: Grid, k: nat, j: nat)
    requires Sound(g) && g.origin >= 0 && j < k && LateEdge(g, k - 1).1 <= g.n
    ensures var prev := PrevIn(LateEdges(g, k), j);
            && SearchCenter(g, prev, Nominal(g, j)) + g.searchMargin == LateEdge(g, j).0
            && LowBound(prev) <= LateEdge(g, j).0
            && (j > 0 ==> LowBound(prev) == LateEdge(g, j - 1).1 + 1)
  {
    LateFits(g, k, j);
    if j > 0 {
      LateSpaced(g, j - 1, j);
    }
  }

  lemma LateStart(g: Grid, k: nat, j: nat)
    requires Sound(g) && g.origin >= 0 && j < k && LateEdge(g, k - 1).1 <= g.n
    ensures RawStart(g, LateRises(g, k), PrevIn(LateEdges(g, k), j), Nominal(g, j)) == LateEdge(g, j).0
  {
    var prev, rises, s := PrevIn(LateEdges(g, k), j), LateRises(g, k), LateEdge(g, j).0;
    LateCenter(g, k, j);
    assert rises[j] == s;
    forall y | y in rises && LowBound(prev) <= y <= s
      ensures y == s
    {
      var i: nat :| i < k && y == rises[i];
      if i != j {
        LateRiseFar(g, i, j);
      }
    }
    FindsStart(g, rises, prev, Nominal(g, j), s);
  }

  lemma LateEnd(g: Grid, k: nat, j: nat)
    requires Sound(g) && g.origin >= 0 && j < k && LateEdge(g, k - 1).1 <= g.n
    ensures RawEnd(g, LateFalls(g, k), LateEdge(g, j).0) == LateEdge(g, j).1
  {
    LateFits(g, k, j);
    var falls, s, e := LateFalls(g, k), LateEdge(g, j).0, LateEdge(g, j).1;
    var target := s + g.symLen;
    var lo, hi := Larger(0, target - g.fallMargin), Smaller(g.n, target + g.fallMargin);
    assert falls[j] == e;
    forall y | y in falls && lo <= y <= hi
      ensures y == e
    {
      var i: nat :| i < k && y == falls[i];
      if i < j {
        LateSpaced(g, i, j);
      } else if i > j {
        LateSpaced(g, j, i);
      }
    }
    FindsOnly(falls, lo, hi, target, e);
  }

  /** `EdgesRight` leaves nothing to spare: with every rise a search margin and every fall a fall margin
      late, the j-th start is off by the whole bound, however many symbols the segment holds. */
  lemma DriftAttained(g: Grid, k: nat)
    requires Sound(g) && g.origin >= 0 && (k > 0 ==> LateEdge(g, k - 1).1 <= g.n)
    ensures var edges := Edges(g, LateRises(g, k), LateFalls(g, k), k);
            && |edges| == k && Contiguous(g, edges, k, 0)
            && forall j :: 0 <= j < k ==>
                 && edges[j].0 - Nominal(g, j) == (j + 1) * g.searchMargin + j * g.fallMargin
                 && edges[j].1 - edges[j].0 == g.symLen + g.fallMargin
  {
    var correct, burst := Corrector(g, LateRises(g, k), LateFalls(g, k)), LateEdges(g, k);
    forall j | 0 <= j < k
      ensures Fits(g, j) && Follows(g, correct, burst, 0, j)
      ensures LateEdge(g, j).0 - Nominal(g, j) == (j + 1) * g.searchMargin + j * g.fallMargin
    {
      LateFits(g, k, j);
      LateStart(g, k, j);
      LateEnd(g, k, j);
      BoundFormula(g, j);
    }
    AllFitContiguous(g, correct, k);
    ChainFollows(g, correct, burst, k, 0);
  }

  lemma {:induction false} AllFitContiguous(g: Grid, correct: (Prev, int) -> Edge, k: nat)
    requires forall j :: 0 <= j < k ==> Fits(g, j)
    ensures |Chain(g, correct, k)| == k && Contiguous(g, Chain(g, correct, k), k, 0)
  {
    if k > 0 {
      AllFitContiguous(g, correct, k - 1);
    }
  }

  // --- a clean signal is recovered -----------------------------------------------------------

  /** The crossings are exactly the edges of `burst`, whose symbols follow each other within the
      margins, starting near `nominal`. */
  ghost predicate Clean(g: Grid, rising: seq<int>, falling: seq<int>, burst: seq<Edge>, nominal: int) {
    && (forall x :: x in rising <==> exists i :: 0 <= i < |burst| && burst[i].0 == x)
    && (forall x :: x in falling <==> exists i :: 0 <= i < |burst| && burst[i].1 == x)
    && (forall i :: 0 <= i < |burst| ==> SymbolClean(g, burst, i))
    && (burst != [] ==> Distance(burst[0].0, nominal) <= g.searchMargin)
  }

  ghost predicate SymbolClean(g: Grid, burst: seq<Edge>, i: nat)
    requires i < |burst|
  {
    var (s, e) := burst[i];
    && 0 <= s < e <= g.n
    && Distance(e, s + g.symLen) <= g.fallMargin
    && (i > 0 ==> s > burst[i - 1].1 && Distance(s, burst[i - 1].1 + Gap(g)) <= g.searchMargin)
  }

  /** Margins small enough that no search window reaches into the next symbol. */
  ghost predicate Narrow(g: Grid) {
    4 * g.fallMargin <= Gap(g) <= g.searchMargin && 2 * g.searchMargin + g.fallMargin <= g.symLen
  }

  /** Later symbols start after a whole symbol and its margin. */
  lemma {:induction false} BurstSpaced(g: Grid, burst: seq<Edge>, i: nat, j: nat)
    requires Sound(g) && i < j < |burst|
    requires forall k :: 0 <= k < |burst| ==> SymbolClean(g, burst, k)
    ensures burst[j].0 >= burst[i].1 + 1
    ensures burst[j].0 >= burst[i].0 + g.symLen - g.fallMargin + 1
    ensures burst[j].1 >= burst[i].1 + 1 + g.symLen - g.fallMargin
  {
    assert SymbolClean(g, burst, i) && SymbolClean(g, burst, j);
    if i + 1 < j {
      BurstSpaced(g, burst, i, j - 1);
    }
  }

  /** A window holding one of the crossings and no other finds it. */
  lemma FindsOnly(xs: seq<int>, lo: int, hi: int, target: int, x: int)
    requires x in xs && lo <= x <= hi
    requires forall y :: y in xs && lo <= y <= hi ==> y == x
    ensures Between(xs, lo, hi) != [] && Nearest(Between(xs, lo, hi), target) == x
  {
    BetweenExactly(xs, lo, hi);
    NearestRight(Between(xs, lo, hi), target);
  }

  function PrevIn(burst: seq<Edge>, j: nat): Prev
    requires j < |burst|
  {
    if j == 0 then NoPrev else Prev(burst[j - 1].1)
  }

  lemma StartIsTrue(g: Grid, rising: seq<int>, falling: seq<int>, burst: seq<Edge>, first: int, j: nat, nomS: int)
    requires Sound(g) && Narrow(g) && Clean(g, rising, falling, burst, first) && j < |burst|
    requires j == 0 ==> nomS == first
    ensures RawStart(g, rising, PrevIn(burst, j), nomS) == burst[j].0
  {
    var prev, s := PrevIn(burst, j), burst[j].0;
    assert SymbolClean(g, burst, j);
    var center := SearchCenter(g, prev, nomS);
    var lo, hi := Larger(center - g.searchMargin, LowBound(prev)), center + g.searchMargin;
    forall y | y in rising && lo <= y <= hi
      ensures y == s
    {
      var i :| 0 <= i < |burst| && burst[i].0 == y;
      OtherSymbolFar(g, burst, i, j);
    }
    FindsOnly(rising, lo, hi, center, s);
  }

  lemma EndIsTrue(g: Grid, rising: seq<int>, falling: seq<int>, burst: seq<Edge>, first: int, j: nat)
    requires Sound(g) && Narrow(g) && Clean(g, rising, falling, burst, first) && j < |burst|
    ensures RawEnd(g, falling, burst[j].0) == burst[j].1
  {
    var (s, e) := burst[j];
    assert SymbolClean(g, burst, j);
    var lo, hi := Larger(0, s + g.symLen - g.fallMargin), Smaller(g.n, s + g.symLen + g.fallMargin);
    forall y | y in falling && lo <= y <= hi
      ensures y == e
    {
      var i :| 0 <= i < |burst| && burst[i].1 == y;
      OtherSymbolFar(g, burst, i, j);
    }
    FindsOnly(falling, lo, hi, s + g.symLen, e);
  }

  /** From the true end of the symbol before, the next true symbol is found. */
  lemma CorrectIsTrue(g: Grid, rising: seq<int>, falling: seq<int>, burst: seq<Edge>, first: int, j: nat, nomS: int)
    requires Sound(g) && Narrow(g) && Clean(g, rising, falling, burst, first) && j < |burst|
    requires j == 0 ==> nomS == first
    ensures Correct(g, rising, falling, PrevIn(burst, j), nomS) == burst[j]
  {
    StartIsTrue(g, rising, falling, burst, first, j, nomS);
    EndIsTrue(g, rising, falling, burst, first, j);
    assert SymbolClean(g, burst, j);
    ClampKeeps(g.n, burst[j].0, burst[j].1);
  }

  lemma ClampKeeps(n: nat, s: int, e: int)
    requires 0 <= s < e <= n
    ensures Clamp(n, s, e) == (s, e)
  {
  }

  lemma OtherSymbolFar(g: Grid, burst: seq<Edge>, i: nat, j: nat)
    requires Sound(g) && i < |burst| && j < |burst|
    requires forall k :: 0 <= k < |burst| ==> SymbolClean(g, burst, k)
    ensures i > j ==> burst[i].0 >= burst[j].0 + g.symLen - g.fallMargin + 1
                      && burst[i].1 >= burst[j].1 + 1 + g.symLen - g.fallMargin
    ensures i < j ==> burst[i].0 <= burst[j - 1].0 < burst[j - 1].1 < burst[j].0 && burst[i].1 <= burst[j - 1].1
  {
    assert SymbolClean(g, burst, i) && SymbolClean(g, burst, j);
    if i > j {
      BurstSpaced(g, burst, j, i);
    } else if i < j {
      assert SymbolClean(g, burst, j - 1);
      if i < j - 1 {
        BurstSpaced(g, burst, i, j - 1);
        assert burst[i].0 < burst[i].1;
      }
    }
  }

  ghost predicate Follows(g: Grid, correct: (Prev, int) -> Edge, burst: seq<Edge>, first: nat, j: nat)
    requires j < |burst|
  {
    correct(PrevIn(burst, j), Nominal(g, first + j)) == burst[j]
  }

  lemma {:induction false} ChainFollows(g: Grid, correct: (Prev, int) -> Edge, burst: seq<Edge>, k: nat, first: nat)
    requires Contiguous(g, Chain(g, correct, k), k, first)
    requires |Chain(g, correct, k)| <= |burst|
    requires forall j :: 0 <= j < |burst| ==> Follows(g, correct, burst, first, j)
    ensures Chain(g, correct, k) == burst[..|Chain(g, correct, k)|]
  {
    if k > 0 {
      var before := Chain(g, correct, k - 1);
      if Fits(g, k - 1) {
        ChainFollows(g, correct, burst, k - 1, first);
        assert Follows(g, correct, burst, first, |before|);
      } else if before != [] {
        ChainFollows(g, correct, burst, k - 1, first);
      }
    }
  }

  /** On a clean signal every emitted edge is the true one, however far the symbols have drifted
      from their nominal grid. */
  lemma CleanRecovered(g: Grid, rising: seq<int>, falling: seq<int>, burst: seq<Edge>, k: nat, first: nat)
    requires Sound(g) && Narrow(g) && Clean(g, rising, falling, burst, Nominal(g, first))
    requires Contiguous(g, Edges(g, rising, falling, k), k, first)
    requires |Edges(g, rising, falling, k)| <= |burst|
    ensures Edges(g, rising, falling, k) == burst[..|Edges(g, rising, falling, k)|]
  {
    var correct := Corrector(g, rising, falling);
    forall j | 0 <= j < |burst|
      ensures Follows(g, correct, burst, first, j)
    {
      CorrectIsTrue(g, rising, falling, burst, Nominal(g, first), j, Nominal(g, first + j));
    }
    ChainFollows(g, correct, burst, k, first);
  }
}
