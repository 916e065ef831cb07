/** The symbol edges reported for a packet of a recording: the edge tracker on a stretch around the
    packet, and its answer moved back to positions of the recording. */
module PacketEdges {
  import opened Numbers
  import opened SymbolEdges
  import opened EdgeRules

  function Lo(start: int, slot: int): int {
    Larger(0, start - slot)
  }

  function Hi(n: nat, start: int, nSym: nat, slot: int): int {
    Smaller(n, start + nSym * slot + slot)
  }

  /** The tracker's grid on the stretch from `Lo` to `Hi`. */
  function LocalGrid(n: nat, start: int, nSym: nat, slot: int, symLen: int): Grid
    requires 0 <= start <= n && slot > 0
  {
    GridOf(Hi(n, start, nSym, slot) - Lo(start, slot), start - Lo(start, slot), 0, 0, slot, symLen)
  }

  function Shifted(edges: seq<Edge>, offset: int): (r: seq<Edge>)
    ensures |r| == |edges|
  {
    seq(|edges|, i requires 0 <= i < |edges| => (edges[i].0 + offset, edges[i].1 + offset))
  }

  /** The edges of one packet; how crossings are found in a signal is a parameter. */
  method EdgesOf<S>(iq: seq<S>, start: int, nSym: nat, slot: int, symLen: int,
                    crossings: seq<S> -> (seq<int>, seq<int>))
    returns (edges: seq<Edge>)
    requires 0 <= start <= |iq| && slot > 0
    ensures var (rising, falling) := crossings(iq[Lo(start, slot)..Hi(|iq|, start, nSym, slot)]);
            edges == Shifted(Edges(LocalGrid(|iq|, start, nSym, slot, symLen), rising, falling, nSym), Lo(start, slot))
  {
    var lo, hi := Lo(start, slot), Hi(|iq|, start, nSym, slot);
    var (rising, falling) := crossings(iq[lo..hi]);
    var local := CorrectSymbolEdges(hi - lo, rising, falling, start - lo, 0, nSym, 0, slot, symLen);
    edges := [];
    for i := 0 to |local|
      invariant |edges| == i
      invariant forall k :: 0 <= k < i ==> edges[k] == (local[k].0 + lo, local[k].1 + lo)
    {
      edges := edges + [(local[i].0 + lo, local[i].1 + lo)];
    }
  }

  /** From a slot before the packet to a slot behind its last symbol, as far as the recording reaches. */
  ghost predicate Stretch(n: nat, start: int, nSym: nat, slot: int, lo: int, hi: int) {
    && 0 <= lo && start - slot <= lo && (lo == 0 || lo == start - slot)
    && hi <= n && hi <= start + (nSym + 1) * slot && (hi == n || hi == start + (nSym + 1) * slot)
  }

  lemma StretchOnce(n: nat, start: int, nSym: nat, slot: int, lo: int, hi: int)
    requires 0 <= start <= n && slot > 0
    ensures Stretch(n, start, nSym, slot, lo, hi) <==> lo == Lo(start, slot) && hi == Hi(n, start, nSym, slot)
  {
    assert (nSym + 1) * slot == nSym * slot + slot;
  }

  /** The edges of a packet answer the tracker's task on that stretch, moved back by its start. */
  lemma EdgesOfDecided(iqLength: nat, start: int, nSym: nat, slot: int, symLen: int, rising: seq<int>,
                       falling: seq<int>, lo: int, hi: int, margin: int, fallMargin: int)
    returns (symbols: seq<nat>, local: seq<Edge>)
    requires 0 <= start <= iqLength && slot > 0 && Stretch(iqLength, start, nSym, slot, lo, hi) && lo <= hi
    requires Margins(slot, symLen, margin, fallMargin)
    ensures Task(hi - lo, rising, falling, start - lo, 0, 0, slot, symLen, margin, fallMargin)
              .Answered(nSym, symbols, local)
    ensures var edges := Shifted(Edges(LocalGrid(iqLength, start, nSym, slot, symLen), rising, falling, nSym),
                                 Lo(start, slot));
            |edges| == |local| && forall j :: 0 <= j < |local| ==> edges[j] == (local[j].0 + lo, local[j].1 + lo)
  {
    StretchOnce(iqLength, start, nSym, slot, lo, hi);
    var t := Task(hi - lo, rising, falling, start - lo, 0, 0, slot, symLen, margin, fallMargin);
    symbols, local := Symbols(t, nSym), Edges(t.AsGrid(), rising, falling, nSym);
    EdgesAnswer(t, nSym);
  }

  /** Every symbol of a packet that lies in the recording fits the stretch around it. */
  lemma AllFit(n: nat, start: int, nSym: nat, slot: int, symLen: int, k: nat)
    requires 0 <= start <= n && 0 < symLen <= slot && start + nSym * slot <= n && k < nSym
    ensures Fits(LocalGrid(n, start, nSym, slot, symLen), k)
    ensures Nominal(LocalGrid(n, start, nSym, slot, symLen), k) == start + k * slot - Lo(start, slot)
  {
    var g := LocalGrid(n, start, nSym, slot, symLen);
    NominalFormula(g, start - Lo(start, slot), 0, 0, k);
    assert (k + 1) * slot == k * slot + slot;
    Slots(k + 1, nSym, slot);
  }

  lemma {:induction false} Slots(a: nat, b: nat, slot: int)
    requires slot > 0 && a <= b
    ensures a * slot <= b * slot
    decreases b - a
  {
    if a < b {
      Slots(a, b - 1, slot);
      assert b * slot == (b - 1) * slot + slot;
    }
  }

  /** A packet that lies in the recording gets one edge pair per symbol, in order, at positions of the
      recording, the j-th start within (j+1) search margins and j fall margins of where the packet's
      start puts it. */
  lemma EdgesOfRight(n: nat, start: int, nSym: nat, slot: int, symLen: int, rising: seq<int>, falling: seq<int>)
    requires 0 <= start <= n && start + nSym * slot <= n && (slot - symLen) / 4 < symLen < slot
    ensures var g := LocalGrid(n, start, nSym, slot, symLen);
            var edges := Shifted(Edges(g, rising, falling, nSym), Lo(start, slot));
            && |edges| == nSym
            && forall j :: 0 <= j < nSym ==>
                 && 0 <= edges[j].0 < edges[j].1 <= n
                 && Distance(edges[j].0, start + j * slot) <= (j + 1) * g.searchMargin + j * g.fallMargin
  {
    var g := LocalGrid(n, start, nSym, slot, symLen);
    GridSound(g.n, start - Lo(start, slot), 0, 0, slot, symLen);
    var first := EdgesRight(g, rising, falling, nSym);
    forall k: nat | k < nSym
      ensures Fits(g, k)
    {
      AllFit(n, start, nSym, slot, symLen, k);
    }
    var local := Edges(g, rising, falling, nSym);
    AllContiguous(g, local, nSym, first);
    forall j: nat | j < nSym
      ensures 0 <= local[j].0 + Lo(start, slot) < local[j].1 + Lo(start, slot) <= n
      ensures Distance(local[j].0 + Lo(start, slot), start + j * slot) <= (j + 1) * g.searchMargin + j * g.fallMargin
    {
      assert EdgeRight(g, local, first, j);
      AllFit(n, start, nSym, slot, symLen, j);
    }
  }

  lemma AllContiguous(g: Grid, edges: seq<Edge>, nSym: nat, first: nat)
    requires Contiguous(g, edges, nSym, first) && forall k: nat | k < nSym :: Fits(g, k)
    ensures |edges| == nSym && (nSym > 0 ==> first == 0)
  {
    if nSym > 0 {
      assert Fits(g, 0) && Fits(g, nSym - 1);
    }
  }
}
