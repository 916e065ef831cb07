/** The hop overlay of a decoded packet: cuts its symbols into stretches on one channel each and
    carries the base frequency from stretch to stretch.  Frequencies are reals. */
module HopOverlay {
  import opened Modular
  import opened Options

  datatype Segment = Segment(start: nat, end: nat, channel: int, f0: real)

  /** What the overlay reads of a decode. */
  datatype DecodeInfo = DecodeInfo(f0: Option<real>, channel: Option<int>, hopSeqIdx: Option<int>, numPdu: nat)

  datatype Overlay = Overlay(segments: seq<Segment>, boundaries: set<nat>)

  datatype Hops = Hops(
    sequence: seq<int>,
    index: nat,       // where in the sequence the packet starts
    symPerHop: nat,
    f0: real,
    step: real        // quantised channel spacing
  ) {
    ghost predicate Sound() {
      symPerHop > 0 && index < |sequence|
    }

    /** `sequence[(index + sym / symPerHop) % |sequence|]`, by `Modular`'s linear spelling. */
    function ChannelAt(sym: nat): int
      requires Sound()
    {
      sequence[Wrap(index + Laps(sym, symPerHop), |sequence|)]
    }

    function F0On(channel: int): real
      requires Sound()
    {
      f0 + (channel - sequence[index]) as real * step
    }

    /** The channel due at each symbol from 0 to `total`. */
    function Due(total: nat): (due: seq<int>)
      requires Sound()
      ensures |due| == total + 1
    {
      seq(total + 1, sym requires 0 <= sym => ChannelAt(sym))
    }
  }

  /** Every symbol of the segment is due on its channel, and its base frequency has moved with it. */
  ghost predicate OnChannel(h: Hops, due: seq<int>, seg: Segment)
    requires h.Sound()
  {
    && seg.start <= seg.end <= |due|
    && (forall sym :: seg.start <= sym < seg.end ==> due[sym] == seg.channel)
    && seg.f0 == h.F0On(seg.channel)
  }

  ghost predicate Joined(seg: Segment, next: Segment) {
    seg.start < seg.end == next.start && seg.channel != next.channel
  }

  /** Segments in order from symbol 0, each beginning where the one before ends, on another channel;
      none but the last is empty. */
  ghost predicate Chain(h: Hops, due: seq<int>, segs: seq<Segment>)
    requires h.Sound()
  {
    && segs != [] && segs[0].start == 0
    && (forall i :: 0 <= i < |segs| ==> OnChannel(h, due, segs[i]))
    && (forall i :: 0 < i < |segs| ==> Joined(segs[i - 1], segs[i]))
  }

  /** The chain tiles the symbols 0..total, and ends on the channel due at `total`: its last segment
      is empty just when a hop falls there. */
  ghost predicate Tiles(h: Hops, total: nat, segs: seq<Segment>)
    requires h.Sound()
  {
    && Chain(h, h.Due(total), segs)
    && segs[|segs| - 1].end == total && segs[|segs| - 1].channel == h.ChannelAt(total)
  }

  lemma ChannelOfStart(h: Hops, total: nat, segs: seq<Segment>, i: nat)
    requires h.Sound() && Tiles(h, total, segs) && i < |segs|
    ensures segs[i].start <= segs[i].end <= total && segs[i].channel == h.Due(total)[segs[i].start]
    ensures i + 1 < |segs| ==> Joined(segs[i], segs[i + 1])
  {
    assert OnChannel(h, h.Due(total), segs[i]);
    if i + 1 < |segs| {
      assert Joined(segs[i], segs[i + 1]);
      EndsWithin(h, total, segs, i + 1);
    }
  }

  lemma {:induction false} EndsWithin(h: Hops, total: nat, segs: seq<Segment>, i: nat)
    requires h.Sound() && Tiles(h, total, segs) && i < |segs|
    ensures segs[i].end <= total
    decreases |segs| - i
  {
    if i + 1 < |segs| {
      EndsWithin(h, total, segs, i + 1);
      assert Joined(segs[i], segs[i + 1]) && OnChannel(h, h.Due(total), segs[i + 1]);
    }
  }

  /** Of two tilings that agree on where a segment starts, neither ends it before the other. */
  lemma NotEarlier(h: Hops, total: nat, a: seq<Segment>, b: seq<Segment>, i: nat)
    requires h.Sound() && Tiles(h, total, a) && Tiles(h, total, b) && i < |a| && i < |b|
    requires a[i].start == b[i].start
    ensures a[i].channel == b[i].channel && a[i].end >= b[i].end
    ensures i + 1 < |a| ==> i + 1 < |b|
  {
    ChannelOfStart(h, total, a, i);
    ChannelOfStart(h, total, b, i);
    assert OnChannel(h, h.Due(total), b[i]);
    if i + 1 < |a| {
      ChannelOfStart(h, total, a, i + 1);
    }
  }

  lemma {:induction false} SamePrefix(h: Hops, total: nat, a: seq<Segment>, b: seq<Segment>, i: nat)
    requires h.Sound() && Tiles(h, total, a) && Tiles(h, total, b) && i < |a| && i < |b|
    ensures a[i] == b[i] && (i + 1 < |a| <==> i + 1 < |b|)
  {
    if i > 0 {
      SamePrefix(h, total, a, b, i - 1);
      assert Joined(a[i - 1], a[i]) && Joined(b[i - 1], b[i]);
    }
    NotEarlier(h, total, a, b, i);
    NotEarlier(h, total, b, a, i);
    assert OnChannel(h, h.Due(total), a[i]) && OnChannel(h, h.Due(total), b[i]);
  }

  /** There is only one such tiling, so what the loop computes is the only answer. */
  lemma TilingUnique(h: Hops, total: nat, a: seq<Segment>, b: seq<Segment>)
    requires h.Sound() && Tiles(h, total, a) && Tiles(h, total, b)
    ensures a == b
  {
    var least := if |a| < |b| then |a| else |b|;
    SamePrefix(h, total, a, b, least - 1);
    forall i | 0 <= i < least
      ensures a[i] == b[i]
    {
      SamePrefix(h, total, a, b, i);
    }
  }

  /** The open segment takes in one more symbol of its channel. */
  lemma Stay(h: Hops, due: seq<int>, segs: seq<Segment>, open: Segment)
    requires h.Sound() && Chain(h, due, segs + [open]) && open.end < |due| && due[open.end] == open.channel
    ensures Chain(h, due, segs + [open.(end := open.end + 1)])
  {
    assert OnChannel(h, due, (segs + [open])[|segs|]);
    EndMoves(h, due, segs, open, open.end + 1);
  }

  lemma EndMoves(h: Hops, due: seq<int>, segs: seq<Segment>, open: Segment, end: nat)
    requires h.Sound() && Chain(h, due, segs + [open]) && OnChannel(h, due, open.(end := end))
    ensures Chain(h, due, segs + [open.(end := end)])
  {
    var before, after := segs + [open], segs + [open.(end := end)];
    forall i | 0 <= i < |after|
      ensures OnChannel(h, due, after[i])
    {
      assert OnChannel(h, due, before[i]);
    }
    forall i | 0 < i < |after|
      ensures Joined(after[i - 1], after[i])
    {
      assert Joined(before[i - 1], before[i]);
    }
  }

  /** The base frequency after a hop. */
  function Moved(h: Hops, f0: real, from: int, to: int): real {
    f0 + (to - from) as real * h.step
  }

  /** A hop closes the open segment and moves the base frequency with the channel. */
  lemma Hop(h: Hops, due: seq<int>, segs: seq<Segment>, open: Segment)
    requires h.Sound() && Chain(h, due, segs + [open]) && open.start < open.end < |due|
    requires due[open.end] != open.channel
    ensures var next := due[open.end];
            var f0 := Moved(h, open.f0, open.channel, next);
            Chain(h, due, segs + [open] + [Segment(open.end, open.end + 1, next, f0)])
  {
    var before := segs + [open];
    var next := due[open.end];
    var f0 := Moved(h, open.f0, open.channel, next);
    assert OnChannel(h, due, before[|segs|]);
    StepMoves(h, open.channel, next);
    var following := Segment(open.end, open.end + 1, next, f0);
    var after := before + [following];
    assert OnChannel(h, due, following);
    forall i | 0 < i < |after|
      ensures Joined(after[i - 1], after[i])
    {
      if i < |before| {
        assert Joined(before[i - 1], before[i]);
      }
    }
  }

  lemma StepMoves(h: Hops, channel: int, next: int)
    requires h.Sound()
    ensures h.F0On(next) == h.F0On(channel) + (next - channel) as real * h.step
  {
    var from := h.sequence[h.index];
    assert (next - from) as real == (channel - from) as real + (next - channel) as real;
  }

  /** Where every segment but the first starts. */
  function Starts(segs: seq<Segment>): set<nat> {
    set i | 1 <= i < |segs| :: segs[i].start
  }

  lemma StartsGrow(segs: seq<Segment>, closing: Segment, opening: Segment)
    ensures Starts(segs + [closing] + [opening]) == Starts(segs + [closing]) + {opening.start}
  {
    var before, after := segs + [closing], segs + [closing] + [opening];
    forall s
      ensures s in Starts(after) <==> s in Starts(before) + {opening.start}
    {
      if s in Starts(before) {
        var i :| 1 <= i < |before| && before[i].start == s;
        assert after[i].start == s;
      }
      assert after[|segs| + 1].start == opening.start;
      if s in Starts(after) {
        var i :| 1 <= i < |after| && after[i].start == s;
        assert i < |before| ==> before[i].start == s;
      }
    }
  }

  lemma StartsOnly(segs: seq<Segment>, a: Segment, b: Segment)
    requires a.start == b.start
    ensures Starts(segs + [a]) == Starts(segs + [b])
  {
    var one, two := segs + [a], segs + [b];
    assert forall i :: 0 <= i < |one| ==> one[i].start == two[i].start;
  }

  method WalkHops(h: Hops, total: nat) returns (o: Overlay)
    requires h.Sound()
    ensures Tiles(h, total, o.segments) && o.boundaries == Starts(o.segments)
    ensures Shows(h, total, o.segments)
    ensures forall sym :: sym in o.boundaries <==> 1 <= sym <= total && HopsAt(h, sym)
  {
    var channel, f0, start := h.sequence[h.index], h.f0, 0;
    var segs: seq<Segment> := [];
    var boundaries: set<nat> := {};
    ghost var due := h.Due(total);
    assert due[0] == channel;
    for sym := 0 to total + 1
      invariant if sym == 0 then start == 0 && channel == due[0] else start < sym
      invariant Chain(h, due, segs + [Segment(start, sym, channel, f0)])
      invariant boundaries == Starts(segs + [Segment(start, start, channel, f0)])
    {
      var next := h.ChannelAt(sym);
      assert next == due[sym];
      ghost var open := Segment(start, sym, channel, f0);
      if next != channel {
        var moved := Moved(h, f0, channel, next);
        Hop(h, due, segs, open);
        StartsOnly(segs, Segment(start, start, channel, f0), open);
        StartsGrow(segs, open, Segment(sym, sym, next, moved));
        segs := segs + [Segment(start, sym, channel, f0)];
        boundaries := boundaries + {sym};
        channel, f0, start := next, moved, sym;
      } else {
        Stay(h, due, segs, open);
      }
    }
    ghost var open := Segment(start, total + 1, channel, f0);
    assert OnChannel(h, due, (segs + [open])[|segs|]);
    assert due[total] == channel;
    EndMoves(h, due, segs, open, total);
    StartsOnly(segs, Segment(start, start, channel, f0), Segment(start, total, channel, f0));
    o := Overlay(segs + [Segment(start, total, channel, f0)], boundaries);
    TilesShow(h, total, o.segments);
    forall sym: nat
      ensures sym in o.boundaries <==> 1 <= sym <= total && HopsAt(h, sym)
    {
      BoundariesHop(h, total, o.segments, sym);
    }
  }

  /** Where the list lookup by `idx` ends up: a negative index counts from the end. */
  function Resolved(idx: int, count: nat): int {
    if idx < 0 then idx + count else idx
  }

  ghost predicate Complete(info: DecodeInfo) {
    info.f0.Some? && info.channel.Some? && info.hopSeqIdx.Some?
  }

  /** The overlay is drawn exactly when the decode is complete, its sequence is known and the channel
      lies on it. */
  ghost predicate Drawable(info: DecodeInfo, sequences: seq<seq<int>>) {
    && Complete(info)
    && exists sequence :: SequenceAt(sequences, info.hopSeqIdx.value, sequence) && info.channel.value in sequence
  }

  /** The sequence of an index; negative ones count from the end, -1 being the last. */
  ghost predicate SequenceAt(sequences: seq<seq<int>>, idx: int, sequence: seq<int>) {
    || (0 <= idx < |sequences| && sequence == sequences[idx])
    || (-|sequences| <= idx < 0 && sequence == sequences[|sequences| + idx])
  }

  datatype Drawing = Nothing | Raised | Drawn(overlay: Overlay)

  ghost predicate FirstIndex(channel: int, sequence: seq<int>, k: nat) {
    k < |sequence| && sequence[k] == channel && channel !in sequence[..k]
  }

  method FindChannel(channel: int, sequence: seq<int>) returns (found: Option<nat>)
    ensures found.None? <==> channel !in sequence
    ensures found.Some? ==> FirstIndex(channel, sequence, found.value)
  {
    for k := 0 to |sequence|
      invariant channel !in sequence[..k]
    {
      if sequence[k] == channel {
        return Some(k);
      }
    }
    found := None;
  }

  method DecoderOverlay(info: DecodeInfo, sequences: seq<seq<int>>, symPerHop: nat, leadSyms: nat, step: real)
    returns (drawing: Drawing)
    requires symPerHop > 0
    ensures drawing.Raised? <==> Complete(info) && info.hopSeqIdx.value < -|sequences|
    ensures drawing.Drawn? <==> Drawable(info, sequences)
    ensures drawing.Drawn? ==>
      exists k: nat, sequence :: SequenceAt(sequences, info.hopSeqIdx.value, sequence)
        && FirstIndex(info.channel.value, sequence, k)
        && var h := Hops(sequence, k, symPerHop, info.f0.value, step);
           && Tiles(h, leadSyms + info.numPdu, drawing.overlay.segments)
           && drawing.overlay.boundaries == Starts(drawing.overlay.segments)
           && Shows(h, leadSyms + info.numPdu, drawing.overlay.segments)
  {
    if info.f0.None? || info.channel.None? || info.hopSeqIdx.None? {
      return Nothing;
    }
    if info.hopSeqIdx.value >= |sequences| {
      return Nothing;
    }
    var idx := Resolved(info.hopSeqIdx.value, |sequences|);
    if idx < 0 {
      return Raised;
    }
    assert SequenceAt(sequences, info.hopSeqIdx.value, sequences[idx]);
    var found := FindChannel(info.channel.value, sequences[idx]);
    if found.None? {
      return Nothing;
    }
    var o := WalkHops(Hops(sequences[idx], found.value, symPerHop, info.f0.value, step), leadSyms + info.numPdu);
    drawing := Drawn(o);
  }

  /** The channel of a symbol, in the remainders and quotients of the program. */
  ghost function ChannelDue(h: Hops, sym: nat): int
    requires h.Sound()
  {
    h.sequence[(h.index + sym / h.symPerHop) % |h.sequence|]
  }

  lemma ChannelAtRight(h: Hops, sym: nat)
    requires h.Sound()
    ensures h.ChannelAt(sym) == ChannelDue(h, sym)
  {
    LapsIsQuotient(sym, h.symPerHop);
    WrapIsRemainder(h.index + Laps(sym, h.symPerHop), |h.sequence|);
  }

  /** The overlay in those terms: segments one after the other up to `total`, every symbol in one on its
      own channel, at the frequency its channel is away from the first. */
  ghost predicate Shows(h: Hops, total: nat, segs: seq<Segment>)
    requires h.Sound()
  {
    && segs != [] && segs[0].start == 0 && segs[|segs| - 1].end == total
    && (forall i :: 0 < i < |segs| ==> segs[i].start == segs[i - 1].end)
    && forall i :: 0 <= i < |segs| ==> SegmentRight(h, segs[i])
  }

  ghost predicate SegmentRight(h: Hops, seg: Segment)
    requires h.Sound()
  {
    && seg.f0 - h.f0 == (seg.channel - h.sequence[h.index]) as real * h.step
    && forall sym :: seg.start <= sym < seg.end ==> seg.channel == ChannelDue(h, sym)
  }

  ghost predicate HopsAt(h: Hops, sym: nat)
    requires h.Sound() && sym > 0
  {
    ChannelDue(h, sym) != ChannelDue(h, sym - 1)
  }

  lemma SegmentShows(h: Hops, total: nat, seg: Segment)
    requires h.Sound() && OnChannel(h, h.Due(total), seg)
    ensures SegmentRight(h, seg)
  {
    forall sym | seg.start <= sym < seg.end
      ensures seg.channel == ChannelDue(h, sym)
    {
      assert h.Due(total)[sym] == seg.channel;
      ChannelAtRight(h, sym);
    }
  }

  lemma TilesShow(h: Hops, total: nat, segs: seq<Segment>)
    requires h.Sound() && Tiles(h, total, segs)
    ensures Shows(h, total, segs)
  {
    forall i | 0 <= i < |segs|
      ensures SegmentRight(h, segs[i]) && (i > 0 ==> segs[i].start == segs[i - 1].end)
    {
      SegmentShows(h, total, segs[i]);
      if i > 0 {
        ChannelOfStart(h, total, segs, i - 1);
      }
    }
  }

  /** The segment a symbol lies in. */
  lemma {:induction false} SegmentOf(h: Hops, total: nat, segs: seq<Segment>, sym: nat, i: nat) returns (k: nat)
    requires h.Sound() && Tiles(h, total, segs) && sym < total && i < |segs| && segs[i].start <= sym
    ensures k < |segs| && segs[k].start <= sym < segs[k].end
    decreases |segs| - i
  {
    ChannelOfStart(h, total, segs, i);
    if sym < segs[i].end {
      k := i;
    } else {
      k := SegmentOf(h, total, segs, sym, i + 1);
    }
  }

  /** A symbol that follows one of a segment hops exactly when it is due on another channel. */
  lemma HopsAfter(h: Hops, total: nat, segs: seq<Segment>, k: nat, sym: nat)
    requires h.Sound() && Tiles(h, total, segs) && k < |segs| && 1 <= sym <= total
    requires segs[k].start <= sym - 1 < segs[k].end
    ensures HopsAt(h, sym) <==> h.ChannelAt(sym) != segs[k].channel
  {
    ChannelAtRight(h, sym);
    ChannelAtRight(h, sym - 1);
    ChannelOfStart(h, total, segs, k);
    assert OnChannel(h, h.Due(total), segs[k]);
    assert h.Due(total)[sym - 1] == h.ChannelAt(sym - 1);
  }

  /** Boundaries are the symbols at which the channel changes. */
  lemma BoundariesHop(h: Hops, total: nat, segs: seq<Segment>, sym: nat)
    requires h.Sound() && Tiles(h, total, segs)
    ensures sym in Starts(segs) <==> 1 <= sym <= total && HopsAt(h, sym)
  {
    if 1 <= sym <= total {
      var k := SegmentOf(h, total, segs, sym - 1, 0);
      HopsAfter(h, total, segs, k, sym);
      ChannelOfStart(h, total, segs, k);
      if sym < segs[k].end {
        assert OnChannel(h, h.Due(total), segs[k]) && h.Due(total)[sym] == h.ChannelAt(sym);
        NoStartInside(h, total, segs, k, sym);
      } else if k + 1 < |segs| {
        ChannelOfStart(h, total, segs, k + 1);
        assert segs[k + 1].start == sym && h.Due(total)[sym] == h.ChannelAt(sym);
      } else {
        NoStartInside(h, total, segs, k, sym);
      }
    } else {
      if sym in Starts(segs) {
        StartsWithin(h, total, segs, sym);
      }
    }
  }

  lemma StartsWithin(h: Hops, total: nat, segs: seq<Segment>, sym: nat)
    requires h.Sound() && Tiles(h, total, segs) && sym in Starts(segs)
    ensures 1 <= sym <= total
  {
    var i :| 1 <= i < |segs| && segs[i].start == sym;
    ChannelOfStart(h, total, segs, i - 1);
    ChannelOfStart(h, total, segs, i);
  }

  lemma {:induction false} StartsRise(h: Hops, total: nat, segs: seq<Segment>, i: nat, j: nat)
    requires h.Sound() && Tiles(h, total, segs) && i < j < |segs|
    ensures segs[i].end <= segs[j].start
  {
    ChannelOfStart(h, total, segs, j - 1);
    if i < j - 1 {
      StartsRise(h, total, segs, i, j - 1);
    }
  }

  lemma NoStartInside(h: Hops, total: nat, segs: seq<Segment>, k: nat, sym: nat)
    requires h.Sound() && Tiles(h, total, segs) && k < |segs| && segs[k].start < sym
    requires sym < segs[k].end || (sym == segs[k].end && k + 1 == |segs|)
    ensures sym !in Starts(segs)
  {
    forall i | 1 <= i < |segs|
      ensures segs[i].start != sym
    {
      if i < k {
        StartsRise(h, total, segs, i, k);
        ChannelOfStart(h, total, segs, i);
      } else if i > k {
        StartsRise(h, total, segs, k, i);
      }
    }
  }

  /** No channel follows itself, round the end of the sequence included. */
  ghost predicate Alternating(sequence: seq<int>) {
    forall j, k :: 0 <= j < |sequence| && 0 <= k < |sequence| && (k == j + 1 || (k == 0 && j == |sequence| - 1))
      ==> sequence[j] != sequence[k]
  }

  /** Within a hop the channel stays; at its end it changes. */
  lemma HopChannel(h: Hops, hop: nat, sym: nat)
    requires h.Sound() && Alternating(h.sequence)
    requires hop * h.symPerHop <= sym <= hop * h.symPerHop + h.symPerHop
    ensures h.ChannelAt(sym) == h.ChannelAt(hop * h.symPerHop) <==> sym < hop * h.symPerHop + h.symPerHop
  {
    var first := hop * h.symPerHop;
    LapsOf(hop, 0, h.symPerHop);
    if sym < first + h.symPerHop {
      LapsOf(hop, sym - first, h.symPerHop);
    } else {
      assert sym == (hop + 1) * h.symPerHop + 0;
      LapsOf(hop + 1, 0, h.symPerHop);
      WrapNext(h.index + hop, |h.sequence|);
    }
  }

  /** On such a sequence every segment but the last is exactly one hop long. */
  lemma {:induction false} RegularHops(h: Hops, total: nat, segs: seq<Segment>, i: nat)
    requires h.Sound() && Alternating(h.sequence) && Tiles(h, total, segs) && i < |segs|
    ensures segs[i].start == i * h.symPerHop
    ensures i + 1 < |segs| ==> segs[i].end == i * h.symPerHop + h.symPerHop
    ensures i + 1 == |segs| <==> total < i * h.symPerHop + h.symPerHop
  {
    if i > 0 {
      RegularHops(h, total, segs, i - 1);
      ChannelOfStart(h, total, segs, i - 1);
      assert i * h.symPerHop == (i - 1) * h.symPerHop + h.symPerHop;
    }
    HopLong(h, total, segs, i);
  }

  lemma HopLong(h: Hops, total: nat, segs: seq<Segment>, i: nat)
    requires h.Sound() && Alternating(h.sequence) && Tiles(h, total, segs) && i < |segs|
    requires segs[i].start == i * h.symPerHop
    ensures i + 1 < |segs| ==> segs[i].end == i * h.symPerHop + h.symPerHop <= total
    ensures i + 1 == |segs| ==> total < i * h.symPerHop + h.symPerHop
  {
    var last, due := i * h.symPerHop + h.symPerHop, h.Due(total);
    ChannelOfStart(h, total, segs, i);
    assert OnChannel(h, due, segs[i]);
    if segs[i].end > last {
      assert due[last] == segs[i].channel;
      HopChannel(h, i, last);
    }
    if i + 1 < |segs| {
      ChannelOfStart(h, total, segs, i + 1);
      assert due[segs[i].end] == segs[i + 1].channel;
      if segs[i].end < last {
        HopChannel(h, i, segs[i].end);
      }
    } else if total == last {
      HopChannel(h, i, last);
    }
  }

  /** And the i-th of them is on the i-th channel from where the packet starts, round the sequence. */
  lemma RegularChannels(h: Hops, total: nat, segs: seq<Segment>, i: nat)
    requires h.Sound() && Alternating(h.sequence) && Tiles(h, total, segs) && i < |segs|
    ensures segs[i].channel == h.sequence[(h.index + i) % |h.sequence|]
  {
    RegularHops(h, total, segs, i);
    ChannelOfStart(h, total, segs, i);
    LapsOf(i, 0, h.symPerHop);
    WrapIsRemainder(h.index + i, |h.sequence|);
  }
}
