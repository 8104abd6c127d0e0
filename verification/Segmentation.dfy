/** The framer refines a declarative segmentation of its accepted falling edges: the edges,
    in order, are cut into frames where the line was quiet for 200 us and after every
    eleventh edge. */
module Segmentation {
  import opened Wrappers
  import Gf2
  import opened Framer

  datatype Sample = Sample(clk: bool, data: bool, t: Micros)

  datatype Edge = Edge(t: Micros, data: bool)

  type Group = seq<Edge>

  /** The longest distance between samples for which no cast in the framer loses anything
      while a frame is in flight. */
  const MAX_SAMPLE_GAP_US := 0x1_0000_0000 - IDLE_TIMEOUT_US

  /** Timestamps do not run backwards and have no gap the casts cannot carry. */
  predicate Paced(prev: Micros, xs: seq<Sample>)
    decreases |xs|
  {
    xs != [] ==> prev <= xs[0].t <= prev + MAX_SAMPLE_GAP_US && Paced(xs[0].t, xs[1..])
  }

  function Frames(f: Option<Ps2Frame>): seq<Ps2Frame> {
    match f
    case None => []
    case Some(frame) => [frame]
  }

  /** Feeding samples one by one: the final state and the frames emitted. */
  function Run(s: State, xs: seq<Sample>): (r: (State, seq<Ps2Frame>))
    requires s.Valid()
    ensures r.0.Valid()
    decreases |xs|
  {
    if xs == [] then (s, [])
    else
      var (s', f) := Step(s, xs[0].clk, xs[0].data, xs[0].t);
      var (s'', fs) := Run(s', xs[1..]);
      (s'', Frames(f) + fs)
  }

  /** The falling edges that clock a bit during a run. */
  function Edges(s: State, xs: seq<Sample>): (es: seq<Edge>)
    requires s.Valid()
    ensures |es| <= |xs|
    decreases |xs|
  {
    if xs == [] then []
    else
      var x := xs[0];
      (if Accepts(s, x.clk, x.t) then [Edge(x.t, x.data)] else [])
      + Edges(Step(s, x.clk, x.data, x.t).0, xs[1..])
  }

  function Now(prev: Micros, xs: seq<Sample>): Micros {
    if xs == [] then prev else xs[|xs| - 1].t
  }

  // ------------------------------------------------------------ what a group means

  function Datas(g: Group): (ds: Gf2.Bits)
    ensures |ds| == |g|
  {
    seq(|g|, i requires 0 <= i < |g| => g[i].data)
  }

  predicate Bit(ds: Gf2.Bits, i: nat) { i < |ds| && ds[i] }

  function Flag(b: bool, m: bv8): bv8 { if b then m else 0 }

  /** Slots 1 to 8 are the data bits, least significant first. */
  function DataByte(ds: Gf2.Bits): bv8 {
    Flag(Bit(ds, 1), 0x01) | Flag(Bit(ds, 2), 0x02) | Flag(Bit(ds, 3), 0x04) | Flag(Bit(ds, 4), 0x08)
    | Flag(Bit(ds, 5), 0x10) | Flag(Bit(ds, 6), 0x20) | Flag(Bit(ds, 7), 0x40) | Flag(Bit(ds, 8), 0x80)
  }

  /** Times between successive edges of the group, padded with zeros. */
  function Periods(g: Group): (ps: seq<nat>)
    ensures |ps| == 11
  {
    seq(11, i requires 0 <= i < 11 =>
      if i + 1 < |g| && g[i].t <= g[i + 1].t then g[i + 1].t - g[i].t else 0)
  }

  /** A frame without its noise statistics. */
  datatype Shape = Shape(
    kind: FrameKind, data: bv8, parityOk: bool, framingOk: bool, startUs: Micros, periodsUs: seq<nat>)

  function ShapeOf(f: Ps2Frame): Shape {
    Shape(f.kind, f.data, f.parityOk, f.framingOk, f.startUs, f.periodsUs)
  }

  function ShapesOf(fs: seq<Ps2Frame>): (ss: seq<Shape>)
    ensures |ss| == |fs|
  {
    if fs == [] then [] else [ShapeOf(fs[0])] + ShapesOf(fs[1..])
  }

  /** Eleven edges are an AT frame; nine with start bit 1 an XT frame; anything else was
      cut short. */
  function FrameOf(g: Group): Shape
    requires 0 < |g| <= AT_BIT_COUNT
  {
    var ds := Datas(g);
    if |g| == AT_BIT_COUNT then
      Shape(At, DataByte(ds), Gf2.Parity(ds[1..10]), !ds[0] && ds[10], g[0].t, Periods(g))
    else if |g| == XT_BIT_COUNT && ds[0] then
      Shape(Xt, DataByte(ds), true, true, g[0].t, Periods(g))
    else
      Shape(Invalid, DataByte(ds), false, false, g[0].t, Periods(g))
  }

  function FramesOf(gs: seq<Group>): seq<Shape>
    requires forall i :: 0 <= i < |gs| ==> 0 < |gs[i]| <= AT_BIT_COUNT
  {
    if gs == [] then [] else [FrameOf(gs[0])] + FramesOf(gs[1..])
  }

  // ------------------------------------------------------------ the segmentation

  /** Successive edges less than the timeout apart. */
  ghost predicate Chain(g: Group) {
    forall i, j :: 0 <= i && j == i + 1 && j < |g| ==> g[i].t <= g[j].t < g[i].t + 200
  }

  ghost predicate Ordered(es: seq<Edge>) {
    forall i, j :: 0 <= i < j < |es| ==> es[i].t <= es[j].t
  }

  /** When the line next shows signs of life after a group: the next edge, or the end of
      the observation. */
  function NextTime(es: seq<Edge>, now: Micros): Micros {
    if es == [] then now else es[0].t
  }

  predicate Stale(g: Group, t: Micros) {
    g != [] && t >= g[|g| - 1].t + 200
  }

  /** `gs` are the completed frames and `open` the one in flight when `es` has been seen by
      time `now`. */
  ghost predicate IsSegmentation(gs: seq<Group>, open: Group, es: seq<Edge>, now: Micros)
    decreases |gs|
  {
    if gs == [] then
      open == es && |open| < AT_BIT_COUNT && Chain(open) && !Stale(open, now)
    else
      var g := gs[0];
      0 < |g| <= AT_BIT_COUNT && g <= es && Chain(g)
      && (|g| == AT_BIT_COUNT || Stale(g, NextTime(es[|g|..], now)))
      && IsSegmentation(gs[1..], open, es[|g|..], now)
  }

  lemma {:induction false} SegmentationSizes(gs: seq<Group>, open: Group, es: seq<Edge>, now: Micros)
    requires IsSegmentation(gs, open, es, now)
    ensures forall i :: 0 <= i < |gs| ==> 0 < |gs[i]| <= AT_BIT_COUNT
    decreases |gs|
  {
    if gs != [] {
      SegmentationSizes(gs[1..], open, es[|gs[0]|..], now);
      assert forall i :: 0 < i < |gs| ==> gs[i] == gs[1..][i - 1];
    }
  }

  function Concat(gs: seq<Group>): seq<Edge> {
    if gs == [] then [] else gs[0] + Concat(gs[1..])
  }

  /** Every edge is in exactly one frame, in order. */
  lemma {:induction false} SegmentationCovers(gs: seq<Group>, open: Group, es: seq<Edge>, now: Micros)
    requires IsSegmentation(gs, open, es, now)
    ensures Concat(gs) + open == es
    decreases |gs|
  {
    if gs != [] {
      var rest := es[|gs[0]|..];
      SegmentationCovers(gs[1..], open, rest, now);
      assert gs[0] + (Concat(gs[1..]) + open) == (gs[0] + Concat(gs[1..])) + open;
      assert es == gs[0] + rest;
    }
  }

  /** A completed group cannot be a proper prefix of a chain. */
  lemma NoEarlyCut(g: Group, h: Group, es: seq<Edge>, now: Micros)
    requires 0 < |g| < AT_BIT_COUNT && |g| < |h| && g <= es && h <= es
    requires Stale(g, NextTime(es[|g|..], now))
    ensures !Chain(h)
  {
    var k := |g|;
    assert es[k..][0] == es[k] == h[k] && g[k - 1] == h[k - 1];
    assert h[k].t >= h[k - 1].t + IDLE_TIMEOUT_US;
  }

  /** There is only one segmentation: the cuts are forced. */
  lemma {:induction false} SegmentationUnique(
    gs: seq<Group>, open: Group, hs: seq<Group>, open': Group, es: seq<Edge>, now: Micros)
    requires IsSegmentation(gs, open, es, now) && IsSegmentation(hs, open', es, now)
    ensures gs == hs && open == open'
    decreases |gs|
  {
    if gs == [] && hs == [] {
    } else if gs == [] {
      FirstGroupIsCut(hs[0], es, now);
    } else if hs == [] {
      FirstGroupIsCut(gs[0], es, now);
    } else {
      var g, h := gs[0], hs[0];
      if |g| < |h| {
        NoEarlyCut(g, h, es, now);
      } else if |h| < |g| {
        NoEarlyCut(h, g, es, now);
      }
      assert g == es[..|g|] == h;
      SegmentationUnique(gs[1..], open, hs[1..], open', es[|g|..], now);
      assert gs == [g] + gs[1..] && hs == [h] + hs[1..];
    }
  }

  /** If a group has been completed, not everything can still be in flight. */
  lemma FirstGroupIsCut(g: Group, es: seq<Edge>, now: Micros)
    requires 0 < |g| <= AT_BIT_COUNT && g <= es
    requires |g| == AT_BIT_COUNT || Stale(g, NextTime(es[|g|..], now))
    ensures |es| >= AT_BIT_COUNT || !Chain(es) || Stale(es, now)
  {
    if |g| == |es| {
      assert g == es;
    } else if |g| < AT_BIT_COUNT {
      NoEarlyCut(g, es, es, now);
    }
  }

  // ------------------------------------------------------------ the greedy cut

  /** Completed groups when `g` is in flight and `es` follow. */
  function Cut(g: Group, es: seq<Edge>, now: Micros): (gs: seq<Group>)
    requires |g| < AT_BIT_COUNT
    ensures forall i :: 0 <= i < |gs| ==> 0 < |gs[i]| <= AT_BIT_COUNT
    decreases |es|, |g|
  {
    if Stale(g, NextTime(es, now)) then [g] + Cut([], es, now)
    else if es == [] then []
    else
      var g' := g + [es[0]];
      if |g'| == AT_BIT_COUNT then [g'] + Cut([], es[1..], now) else Cut(g', es[1..], now)
  }

  function Open(g: Group, es: seq<Edge>, now: Micros): (open: Group)
    requires |g| < AT_BIT_COUNT
    ensures |open| < AT_BIT_COUNT
    decreases |es|, |g|
  {
    if Stale(g, NextTime(es, now)) then Open([], es, now)
    else if es == [] then g
    else
      var g' := g + [es[0]];
      if |g'| == AT_BIT_COUNT then Open([], es[1..], now) else Open(g', es[1..], now)
  }

  lemma ChainSnoc(g: Group, e: Edge)
    requires Chain(g) && (g != [] ==> g[|g| - 1].t <= e.t < g[|g| - 1].t + IDLE_TIMEOUT_US)
    ensures Chain(g + [e])
  {
  }

  lemma {:induction false} CutIsSegmentation(g: Group, es: seq<Edge>, now: Micros)
    requires |g| < AT_BIT_COUNT && Chain(g) && Ordered(g + es)
    ensures IsSegmentation(Cut(g, es, now), Open(g, es, now), g + es, now)
    decreases |es|, |g|
  {
    hide IsSegmentation, Cut, Open, Chain, Ordered, Stale;
    CutUnfold(g, es, now);
    if Stale(g, NextTime(es, now)) {
      OrderedTail(g, es);
      CutIsSegmentation([], es, now);
      SegmentationCons(g, Cut([], es, now), Open([], es, now), es, now);
    } else if es == [] {
      assert g + es == g;
      NothingCut(g, now);
    } else {
      var g', rest := g + [es[0]], es[1..];
      LastBefore(g, es);
      GrowChain(g, es, now);
      assert g' + rest == g + es;
      if |g'| == AT_BIT_COUNT {
        OrderedTail(g', rest);
        CutIsSegmentation([], rest, now);
        SegmentationCons(g', Cut([], rest, now), Open([], rest, now), rest, now);
      } else {
        CutIsSegmentation(g', rest, now);
      }
    }
  }

  lemma CutUnfold(g: Group, es: seq<Edge>, now: Micros)
    requires |g| < AT_BIT_COUNT
    ensures Stale(g, NextTime(es, now)) ==>
              g != [] && Cut(g, es, now) == [g] + Cut([], es, now) && Open(g, es, now) == Open([], es, now)
    ensures !Stale(g, NextTime(es, now)) && es == [] ==> Cut(g, es, now) == [] && Open(g, es, now) == g
    ensures !Stale(g, NextTime(es, now)) && es != [] && |g| + 1 == AT_BIT_COUNT ==>
              Cut(g, es, now) == [g + [es[0]]] + Cut([], es[1..], now)
              && Open(g, es, now) == Open([], es[1..], now)
    ensures !Stale(g, NextTime(es, now)) && es != [] && |g| + 1 < AT_BIT_COUNT ==>
              Cut(g, es, now) == Cut(g + [es[0]], es[1..], now)
              && Open(g, es, now) == Open(g + [es[0]], es[1..], now)
  {
  }

  lemma GrowChain(g: Group, es: seq<Edge>, now: Micros)
    requires Chain(g) && es != [] && !Stale(g, NextTime(es, now))
    requires g != [] ==> g[|g| - 1].t <= es[0].t
    ensures Chain(g + [es[0]])
  {
    ChainSnoc(g, es[0]);
  }

  lemma NothingCut(g: Group, now: Micros)
    requires |g| < AT_BIT_COUNT && Chain(g) && !Stale(g, now)
    ensures IsSegmentation([], g, g, now)
  {
  }

  lemma SegmentationCons(g: Group, gs: seq<Group>, open: Group, es: seq<Edge>, now: Micros)
    requires 0 < |g| <= AT_BIT_COUNT && Chain(g)
    requires |g| == AT_BIT_COUNT || Stale(g, NextTime(es, now))
    requires IsSegmentation(gs, open, [] + es, now)
    ensures IsSegmentation([g] + gs, open, g + es, now)
  {
    assert [] + es == es && (g + es)[|g|..] == es && ([g] + gs)[1..] == gs;
  }

  lemma OrderedTail(g: Group, es: seq<Edge>)
    requires Ordered(g + es)
    ensures Ordered([] + es) && Chain([])
  {
    forall i, j | 0 <= i < j < |es| ensures es[i].t <= es[j].t {
      assert (g + es)[|g| + i] == es[i] && (g + es)[|g| + j] == es[j];
    }
    assert [] + es == es;
  }

  lemma LastBefore(g: Group, es: seq<Edge>)
    requires Ordered(g + es) && es != []
    ensures g != [] ==> g[|g| - 1].t <= es[0].t
  {
    if g != [] {
      assert (g + es)[|g| - 1] == g[|g| - 1] && (g + es)[|g|] == es[0];
    }
  }
}
