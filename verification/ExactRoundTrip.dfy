/** The round trip, exactly: the bytes come back if and only if no gap before a start bit
    reads as a glitch.  A lost start bit cannot be made up for, because every frame takes as
    many clocking edges as it has bits and the wave has no spare ones. */
module ExactRoundTrip {
  import opened Wrappers
  import Gf2
  import opened Framer
  import opened Segmentation
  import opened FramerRefinement
  import opened Packer
  import opened RoundTrip

  // ------------------------------------------------------------ counting clocking edges

  lemma {:induction false} EdgesConcat(s: State, xs: seq<Sample>, ys: seq<Sample>)
    requires s.Valid()
    ensures Edges(s, xs + ys) == Edges(s, xs) + Edges(Run(s, xs).0, ys)
    decreases |xs|
  {
    hide *;
    if xs == [] {
      assert xs + ys == ys;
      NoEdges(s);
      assert [] + Edges(s, ys) == Edges(s, ys);
    } else {
      var s' := Step(s, xs[0].clk, xs[0].data, xs[0].t).0;
      assert (xs + ys)[0] == xs[0] && (xs + ys)[1..] == xs[1..] + ys;
      RunUnfold(s, xs);
      RunUnfold(s, xs + ys);
      EdgesConcat(s', xs[1..], ys);
      AssocEdges(First(s, xs[0]), Edges(s', xs[1..]), Edges(Run(s', xs[1..]).0, ys));
    }
  }

  lemma AssocEdges(a: seq<Edge>, b: seq<Edge>, c: seq<Edge>)
    ensures a + (b + c) == (a + b) + c
  {
  }

  /** How many edges of a wave clock a bit. */
  function Clocks(s: State, ls: Levels, t: nat): nat
    requires s.Valid() && InTime(t, ls)
  {
    |Edges(s, Timed(ls, t))|
  }

  lemma ClocksConcat(s: State, a: Levels, b: Levels, t: nat)
    requires s.Valid() && InTime(t, a + b)
    ensures Clocks(s, a + b, t) == Clocks(s, a, t) + Clocks(Drive(s, a, t).0, b, t + |a|)
  {
    hide Edges, Run;
    assert Timed(a + b, t) == Timed(a, t) + Timed(b, t + |a|);
    EdgesConcat(s, Timed(a, t), Timed(b, t + |a|));
  }

  /** One sample, and the CLK level it leaves behind. */
  lemma ClocksOne(s: State, l: Level, t: nat)
    requires s.Valid() && InTime(t, [l])
    ensures Clocks(s, [l], t) == if Accepts(s, l.clk, t) then 1 else 0
    ensures Drive(s, [l], t).0.lastClk == Some(l.clk)
  {
    var xs := Timed([l], t);
    assert xs == [Sample(l.clk, l.data, t)] && xs[1..] == [];
    NotesClk(s, l.clk, l.data, t);
    hide Step, Accepts;
    RunUnfold(s, xs);
    NoEdges(Step(s, l.clk, l.data, t).0);
    DriveOne(s, l, t);
  }

  lemma NotesClk(s: State, clk: bool, data: bool, t: Micros)
    requires s.Valid()
    ensures Step(s, clk, data, t).0.lastClk == Some(clk)
  {
  }

  lemma ClocksNone(s: State, ls: Levels, t: nat)
    requires s.Valid() && InTime(t, ls) && ls == []
    ensures Clocks(s, ls, t) == 0 && Drive(s, ls, t).0 == s
  {
    hide Step;
    assert Timed(ls, t) == [];
    NoEdges(s);
  }

  /** Only a fall of CLK clocks a bit. */
  lemma NoFall(s: State, clk: bool, t: Micros)
    requires clk || s.lastClk == Some(false)
    ensures !Accepts(s, clk, t)
  {
  }

  lemma HoldSplits(clk: bool, data: seq<bool>, t: nat)
    requires data != [] && InTime(t, Hold(clk, data))
    ensures Hold(clk, data) == [Level(clk, data[0])] + Hold(clk, data[1..])
    ensures InTime(t, [Level(clk, data[0])]) && InTime(t + 1, Hold(clk, data[1..]))
    ensures InTime(t, [Level(clk, data[0])] + Hold(clk, data[1..]))
  {
  }

  lemma {:induction false} HoldClocks(s: State, clk: bool, data: seq<bool>, t: nat)
    requires s.Valid() && InTime(t, Hold(clk, data)) && (clk || s.lastClk == Some(false))
    ensures Clocks(s, Hold(clk, data), t) == 0
    ensures Drive(s, Hold(clk, data), t).0.lastClk == if data == [] then s.lastClk else Some(clk)
    decreases |data|
  {
    hide *;
    var ls := Hold(clk, data);
    if data == [] {
      ClocksNone(s, ls, t);
    } else {
      HoldSplits(clk, data, t);
      var first, rest := [Level(clk, data[0])], Hold(clk, data[1..]);
      InTimeOne(first[0], t);
      NoFall(s, clk, t);
      ClocksOne(s, first[0], t);
      ClocksConcat(s, first, rest, t);
      DriveConcat(s, first, rest, t);
      HoldClocks(Drive(s, first, t).0, clk, data[1..], t + 1);
    }
  }

  lemma InTimeTwo(t: nat, a: Levels, b: Levels)
    requires InTime(t, a + b)
    ensures InTime(t, a) && InTime(t + |a|, b)
  {
  }

  /** A bit clocks once if its fall is accepted, and otherwise not at all. */
  lemma BitClocks(s: State, bit: bool, shape: BitShape, t: nat)
    requires s.Valid() && InTime(t, BitWave(bit, shape)) && t < 0x1_0000_0000_0000_0000
    ensures Clocks(s, BitWave(bit, shape), t) == if Accepts(s, false, t) then 1 else 0
  {
    hide *;
    var fall, lo, hi := [Level(false, bit)], Hold(false, shape.lo), Hold(true, shape.hi);
    BitWaveSplit(bit, shape);
    InTimeTwo(t, fall, lo + hi);
    InTimeTwo(t + 1, lo, hi);
    ClocksOne(s, fall[0], t);
    ClocksConcat(s, fall, lo + hi, t);
    var s1 := Drive(s, fall, t).0;
    HoldClocks(s1, false, shape.lo, t + 1);
    ClocksConcat(s1, lo, hi, t + 1);
    HoldClocks(Drive(s1, lo, t + 1).0, true, shape.hi, t + 1 + |lo|);
  }

  /** Bits clock at most once each, and the first not at all if its fall is not accepted. */
  lemma {:induction false} BitsClocks(s: State, bits: Gf2.Bits, shapes: seq<BitShape>, t: nat)
    requires s.Valid() && |bits| == |shapes| && InTime(t, BitsWave(bits, shapes)) && t < 0x1_0000_0000_0000_0000
    ensures Clocks(s, BitsWave(bits, shapes), t) <= |bits|
    ensures bits != [] && !Accepts(s, false, t) ==> Clocks(s, BitsWave(bits, shapes), t) < |bits|
    decreases |bits|
  {
    hide *;
    if bits == [] {
      BitsWaveNothing(bits, shapes);
      ClocksNone(s, [], t);
    } else {
      BitsWaveUnfold(bits, shapes);
      var first, rest := BitWave(bits[0], shapes[0]), BitsWave(bits[1..], shapes[1..]);
      InTimeTwo(t, first, rest);
      InTimeBound(t + |first|, rest);
      BitClocks(s, bits[0], shapes[0], t);
      ClocksConcat(s, first, rest, t);
      BitsClocks(Drive(s, first, t).0, bits[1..], shapes[1..], t + |first|);
    }
  }

  lemma InTimeBound(t: nat, ls: Levels)
    requires InTime(t, ls)
    ensures t < 0x1_0000_0000_0000_0000
  {
  }

  // ------------------------------------------------------------ a lost start bit

  /** At rest, a gap that reads as a glitch loses the fall after it. */
  lemma ShortGapRefuses(s: State, t: nat, high: nat)
    requires Resting(s, t, high) && high % 0x1_0000_0000 < 4
    ensures !Accepts(s, false, t)
  {
  }

  lemma AtFrameClocks(s: State, b: bv8, shape: FrameShape, t: nat)
    requires s.Valid() && shape.Ok(AT_BIT_COUNT) && InTime(t, AtFrameWave(b, shape))
    ensures Clocks(s, AtFrameWave(b, shape), t) <= 11
  {
    hide *;
    BitCounts();
    OkFrame(shape, AT_BIT_COUNT);
    var quiet, wave := Hold(true, shape.idle), BitsWave(WordBits(PackAtFrame(b), AT_BIT_COUNT), shape.bits);
    AtWaveParts(b, shape, t);
    HoldClocks(s, true, shape.idle, t);
    ClocksConcat(s, quiet, wave, t);
    InTimeBound(t + |quiet|, wave);
    BitsClocks(Drive(s, quiet, t).0, WordBits(PackAtFrame(b), AT_BIT_COUNT), shape.bits, t + |quiet|);
  }

  lemma AtStartLost(s: State, b: bv8, shape: FrameShape, t: nat, high: nat)
    requires s.Valid() && shape.Ok(AT_BIT_COUNT) && InTime(t, AtFrameWave(b, shape))
    requires Resting(s, t, high) && (high + |shape.idle|) % 0x1_0000_0000 < 4
    ensures Clocks(s, AtFrameWave(b, shape), t) <= 10
  {
    hide *;
    BitCounts();
    OkFrame(shape, AT_BIT_COUNT);
    var quiet, wave := Hold(true, shape.idle), BitsWave(WordBits(PackAtFrame(b), AT_BIT_COUNT), shape.bits);
    AtWaveParts(b, shape, t);
    RestingMeans(s, t, high);
    HoldClocks(s, true, shape.idle, t);
    SteadyRun(s, [], true, s.lastEdgeUs, shape.idle, t);
    ClocksConcat(s, quiet, wave, t);
    InTimeBound(t + |quiet|, wave);
    var s1 := Drive(s, quiet, t).0;
    HoldingRests(s1, s.lastEdgeUs, t + |quiet|);
    ShortGapRefuses(s1, t + |quiet|, high + |shape.idle|);
    BitsClocks(s1, WordBits(PackAtFrame(b), AT_BIT_COUNT), shape.bits, t + |quiet|);
  }

  lemma {:induction false} AtWaveClocks(s: State, bytes: seq<bv8>, shapes: seq<FrameShape>, t: nat)
    requires s.Valid() && |bytes| == |shapes| && AllOk(shapes, AT_BIT_COUNT) && InTime(t, AtWave(bytes, shapes))
    ensures Clocks(s, AtWave(bytes, shapes), t) <= 11 * |bytes|
    decreases |bytes|
  {
    if bytes == [] {
      ClocksNone(s, AtWave(bytes, shapes), t);
    } else {
      hide *;
      AtWaveUnfold(bytes, shapes);
      var first, rest := AtFrameWave(bytes[0], shapes[0]), AtWave(bytes[1..], shapes[1..]);
      InTimeTwo(t, first, rest);
      AtFrameClocks(s, bytes[0], shapes[0], t);
      ClocksConcat(s, first, rest, t);
      AtWaveClocks(Drive(s, first, t).0, bytes[1..], shapes[1..], t + |first|);
    }
  }

  /** A gap that reads as a glitch costs the wave a clocking edge. */
  lemma {:induction false} AtWaveLoses(s: State, bytes: seq<bv8>, shapes: seq<FrameShape>, t: nat, high: nat)
    requires s.Valid() && |bytes| == |shapes| && AllOk(shapes, AT_BIT_COUNT) && InTime(t, AtWave(bytes, shapes))
    requires Resting(s, t, high) && !AtGapsOk(high, shapes)
    ensures Clocks(s, AtWave(bytes, shapes), t) < 11 * |bytes|
    decreases |bytes|
  {
    hide *;
    AtGapsSome(high, shapes);
    AtWaveUnfold(bytes, shapes);
    AtGapsUnfold(high, shapes);
    var shape, next := shapes[0], shapes[0].LastHigh();
    var first, rest := AtFrameWave(bytes[0], shape), AtWave(bytes[1..], shapes[1..]);
    InTimeTwo(t, first, rest);
    ClocksConcat(s, first, rest, t);
    var (s1, f) := Drive(s, first, t);
    if (high + |shape.idle|) % 0x1_0000_0000 < 4 {
      AtStartLost(s, bytes[0], shape, t, high);
      AtWaveClocks(s1, bytes[1..], shapes[1..], t + |first|);
    } else {
      AtFrameClocks(s, bytes[0], shape, t);
      AtFrameRun(s, bytes[0], shape, t, high);
      CleanAtMeans(s1, f, bytes[0], t + |first|, next);
      AtWaveLoses(s1, bytes[1..], shapes[1..], t + |first|, next);
    }
  }

  lemma AtGapsSome(high: nat, shapes: seq<FrameShape>)
    requires !AtGapsOk(high, shapes)
    ensures shapes != []
  {
  }

  lemma XtFrameClocks(s: State, b: bv8, shape: FrameShape, t: nat)
    requires s.Valid() && shape.Ok(XT_BIT_COUNT) && InTime(t, XtFrameWave(b, shape))
    ensures Clocks(s, XtFrameWave(b, shape), t) <= 9
    ensures t < 0x1_0000_0000_0000_0000
    ensures !Accepts(s, false, t) ==> Clocks(s, XtFrameWave(b, shape), t) <= 8
  {
    hide *;
    BitCounts();
    OkFrame(shape, XT_BIT_COUNT);
    var wave, quiet := BitsWave(WordBits(PackXtFrame(b), XT_BIT_COUNT), shape.bits), Hold(true, shape.idle);
    XtWaveParts(b, shape, t);
    InTimeBound(t, wave);
    BitsClocks(s, WordBits(PackXtFrame(b), XT_BIT_COUNT), shape.bits, t);
    ClocksConcat(s, wave, quiet, t);
    HoldClocks(Drive(s, wave, t).0, true, shape.idle, t + |wave|);
  }

  /** The first frame of an XT wave clocks at most nine times, and eight if its start bit is
      lost. */
  lemma XtFirstClocks(s: State, bytes: seq<bv8>, shapes: seq<FrameShape>, t: nat)
    requires s.Valid() && |bytes| == |shapes| > 0 && AllOk(shapes, XT_BIT_COUNT)
    requires InTime(t, XtWave(bytes, shapes))
    ensures AllOk(shapes[1..], XT_BIT_COUNT) && shapes[0].Ok(XT_BIT_COUNT) && t < 0x1_0000_0000_0000_0000
    ensures var first, rest := XtFrameWave(bytes[0], shapes[0]), XtWave(bytes[1..], shapes[1..]);
            InTime(t, first) && InTime(t + |first|, rest)
            && Clocks(s, XtWave(bytes, shapes), t)
               <= (if Accepts(s, false, t) then 9 else 8) + Clocks(Drive(s, first, t).0, rest, t + |first|)
  {
    hide *;
    XtWaveUnfold(bytes, shapes);
    var first, rest := XtFrameWave(bytes[0], shapes[0]), XtWave(bytes[1..], shapes[1..]);
    InTimeTwo(t, first, rest);
    XtFrameClocks(s, bytes[0], shapes[0], t);
    ClocksConcat(s, first, rest, t);
  }

  lemma {:induction false} XtWaveClocks(s: State, bytes: seq<bv8>, shapes: seq<FrameShape>, t: nat)
    requires s.Valid() && |bytes| == |shapes| && AllOk(shapes, XT_BIT_COUNT) && InTime(t, XtWave(bytes, shapes))
    ensures Clocks(s, XtWave(bytes, shapes), t) <= 9 * |bytes|
    decreases |bytes|
  {
    if bytes == [] {
      ClocksNone(s, XtWave(bytes, shapes), t);
    } else {
      hide *;
      XtFirstClocks(s, bytes, shapes, t);
      var first := XtFrameWave(bytes[0], shapes[0]);
      XtWaveClocks(Drive(s, first, t).0, bytes[1..], shapes[1..], t + |first|);
    }
  }

  lemma {:induction false} XtWaveLoses(s: State, bytes: seq<bv8>, shapes: seq<FrameShape>, t: nat, high: nat)
    requires s.Valid() && |bytes| == |shapes| && AllOk(shapes, XT_BIT_COUNT) && AllFlush(shapes)
    requires InTime(t, XtWave(bytes, shapes)) && Resting(s, t, high) && !XtGapsOk(high, shapes)
    ensures Clocks(s, XtWave(bytes, shapes), t) < 9 * |bytes|
    decreases |bytes|
  {
    hide *;
    XtGapsSome(high, shapes);
    XtGapsUnfold(high, shapes);
    AllFlushMeans(shapes);
    XtFirstClocks(s, bytes, shapes, t);
    var first := XtFrameWave(bytes[0], shapes[0]);
    var s1 := Drive(s, first, t).0;
    if high % 0x1_0000_0000 < 4 {
      ShortGapRefuses(s, t, high);
      XtWaveClocks(s1, bytes[1..], shapes[1..], t + |first|);
    } else {
      RestingMeans(s, t, high);
      XtFrameRun(s, bytes[0], shapes[0], t);
      XtWaveLoses(s1, bytes[1..], shapes[1..], t + |first|, shapes[0].LastHigh() + |shapes[0].idle|);
    }
  }

  lemma XtGapsSome(high: nat, shapes: seq<FrameShape>)
    requires !XtGapsOk(high, shapes)
    ensures shapes != []
  {
  }

  // ------------------------------------------------------------ frames cost edges

  /** The bits a frame of each valid kind has. */
  function BitsOf(kind: FrameKind): nat {
    match kind
    case At => 11
    case Xt => 9
    case Invalid => 0
  }

  lemma FrameCost(g: Group)
    requires 0 < |g| <= AT_BIT_COUNT
    ensures |g| >= BitsOf(FrameOf(g).kind)
  {
  }

  ghost predicate AllKind(fs: seq<Ps2Frame>, kind: FrameKind) {
    forall i :: 0 <= i < |fs| ==> fs[i].kind == kind
  }

  lemma {:induction false} FramesCost(fs: seq<Ps2Frame>, gs: seq<Group>, kind: FrameKind)
    requires forall i :: 0 <= i < |gs| ==> 0 < |gs[i]| <= AT_BIT_COUNT
    requires ShapesOf(fs) == FramesOf(gs) && AllKind(fs, kind)
    ensures |Concat(gs)| >= BitsOf(kind) * |fs|
    decreases |fs|
  {
    hide FrameOf, ShapeOf, BitsOf;
    if fs != [] && gs != [] {
      assert ShapesOf(fs)[0] == ShapeOf(fs[0]) && FramesOf(gs)[0] == FrameOf(gs[0]);
      assert ShapesOf(fs)[1..] == ShapesOf(fs[1..]) && FramesOf(gs)[1..] == FramesOf(gs[1..]);
      KindOf(fs[0]);
      FrameCost(gs[0]);
      FramesCost(fs[1..], gs[1..], kind);
    }
  }

  lemma KindOf(f: Ps2Frame)
    ensures ShapeOf(f).kind == f.kind
  {
  }

  lemma {:induction false} TimedPaced(ls: Levels, prev: nat, t: nat)
    requires InTime(t, ls) && prev <= t <= prev + 1 && prev < 0x1_0000_0000_0000_0000
    ensures Paced(prev, Timed(ls, t))
    decreases |ls|
  {
    if ls != [] {
      assert Timed(ls, t)[1..] == Timed(ls[1..], t + 1);
      TimedPaced(ls[1..], t, t + 1);
    }
  }

  lemma IdleInFlight()
    ensures InFlight(InitState, []) && Chain([])
  {
  }

  /** From power-up, `n` frames of one kind take at least `n` times as many clocking edges as
      such a frame has bits. */
  lemma FramesTakeClocks(ls: Levels, t: nat, kind: FrameKind)
    requires InTime(t, ls) && AllKind(Drive(InitState, ls, t).1, kind)
    ensures InitState.Valid()
    ensures Clocks(InitState, ls, t) >= BitsOf(kind) * |Drive(InitState, ls, t).1|
  {
    IdleInFlight();
    var xs := Timed(ls, t);
    InTimeBound(t, ls);
    var es, now := Edges(InitState, xs), Now(t, xs);
    var gs, open := Cut([], es, now), Open([], es, now);
    TimedPaced(ls, t, t);
    FreshIdle(t);
    hide InFlight, Chain, Ordered, IsSegmentation, Cut, Open, Edges, Run, Fresh, AllKind, BitsOf, InitState;
    EdgesInOrder(InitState, t, xs);
    RunRefines(InitState, [], t, xs);
    assert [] + es == es;
    CutIsSegmentation([], es, now);
    SegmentationCovers(gs, open, es, now);
    FramesCost(Run(InitState, xs).1, gs, kind);
  }

  lemma FreshIdle(t: Micros)
    ensures Fresh([], t)
  {
  }

  lemma DecodedKind(fs: seq<Ps2Frame>, kind: FrameKind, bytes: seq<bv8>)
    requires Decoded(fs, kind, bytes)
    ensures |fs| == |bytes| && AllKind(fs, kind)
  {
  }

  // ------------------------------------------------------------ the exact round trip

  /** From `Framer::new`, an AT wave with legal bit timing comes back as exactly its bytes if
      and only if every gap before a start bit, truncated to 32 bits, is at least the glitch
      threshold. */
  lemma AtRoundTripIff(lead: seq<bool>, bytes: seq<bv8>, shapes: seq<FrameShape>, t: nat)
    requires |bytes| == |shapes| && AllOk(shapes, AT_BIT_COUNT)
    requires lead != [] && InTime(t, Hold(true, lead) + AtWave(bytes, shapes))
    ensures Decoded(Drive(InitState, Hold(true, lead) + AtWave(bytes, shapes), t).1, At, bytes)
            <==> AtGapsOk(t + |lead|, shapes)
  {
    assert BitsOf(At) == 11;
    hide *;
    var quiet, wave := Hold(true, lead), AtWave(bytes, shapes);
    if AtGapsOk(t + |lead|, shapes) {
      AtRoundTrip(lead, bytes, shapes, t);
    } else {
      var s1 := AfterLead(lead, wave, t);
      AtWaveLoses(s1, bytes, shapes, t + |lead|, t + |lead|);
      TooFewClocks(quiet + wave, bytes, t, At);
    }
  }

  /** The same for XT waves that leave each frame time to be flushed. */
  lemma XtRoundTripIff(lead: seq<bool>, bytes: seq<bv8>, shapes: seq<FrameShape>, t: nat)
    requires |bytes| == |shapes| && AllOk(shapes, XT_BIT_COUNT) && AllFlush(shapes)
    requires lead != [] && InTime(t, Hold(true, lead) + XtWave(bytes, shapes))
    ensures Decoded(Drive(InitState, Hold(true, lead) + XtWave(bytes, shapes), t).1, Xt, bytes)
            <==> XtGapsOk(t + |lead|, shapes)
  {
    assert BitsOf(Xt) == 9;
    hide *;
    var quiet, wave := Hold(true, lead), XtWave(bytes, shapes);
    if XtGapsOk(t + |lead|, shapes) {
      XtRoundTrip(lead, bytes, shapes, t);
    } else {
      var s1 := AfterLead(lead, wave, t);
      XtWaveLoses(s1, bytes, shapes, t + |lead|, t + |lead|);
      TooFewClocks(quiet + wave, bytes, t, Xt);
    }
  }

  /** The lead-in clocks nothing and leaves the framer at rest. */
  lemma AfterLead(lead: seq<bool>, wave: Levels, t: nat) returns (s1: State)
    requires lead != [] && InTime(t, Hold(true, lead) + wave)
    ensures InitState.Valid() && s1.Valid() && InTime(t + |lead|, wave)
    ensures Resting(s1, t + |lead|, t + |lead|)
    ensures Clocks(InitState, Hold(true, lead) + wave, t) == Clocks(s1, wave, t + |lead|)
  {
    hide *;
    var quiet := Hold(true, lead);
    InTimeTwo(t, quiet, wave);
    InTimeBound(t + |quiet|, wave);
    LeadRun(lead, t);
    s1 := Drive(InitState, quiet, t).0;
    HoldingRests(s1, 0, t + |lead|);
    HoldClocks(InitState, true, lead, t);
    ClocksConcat(InitState, quiet, wave, t);
  }

  lemma TooFewClocks(ls: Levels, bytes: seq<bv8>, t: nat, kind: FrameKind)
    requires InTime(t, ls) && InitState.Valid() && Clocks(InitState, ls, t) < BitsOf(kind) * |bytes|
    ensures !Decoded(Drive(InitState, ls, t).1, kind, bytes)
  {
    hide *;
    if Decoded(Drive(InitState, ls, t).1, kind, bytes) {
      DecodedKind(Drive(InitState, ls, t).1, kind, bytes);
      FramesTakeClocks(ls, t, kind);
      assert false;
    }
  }
}
