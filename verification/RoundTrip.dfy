/** Driving packed words onto the wire and framing what is sampled gives the bytes back,
    whatever the timing of each half bit and whatever DATA does away from the falling
    edges (packer.rs against framer.rs; the waveform is that of the crate's own
    round-trip tests, with the two half-bit lengths left free). */
module RoundTrip {
  import opened Wrappers
  import Gf2
  import opened Framer
  import opened Segmentation
  import opened FramerRefinement
  import opened Packer

  datatype Level = Level(clk: bool, data: bool)

  type Levels = seq<Level>

  /** One sample per microsecond from time `t`. */
  function Timed(ls: Levels, t: nat): (xs: seq<Sample>)
    requires t + |ls| < 0x1_0000_0000_0000_0000
    ensures |xs| == |ls|
  {
    seq(|ls|, i requires 0 <= i < |ls| => Sample(ls[i].clk, ls[i].data, t + i))
  }

  predicate InTime(t: nat, ls: Levels) {
    t + |ls| < 0x1_0000_0000_0000_0000
  }

  /** CLK held at a level while DATA wanders. */
  function Hold(clk: bool, data: seq<bool>): (ls: Levels)
    ensures |ls| == |data|
  {
    seq(|data|, i requires 0 <= i < |data| => Level(clk, data[i]))
  }

  /** How one bit is stretched: DATA after the falling edge while CLK is low, then DATA
      while CLK is high; the lengths are the half-bit times. */
  datatype BitShape = BitShape(lo: seq<bool>, hi: seq<bool>) {
    predicate Ok() {
      |hi| >= GLITCH_THRESHOLD_US && 1 + |lo| + |hi| < IDLE_TIMEOUT_US
    }

    function Length(): nat { 1 + |lo| + |hi| }
  }

  function BitWave(bit: bool, shape: BitShape): (ls: Levels)
    ensures |ls| == shape.Length()
  {
    [Level(false, bit)] + Hold(false, shape.lo) + Hold(true, shape.hi)
  }

  function BitsWave(bits: Gf2.Bits, shapes: seq<BitShape>): (ls: Levels)
    requires |bits| == |shapes|
  {
    if bits == [] then [] else BitWave(bits[0], shapes[0]) + BitsWave(bits[1..], shapes[1..])
  }

  // ------------------------------------------------------------ running a wave

  lemma {:induction false} RunConcat(s: State, xs: seq<Sample>, ys: seq<Sample>)
    requires s.Valid()
    ensures Run(s, xs + ys).0 == Run(Run(s, xs).0, ys).0
    ensures Run(s, xs + ys).1 == Run(s, xs).1 + Run(Run(s, xs).0, ys).1
    decreases |xs|
  {
    hide *;
    if xs == [] {
      assert xs + ys == ys;
      NoEdges(s);
      NoFramesBefore(Run(s, ys).1);
    } else {
      var (s', f) := Step(s, xs[0].clk, xs[0].data, xs[0].t);
      assert (xs + ys)[0] == xs[0] && (xs + ys)[1..] == xs[1..] + ys;
      RunUnfold(s, xs);
      RunUnfold(s, xs + ys);
      RunConcat(s', xs[1..], ys);
      AssocFrames(Frames(f), Run(s', xs[1..]).1, Run(Run(s', xs[1..]).0, ys).1);
    }
  }

  lemma AssocFrames(a: seq<Ps2Frame>, b: seq<Ps2Frame>, c: seq<Ps2Frame>)
    ensures a + (b + c) == (a + b) + c
  {
  }

  /** The state after a wave, and the frames it produces. */
  function Drive(s: State, ls: Levels, t: nat): (r: (State, seq<Ps2Frame>))
    requires s.Valid() && InTime(t, ls)
    ensures r.0.Valid()
  {
    Run(s, Timed(ls, t))
  }

  lemma DriveConcat(s: State, a: Levels, b: Levels, t: nat)
    requires s.Valid() && InTime(t, a + b)
    ensures Drive(s, a + b, t).0 == Drive(Drive(s, a, t).0, b, t + |a|).0
    ensures Drive(s, a + b, t).1 == Drive(s, a, t).1 + Drive(Drive(s, a, t).0, b, t + |a|).1
  {
    assert Timed(a + b, t) == Timed(a, t) + Timed(b, t + |a|);
    RunConcat(s, Timed(a, t), Timed(b, t + |a|));
  }

  lemma DriveOne(s: State, l: Level, t: nat)
    requires s.Valid() && InTime(t, [l])
    ensures Drive(s, [l], t) == (Step(s, l.clk, l.data, t).0, Frames(Step(s, l.clk, l.data, t).1))
  {
    hide Step;
    var xs := Timed([l], t);
    assert xs == [Sample(l.clk, l.data, t)] && xs[1..] == [];
    RunUnfold(s, xs);
    NoEdges(Step(s, l.clk, l.data, t).0);
    assert Frames(Step(s, l.clk, l.data, t).1) + [] == Frames(Step(s, l.clk, l.data, t).1);
  }

  /** One sample, then the rest. */
  lemma DriveCons(s: State, l: Level, rest: Levels, t: nat)
    requires s.Valid() && InTime(t, [l]) && InTime(t, [l] + rest) && InTime(t + 1, rest)
    ensures var (s', f) := Step(s, l.clk, l.data, t);
            Drive(s, [l] + rest, t).0 == Drive(s', rest, t + 1).0
            && Drive(s, [l] + rest, t).1 == Frames(f) + Drive(s', rest, t + 1).1
  {
    DriveOne(s, l, t);
    DriveConcat(s, [l], rest, t);
    hide *;
  }

  lemma DriveNone(s: State, ls: Levels, t: nat)
    requires s.Valid() && InTime(t, ls) && ls == []
    ensures Drive(s, ls, t) == (s, [])
  {
    hide Step;
    assert Timed(ls, t) == [];
    NoEdges(s);
  }

  // ------------------------------------------------------------ pieces of a wave

  /** Group `g` in flight, CLK last seen at `clk`, last CLK change at `edge`. */
  ghost predicate Holding(s: State, g: Group, clk: bool, edge: Micros) {
    InFlight(s, g) && s.lastClk == Some(clk) && s.lastEdgeUs == edge
  }

  lemma SameRegistersInFlight(s: State, s': State, g: Group)
    requires InFlight(s, g) && SameRegisters(s, s') && s'.Valid()
    ensures InFlight(s', g)
  {
  }

  lemma NotTimedOut(s: State, g: Group, t: Micros)
    requires InFlight(s, g) && Fresh(g, t)
    ensures !TimesOut(s, t)
  {
  }

  lemma SteadyStep(s: State, g: Group, clk: bool, edge: Micros, data: bool, t: Micros)
    requires Holding(s, g, clk, edge) && Fresh(g, t)
    ensures var (s', f) := Step(s, clk, data, t); f == None && Holding(s', g, clk, edge)
  {
    NotTimedOut(s, g, t);
    QuietStep(s, clk, data, t);
    SameRegistersInFlight(s, Step(s, clk, data, t).0, g);
  }

  /** A CLK level that is merely held changes nothing, as long as no timeout is due. */
  lemma {:induction false} SteadyRun(s: State, g: Group, clk: bool, edge: Micros, data: seq<bool>, t: nat)
    requires Holding(s, g, clk, edge) && InTime(t, Hold(clk, data))
    requires g != [] ==> g[|g| - 1].t <= t && t + |data| <= g[|g| - 1].t + IDLE_TIMEOUT_US
    ensures var (s', fs) := Drive(s, Hold(clk, data), t); fs == [] && Holding(s', g, clk, edge)
    decreases |data|
  {
    var ls := Hold(clk, data);
    hide InFlight, Step, Drive;
    ValidInFlight(s, g);
    if data == [] {
      DriveNone(s, ls, t);
    } else {
      assert ls == [Level(clk, data[0])] + Hold(clk, data[1..]);
      SteadyStep(s, g, clk, edge, data[0], t);
      DriveOne(s, Level(clk, data[0]), t);
      DriveConcat(s, [Level(clk, data[0])], Hold(clk, data[1..]), t);
      SteadyRun(Step(s, clk, data[0], t).0, g, clk, edge, data[1..], t + 1);
    }
  }

  /** A rising edge never clocks a bit. */
  lemma RiseStep(s: State, g: Group, edge: Micros, data: bool, t: Micros)
    requires Holding(s, g, false, edge) && Fresh(g, t)
    ensures var (s', f) := Step(s, true, data, t); f == None && Holding(s', g, true, t)
  {
    NotTimedOut(s, g, t);
    QuietStep(s, true, data, t);
    SameRegistersInFlight(s, Step(s, true, data, t).0, g);
  }

  /** Just after an edge at `t` has made the group `g`. */
  ghost predicate Clocked(s: State, f: Option<Ps2Frame>, g: Group, t: Micros) {
    if |g| == AT_BIT_COUNT then Holding(s, [], false, t) && f.Some? && ShapeOf(f.value) == FrameOf(g)
    else Holding(s, g, false, t) && f == None
  }

  /** CLK has been high since `edge` for long enough at time `t`, as the truncated duration
      reads. */
  predicate LongEnough(edge: Micros, t: nat) {
    edge <= t && (t - edge) % 0x1_0000_0000 >= GLITCH_THRESHOLD_US
  }

  /** The falling edge after a long enough high level clocks a bit. */
  lemma FallStep(s: State, g: Group, edge: Micros, data: bool, t: Micros)
    requires Holding(s, g, true, edge) && Fresh(g, t)
    requires LongEnough(edge, t)
    ensures Clocked(Step(s, false, data, t).0, Step(s, false, data, t).1, g + [Edge(t, data)], t)
  {
    NotTimedOut(s, g, t);
    assert Accepts(s, false, t);
    AcceptRefines(s, g, Sample(false, data, t));
    AcceptStep(s, false, data, t);
    KeepsClk(Sampled(s, false, data, t).(lastEdgeUs := t), data, t);
    hide InFlight, FrameOf, ShapeOf, Step, Accepts;
  }

  lemma KeepsClk(s: State, data: bool, t: Micros)
    requires s.Valid()
    ensures OnClkFall(s, data, t).0.lastClk == s.lastClk && OnClkFall(s, data, t).0.lastEdgeUs == s.lastEdgeUs
  {
  }

  /** Ready for the next falling edge at time `t`. */
  ghost predicate Ready(s: State, g: Group, t: nat) {
    t < 0x1_0000_0000_0000_0000 && InFlight(s, g) && Fresh(g, t) && s.lastClk == Some(true)
    && LongEnough(s.lastEdgeUs, t)
  }

  /** After a whole number of bits, up to time `t`, with `g` the group they make and CLK high
      for the last `high` samples. */
  ghost predicate Outcome(s: State, fs: seq<Ps2Frame>, g: Group, t: nat, high: nat) {
    s.lastEdgeUs + high == t
    && if |g| == AT_BIT_COUNT then Ready(s, [], t) && |fs| == 1 && ShapeOf(fs[0]) == FrameOf(g)
       else Ready(s, g, t) && fs == []
  }

  lemma OutcomeMeans(s: State, fs: seq<Ps2Frame>, g: Group, t: nat, high: nat)
    requires Outcome(s, fs, g, t, high)
    ensures s.lastEdgeUs + high == t
    ensures |g| == AT_BIT_COUNT ==> Ready(s, [], t) && |fs| == 1 && ShapeOf(fs[0]) == FrameOf(g)
    ensures |g| != AT_BIT_COUNT ==> Ready(s, g, t) && fs == []
  {
    hide Ready, ShapeOf, FrameOf;
  }

  lemma OutcomeIs(s: State, fs: seq<Ps2Frame>, g: Group, t: nat, high: nat)
    requires s.lastEdgeUs + high == t
    requires |g| == AT_BIT_COUNT ==> Ready(s, [], t) && |fs| == 1 && ShapeOf(fs[0]) == FrameOf(g)
    requires |g| != AT_BIT_COUNT ==> Ready(s, g, t) && fs == []
    ensures Outcome(s, fs, g, t, high)
  {
    hide Ready, ShapeOf, FrameOf;
  }

  /** One bit: it joins the group in flight, and the eleventh completes a frame. */
  lemma BitRun(s: State, g: Group, bit: bool, shape: BitShape, t: nat)
    requires Ready(s, g, t) && shape.Ok() && InTime(t, BitWave(bit, shape))
    ensures var ls := BitWave(bit, shape);
            Outcome(Drive(s, ls, t).0, Drive(s, ls, t).1, g + [Edge(t, bit)], t + shape.Length(), |shape.hi|)
  {
    hide *;
    var fall, rest := [Level(false, bit)], Hold(false, shape.lo) + Hold(true, shape.hi);
    ReadyMeans(s, g, t);
    BitWaveSplit(bit, shape);
    InTimeParts(t, bit, shape);
    FallStep(s, g, s.lastEdgeUs, bit, t);
    DriveOne(s, fall[0], t);
    DriveConcat(s, fall, rest, t);
    FinishBit(Step(s, false, bit, t).0, Step(s, false, bit, t).1, g + [Edge(t, bit)], shape, t);
  }

  /** The two half bits after an edge. */
  lemma FinishBit(s: State, f: Option<Ps2Frame>, g: Group, shape: BitShape, t: nat)
    requires t + shape.Length() < 0x1_0000_0000_0000_0000 && shape.Ok() && s.Valid()
    requires g != [] && g[|g| - 1].t == t && Clocked(s, f, g, t)
    requires InTime(t + 1, Hold(false, shape.lo) + Hold(true, shape.hi))
    ensures var rest := Hold(false, shape.lo) + Hold(true, shape.hi);
            Outcome(Drive(s, rest, t + 1).0, Frames(f) + Drive(s, rest, t + 1).1, g, t + shape.Length(), |shape.hi|)
  {
    hide *;
    OkMeans(shape);
    ClockedMeans(s, f, g, t);
    var h: Group := if |g| == 11 then [] else g;
    HalfBits(s, h, shape, t);
    SingleFrame(f);
    var rest := Hold(false, shape.lo) + Hold(true, shape.hi);
    BitCounts();
    OutcomeIs(Drive(s, rest, t + 1).0, Frames(f) + Drive(s, rest, t + 1).1, g, t + shape.Length(), |shape.hi|);
  }

  lemma BitCounts()
    ensures AT_BIT_COUNT == 11 && XT_BIT_COUNT == 9
  {
  }

  lemma ClockedMeans(s: State, f: Option<Ps2Frame>, g: Group, t: Micros)
    requires Clocked(s, f, g, t)
    ensures |g| == 11 ==> Holding(s, [], false, t) && f.Some? && ShapeOf(f.value) == FrameOf(g)
    ensures |g| != 11 ==> Holding(s, g, false, t) && f == None
  {
    hide Holding, ShapeOf, FrameOf;
  }

  lemma SingleFrame(f: Option<Ps2Frame>)
    ensures Frames(f) + [] == (if f.Some? then [f.value] else [])
  {
  }

  lemma ReadyMeans(s: State, g: Group, t: nat)
    requires Ready(s, g, t)
    ensures s.Valid() && t < 0x1_0000_0000_0000_0000 && Holding(s, g, true, s.lastEdgeUs) && Fresh(g, t)
    ensures LongEnough(s.lastEdgeUs, t)
  {
  }

  lemma OkMeans(shape: BitShape)
    requires shape.Ok()
    ensures shape.Length() < IDLE_TIMEOUT_US && shape.Length() == 1 + |shape.lo| + |shape.hi|
  {
  }

  lemma InTimeParts(t: nat, bit: bool, shape: BitShape)
    requires InTime(t, BitWave(bit, shape))
    ensures t + shape.Length() < 0x1_0000_0000_0000_0000 && InTime(t, [Level(false, bit)])
    ensures InTime(t + 1, Hold(false, shape.lo) + Hold(true, shape.hi))
    ensures InTime(t, [Level(false, bit)] + (Hold(false, shape.lo) + Hold(true, shape.hi)))
  {
  }

  lemma BitWaveSplit(bit: bool, shape: BitShape)
    ensures BitWave(bit, shape) == [Level(false, bit)] + (Hold(false, shape.lo) + Hold(true, shape.hi))
  {
  }

  /** The rest of a bit after its falling edge at `t`. */
  lemma HalfBits(s: State, h: Group, shape: BitShape, t: nat)
    requires t + shape.Length() < 0x1_0000_0000_0000_0000
    requires Holding(s, h, false, t) && shape.Ok() && (h != [] ==> h[|h| - 1].t == t)
    ensures var (s', fs) := Drive(s, Hold(false, shape.lo) + Hold(true, shape.hi), t + 1);
            fs == [] && Ready(s', h, t + shape.Length())
            && s'.lastEdgeUs == t + 1 + |shape.lo|
  {
    var lo, hi := Hold(false, shape.lo), Hold(true, shape.hi);
    var rise := t + 1 + |lo|;
    hide Drive, Step, InFlight;
    ValidInFlight(s, h);
    SteadyRun(s, h, false, t, shape.lo, t + 1);
    DriveConcat(s, lo, hi, t + 1);
    var s1 := Drive(s, lo, t + 1).0;
    ValidInFlight(s1, h);
    assert hi == [Level(true, shape.hi[0])] + Hold(true, shape.hi[1..]);
    RiseStep(s1, h, t, shape.hi[0], rise);
    DriveOne(s1, Level(true, shape.hi[0]), rise);
    DriveConcat(s1, [Level(true, shape.hi[0])], Hold(true, shape.hi[1..]), rise);
    SteadyRun(Step(s1, true, shape.hi[0], rise).0, h, true, rise, shape.hi[1..], rise + 1);
  }

  predicate ShapesOk(shapes: seq<BitShape>) {
    forall i :: 0 <= i < |shapes| ==> shapes[i].Ok()
  }

  /** Several bits: they join the group; if they make eleven, the frame is emitted. */
  lemma {:induction false} BitsRun(s: State, g: Group, bits: Gf2.Bits, shapes: seq<BitShape>, t: nat)
    returns (g': Group)
    requires |bits| == |shapes| && ShapesOk(shapes) && 0 < |bits| && |g| + |bits| <= AT_BIT_COUNT
    requires Ready(s, g, t) && InTime(t, BitsWave(bits, shapes))
    ensures Datas(g') == Datas(g) + bits && |g'| == |g| + |bits|
    ensures g'[|g'| - 1].t + shapes[|shapes| - 1].Length() == t + |BitsWave(bits, shapes)|
    ensures var ls := BitsWave(bits, shapes);
            Outcome(Drive(s, ls, t).0, Drive(s, ls, t).1, g', t + |ls|, |shapes[|shapes| - 1].hi|)
    decreases |bits|
  {
    hide *;
    BitsWaveUnfold(bits, shapes);
    ReadyValid(s, g, t);
    var first, rest := BitWave(bits[0], shapes[0]), BitsWave(bits[1..], shapes[1..]);
    InTimeSplit(t, first, rest);
    ShapesOkMeans(shapes);
    var g1 := g + [Edge(t, bits[0])];
    DatasSnoc(g, Edge(t, bits[0]));
    BitRun(s, g, bits[0], shapes[0], t);
    if |bits| == 1 {
      assert bits == [bits[0]];
      BitsWaveNothing(bits[1..], shapes[1..]);
      assert first + rest == first;
      g' := g1;
    } else {
      DriveConcat(s, first, rest, t);
      var s1 := Drive(s, first, t).0;
      OutcomeMeans(s1, Drive(s, first, t).1, g1, t + |first|, |shapes[0].hi|);
      g' := BitsRun(s1, g1, bits[1..], shapes[1..], t + |first|);
      assert (Datas(g) + [bits[0]]) + bits[1..] == Datas(g) + bits;
      NoFramesBefore(Drive(s1, rest, t + |first|).1);
    }
  }

  lemma ShapesOkMeans(shapes: seq<BitShape>)
    requires ShapesOk(shapes) && shapes != []
    ensures shapes[0].Ok() && ShapesOk(shapes[1..])
  {
  }

  lemma BitsWaveUnfold(bits: Gf2.Bits, shapes: seq<BitShape>)
    requires |bits| == |shapes| > 0
    ensures BitsWave(bits, shapes) == BitWave(bits[0], shapes[0]) + BitsWave(bits[1..], shapes[1..])
  {
  }

  lemma BitsWaveNothing(bits: Gf2.Bits, shapes: seq<BitShape>)
    requires |bits| == |shapes| == 0
    ensures BitsWave(bits, shapes) == []
  {
  }

  lemma ReadyValid(s: State, g: Group, t: nat)
    requires Ready(s, g, t)
    ensures s.Valid()
  {
  }

  // ------------------------------------------------------------ sequences of frames

  /** One frame's timing: the bits, and how long (and with what DATA) CLK idles high before
      an AT frame, or after an XT frame. */
  datatype FrameShape = FrameShape(idle: seq<bool>, bits: seq<BitShape>) {
    predicate Ok(n: nat) {
      |bits| == n && ShapesOk(bits)
    }

    /** How long CLK is high at the end of the last bit. */
    function LastHigh(): nat {
      if bits == [] then 0 else |bits[|bits| - 1].hi|
    }

    /** The last falling edge of nine is more than the timeout before the next one. */
    predicate Flushes() {
      |bits| == XT_BIT_COUNT && bits[8].Length() + |idle| > IDLE_TIMEOUT_US
    }
  }

  predicate AllOk(shapes: seq<FrameShape>, n: nat) {
    forall i :: 0 <= i < |shapes| ==> shapes[i].Ok(n)
  }

  predicate AllFlush(shapes: seq<FrameShape>) {
    forall i :: 0 <= i < |shapes| ==> shapes[i].Flushes()
  }

  function AtFrameWave(b: bv8, shape: FrameShape): Levels
    requires shape.Ok(AT_BIT_COUNT)
  {
    Hold(true, shape.idle) + BitsWave(WordBits(PackAtFrame(b), AT_BIT_COUNT), shape.bits)
  }

  function AtWave(bytes: seq<bv8>, shapes: seq<FrameShape>): Levels
    requires |bytes| == |shapes| && AllOk(shapes, AT_BIT_COUNT)
  {
    if bytes == [] then [] else AtFrameWave(bytes[0], shapes[0]) + AtWave(bytes[1..], shapes[1..])
  }

  function XtFrameWave(b: bv8, shape: FrameShape): Levels
    requires shape.Ok(XT_BIT_COUNT)
  {
    BitsWave(WordBits(PackXtFrame(b), XT_BIT_COUNT), shape.bits) + Hold(true, shape.idle)
  }

  function XtWave(bytes: seq<bv8>, shapes: seq<FrameShape>): Levels
    requires |bytes| == |shapes| && AllOk(shapes, XT_BIT_COUNT)
  {
    if bytes == [] then [] else XtFrameWave(bytes[0], shapes[0]) + XtWave(bytes[1..], shapes[1..])
  }

  /** The frames are these bytes, in order, once each, with clean checks. */
  predicate Decoded(fs: seq<Ps2Frame>, kind: FrameKind, bytes: seq<bv8>) {
    |fs| == |bytes|
    && forall i :: 0 <= i < |fs| ==>
         fs[i].kind == kind && fs[i].data == bytes[i] && fs[i].parityOk && fs[i].framingOk
  }

  lemma DecodedCons(f: seq<Ps2Frame>, fs: seq<Ps2Frame>, kind: FrameKind, bytes: seq<bv8>)
    requires bytes != [] && Decoded(f, kind, [bytes[0]]) && Decoded(fs, kind, bytes[1..])
    ensures Decoded(f + fs, kind, bytes)
  {
  }

  lemma OneDecoded(f: Ps2Frame, g: Group, kind: FrameKind, b: bv8)
    requires 0 < |g| <= AT_BIT_COUNT && ShapeOf(f) == FrameOf(g)
    requires FrameOf(g).kind == kind && FrameOf(g).data == b && FrameOf(g).parityOk && FrameOf(g).framingOk
    ensures Decoded([f], kind, [b])
  {
    hide FrameOf;
  }

  /** Between frames: nothing in flight, CLK high for `high` microseconds. */
  ghost predicate Resting(s: State, t: nat, high: nat) {
    t < 0x1_0000_0000_0000_0000 && Holding(s, [], true, s.lastEdgeUs) && s.lastEdgeUs + high == t
  }

  lemma RestingMeans(s: State, t: nat, high: nat)
    requires Resting(s, t, high)
    ensures t < 0x1_0000_0000_0000_0000
    ensures s.Valid() && Holding(s, [], true, s.lastEdgeUs) && s.lastEdgeUs + high == t
    ensures high % 0x1_0000_0000 >= 4 ==> Ready(s, [], t)
  {
  }

  lemma ReadyRests(s: State, t: nat, high: nat)
    requires Ready(s, [], t) && s.lastEdgeUs + high == t
    ensures Resting(s, t, high)
  {
  }

  lemma AtFrameRun(s: State, b: bv8, shape: FrameShape, t: nat, high: nat)
    requires shape.Ok(AT_BIT_COUNT) && Resting(s, t, high) && InTime(t, AtFrameWave(b, shape))
    requires (high + |shape.idle|) % 0x1_0000_0000 >= GLITCH_THRESHOLD_US
    ensures var ls := AtFrameWave(b, shape);
            CleanAt(Drive(s, ls, t).0, Drive(s, ls, t).1, b, t + |ls|, shape.LastHigh())
  {
    hide *;
    BitCounts();
    OkFrame(shape, AT_BIT_COUNT);
    var bits := WordBits(PackAtFrame(b), AT_BIT_COUNT);
    var quiet, wave := Hold(true, shape.idle), BitsWave(bits, shape.bits);
    AtWaveParts(b, shape, t);
    RestingMeans(s, t, high);
    SteadyRun(s, [], true, s.lastEdgeUs, shape.idle, t);
    DriveConcat(s, quiet, wave, t);
    var s1 := Drive(s, quiet, t).0;
    HoldingReady(s1, s.lastEdgeUs, high + |shape.idle|);
    AtBitsRun(s1, b, shape, t + |quiet|);
    NoFramesBefore(Drive(s1, wave, t + |quiet|).1);
  }

  lemma AtWaveParts(b: bv8, shape: FrameShape, t: nat)
    requires shape.Ok(AT_BIT_COUNT) && InTime(t, AtFrameWave(b, shape))
    ensures var quiet := Hold(true, shape.idle);
            var wave := BitsWave(WordBits(PackAtFrame(b), AT_BIT_COUNT), shape.bits);
            AtFrameWave(b, shape) == quiet + wave && InTime(t, quiet) && InTime(t + |quiet|, wave)
            && t + |quiet| + |wave| < 0x1_0000_0000_0000_0000
  {
    hide WordBits, PackAtFrame, BitsWave, Hold;
  }

  lemma NoFramesBefore(fs: seq<Ps2Frame>)
    ensures [] + fs == fs
  {
  }

  /** The eleven bits of one AT word. */
  lemma AtBitsRun(s: State, b: bv8, shape: FrameShape, t: nat)
    requires shape.Ok(AT_BIT_COUNT) && Ready(s, [], t) && s.Valid()
    requires InTime(t, BitsWave(WordBits(PackAtFrame(b), AT_BIT_COUNT), shape.bits))
    ensures var wave := BitsWave(WordBits(PackAtFrame(b), AT_BIT_COUNT), shape.bits);
            CleanAt(Drive(s, wave, t).0, Drive(s, wave, t).1, b, t + |wave|, shape.LastHigh())
  {
    var bits := WordBits(PackAtFrame(b), AT_BIT_COUNT);
    OkFrame(shape, AT_BIT_COUNT);
    hide *;
    var g := FrameBits(s, bits, shape, t);
    var wave := BitsWave(bits, shape.bits);
    ElevenAreClean(Drive(s, wave, t).0, Drive(s, wave, t).1, g, b, t + |wave|, shape.LastHigh());
  }

  /** The bits of one frame from rest: the group they make. */
  lemma FrameBits(s: State, bits: Gf2.Bits, shape: FrameShape, t: nat) returns (g: Group)
    requires |bits| == |shape.bits| && ShapesOk(shape.bits) && 0 < |bits| <= AT_BIT_COUNT
    requires Ready(s, [], t) && s.Valid() && InTime(t, BitsWave(bits, shape.bits))
    ensures Datas(g) == bits && |g| == |bits|
    ensures g[|g| - 1].t + shape.bits[|bits| - 1].Length() == t + |BitsWave(bits, shape.bits)|
    ensures var ls := BitsWave(bits, shape.bits);
            Outcome(Drive(s, ls, t).0, Drive(s, ls, t).1, g, t + |ls|, shape.LastHigh())
  {
    hide *;
    LastHighOf(shape);
    NoDatas(bits);
    g := BitsRun(s, [], bits, shape.bits, t);
  }

  lemma LastHighOf(shape: FrameShape)
    requires shape.bits != []
    ensures shape.LastHigh() == |shape.bits[|shape.bits| - 1].hi|
  {
  }

  /** At rest at time `t`, having produced one clean AT frame for `b`. */
  ghost predicate CleanAt(s: State, fs: seq<Ps2Frame>, b: bv8, t: nat, high: nat) {
    Resting(s, t, high) && Decoded(fs, At, [b])
  }

  lemma ElevenAreClean(s: State, fs: seq<Ps2Frame>, g: Group, b: bv8, t: nat, high: nat)
    requires |g| == AT_BIT_COUNT && Outcome(s, fs, g, t, high)
    requires Datas(g) == WordBits(PackAtFrame(b), AT_BIT_COUNT)
    ensures CleanAt(s, fs, b, t, high)
  {
    hide Ready, Resting, Decoded, FrameOf, ShapeOf, Datas, WordBits, PackAtFrame;
    OutcomeMeans(s, fs, g, t, high);
    AtWordDecodes(b, g);
    OneDecoded(fs[0], g, At, b);
    SingletonFrames(fs);
    ReadyRests(s, t, high);
  }

  lemma CleanAtMeans(s: State, fs: seq<Ps2Frame>, b: bv8, t: nat, high: nat)
    requires CleanAt(s, fs, b, t, high)
    ensures Resting(s, t, high) && Decoded(fs, At, [b])
  {
    hide Resting, Decoded;
  }

  lemma SingletonFrames(fs: seq<Ps2Frame>)
    requires |fs| == 1
    ensures fs == [fs[0]]
  {
  }

  lemma InTimeSplit(t: nat, a: Levels, b: Levels)
    requires InTime(t, a + b)
    ensures InTime(t, a) && InTime(t + |a|, b) && t + |a| + |b| < 0x1_0000_0000_0000_0000
  {
  }

  lemma OkFrame(shape: FrameShape, n: nat)
    requires shape.Ok(n)
    ensures |shape.bits| == n && ShapesOk(shape.bits)
  {
  }

  lemma HoldingRests(s: State, edge: Micros, t: nat)
    requires Holding(s, [], true, edge) && edge <= t < 0x1_0000_0000_0000_0000
    ensures Resting(s, t, t - edge) && s.lastEdgeUs == edge
  {
  }

  lemma HoldingReady(s: State, edge: Micros, high: nat)
    requires Holding(s, [], true, edge) && edge + high < 0x1_0000_0000_0000_0000
    requires high % 0x1_0000_0000 >= GLITCH_THRESHOLD_US
    ensures Ready(s, [], edge + high)
  {
  }

  lemma NoDatas(bits: Gf2.Bits)
    ensures Datas([]) + bits == bits
  {
  }

  /** Every gap before a start bit reads as long enough: CLK has been high for `high` when the
      first frame's own idle time begins. */
  predicate AtGapsOk(high: nat, shapes: seq<FrameShape>)
    decreases |shapes|
  {
    shapes != [] ==>
      (high + |shapes[0].idle|) % 0x1_0000_0000 >= GLITCH_THRESHOLD_US
      && AtGapsOk(shapes[0].LastHigh(), shapes[1..])
  }

  /** Any bytes, with any timing, come back from an AT wave. */
  lemma {:induction false} AtRun(s: State, bytes: seq<bv8>, shapes: seq<FrameShape>, t: nat, high: nat)
    requires |bytes| == |shapes| && AllOk(shapes, AT_BIT_COUNT)
    requires Resting(s, t, high) && s.Valid() && InTime(t, AtWave(bytes, shapes)) && AtGapsOk(high, shapes)
    ensures Decoded(Drive(s, AtWave(bytes, shapes), t).1, At, bytes)
    decreases |bytes|
  {
    hide *;
    if bytes == [] {
      RestingMeans(s, t, high);
      NothingDecoded(s, bytes, shapes, t);
    } else {
      AtWaveUnfold(bytes, shapes);
      AtGapsUnfold(high, shapes);
      var first, rest := AtFrameWave(bytes[0], shapes[0]), AtWave(bytes[1..], shapes[1..]);
      InTimeSplit(t, first, rest);
      AtFrameRun(s, bytes[0], shapes[0], t, high);
      DriveConcat(s, first, rest, t);
      var (s1, f) := Drive(s, first, t);
      CleanAtMeans(s1, f, bytes[0], t + |first|, shapes[0].LastHigh());
      AtRun(s1, bytes[1..], shapes[1..], t + |first|, shapes[0].LastHigh());
      DecodedCons(f, Drive(s1, rest, t + |first|).1, At, bytes);
    }
  }

  lemma NothingDecoded(s: State, bytes: seq<bv8>, shapes: seq<FrameShape>, t: nat)
    requires bytes == [] && shapes == [] && s.Valid() && t < 0x1_0000_0000_0000_0000
    ensures AllOk(shapes, AT_BIT_COUNT) && InTime(t, AtWave(bytes, shapes))
    ensures Decoded(Drive(s, AtWave(bytes, shapes), t).1, At, bytes)
    ensures AllOk(shapes, XT_BIT_COUNT) && InTime(t, XtWave(bytes, shapes))
    ensures Decoded(Drive(s, XtWave(bytes, shapes), t).1, Xt, bytes)
  {
    hide Drive;
    DriveNone(s, [], t);
  }

  lemma AtWaveUnfold(bytes: seq<bv8>, shapes: seq<FrameShape>)
    requires |bytes| == |shapes| > 0 && AllOk(shapes, AT_BIT_COUNT)
    ensures shapes[0].Ok(AT_BIT_COUNT) && AllOk(shapes[1..], AT_BIT_COUNT)
    ensures AtWave(bytes, shapes) == AtFrameWave(bytes[0], shapes[0]) + AtWave(bytes[1..], shapes[1..])
  {
    hide AtFrameWave;
  }

  lemma AtGapsUnfold(high: nat, shapes: seq<FrameShape>)
    requires shapes != []
    ensures AtGapsOk(high, shapes) <==>
              (high + |shapes[0].idle|) % 0x1_0000_0000 >= 4 && AtGapsOk(shapes[0].LastHigh(), shapes[1..])
    ensures GLITCH_THRESHOLD_US == 4
  {
  }

  /** The high gap after nine bits flushes the frame. */
  lemma GapRun(s: State, g: Group, tail: seq<bool>, t: nat)
    requires Ready(s, g, t) && |g| == XT_BIT_COUNT && InTime(t, Hold(true, tail))
    requires g[|g| - 1].t + IDLE_TIMEOUT_US < t + |tail|
    ensures var (s', fs) := Drive(s, Hold(true, tail), t);
            Holding(s', [], true, s.lastEdgeUs) && |fs| == 1 && ShapeOf(fs[0]) == FrameOf(g)
  {
    hide *;
    ReadyMeans(s, g, t);
    FreshAround(s, g, t);
    var n := g[|g| - 1].t + IDLE_TIMEOUT_US - t;
    HoldSplit(true, tail, n);
    var b, c := [Level(true, tail[n])], Hold(true, tail[n + 1..]);
    InTimeSplit(t, Hold(true, tail[..n]), b + c);
    InTimeSplit(t + n, b, c);
    SteadyRun(s, g, true, s.lastEdgeUs, tail[..n], t);
    DriveConcat(s, Hold(true, tail[..n]), b + c, t);
    FlushRun(Drive(s, Hold(true, tail[..n]), t).0, g, s.lastEdgeUs, tail[n], tail[n + 1..], t + n);
  }

  lemma HoldSplit(clk: bool, data: seq<bool>, n: nat)
    requires n < |data|
    ensures Hold(clk, data) == Hold(clk, data[..n]) + ([Level(clk, data[n])] + Hold(clk, data[n + 1..]))
  {
  }

  /** The sample at which the timeout falls due, and the high samples after it. */
  lemma FlushRun(s: State, g: Group, edge: Micros, data: bool, tail: seq<bool>, t: nat)
    requires Holding(s, g, true, edge) && g != [] && t == g[|g| - 1].t + IDLE_TIMEOUT_US
    requires InTime(t, [Level(true, data)] + Hold(true, tail))
    ensures var (s', fs) := Drive(s, [Level(true, data)] + Hold(true, tail), t);
            Holding(s', [], true, edge) && |fs| == 1 && ShapeOf(fs[0]) == FrameOf(g)
  {
    hide *;
    HoldingValid(s, g, true, edge);
    InTimeSplit(t, [Level(true, data)], Hold(true, tail));
    FlushStep(s, g, edge, data, t);
    DriveCons(s, Level(true, data), Hold(true, tail), t);
    var (s1, f) := Step(s, true, data, t);
    SteadyRun(s1, [], true, edge, tail, t + 1);
    SingleFrame(f);
  }

  lemma HoldingValid(s: State, g: Group, clk: bool, edge: Micros)
    requires Holding(s, g, clk, edge)
    ensures s.Valid()
  {
  }

  lemma FreshAround(s: State, g: Group, t: nat)
    requires Ready(s, g, t) && |g| == XT_BIT_COUNT
    ensures |g| > 0 && g[|g| - 1].t <= t < g[|g| - 1].t + IDLE_TIMEOUT_US
  {
  }

  lemma FlushStep(s: State, g: Group, edge: Micros, data: bool, t: Micros)
    requires Holding(s, g, true, edge) && g != [] && t == g[|g| - 1].t + IDLE_TIMEOUT_US
    ensures var (s', f) := Step(s, true, data, t);
            Holding(s', [], true, edge) && f.Some? && ShapeOf(f.value) == FrameOf(g)
  {
    hide EmitOnTimeout, FrameOf, ShapeOf;
    BuiltFromGroup(s, g);
    TimeoutStep(s, true, data, t);
  }

  lemma XtFrameRun(s: State, b: bv8, shape: FrameShape, t: nat)
    requires shape.Ok(XT_BIT_COUNT) && Ready(s, [], t) && s.Valid() && InTime(t, XtFrameWave(b, shape))
    requires shape.Flushes()
    ensures var ls := XtFrameWave(b, shape);
            Resting(Drive(s, ls, t).0, t + |ls|, shape.LastHigh() + |shape.idle|)
            && Decoded(Drive(s, ls, t).1, Xt, [b])
  {
    hide *;
    BitCounts();
    OkFrame(shape, XT_BIT_COUNT);
    var wave, quiet := BitsWave(WordBits(PackXtFrame(b), XT_BIT_COUNT), shape.bits), Hold(true, shape.idle);
    XtWaveParts(b, shape, t);
    var g := XtBitsRun(s, b, shape, t);
    DriveConcat(s, wave, quiet, t);
    var s1 := Drive(s, wave, t).0;
    XtGapRun(s1, g, b, shape.idle, t + |wave|, shape.LastHigh());
    NoFramesBefore(Drive(s1, quiet, t + |wave|).1);
  }

  /** The nine bits of one XT word, with the line due to stay quiet long enough. */
  lemma XtBitsRun(s: State, b: bv8, shape: FrameShape, t: nat) returns (g: Group)
    requires shape.Ok(XT_BIT_COUNT) && Ready(s, [], t) && s.Valid() && shape.Flushes()
    requires InTime(t, BitsWave(WordBits(PackXtFrame(b), XT_BIT_COUNT), shape.bits))
    ensures var wave := BitsWave(WordBits(PackXtFrame(b), XT_BIT_COUNT), shape.bits);
            var s' := Drive(s, wave, t).0;
            NineBits(s', g, b, |shape.idle|, t + |wave|, shape.LastHigh()) && Drive(s, wave, t).1 == []
  {
    hide *;
    BitCounts();
    OkFrame(shape, XT_BIT_COUNT);
    var bits := WordBits(PackXtFrame(b), XT_BIT_COUNT);
    FlushesMeans(shape);
    g := FrameBits(s, bits, shape, t);
    var wave := BitsWave(bits, shape.bits);
    var s1 := Drive(s, wave, t).0;
    OutcomeMeans(s1, Drive(s, wave, t).1, g, t + |wave|, shape.LastHigh());
    XtWordDecodes(b, g);
    NineBitsAre(s1, g, b, |shape.idle|, t + |wave|, shape.LastHigh());
  }

  /** Nine bits of an XT word in flight; `quiet` more high samples outlast the timeout. */
  ghost predicate NineBits(s: State, g: Group, b: bv8, quiet: nat, t: nat, high: nat) {
    Ready(s, g, t) && |g| == XT_BIT_COUNT && s.lastEdgeUs + high == t
    && g[8].t + IDLE_TIMEOUT_US < t + quiet
    && FrameOf(g).kind == Xt && FrameOf(g).data == b && FrameOf(g).parityOk && FrameOf(g).framingOk
  }

  lemma NineBitsAre(s: State, g: Group, b: bv8, quiet: nat, t: nat, high: nat)
    requires Ready(s, g, t) && |g| == 9 && s.lastEdgeUs + high == t && g[8].t + IDLE_TIMEOUT_US < t + quiet
    requires FrameOf(g).kind == Xt && FrameOf(g).data == b && FrameOf(g).parityOk && FrameOf(g).framingOk
    ensures NineBits(s, g, b, quiet, t, high)
  {
    hide Ready, FrameOf;
  }

  lemma XtGapRun(s: State, g: Group, b: bv8, tail: seq<bool>, t: nat, high: nat)
    requires NineBits(s, g, b, |tail|, t, high) && s.Valid() && InTime(t, Hold(true, tail))
    ensures var ls := Hold(true, tail);
            Resting(Drive(s, ls, t).0, t + |tail|, high + |tail|) && Decoded(Drive(s, ls, t).1, Xt, [b])
  {
    var ls := Hold(true, tail);
    assert XT_BIT_COUNT == 9 && AT_BIT_COUNT == 11 && t + |tail| < 0x1_0000_0000_0000_0000;
    assert Ready(s, g, t) && s.lastEdgeUs + high == t;
    hide Ready, Drive, FrameOf, ShapeOf, Decoded, Resting, Holding, InTime, Hold;
    GapRun(s, g, tail, t);
    hide NineBits;
    OneDecoded(Drive(s, ls, t).1[0], g, Xt, b);
    SingletonFrames(Drive(s, ls, t).1);
    HoldingRests(Drive(s, ls, t).0, s.lastEdgeUs, t + |tail|);
  }

  lemma XtWaveParts(b: bv8, shape: FrameShape, t: nat)
    requires shape.Ok(XT_BIT_COUNT) && InTime(t, XtFrameWave(b, shape))
    ensures var wave := BitsWave(WordBits(PackXtFrame(b), XT_BIT_COUNT), shape.bits);
            var quiet := Hold(true, shape.idle);
            XtFrameWave(b, shape) == wave + quiet && InTime(t, wave) && InTime(t + |wave|, quiet)
            && t + |wave| + |quiet| < 0x1_0000_0000_0000_0000
  {
    hide WordBits, PackXtFrame, BitsWave, Hold;
  }

  lemma FlushesMeans(shape: FrameShape)
    requires shape.Flushes()
    ensures |shape.bits| == XT_BIT_COUNT && shape.bits[8].Length() + |shape.idle| > IDLE_TIMEOUT_US
  {
  }

  /** Every gap before a start bit reads as long enough, CLK having been high for `high`. */
  predicate XtGapsOk(high: nat, shapes: seq<FrameShape>)
    decreases |shapes|
  {
    shapes != [] ==>
      high % 0x1_0000_0000 >= GLITCH_THRESHOLD_US
      && XtGapsOk(shapes[0].LastHigh() + |shapes[0].idle|, shapes[1..])
  }

  /** Any bytes, with any timing, come back from an XT wave in which each frame's last
      falling edge is more than the timeout before the next falling edge. */
  lemma {:induction false} XtRun(s: State, bytes: seq<bv8>, shapes: seq<FrameShape>, t: nat, high: nat)
    requires |bytes| == |shapes| && AllOk(shapes, XT_BIT_COUNT) && AllFlush(shapes)
    requires Resting(s, t, high) && s.Valid() && InTime(t, XtWave(bytes, shapes)) && XtGapsOk(high, shapes)
    ensures Decoded(Drive(s, XtWave(bytes, shapes), t).1, Xt, bytes)
    decreases |bytes|
  {
    hide *;
    RestingMeans(s, t, high);
    if bytes == [] {
      NothingDecoded(s, bytes, shapes, t);
    } else {
      AllFlushMeans(shapes);
      XtWaveUnfold(bytes, shapes);
      XtGapsUnfold(high, shapes);
      var first, rest := XtFrameWave(bytes[0], shapes[0]), XtWave(bytes[1..], shapes[1..]);
      InTimeSplit(t, first, rest);
      XtFrameRun(s, bytes[0], shapes[0], t);
      DriveConcat(s, first, rest, t);
      var (s1, f) := Drive(s, first, t);
      XtRun(s1, bytes[1..], shapes[1..], t + |first|, shapes[0].LastHigh() + |shapes[0].idle|);
      DecodedCons(f, Drive(s1, rest, t + |first|).1, Xt, bytes);
    }
  }

  lemma AllFlushMeans(shapes: seq<FrameShape>)
    requires AllFlush(shapes) && shapes != []
    ensures shapes[0].Flushes() && AllFlush(shapes[1..])
  {
  }

  lemma XtWaveUnfold(bytes: seq<bv8>, shapes: seq<FrameShape>)
    requires |bytes| == |shapes| > 0 && AllOk(shapes, XT_BIT_COUNT)
    ensures shapes[0].Ok(XT_BIT_COUNT) && AllOk(shapes[1..], XT_BIT_COUNT)
    ensures XtWave(bytes, shapes) == XtFrameWave(bytes[0], shapes[0]) + XtWave(bytes[1..], shapes[1..])
  {
    hide XtFrameWave;
  }

  lemma XtGapsUnfold(high: nat, shapes: seq<FrameShape>)
    requires shapes != []
    ensures XtGapsOk(high, shapes) <==>
              high % 0x1_0000_0000 >= 4 && XtGapsOk(shapes[0].LastHigh() + |shapes[0].idle|, shapes[1..])
    ensures GLITCH_THRESHOLD_US == 4
  {
  }

  // ------------------------------------------------------------ from power-up

  lemma HoldFirst(clk: bool, data: seq<bool>)
    requires data != []
    ensures Hold(clk, data) == [Level(clk, data[0])] + Hold(clk, data[1..])
  {
  }

  lemma InTimeOne(l: Level, t: nat)
    requires InTime(t, [l])
    ensures t + 1 < 0x1_0000_0000_0000_0000
  {
  }

  /** High samples bring a new framer to rest. */
  lemma LeadRun(lead: seq<bool>, t: nat)
    requires lead != [] && InTime(t, Hold(true, lead))
    ensures InitState.Valid()
    ensures var (s', fs) := Drive(InitState, Hold(true, lead), t);
            fs == [] && Holding(s', [], true, 0)
  {
    hide *;
    HoldFirst(true, lead);
    var a, b := [Level(true, lead[0])], Hold(true, lead[1..]);
    InTimeSplit(t, a, b);
    InTimeOne(a[0], t);
    FirstSample(lead[0], t);
    var (s1, f) := Step(InitState, true, lead[0], t);
    DriveConcat(InitState, a, b, t);
    DriveOne(InitState, a[0], t);
    SteadyRun(s1, [], true, 0, lead[1..], t + 1);
    SingleFrame(f);
  }

  lemma FirstSample(data: bool, t: Micros)
    ensures InitState.Valid()
    ensures var (s', f) := Step(InitState, true, data, t); f == None && Holding(s', [], true, 0)
  {
  }

  /** From `Framer::new`: an idle lead-in, then an AT wave.  Exactly the bytes come out, as
      long as no gap before a start bit is truncated to less than the glitch threshold. */
  lemma {:induction false} AtRoundTrip(lead: seq<bool>, bytes: seq<bv8>, shapes: seq<FrameShape>, t: nat)
    requires |bytes| == |shapes| && AllOk(shapes, AT_BIT_COUNT)
    requires lead != [] && AtGapsOk(t + |lead|, shapes)
    requires InTime(t, Hold(true, lead) + AtWave(bytes, shapes))
    ensures Decoded(Drive(InitState, Hold(true, lead) + AtWave(bytes, shapes), t).1, At, bytes)
  {
    var quiet, wave := Hold(true, lead), AtWave(bytes, shapes);
    InTimeSplit(t, quiet, wave);
    LeadRun(lead, t);
    var s1 := Drive(InitState, quiet, t).0;
    hide Drive, Holding, AtWave, Decoded, AtGapsOk;
    HoldingRests(s1, 0, t + |lead|);
    DriveConcat(InitState, quiet, wave, t);
    RestingMeans(s1, t + |lead|, t + |lead|);
    AtRun(s1, bytes, shapes, t + |lead|, t + |lead|);
    assert [] + Drive(s1, wave, t + |lead|).1 == Drive(s1, wave, t + |lead|).1;
  }

  /** The same for XT. */
  lemma {:induction false} XtRoundTrip(lead: seq<bool>, bytes: seq<bv8>, shapes: seq<FrameShape>, t: nat)
    requires |bytes| == |shapes| && AllOk(shapes, XT_BIT_COUNT)
    requires AllFlush(shapes)
    requires lead != [] && XtGapsOk(t + |lead|, shapes)
    requires InTime(t, Hold(true, lead) + XtWave(bytes, shapes))
    ensures Decoded(Drive(InitState, Hold(true, lead) + XtWave(bytes, shapes), t).1, Xt, bytes)
  {
    var quiet, wave := Hold(true, lead), XtWave(bytes, shapes);
    InTimeSplit(t, quiet, wave);
    LeadRun(lead, t);
    var s1 := Drive(InitState, quiet, t).0;
    hide Drive, Holding, XtWave, Decoded, XtGapsOk;
    HoldingRests(s1, 0, t + |lead|);
    DriveConcat(InitState, quiet, wave, t);
    RestingMeans(s1, t + |lead|, t + |lead|);
    XtRun(s1, bytes, shapes, t + |lead|, t + |lead|);
    assert [] + Drive(s1, wave, t + |lead|).1 == Drive(s1, wave, t + |lead|).1;
  }

  // ------------------------------------------------------------ the exact idle condition

  /** The idle bound above is not slack.  After any idle high of `h` microseconds the next
      falling edge starts a frame if and only if `h` is not within four microseconds above a
      multiple of 2^32: there the truncated duration reads as a glitch and the start bit is
      lost. */
  lemma StartBitAfterIdle(s: State, data: bool, h: nat)
    requires Holding(s, [], true, s.lastEdgeUs) && s.lastEdgeUs + h < 0x1_0000_0000_0000_0000
    ensures var s' := Step(s, false, data, s.lastEdgeUs + h).0;
            s'.phase == (if h % 0x1_0000_0000 >= GLITCH_THRESHOLD_US then Receiving(1) else Idle)
  {
  }
}
