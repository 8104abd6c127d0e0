/** What the glitch filter promises: short high spikes inside low CLK phases change nothing
    but the glitch counts.  Proved as a simulation between a clean run and a disturbed run
    sampled in lockstep (crates/ps2-framer/src/framer.rs:126-172). */
module Glitch {
  import opened Wrappers
  import opened Framer
  import opened Segmentation
  import opened FramerRefinement
  import opened RoundTrip

  /** CLK on the clean and on the disturbed line at the same microsecond, and DATA. */
  datatype Twin = Twin(clean: bool, noisy: bool, data: bool)

  function CleanLine(ps: seq<Twin>): (ls: Levels)
    ensures |ls| == |ps|
  {
    seq(|ps|, i requires 0 <= i < |ps| => Level(ps[i].clean, ps[i].data))
  }

  function NoisyLine(ps: seq<Twin>): (ls: Levels)
    ensures |ls| == |ps|
  {
    seq(|ps|, i requires 0 <= i < |ps| => Level(ps[i].noisy, ps[i].data))
  }

  /** Where the lines are: high for `h` samples, or low on the clean line for `n` samples with
      the disturbed line now in a spike of `spike` samples. */
  datatype Mode = Start | High(h: nat) | Low(n: nat, spike: nat)

  /** High phases last at least the glitch threshold, low phases less than the timeout, and
      the disturbed line differs only by high spikes shorter than the threshold strictly
      inside low phases. */
  predicate Permits(m: Mode, p: Twin) {
    match m
    case Start => p.clean == p.noisy
    case High(h) => p.clean == p.noisy && (!p.clean ==> h >= GLITCH_THRESHOLD_US)
    case Low(n, spike) =>
      if p.clean then p.noisy && spike == 0
      else n + 1 < IDLE_TIMEOUT_US && (p.noisy ==> spike + 1 < GLITCH_THRESHOLD_US)
  }

  function Next(m: Mode, p: Twin): Mode {
    if p.clean then High(if m.High? then m.h + 1 else 1)
    else if m.Low? then Low(m.n + 1, if p.noisy then m.spike + 1 else 0)
    else Low(1, 0)
  }

  predicate Disturbed(m: Mode, ps: seq<Twin>)
    decreases |ps|
  {
    ps != [] ==> Permits(m, ps[0]) && Disturbed(Next(m, ps[0]), ps[1..])
  }

  // ------------------------------------------------------------ what must agree

  /** Everything but the CLK history and the glitch count. */
  function Core(s: State): State {
    s.(lastClk := None, lastEdgeUs := 0, glitches := 0)
  }

  function Silent(f: Ps2Frame): Ps2Frame { f.(glitches := 0) }

  function SilentAll(fs: seq<Ps2Frame>): (gs: seq<Ps2Frame>)
    ensures |gs| == |fs|
  {
    seq(|fs|, i requires 0 <= i < |fs| => Silent(fs[i]))
  }

  /** The sampled DATA level, noted. */
  function Noted(s: State, data: bool, t: Micros): State {
    s.(lastDataChangeUs := if s.lastData != Some(data) then t else s.lastDataChangeUs, lastData := Some(data))
  }

  lemma QuietCore(s: State, clk: bool, data: bool, t: Micros)
    requires s.Valid() && !TimesOut(s, t) && !Accepts(s, clk, t)
    ensures var (s', f) := Step(s, clk, data, t);
            f == None && Core(s') == Noted(Core(s), data, t)
  {
    hide TimesOut, ClkChanged, TooShort, OnClkFall;
  }

  lemma CoreKeeps(a: State, b: State)
    requires Core(a) == Core(b)
    ensures a.phase == b.phase && a.lastFallingUs == b.lastFallingUs
  {
  }

  lemma NotedKeeps(s: State, s': State, data: bool, t: Micros)
    requires Core(s') == Noted(Core(s), data, t)
    ensures s'.phase == s.phase && s'.lastFallingUs == s.lastFallingUs
  {
  }

  /** Neither sample gives up the frame nor clocks a bit. */
  lemma BothQuiet(a: State, b: State, ca: bool, cb: bool, data: bool, t: Micros)
    requires a.Valid() && b.Valid() && Core(a) == Core(b)
    requires !TimesOut(a, t) && !Accepts(a, ca, t) && !TimesOut(b, t) && !Accepts(b, cb, t)
    ensures var (a', fa) := Step(a, ca, data, t);
            var (b', fb) := Step(b, cb, data, t);
            fa == None && fb == None && Core(a') == Core(b') && a'.phase == a.phase
            && a'.lastFallingUs == a.lastFallingUs
  {
    hide *;
    QuietCore(a, ca, data, t);
    QuietCore(b, cb, data, t);
    NotedKeeps(a, Step(a, ca, data, t).0, data, t);
  }

  lemma BothTimeOut(a: State, b: State, clk: bool, data: bool, t: Micros)
    requires a.Valid() && b.Valid() && Core(a) == Core(b) && TimesOut(a, t)
    ensures var (a', fa) := Step(a, clk, data, t);
            var (b', fb) := Step(b, clk, data, t);
            Core(a') == Core(b') && SilentAll(Frames(fa)) == SilentAll(Frames(fb)) && a'.phase == Idle
  {
    hide Taken, DataOf;
  }

  lemma StartCore(s: State, data: bool, t: Micros)
    ensures StartFrame(s, data, t).lastFallingUs == t
    ensures Core(StartFrame(s, data, t)) == Core(StartFrame(Core(s), data, t))
  {
    hide Placed, ClampI8, WrapI64, NoPeriods;
  }

  lemma AddCore(s: State, bits: nat, data: bool, t: Micros)
    requires 1 <= bits < AT_BIT_COUNT && |s.periodsUs| == SLOTS
    ensures AddBit(s, bits, data, t).lastFallingUs == t
    ensures Core(AddBit(s, bits, data, t)) == Core(AddBit(Core(s), bits, data, t))
  {
    hide Placed, AsU16, SaturatingSub;
  }

  lemma ResetCore(s: State, s': State)
    requires Core(s) == Core(s')
    ensures Core(ResetIdle(s)) == Core(ResetIdle(s'))
    ensures ResetIdle(s).phase == Idle
  {
    hide NoPeriods;
  }

  lemma BuildCore(s: State, s': State)
    requires Core(s) == Core(s')
    ensures SilentAll(Frames(Some(BuildFrame(s, AT_BIT_COUNT)))) == SilentAll(Frames(Some(BuildFrame(s', AT_BIT_COUNT))))
  {
    hide Taken, DataOf, OddOnes;
  }

  /** What an accepted edge does is decided by the core alone. */
  lemma FallCore(s: State, data: bool, t: Micros)
    requires s.Valid()
    ensures Core(s).Valid()
    ensures var (s', f) := OnClkFall(s, data, t);
            var (c', fc) := OnClkFall(Core(s), data, t);
            Core(s') == Core(c') && SilentAll(Frames(f)) == SilentAll(Frames(fc))
            && (s'.phase.Receiving? ==> s'.lastFallingUs == t)
  {
    hide BuildFrame, StartFrame, AddBit, ResetIdle, SilentAll, Frames;
    if s.phase.Idle? {
      StartCore(s, data, t);
    } else {
      var bits := s.phase.bits;
      AddCore(s, bits, data, t);
      var s1, c1 := AddBit(s, bits, data, t), AddBit(Core(s), bits, data, t);
      ResetCore(s1, c1);
      BuildCore(s1, c1);
    }
  }

  lemma SampledCore(s: State, data: bool, t: Micros)
    ensures Core(Sampled(s, false, data, t).(lastEdgeUs := t)) == Noted(Core(s), data, t)
  {
  }

  lemma AcceptCore(s: State, data: bool, t: Micros)
    requires s.Valid() && Accepts(s, false, t)
    ensures Noted(Core(s), data, t).Valid()
    ensures var (s', f) := Step(s, false, data, t);
            var (c', fc) := OnClkFall(Noted(Core(s), data, t), data, t);
            Core(s') == Core(c') && SilentAll(Frames(f)) == SilentAll(Frames(fc))
            && (s'.phase.Receiving? ==> s'.lastFallingUs == t)
  {
    AcceptStep(s, false, data, t);
    SampledCore(s, data, t);
    FallCore(Sampled(s, false, data, t).(lastEdgeUs := t), data, t);
    hide *;
  }

  lemma BothAccept(a: State, b: State, data: bool, t: Micros)
    requires a.Valid() && b.Valid() && Core(a) == Core(b)
    requires Accepts(a, false, t) && Accepts(b, false, t)
    ensures var (a', fa) := Step(a, false, data, t);
            var (b', fb) := Step(b, false, data, t);
            Core(a') == Core(b') && SilentAll(Frames(fa)) == SilentAll(Frames(fb))
            && (a'.phase.Receiving? ==> a'.lastFallingUs == t)
  {
    hide *;
    AcceptCore(a, data, t);
    AcceptCore(b, data, t);
  }

  /** CLK as noted by a sample, and when it last changed. */
  lemma ClkNoted(s: State, clk: bool, data: bool, t: Micros)
    requires s.Valid()
    ensures var (s', f) := Step(s, clk, data, t);
            s'.lastClk == Some(clk)
            && s'.lastEdgeUs == (if ClkChanged(s, clk) && !TimesOut(s, t) then t else s.lastEdgeUs)
  {
  }

  // ------------------------------------------------------------ the simulation

  /** `a` has seen the clean line and `b` the disturbed one; the next sample is at `t`. */
  ghost predicate Related(a: State, b: State, m: Mode, t: nat) {
    a.Valid() && b.Valid() && Core(a) == Core(b)
    && match m
       case Start => a == b && a.lastClk == None && a.phase == Idle
       case High(h) =>
         a.lastClk == b.lastClk == Some(true) && a.lastEdgeUs == b.lastEdgeUs
         && (a.phase.Receiving? ==>
               a.lastFallingUs <= a.lastEdgeUs && a.lastEdgeUs + h == t <= a.lastFallingUs + IDLE_TIMEOUT_US)
       case Low(n, spike) =>
         a.lastClk == Some(false) && b.lastClk == Some(spike > 0)
         && n < IDLE_TIMEOUT_US && (a.phase.Receiving? ==> a.lastFallingUs + n == t)
         && spike < GLITCH_THRESHOLD_US && (spike > 0 ==> b.lastEdgeUs + spike == t)
  }

  lemma QuietFrames()
    ensures Frames(None) == []
  {
  }

  /** What a step does to both states, however it acts on the frame in flight. */
  ghost predicate Stepped(a: State, b: State, p: Twin, t: Micros) {
    a.Valid() && b.Valid()
    && var (a', fa) := Step(a, p.clean, p.data, t);
       var (b', fb) := Step(b, p.noisy, p.data, t);
       Core(a') == Core(b') && SilentAll(Frames(fa)) == SilentAll(Frames(fb))
       && a'.phase == b'.phase && a'.lastFallingUs == b'.lastFallingUs
       && a'.lastClk == Some(p.clean) && b'.lastClk == Some(p.noisy)
       && a'.lastEdgeUs == (if ClkChanged(a, p.clean) && !TimesOut(a, t) then t else a.lastEdgeUs)
       && b'.lastEdgeUs == (if ClkChanged(b, p.noisy) && !TimesOut(b, t) then t else b.lastEdgeUs)
       && (if TimesOut(a, t) then a'.phase == Idle
           else if Accepts(a, p.clean, t) then (a'.phase.Receiving? ==> a'.lastFallingUs == t)
           else a'.phase == a.phase && a'.lastFallingUs == a.lastFallingUs)
  }

  /** In every related pair of states both samples act alike: they give up the frame
      together, accept an edge together, or do neither. */
  lemma ActAlike(a: State, b: State, m: Mode, p: Twin, t: Micros)
    requires Related(a, b, m, t) && Permits(m, p)
    ensures TimesOut(a, t) == TimesOut(b, t)
    ensures TimesOut(a, t) ==> p.clean == p.noisy
    ensures !TimesOut(a, t) ==> Accepts(a, p.clean, t) == Accepts(b, p.noisy, t)
    ensures Accepts(a, p.clean, t) ==> !p.clean && !p.noisy
  {
    CoreKeeps(a, b);
    hide Core, Next;
  }

  lemma BothStepped(a: State, b: State, m: Mode, p: Twin, t: Micros)
    requires Related(a, b, m, t) && Permits(m, p) && a.Valid() && b.Valid() && Core(a) == Core(b)
    ensures Stepped(a, b, p, t)
  {
    ActAlike(a, b, m, p, t);
    ClkNoted(a, p.clean, p.data, t);
    ClkNoted(b, p.noisy, p.data, t);
    hide Step, Core, SilentAll, Frames, Related, Permits, TimesOut, Accepts, ClkChanged;
    if TimesOut(a, t) {
      BothTimeOut(a, b, p.clean, p.data, t);
    } else if Accepts(a, p.clean, t) {
      BothAccept(a, b, p.data, t);
    } else {
      QuietFrames();
      BothQuiet(a, b, p.clean, p.noisy, p.data, t);
    }
    CoreKeeps(Step(a, p.clean, p.data, t).0, Step(b, p.noisy, p.data, t).0);
  }

  lemma RelatedStep(a: State, b: State, m: Mode, p: Twin, t: Micros)
    requires Related(a, b, m, t) && Permits(m, p)
    ensures var (a', fa) := Step(a, p.clean, p.data, t);
            var (b', fb) := Step(b, p.noisy, p.data, t);
            Related(a', b', Next(m, p), t + 1) && SilentAll(Frames(fa)) == SilentAll(Frames(fb))
  {
    BothStepped(a, b, m, p, t);
    hide Step, Core, SilentAll, Frames;
  }

  lemma DisturbedMeans(m: Mode, ps: seq<Twin>)
    requires Disturbed(m, ps) && ps != []
    ensures Permits(m, ps[0]) && Disturbed(Next(m, ps[0]), ps[1..])
  {
  }

  lemma LinesSplit(ps: seq<Twin>, t: nat)
    requires ps != [] && InTime(t, CleanLine(ps))
    ensures CleanLine(ps) == [Level(ps[0].clean, ps[0].data)] + CleanLine(ps[1..])
    ensures NoisyLine(ps) == [Level(ps[0].noisy, ps[0].data)] + NoisyLine(ps[1..])
    ensures t + |ps| < 0x1_0000_0000_0000_0000
    ensures InTime(t, [Level(ps[0].clean, ps[0].data)]) && InTime(t, [Level(ps[0].noisy, ps[0].data)])
    ensures InTime(t, NoisyLine(ps)) && InTime(t + 1, CleanLine(ps[1..])) && InTime(t + 1, NoisyLine(ps[1..]))
  {
  }

  lemma SilentConcat(a: seq<Ps2Frame>, b: seq<Ps2Frame>, c: seq<Ps2Frame>, d: seq<Ps2Frame>)
    requires SilentAll(a) == SilentAll(b) && SilentAll(c) == SilentAll(d)
    ensures SilentAll(a + c) == SilentAll(b + d)
  {
    assert SilentAll(a + c) == SilentAll(a) + SilentAll(c);
    assert SilentAll(b + d) == SilentAll(b) + SilentAll(d);
  }

  lemma {:induction false} RelatedRun(a: State, b: State, m: Mode, ps: seq<Twin>, t: nat)
    requires a.Valid() && b.Valid()
    requires Related(a, b, m, t) && Disturbed(m, ps)
    requires InTime(t, CleanLine(ps)) && InTime(t, NoisyLine(ps))
    ensures SilentAll(Drive(a, CleanLine(ps), t).1) == SilentAll(Drive(b, NoisyLine(ps), t).1)
    decreases |ps|
  {
    hide *;
    var la, lb := CleanLine(ps), NoisyLine(ps);
    if ps == [] {
      DriveNone(a, la, t);
      DriveNone(b, lb, t);
    } else {
      LinesSplit(ps, t);
      DisturbedMeans(m, ps);
      var p, ra, rb := ps[0], CleanLine(ps[1..]), NoisyLine(ps[1..]);
      RelatedStep(a, b, m, p, t);
      DriveCons(a, Level(p.clean, p.data), ra, t);
      DriveCons(b, Level(p.noisy, p.data), rb, t);
      var (a', fa) := Step(a, p.clean, p.data, t);
      var (b', fb) := Step(b, p.noisy, p.data, t);
      RelatedRun(a', b', Next(m, p), ps[1..], t + 1);
      SilentConcat(Frames(fa), Frames(fb), Drive(a', ra, t + 1).1, Drive(b', rb, t + 1).1);
    }
  }

  /** From `Framer::new`, sampled once a microsecond: the disturbed line gives exactly the
      frames of the clean line, in every field except the glitch count. */
  lemma GlitchTransparency(ps: seq<Twin>, t: nat)
    requires Disturbed(Start, ps) && InTime(t, CleanLine(ps))
    ensures var clean := Drive(InitState, CleanLine(ps), t).1;
            var noisy := Drive(InitState, NoisyLine(ps), t).1;
            SilentAll(clean) == SilentAll(noisy)
  {
    RelatedRun(InitState, InitState, Start, ps, t);
  }

  /** A fall after a high level that reads as too short is only noted. */
  lemma RefusedStep(s: State, g: Group, edge: Micros, data: bool, t: Micros)
    requires Holding(s, g, true, edge) && Fresh(g, t) && edge <= t && !LongEnough(edge, t)
    ensures var (s', f) := Step(s, false, data, t); f == None && Holding(s', g, false, t)
  {
    NotTimedOut(s, g, t);
    QuietStep(s, false, data, t);
    SameRegistersInFlight(s, Step(s, false, data, t).0, g);
    ClkNoted(s, false, data, t);
    hide Step, InFlight, Fresh;
  }

  /** What a low pulse leaves behind: nothing if it is ignored, a clocked bit otherwise, and
      with it a frame if the bit is the eleventh. */
  ghost predicate PulseLeaves(s: State, fs: seq<Ps2Frame>, g: Group, e: Edge, ignored: bool) {
    if ignored then fs == [] && Holding(s, g, false, e.t)
    else if |g| + 1 == AT_BIT_COUNT then
      |fs| == 1 && ShapeOf(fs[0]) == FrameOf(g + [e]) && Holding(s, [], false, e.t)
    else fs == [] && Holding(s, g + [e], false, e.t)
  }

  /** The filter is one-sided.  A low pulse shorter than the threshold, with no timeout due
      while it lasts, clocks a bit if and only if the high level before it (as truncated to 32
      bits) lasted at least the threshold. */
  lemma LowPulseClocks(s: State, g: Group, edge: Micros, pulse: seq<bool>, t: nat)
    requires Holding(s, g, true, edge) && edge <= t
    requires 0 < |pulse| < GLITCH_THRESHOLD_US && InTime(t, Hold(false, pulse))
    requires g != [] ==> g[|g| - 1].t <= t && t + |pulse| <= g[|g| - 1].t + IDLE_TIMEOUT_US
    ensures var (s', fs) := Drive(s, Hold(false, pulse), t);
            PulseLeaves(s', fs, g, Edge(t, pulse[0]), (t - edge) % 0x1_0000_0000 < GLITCH_THRESHOLD_US)
  {
    hide Step, Drive, InFlight, ShapeOf, FrameOf;
    ValidInFlight(s, g);
    var rest, e := Hold(false, pulse[1..]), Edge(t, pulse[0]);
    assert Hold(false, pulse) == [Level(false, pulse[0])] + rest;
    var (s1, f) := Step(s, false, pulse[0], t);
    DriveOne(s, Level(false, pulse[0]), t);
    DriveConcat(s, [Level(false, pulse[0])], rest, t);
    if LongEnough(edge, t) {
      FallStep(s, g, edge, pulse[0], t);
      SteadyRun(s1, if |g| + 1 == AT_BIT_COUNT then [] else g + [e], false, t, pulse[1..], t + 1);
    } else {
      RefusedStep(s, g, edge, pulse[0], t);
      SteadyRun(s1, g, false, t, pulse[1..], t + 1);
    }
  }
}
