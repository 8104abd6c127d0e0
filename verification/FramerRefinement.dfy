/** The framer's packed registers carry exactly the group of edges in flight, so its output
    is the segmentation of its accepted edges. */
module FramerRefinement {
  import opened Wrappers
  import Gf2
  import opened Framer
  import opened Segmentation

  // ------------------------------------------------------------ the bit register

  /** The first `|ds|` bits of the register. */
  function Pack(ds: Gf2.Bits): bv16
    requires |ds| <= 16
    decreases |ds|
  {
    if ds == [] then 0 else Pack(ds[..|ds| - 1]) | Placed(ds[|ds| - 1], |ds| - 1)
  }

  lemma OneHot(i: nat)
    requires i < 16
    ensures Bit16(i) & (Bit16(i) - 1) == 0 && Bit16(i) != 0
  {
  }

  lemma OneHotDistinct(i: nat, j: nat)
    requires i < 16 && j < 16 && i != j
    ensures Bit16(i) != Bit16(j)
  {
  }

  lemma OneHotDisjoint(a: bv16, b: bv16)
    requires a & (a - 1) == 0 && b & (b - 1) == 0 && a != b
    ensures a & b == 0
  {
  }

  lemma OrBit(w: bv16, x: bv16, m: bv16)
    ensures ((w | x) & m != 0) == (w & m != 0 || x & m != 0)
  {
  }

  lemma TakenOr(w: bv16, x: bv16, y: bv16, i: nat)
    requires i < 16 && y == w | x
    ensures Taken(y, i) == (Taken(w, i) || Taken(x, i))
  {
    hide *;
    TakenWith(y, i, Bit16(i));
    TakenWith(w, i, Bit16(i));
    TakenWith(x, i, Bit16(i));
    OrBit(w, x, Bit16(i));
  }

  lemma TakenWith(w: bv16, i: nat, m: bv16)
    requires i < 16 && m == Bit16(i)
    ensures Taken(w, i) == (w & m != 0)
  {
    hide Bit16;
  }

  lemma NoneTaken(i: nat)
    requires i < 16
    ensures !Taken(Pack([]), i)
  {
    hide Bit16;
  }

  lemma PackUnfold(ds: Gf2.Bits)
    requires 0 < |ds| <= 16
    ensures Pack(ds) == Pack(ds[..|ds| - 1]) | Placed(ds[|ds| - 1], |ds| - 1)
  {
    hide Placed;
  }

  lemma PackLast(ds: Gf2.Bits, i: nat)
    requires 0 < |ds| <= 16 && i < 16
    ensures var n := |ds| - 1; Taken(Pack(ds), i) == (Taken(Pack(ds[..n]), i) || Taken(Placed(ds[n], n), i))
  {
    hide *;
    PackUnfold(ds);
    TakenOr(Pack(ds[..|ds| - 1]), Placed(ds[|ds| - 1], |ds| - 1), Pack(ds), i);
  }

  lemma PlacedTaken(d: bool, j: nat, i: nat)
    requires i < 16 && j < 16
    ensures Taken(Placed(d, j), i) == (d && i == j)
  {
    hide Bit16;
    OneHot(i);
    OneHot(j);
    if i != j {
      OneHotDistinct(i, j);
      OneHotDisjoint(Bit16(j), Bit16(i));
    }
  }

  lemma {:induction false} PackTaken(ds: Gf2.Bits, i: nat)
    requires |ds| <= 16 && i < 16
    ensures Taken(Pack(ds), i) == Bit(ds, i)
    decreases |ds|
  {
    hide Bit16, Placed, Taken, Pack;
    if ds == [] {
      NoneTaken(i);
    } else {
      var n := |ds| - 1;
      PackTaken(ds[..n], i);
      PlacedTaken(ds[n], n, i);
      PackLast(ds, i);
    }
  }

  lemma DataOfFlags(w: bv16)
    ensures DataOf(w) ==
      Flag(Taken(w, 1), 0x01) | Flag(Taken(w, 2), 0x02) | Flag(Taken(w, 3), 0x04) | Flag(Taken(w, 4), 0x08)
      | Flag(Taken(w, 5), 0x10) | Flag(Taken(w, 6), 0x20) | Flag(Taken(w, 7), 0x40) | Flag(Taken(w, 8), 0x80)
  {
  }

  lemma DataOfPack(ds: Gf2.Bits)
    requires |ds| <= 16
    ensures DataOf(Pack(ds)) == DataByte(ds)
  {
    hide Taken, Flag, DataOf, Pack, Bit;
    DataOfFlags(Pack(ds));
    PackTaken(ds, 1);
    PackTaken(ds, 2);
    PackTaken(ds, 3);
    PackTaken(ds, 4);
    PackTaken(ds, 5);
    PackTaken(ds, 6);
    PackTaken(ds, 7);
    PackTaken(ds, 8);
  }

  lemma OddOnesOfFlags(a: bool, b: bool, c: bool, d: bool, e: bool, f: bool, g: bool, h: bool)
    ensures OddOnes(Flag(a, 0x01) | Flag(b, 0x02) | Flag(c, 0x04) | Flag(d, 0x08)
                    | Flag(e, 0x10) | Flag(f, 0x20) | Flag(g, 0x40) | Flag(h, 0x80))
         == (a != (b != (c != (d != (e != (f != (g != h)))))))
  {
  }

  lemma ParityOfNine(p: Gf2.Bits)
    requires |p| == 9
    ensures Gf2.Parity(p) == (p[0] != (p[1] != (p[2] != (p[3] != (p[4] != (p[5] != (p[6] != (p[7] != p[8]))))))))
  {
    assert Gf2.Parity(p[8..]) == p[8];
    assert Gf2.Parity(p[7..]) == (p[7] != p[8]);
    assert Gf2.Parity(p[6..]) == (p[6] != Gf2.Parity(p[7..]));
    assert Gf2.Parity(p[5..]) == (p[5] != Gf2.Parity(p[6..]));
    assert Gf2.Parity(p[4..]) == (p[4] != Gf2.Parity(p[5..]));
    assert Gf2.Parity(p[3..]) == (p[3] != Gf2.Parity(p[4..]));
    assert Gf2.Parity(p[2..]) == (p[2] != Gf2.Parity(p[3..]));
    assert Gf2.Parity(p[1..]) == (p[1] != Gf2.Parity(p[2..]));
    assert p[0..] == p;
  }

  lemma OddOnesOfData(ds: Gf2.Bits)
    requires |ds| == 11
    ensures OddOnes(DataByte(ds))
         == (ds[1] != (ds[2] != (ds[3] != (ds[4] != (ds[5] != (ds[6] != (ds[7] != ds[8])))))))
  {
    hide OddOnes, Flag;
    OddOnesOfFlags(ds[1], ds[2], ds[3], ds[4], ds[5], ds[6], ds[7], ds[8]);
  }

  /** The parity check is the parity of slots 1 to 9. */
  lemma ParityCheck(ds: Gf2.Bits)
    requires |ds| == 11
    ensures (OddOnes(DataByte(ds)) != ds[9]) == Gf2.Parity(ds[1..10])
  {
    hide OddOnes, DataByte, Gf2.Parity;
    OddOnesOfData(ds);
    ParityOfNine(ds[1..10]);
  }

  // ------------------------------------------------------------ state and group

  /** The state of a framer that has group `g` in flight. */
  ghost predicate InFlight(s: State, g: Group) {
    s.Valid() && |g| < AT_BIT_COUNT && Chain(g)
    && (g == [] <==> s.phase == Idle)
    && (g != [] ==>
          s.phase == Receiving(|g|) && s.frameStartUs == g[0].t && s.lastFallingUs == g[|g| - 1].t
          && s.assembled == Pack(Datas(g)) && s.periodsUs == Periods(g))
  }

  /** The last edge of the group in flight is recent enough at time `now`. */
  predicate Fresh(g: Group, now: Micros) {
    g != [] ==> g[|g| - 1].t <= now < g[|g| - 1].t + IDLE_TIMEOUT_US
  }

  lemma DatasSnoc(g: Group, e: Edge)
    ensures Datas(g + [e]) == Datas(g) + [e.data]
  {
  }

  lemma PeriodsSnoc(g: Group, e: Edge)
    requires 0 < |g| < AT_BIT_COUNT && g[|g| - 1].t <= e.t
    ensures Periods(g + [e]) == Periods(g)[|g| - 1 := e.t - g[|g| - 1].t]
  {
  }

  lemma StartInFlight(s: State, e: Edge)
    requires InFlight(s, [])
    ensures InFlight(StartFrame(s, e.data, e.t), [e])
  {
    assert Datas([e]) == [e.data] && [e.data][..0] == [];
    assert Pack([e.data]) == Placed(e.data, 0) by { OrZero(Placed(e.data, 0)); }
    assert Periods([e]) == NoPeriods();
  }

  lemma OrZero(w: bv16)
    ensures 0 | w == w
  {
  }

  lemma PackSnoc(ds: Gf2.Bits, d: bool)
    requires |ds| < 16
    ensures Pack(ds + [d]) == Pack(ds) | Placed(d, |ds|)
  {
    assert (ds + [d])[..|ds|] == ds;
  }

  /** What adding an edge to a group in flight does to the registers. */
  lemma AddInFlight(s: State, g: Group, e: Edge)
    requires InFlight(s, g) && g != []
    requires g[|g| - 1].t <= e.t < g[|g| - 1].t + IDLE_TIMEOUT_US
    ensures var s', g' := AddBit(s, |g|, e.data, e.t), g + [e];
            Chain(g') && s'.frameStartUs == g'[0].t && s'.lastFallingUs == e.t
            && s'.assembled == Pack(Datas(g')) && s'.periodsUs == Periods(g')
            && s'.phase == Receiving(|g'|)
  {
    hide Pack, Placed, Periods, Datas, NoPeriods;
    ChainSnoc(g, e);
    DatasSnoc(g, e);
    PackSnoc(Datas(g), e.data);
    PeriodsSnoc(g, e);
  }

  /** The frame built from the registers is the frame the group stands for. */
  lemma BuiltFromGroup(s: State, g: Group)
    requires 0 < |g| <= AT_BIT_COUNT
    requires s.frameStartUs == g[0].t && s.assembled == Pack(Datas(g)) && s.periodsUs == Periods(g)
    ensures |g| == AT_BIT_COUNT ==> ShapeOf(BuildFrame(s, AT_BIT_COUNT)) == FrameOf(g)
    ensures |g| < AT_BIT_COUNT ==>
              EmitOnTimeout(s, |g|).Some? && ShapeOf(EmitOnTimeout(s, |g|).value) == FrameOf(g)
  {
    var ds := Datas(g);
    hide Pack, Taken, OddOnes, DataOf, DataByte, Periods, Gf2.Parity, Datas;
    DataOfPack(ds);
    PackTaken(ds, 0);
    if |g| == AT_BIT_COUNT {
      PackTaken(ds, 9);
      PackTaken(ds, 10);
      ParityCheck(ds);
    }
  }

  // ------------------------------------------------------------ one sample

  /** Registers that matter for the group in flight. */
  predicate SameRegisters(s: State, s': State) {
    s'.phase == s.phase && s'.assembled == s.assembled && s'.frameStartUs == s.frameStartUs
    && s'.lastFallingUs == s.lastFallingUs && s'.periodsUs == s.periodsUs
  }

  /** A sample that neither times out nor clocks a bit leaves the registers alone. */
  lemma QuietStep(s: State, clk: bool, data: bool, t: Micros)
    requires s.Valid() && !TimesOut(s, t) && !Accepts(s, clk, t)
    ensures var (s', f) := Step(s, clk, data, t); f == None && SameRegisters(s, s')
  {
  }

  lemma TimeoutStep(s: State, clk: bool, data: bool, t: Micros)
    requires s.Valid() && TimesOut(s, t)
    ensures var (s', f) := Step(s, clk, data, t);
            f == EmitOnTimeout(s, s.phase.bits) && s'.phase == Idle
  {
  }

  lemma AcceptStep(s: State, clk: bool, data: bool, t: Micros)
    requires s.Valid() && Accepts(s, clk, t)
    ensures Step(s, clk, data, t) == OnClkFall(Sampled(s, clk, data, t).(lastEdgeUs := t), data, t)
  {
    hide OnClkFall;
  }

  /** While samples are paced, a frame is given up exactly when it is stale. */
  lemma TimesOutIffStale(s: State, g: Group, prev: Micros, t: Micros)
    requires InFlight(s, g) && Fresh(g, prev) && prev <= t <= prev + MAX_SAMPLE_GAP_US
    ensures TimesOut(s, t) <==> Stale(g, t)
  {
  }

  /** What one sample does to the group in flight. */
  datatype Effect = Effect(done: seq<Group>, inFlight: Group)

  function EffectOf(s: State, g: Group, x: Sample): Effect {
    if Stale(g, x.t) then Effect([g], [])
    else if !Accepts(s, x.clk, x.t) then Effect([], g)
    else if |g| + 1 == AT_BIT_COUNT then Effect([g + [Edge(x.t, x.data)]], [])
    else Effect([], g + [Edge(x.t, x.data)])
  }

  lemma {:induction false} StepRefines(s: State, g: Group, prev: Micros, x: Sample)
    requires InFlight(s, g) && Fresh(g, prev) && prev <= x.t <= prev + MAX_SAMPLE_GAP_US
    ensures var (s', f) := Step(s, x.clk, x.data, x.t);
            var eff := EffectOf(s, g, x);
            InFlight(s', eff.inFlight) && Fresh(eff.inFlight, x.t)
            && |eff.done| == |Frames(f)| <= 1
            && (eff.done != [] ==> 0 < |eff.done[0]| <= AT_BIT_COUNT
                                   && ShapeOf(f.value) == FrameOf(eff.done[0]))
  {
    hide Step, Pack, Periods, BuildFrame, FrameOf, ShapeOf, EmitOnTimeout, Accepts, AddBit, StartFrame, Datas;
    TimesOutIffStale(s, g, prev, x.t);
    if Stale(g, x.t) {
      TimeoutStep(s, x.clk, x.data, x.t);
      BuiltFromGroup(s, g);
    } else if !Accepts(s, x.clk, x.t) {
      QuietStep(s, x.clk, x.data, x.t);
    } else {
      AcceptRefines(s, g, x);
    }
  }

  lemma AcceptRefines(s: State, g: Group, x: Sample)
    requires InFlight(s, g) && Accepts(s, x.clk, x.t)
    requires g != [] ==> g[|g| - 1].t <= x.t < g[|g| - 1].t + IDLE_TIMEOUT_US
    ensures var (s', f) := Step(s, x.clk, x.data, x.t);
            var g' := g + [Edge(x.t, x.data)];
            if |g'| == AT_BIT_COUNT then InFlight(s', []) && f.Some? && ShapeOf(f.value) == FrameOf(g')
            else InFlight(s', g') && f == None
  {
    hide Step, Pack, Periods, BuildFrame, FrameOf, ShapeOf, Accepts, AddBit, StartFrame, Datas;
    AcceptStep(s, x.clk, x.data, x.t);
    var e := Edge(x.t, x.data);
    var s1 := Sampled(s, x.clk, x.data, x.t).(lastEdgeUs := x.t);
    if g == [] {
      StartInFlight(s1, e);
      assert g + [e] == [e];
    } else {
      AddInFlight(s1, g, e);
      if |g| + 1 == AT_BIT_COUNT {
        BuiltFromGroup(AddBit(s1, |g|, e.data, e.t), g + [e]);
      }
    }
  }

  // ------------------------------------------------------------ whole runs

  function First(s: State, x: Sample): seq<Edge> {
    if Accepts(s, x.clk, x.t) then [Edge(x.t, x.data)] else []
  }

  lemma RunUnfold(s: State, xs: seq<Sample>)
    requires s.Valid() && xs != []
    ensures var (s', f) := Step(s, xs[0].clk, xs[0].data, xs[0].t);
            Run(s, xs) == (Run(s', xs[1..]).0, Frames(f) + Run(s', xs[1..]).1)
            && Edges(s, xs) == First(s, xs[0]) + Edges(s', xs[1..])
  {
    hide Step, Accepts;
  }

  lemma OrderedCons(first: seq<Edge>, es: seq<Edge>, prev: Micros, t: Micros)
    requires prev <= t && |first| <= 1 && (first != [] ==> first[0].t == t)
    requires Ordered(es) && forall i :: 0 <= i < |es| ==> t <= es[i].t
    ensures Ordered(first + es) && forall i :: 0 <= i < |first + es| ==> prev <= (first + es)[i].t
  {
  }

  lemma {:induction false} EdgesInOrder(s: State, prev: Micros, xs: seq<Sample>)
    requires s.Valid() && Paced(prev, xs)
    ensures Ordered(Edges(s, xs)) && prev <= Now(prev, xs)
    ensures forall i :: 0 <= i < |Edges(s, xs)| ==> prev <= Edges(s, xs)[i].t
    decreases |xs|
  {
    hide Step, Accepts, Edges;
    if xs == [] {
      assert Edges(s, xs) == [] by { NoEdges(s); }
    } else {
      var s' := Step(s, xs[0].clk, xs[0].data, xs[0].t).0;
      RunUnfold(s, xs);
      EdgesInOrder(s', xs[0].t, xs[1..]);
      OrderedCons(First(s, xs[0]), Edges(s', xs[1..]), prev, xs[0].t);
    }
  }

  lemma NoEdges(s: State)
    requires s.Valid()
    ensures Edges(s, []) == [] && Run(s, []) == (s, [])
  {
  }

  /** Nothing is stale before its time. */
  lemma NotYetStale(g: Group, t: Micros, es: seq<Edge>, now: Micros)
    requires t <= NextTime(es, now) && Stale(g, t)
    ensures Stale(g, NextTime(es, now))
  {
  }

  /** One sample accounts for one step of the cut. */
  lemma CutStep(s: State, g: Group, x: Sample, es: seq<Edge>, now: Micros)
    requires |g| < AT_BIT_COUNT && x.t <= NextTime(es, now)
    requires Stale(g, x.t) ==> !Accepts(s, x.clk, x.t)
    ensures var eff := EffectOf(s, g, x);
            var all := First(s, x) + es;
            |eff.inFlight| < AT_BIT_COUNT
            && Cut(g, all, now) == eff.done + Cut(eff.inFlight, es, now)
            && Open(g, all, now) == Open(eff.inFlight, es, now)
  {
    hide Accepts, Cut, Open, Stale;
    var e := Edge(x.t, x.data);
    if Accepts(s, x.clk, x.t) {
      var all := [e] + es;
      assert all[0] == e && all[1..] == es;
      CutUnfold(g, all, now);
      if |g| + 1 < AT_BIT_COUNT {
        assert [] + Cut(g + [e], es, now) == Cut(g + [e], es, now);
      }
    } else {
      assert [] + es == es;
      if Stale(g, x.t) {
        NotYetStale(g, x.t, es, now);
        CutUnfold(g, es, now);
      } else {
        assert [] + Cut(g, es, now) == Cut(g, es, now);
      }
    }
  }

  lemma {:induction false} RunRefines(s: State, g: Group, prev: Micros, xs: seq<Sample>)
    requires InFlight(s, g) && Fresh(g, prev) && Paced(prev, xs)
    ensures var es, now := Edges(s, xs), Now(prev, xs);
            ShapesOf(Run(s, xs).1) == FramesOf(Cut(g, es, now))
            && InFlight(Run(s, xs).0, Open(g, es, now))
    decreases |xs|
  {
    hide *;
    ValidInFlight(s, g);
    if xs == [] {
      NoEdges(s);
      NothingToCut(g, prev);
      NowAt(prev, xs);
      NoFrames();
    } else {
      PacedUnfold(prev, xs);
      NowAt(prev, xs);
      var x, rest := xs[0], xs[1..];
      var (s', f) := Step(s, x.clk, x.data, x.t);
      var eff := EffectOf(s, g, x);
      StepRefines(s, g, prev, x);
      StaleNotAccepted(s, g, prev, x);
      RunUnfold(s, xs);
      RunRefines(s', eff.inFlight, x.t, rest);
      ValidInFlight(s', eff.inFlight);
      EdgesInOrder(s', x.t, rest);
      var es, now := Edges(s', rest), Now(x.t, rest);
      NextTimeAt(es, now, x.t);
      CutStep(s, g, x, es, now);
      FramesMatch(f, eff.done);
      ShapesConcat(Frames(f), Run(s', rest).1);
      FramesConcat(eff.done, Cut(eff.inFlight, es, now));
    }
  }

  lemma PacedUnfold(prev: Micros, xs: seq<Sample>)
    requires Paced(prev, xs) && xs != []
    ensures prev <= xs[0].t <= prev + MAX_SAMPLE_GAP_US && Paced(xs[0].t, xs[1..])
  {
  }

  lemma NowAt(prev: Micros, xs: seq<Sample>)
    ensures xs == [] ==> Now(prev, xs) == prev
    ensures xs != [] ==> Now(prev, xs) == Now(xs[0].t, xs[1..])
  {
  }

  lemma NextTimeAt(es: seq<Edge>, now: Micros, t: Micros)
    requires t <= now && forall i :: 0 <= i < |es| ==> t <= es[i].t
    ensures t <= NextTime(es, now)
  {
  }

  lemma NoFrames()
    ensures ShapesOf([]) == [] && FramesOf([]) == []
  {
  }

  lemma FramesMatch(f: Option<Ps2Frame>, done: seq<Group>)
    requires |done| == |Frames(f)|
    requires done != [] ==> 0 < |done[0]| <= AT_BIT_COUNT && ShapeOf(f.value) == FrameOf(done[0])
    ensures forall i :: 0 <= i < |done| ==> 0 < |done[i]| <= AT_BIT_COUNT
    ensures ShapesOf(Frames(f)) == FramesOf(done)
  {
    hide ShapeOf, FrameOf;
    if f.Some? {
      assert done[1..] == [] && Frames(f)[1..] == [];
    }
  }

  lemma ValidInFlight(s: State, g: Group)
    requires InFlight(s, g)
    ensures s.Valid() && |g| < AT_BIT_COUNT
  {
  }

  lemma NothingToCut(g: Group, now: Micros)
    requires |g| < AT_BIT_COUNT && Fresh(g, now)
    ensures Cut(g, [], now) == [] && Open(g, [], now) == g
  {
  }

  lemma StaleNotAccepted(s: State, g: Group, prev: Micros, x: Sample)
    requires InFlight(s, g) && Fresh(g, prev) && prev <= x.t <= prev + MAX_SAMPLE_GAP_US
    ensures Stale(g, x.t) ==> !Accepts(s, x.clk, x.t)
  {
    TimesOutIffStale(s, g, prev, x.t);
  }

  lemma {:induction false} ShapesConcat(a: seq<Ps2Frame>, b: seq<Ps2Frame>)
    ensures ShapesOf(a + b) == ShapesOf(a) + ShapesOf(b)
  {
    hide ShapeOf;
    if a == [] {
      assert a + b == b;
    } else {
      ShapesConcat(a[1..], b);
      assert (a + b)[1..] == a[1..] + b;
      AssocShapes([ShapeOf(a[0])], ShapesOf(a[1..]), ShapesOf(b));
    }
  }

  lemma AssocShapes(a: seq<Shape>, b: seq<Shape>, c: seq<Shape>)
    ensures a + (b + c) == (a + b) + c
  {
  }

  lemma {:induction false} FramesConcat(a: seq<Group>, b: seq<Group>)
    requires forall i :: 0 <= i < |a| ==> 0 < |a[i]| <= AT_BIT_COUNT
    requires forall i :: 0 <= i < |b| ==> 0 < |b[i]| <= AT_BIT_COUNT
    ensures FramesOf(a + b) == FramesOf(a) + FramesOf(b)
  {
    hide FrameOf;
    if a == [] {
      assert a + b == b;
    } else {
      FramesConcat(a[1..], b);
      assert (a + b)[1..] == a[1..] + b;
      AssocShapes([FrameOf(a[0])], FramesOf(a[1..]), FramesOf(b));
      hide FramesOf;
    }
  }

  /** Fresh from `new`, over any paced sample stream: the accepted edges have a
      segmentation, and the frames emitted are exactly its completed groups, in order,
      with every bit and period in place. */
  lemma FramerRefinesSegmentation(xs: seq<Sample>, gs: seq<Group>, open: Group)
    requires xs != [] && Paced(xs[0].t, xs)
    ensures var es, now := Edges(InitState, xs), xs[|xs| - 1].t;
            IsSegmentation(Cut([], es, now), Open([], es, now), es, now)
    ensures var es, now := Edges(InitState, xs), xs[|xs| - 1].t;
            IsSegmentation(gs, open, es, now) ==>
              (forall i :: 0 <= i < |gs| ==> 0 < |gs[i]| <= AT_BIT_COUNT)
              && ShapesOf(Run(InitState, xs).1) == FramesOf(gs)
              && InFlight(Run(InitState, xs).0, open)
  {
    var prev := xs[0].t;
    var es, now := Edges(InitState, xs), Now(prev, xs);
    assert InFlight(InitState, []);
    hide Edges, Cut, Open, IsSegmentation, Run, InFlight, FramesOf, ShapesOf;
    EdgesInOrder(InitState, prev, xs);
    RunRefines(InitState, [], prev, xs);
    assert [] + es == es;
    CutIsSegmentation([], es, now);
    if IsSegmentation(gs, open, es, now) {
      SegmentationUnique(gs, open, Cut([], es, now), Open([], es, now), es, now);
    }
  }

  function Sum(ps: seq<nat>): nat {
    if ps == [] then 0 else ps[0] + Sum(ps[1..])
  }

  lemma PeriodAt(g: Group, i: nat)
    requires Chain(g) && i < SLOTS
    ensures Periods(g)[i] == if i + 1 < |g| then g[i + 1].t - g[i].t else 0
  {
  }

  lemma {:induction false} SumFrom(g: Group, i: nat)
    requires 0 < |g| <= AT_BIT_COUNT && Chain(g) && i <= SLOTS
    ensures Sum(Periods(g)[i..]) == (if i < |g| then g[|g| - 1].t - g[i].t else 0)
    decreases SLOTS - i
  {
    if i < SLOTS {
      PeriodAt(g, i);
      hide Periods, Chain;
      SumFrom(g, i + 1);
      assert Periods(g)[i..][1..] == Periods(g)[i + 1..];
    }
  }

  /** The recorded bit periods of a frame add up to its whole duration. */
  lemma PeriodsAddUp(g: Group)
    requires 0 < |g| <= AT_BIT_COUNT && Chain(g)
    ensures Sum(FrameOf(g).periodsUs) == g[|g| - 1].t - FrameOf(g).startUs
  {
    SumFrom(g, 0);
    assert Periods(g)[0..] == Periods(g);
  }

  // ------------------------------------------------------------ skew

  /** The skew register and the time it is taken from. */
  ghost predicate SkewOk(s: State, now: Micros) {
    s.lastDataChangeUs <= now && 0 <= s.skewUs <= 127
  }

  /** The skew taken at a start edge is negative exactly if DATA last changed 2^63 us or more
      before it. */
  lemma SkewSign(s: State, data: bool, t: Micros)
    requires s.lastDataChangeUs <= t
    ensures StartFrame(s, data, t).skewUs < 0 <==> t - s.lastDataChangeUs >= 0x8000_0000_0000_0000
  {
    hide Placed, NoPeriods;
  }

  lemma SkewBound(s: State, data: bool, t: Micros)
    requires s.lastDataChangeUs <= t
    ensures StartFrame(s, data, t).skewUs <= 127
  {
    hide Placed, NoPeriods, WrapI64;
  }

  lemma SkewStep(s: State, prev: Micros, x: Sample)
    requires s.Valid() && SkewOk(s, prev) && prev <= x.t < 0x8000_0000_0000_0000
    ensures var (s', f) := Step(s, x.clk, x.data, x.t);
            SkewOk(s', x.t) && (f.Some? ==> 0 <= f.value.skewUs <= 127)
  {
    hide Taken, DataOf, OddOnes, Placed, NoPeriods, WrapI64, ClampI8;
    if Accepts(s, x.clk, x.t) {
      AcceptStep(s, x.clk, x.data, x.t);
      SkewSign(Sampled(s, x.clk, x.data, x.t).(lastEdgeUs := x.t), x.data, x.t);
      SkewBound(Sampled(s, x.clk, x.data, x.t).(lastEdgeUs := x.t), x.data, x.t);
      hide Step;
    }
  }

  lemma {:induction false} SkewRun(s: State, prev: Micros, xs: seq<Sample>)
    requires s.Valid() && SkewOk(s, prev) && Paced(prev, xs)
    requires forall i :: 0 <= i < |xs| ==> xs[i].t < 0x8000_0000_0000_0000
    ensures forall i :: 0 <= i < |Run(s, xs).1| ==> 0 <= Run(s, xs).1[i].skewUs <= 127
    decreases |xs|
  {
    hide Step, Accepts, Run, Edges;
    if xs == [] {
      NoEdges(s);
    } else {
      var (s', f) := Step(s, xs[0].clk, xs[0].data, xs[0].t);
      SkewStep(s, prev, xs[0]);
      SkewRun(s', xs[0].t, xs[1..]);
      RunUnfold(s, xs);
    }
  }

  /** The recorded CLK-to-DATA skew, though signed, is never negative while the clock is below
      2^63: it is measured from the last DATA change seen, which is never later than the start
      edge.  `SkewSign` says exactly when the signed difference goes wrong. */
  lemma SkewNeverNegative(xs: seq<Sample>, i: nat)
    requires xs != [] && Paced(xs[0].t, xs) && i < |Run(InitState, xs).1|
    requires forall j :: 0 <= j < |xs| ==> xs[j].t < 0x8000_0000_0000_0000
    ensures 0 <= Run(InitState, xs).1[i].skewUs <= 127
  {
    assert SkewOk(InitState, xs[0].t);
    SkewRun(InitState, xs[0].t, xs);
    hide Run;
  }
}
