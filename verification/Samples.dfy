/** What the framer's noise registers say about the raw samples: which falls of CLK clock a
    bit, how many edges of a frame were too quick to count, and how long before its start
    DATA had last moved. */
module Samples {
  import opened Wrappers
  import opened Framer
  import opened Segmentation
  import opened FramerRefinement
  import opened RoundTrip

  // ------------------------------------------------------------ one run, sample by sample

  /** The state before sample number `n`. */
  function Before(xs: seq<Sample>, n: nat): (s: State)
    requires n <= |xs|
    ensures s.Valid()
  {
    Run(InitState, xs[..n]).0
  }

  /** The frame that sample number `n` completes or gives up. */
  function Output(xs: seq<Sample>, n: nat): Option<Ps2Frame>
    requires n < |xs|
  {
    Step(Before(xs, n), xs[n].clk, xs[n].data, xs[n].t).1
  }

  /** A frame was given up at sample `n`: what came out is not a complete AT frame. */
  predicate Flushed(xs: seq<Sample>, n: nat)
    requires n < |xs|
  {
    Output(xs, n).Some? && Output(xs, n).value.kind != At
  }

  predicate ClkChange(xs: seq<Sample>, i: nat) {
    0 < i < |xs| && xs[i].clk != xs[i - 1].clk
  }

  predicate DataChange(xs: seq<Sample>, i: nat) {
    i < |xs| && (i == 0 || xs[i].data != xs[i - 1].data)
  }

  /** The last change of CLK before sample `n`. */
  function LastChange(xs: seq<Sample>, n: nat): (e: Option<nat>)
    requires n <= |xs|
    ensures e.Some? ==> e.value < n && ClkChange(xs, e.value)
    ensures forall i :: (if e.Some? then e.value + 1 else 0) <= i < n ==> !ClkChange(xs, i)
  {
    if n == 0 then None else if ClkChange(xs, n - 1) then Some(n - 1) else LastChange(xs, n - 1)
  }

  /** The same, less the changes in samples that gave up a frame. */
  function LastNoted(xs: seq<Sample>, n: nat): (e: Option<nat>)
    requires n <= |xs|
    ensures e.Some? ==> e.value < n && ClkChange(xs, e.value) && !Flushed(xs, e.value)
    ensures forall i :: (if e.Some? then e.value + 1 else 0) <= i < n ==> !ClkChange(xs, i) || Flushed(xs, i)
  {
    hide Flushed;
    if n == 0 then None
    else if ClkChange(xs, n - 1) && !Flushed(xs, n - 1) then Some(n - 1)
    else LastNoted(xs, n - 1)
  }

  /** The last change of DATA up to sample `n`. */
  function LastData(xs: seq<Sample>, n: nat): (d: nat)
    requires n < |xs|
    ensures d <= n && DataChange(xs, d) && forall i :: d < i <= n ==> !DataChange(xs, i)
  {
    if DataChange(xs, n) then n else LastData(xs, n - 1)
  }

  /** The same, less the changes in samples that gave up a frame. */
  function LastNotedData(xs: seq<Sample>, n: nat): (d: nat)
    requires n < |xs|
    ensures d <= n && DataChange(xs, d) && (d > 0 ==> !Flushed(xs, d))
    ensures forall i :: d < i <= n ==> !DataChange(xs, i) || Flushed(xs, i)
  {
    hide Flushed;
    if n == 0 || (DataChange(xs, n) && !Flushed(xs, n)) then n else LastNotedData(xs, n - 1)
  }

  /** CLK changed at sample `i` less than 4 us after it changed before. */
  predicate Quick(xs: seq<Sample>, i: nat) {
    ClkChange(xs, i) && LastChange(xs, i).Some? && xs[i].t - xs[LastChange(xs, i).value].t < 4
  }

  /** How many of the samples after `k` and before `n` are quick changes. */
  function Quicks(xs: seq<Sample>, k: nat, n: nat): nat
    requires n <= |xs|
  {
    if n <= k + 1 then 0 else Quicks(xs, k, n - 1) + (if Quick(xs, n - 1) then 1 else 0)
  }

  /** A distance in time as the signed byte shows it. */
  function Shown(us: int): int {
    if us < 127 then us
    else if us < 0x8000_0000_0000_0000 then 127
    else if us < 0x1_0000_0000_0000_0000 - 128 then -128
    else us - 0x1_0000_0000_0000_0000
  }

  // ------------------------------------------------------------ stepping

  lemma RunOne(s: State, x: Sample)
    requires s.Valid()
    ensures var (s', f) := Step(s, x.clk, x.data, x.t); Run(s, [x]) == (s', Frames(f))
  {
    hide Step, Run, Accepts;
    RunUnfold(s, [x]);
    NoEdges(Step(s, x.clk, x.data, x.t).0);
    assert [x][1..] == [];
    var fs := Frames(Step(s, x.clk, x.data, x.t).1);
    assert fs + [] == fs;
  }

  /** The frames so far, and the state, one sample on. */
  lemma OneMore(xs: seq<Sample>, n: nat)
    requires n < |xs|
    ensures Before(xs, n + 1) == Step(Before(xs, n), xs[n].clk, xs[n].data, xs[n].t).0
    ensures Run(InitState, xs[..n + 1]).1 == Run(InitState, xs[..n]).1 + Frames(Output(xs, n))
  {
    hide Step, Run;
    assert xs[..n + 1] == xs[..n] + [xs[n]];
    RunConcat(InitState, xs[..n], [xs[n]]);
    RunOne(Before(xs, n), xs[n]);
  }

  lemma AtStart(xs: seq<Sample>)
    ensures Before(xs, 0) == InitState && Run(InitState, xs[..0]).1 == []
  {
    hide Step;
  }

  lemma Emits(s: State, clk: bool, data: bool, t: Micros)
    requires s.Valid()
    ensures var f := Step(s, clk, data, t).1; TimesOut(s, t) <==> f.Some? && f.value.kind != At
  {
    hide DataOf, Taken, OddOnes, Placed;
  }

  lemma FlushedIff(xs: seq<Sample>, n: nat)
    requires n < |xs|
    ensures Flushed(xs, n) <==> TimesOut(Before(xs, n), xs[n].t)
  {
    hide Step, Before, TimesOut;
    Emits(Before(xs, n), xs[n].clk, xs[n].data, xs[n].t);
  }

  // ------------------------------------------------------------ the levels and the edges

  predicate InOrder(xs: seq<Sample>) {
    forall i, j :: 0 <= i < j < |xs| ==> xs[i].t <= xs[j].t
  }

  /** What the registers outside a frame hold. */
  ghost predicate Noted(xs: seq<Sample>, n: nat, s: State)
    requires n <= |xs|
  {
    (if n == 0 then s == InitState
     else s.lastClk == Some(xs[n - 1].clk) && s.lastData == Some(xs[n - 1].data)
          && s.lastDataChangeUs == xs[LastNotedData(xs, n - 1)].t)
    && s.lastEdgeUs == (if LastNoted(xs, n).Some? then xs[LastNoted(xs, n).value].t else 0)
  }

  /** What a sample does to the registers outside a frame. */
  lemma StepNotes(s: State, clk: bool, data: bool, t: Micros)
    requires s.Valid()
    ensures var s' := Step(s, clk, data, t).0;
            s'.lastClk == Some(clk) && s'.lastData == Some(data)
            && s'.lastDataChangeUs == (if !TimesOut(s, t) && s.lastData != Some(data) then t else s.lastDataChangeUs)
            && s'.lastEdgeUs == (if !TimesOut(s, t) && ClkChanged(s, clk) then t else s.lastEdgeUs)
  {
    hide DataOf, Taken, OddOnes, Placed, WrapI64, ClampI8;
  }

  lemma {:induction false} StateIsNoted(xs: seq<Sample>, n: nat)
    requires n <= |xs|
    ensures Noted(xs, n, Before(xs, n))
  {
    hide Step, Before, TimesOut, Flushed, Run;
    if n == 0 {
      AtStart(xs);
    } else {
      var s := Before(xs, n - 1);
      StateIsNoted(xs, n - 1);
      OneMore(xs, n - 1);
      StepNotes(s, xs[n - 1].clk, xs[n - 1].data, xs[n - 1].t);
      FlushedIff(xs, n - 1);
      if n == 1 {
        IdleNeverTimesOut(xs[0].t);
      }
    }
  }

  lemma IdleNeverTimesOut(t: Micros)
    ensures !TimesOut(InitState, t) && InitState.lastData == None && InitState.lastClk == None
  {
  }

  lemma AcceptsMeans(s: State, clk: bool, t: Micros)
    requires s.lastEdgeUs <= t
    ensures Accepts(s, clk, t) <==>
              !TimesOut(s, t) && s.lastClk == Some(true) && !clk && (t - s.lastEdgeUs) % 0x1_0000_0000 >= 4
  {
    hide TimesOut;
  }

  /** Which samples clock a bit: a fall of CLK that gives up no frame and comes, as the
      truncated duration reads, at least 4 us after the last noted change of CLK. */
  lemma ClocksIff(xs: seq<Sample>, n: nat)
    requires n < |xs| && InOrder(xs)
    ensures var since := if LastNoted(xs, n).Some? then xs[LastNoted(xs, n).value].t else 0;
            Accepts(Before(xs, n), xs[n].clk, xs[n].t)
            <==> ClkChange(xs, n) && !xs[n].clk && !Flushed(xs, n) && (xs[n].t - since) % 0x1_0000_0000 >= 4
  {
    hide Before, Step, TimesOut, Accepts, Flushed, LastNotedData, LastNoted;
    StateIsNoted(xs, n);
    FlushedIff(xs, n);
    AcceptsMeans(Before(xs, n), xs[n].clk, xs[n].t);
  }

  // ------------------------------------------------------------ inside a frame

  function Saturated(n: nat): nat { if n < 255 then n else 255 }

  /** The frame in flight before sample `n` started with sample `k`. */
  ghost predicate InFrame(xs: seq<Sample>, n: nat, k: nat, s: State)
    requires n <= |xs|
  {
    0 < k < n && xs[k - 1].clk && !xs[k].clk
    && s.phase.Receiving? && s.frameStartUs == xs[k].t
    && s.skewUs == Shown(xs[k].t - xs[LastNotedData(xs, k)].t)
    && s.glitches == Saturated(Quicks(xs, k, n))
    && LastChange(xs, n).Some? && k <= LastChange(xs, n).value && s.lastEdgeUs == xs[LastChange(xs, n).value].t
    && Recent(s, xs[n - 1].t)
  }

  /** The last clocking edge, and the last edge of all, as seen at time `now` in a frame. */
  predicate Recent(s: State, now: Micros) {
    s.lastFallingUs <= s.lastEdgeUs <= now < s.lastFallingUs + IDLE_TIMEOUT_US
  }

  lemma ShownIs(us: int)
    requires 0 <= us < 0x1_0000_0000_0000_0000
    ensures ClampI8(WrapI64(us)) == Shown(us)
  {
  }

  /** A sample outside a frame may start one. */
  lemma IdleStep(s: State, clk: bool, data: bool, t: Micros)
    requires s.Valid() && s.phase.Idle?
    ensures var (s', f) := Step(s, clk, data, t);
            f == None
            && (s'.phase.Receiving? ==>
                  s.lastClk == Some(true) && !clk && s'.frameStartUs == t && s'.glitches == 0
                  && s'.skewUs == ClampI8(WrapI64(t - s'.lastDataChangeUs))
                  && s'.lastEdgeUs == t && Recent(s', t))
  {
    hide Placed, ClampI8, WrapI64, NoPeriods;
  }

  /** A sample inside a frame counts a quick change of CLK, and what comes out carries the
      count so far. */
  lemma FrameStep(s: State, clk: bool, data: bool, prev: Micros, t: Micros)
    requires s.Valid() && s.phase.Receiving? && Recent(s, prev) && prev <= t <= prev + MAX_SAMPLE_GAP_US
    ensures var (s', f) := Step(s, clk, data, t);
            (f.Some? ==> f.value.startUs == s.frameStartUs && f.value.skewUs == s.skewUs
                         && f.value.glitches == s.glitches)
            && (s'.phase.Receiving? ==>
                  s'.frameStartUs == s.frameStartUs && s'.skewUs == s.skewUs && Recent(s', t)
                  && s'.lastEdgeUs == (if ClkChanged(s, clk) then t else s.lastEdgeUs)
                  && s'.glitches == (if ClkChanged(s, clk) && t - s.lastEdgeUs < 4
                                     then (if s.glitches < 255 then s.glitches + 1 else 255) else s.glitches))
            && (s'.phase.Idle? ==> f.Some?)
  {
    hide Placed, DataOf, Taken, OddOnes, NoPeriods;
  }

  lemma {:induction false} PacedAt(xs: seq<Sample>, prev: Micros, n: nat)
    requires n < |xs| && Paced(prev, xs)
    ensures var before := if n == 0 then prev else xs[n - 1].t; before <= xs[n].t <= before + MAX_SAMPLE_GAP_US
    decreases n
  {
    if n > 0 {
      PacedAt(xs[1..], xs[0].t, n - 1);
    }
  }

  lemma {:induction false} PacedInOrder(xs: seq<Sample>, prev: Micros)
    requires Paced(prev, xs)
    ensures InOrder(xs) && forall i :: 0 <= i < |xs| ==> prev <= xs[i].t
    decreases |xs|
  {
    if xs != [] {
      PacedInOrder(xs[1..], xs[0].t);
      assert forall i :: 0 < i < |xs| ==> xs[i] == xs[1..][i - 1];
    }
  }

  lemma StartsFrame(xs: seq<Sample>, n: nat)
    requires n < |xs| && InOrder(xs) && Before(xs, n).phase.Idle? && Before(xs, n + 1).phase.Receiving?
    ensures InFrame(xs, n + 1, n, Before(xs, n + 1))
  {
    hide *;
    StateIsNoted(xs, n);
    StateIsNoted(xs, n + 1);
    NotedMeans(xs, n, Before(xs, n));
    NotedMeans(xs, n + 1, Before(xs, n + 1));
    OneMore(xs, n);
    IdleStep(Before(xs, n), xs[n].clk, xs[n].data, xs[n].t);
    Started(xs, n, Before(xs, n + 1));
  }

  lemma NotedMeans(xs: seq<Sample>, n: nat, s: State)
    requires n <= |xs| && Noted(xs, n, s)
    ensures n == 0 ==> s.lastClk == None
    ensures n > 0 ==> s.lastClk == Some(xs[n - 1].clk) && s.lastDataChangeUs == xs[LastNotedData(xs, n - 1)].t
  {
    hide LastNotedData, LastNoted;
  }

  lemma Started(xs: seq<Sample>, n: nat, s: State)
    requires 0 < n < |xs| && InOrder(xs) && xs[n - 1].clk && !xs[n].clk && s.phase.Receiving?
    requires s.frameStartUs == xs[n].t && s.glitches == 0 && s.lastDataChangeUs == xs[LastNotedData(xs, n)].t
    requires s.skewUs == ClampI8(WrapI64(xs[n].t - s.lastDataChangeUs))
    requires Recent(s, xs[n].t) && s.lastEdgeUs == xs[n].t
    ensures InFrame(xs, n + 1, n, s)
  {
    hide LastNotedData, WrapI64, ClampI8, Shown;
    ShownIs(xs[n].t - s.lastDataChangeUs);
  }

  lemma StaysInFrame(xs: seq<Sample>, n: nat, k: nat)
    requires n < |xs| && InFrame(xs, n, k, Before(xs, n)) && Before(xs, n + 1).phase.Receiving?
    requires xs[n - 1].t <= xs[n].t <= xs[n - 1].t + MAX_SAMPLE_GAP_US
    ensures InFrame(xs, n + 1, k, Before(xs, n + 1))
  {
    hide Step, Before, LastNotedData, LastNoted, Shown;
    StateIsNoted(xs, n);
    OneMore(xs, n);
    FrameStep(Before(xs, n), xs[n].clk, xs[n].data, xs[n - 1].t, xs[n].t);
  }

  lemma {:induction false} FrameTracked(xs: seq<Sample>, n: nat) returns (k: nat)
    requires n <= |xs| && xs != [] && Paced(xs[0].t, xs)
    ensures Before(xs, n).phase.Receiving? ==> InFrame(xs, n, k, Before(xs, n))
  {
    hide Step, Before, InFrame, Paced;
    k := 0;
    if n == 0 {
      AtStart(xs);
    } else if Before(xs, n).phase.Receiving? {
      if Before(xs, n - 1).phase.Idle? {
        k := n - 1;
        PacedInOrder(xs, xs[0].t);
        StartsFrame(xs, n - 1);
      } else {
        k := FrameTracked(xs, n - 1);
        InFrameStarted(xs, n - 1, k);
        PacedAt(xs, xs[0].t, n - 1);
        StaysInFrame(xs, n - 1, k);
      }
    }
  }

  lemma InFrameStarted(xs: seq<Sample>, n: nat, k: nat)
    requires n <= |xs| && InFrame(xs, n, k, Before(xs, n))
    ensures 0 < k < n
  {
  }

  // ------------------------------------------------------------ what a frame reports

  /** Sample `k` starts, and sample `n` ends, the frame `f`: its glitch count is the number of
      quick changes of CLK in between, up to 255, and its skew how long DATA had not moved
      when it started. */
  ghost predicate Reports(xs: seq<Sample>, n: nat, k: nat, f: Ps2Frame) {
    0 < k < n < |xs| && xs[k - 1].clk && !xs[k].clk && f.startUs == xs[k].t
    && f.glitches == Saturated(Quicks(xs, k, n))
    && f.skewUs == Shown(xs[k].t - xs[LastNotedData(xs, k)].t)
  }

  lemma OutputReports(xs: seq<Sample>, n: nat) returns (k: nat)
    requires n < |xs| && Paced(xs[0].t, xs) && Output(xs, n).Some?
    ensures Reports(xs, n, k, Output(xs, n).value)
  {
    hide Step, Before, LastNotedData, Shown, Paced, Quicks;
    k := FrameTracked(xs, n);
    var s := Before(xs, n);
    if s.phase.Idle? {
      IdleStep(s, xs[n].clk, xs[n].data, xs[n].t);
    } else {
      PacedAt(xs, xs[0].t, n);
      FrameStep(s, xs[n].clk, xs[n].data, xs[n - 1].t, xs[n].t);
    }
  }

  /** Over every paced stream, frame number `i` of the run comes out at a sample `n` after `i`
      others, and reports the noise between the sample that started it and that one. */
  lemma {:induction false} FramesReportNoise(xs: seq<Sample>, i: nat) returns (n: nat, k: nat)
    requires xs != [] && Paced(xs[0].t, xs) && i < |Run(InitState, xs).1|
    ensures n < |xs| && |Run(InitState, xs[..n]).1| == i && Output(xs, n) == Some(Run(InitState, xs).1[i])
    ensures Reports(xs, n, k, Run(InitState, xs).1[i])
  {
    hide *;
    assert xs[..|xs|] == xs;
    n := FindFrame(xs, |xs|, i);
    k := OutputReports(xs, n);
  }

  lemma {:induction false} FindFrame(xs: seq<Sample>, m: nat, i: nat) returns (n: nat)
    requires m <= |xs| && i < |Run(InitState, xs[..m]).1|
    ensures n < m && |Run(InitState, xs[..n]).1| == i && Output(xs, n) == Some(Run(InitState, xs[..m]).1[i])
    decreases m
  {
    hide Run, Output;
    AtStart(xs);
    n := m - 1;
    OneMore(xs, n);
    if i < |Run(InitState, xs[..n]).1| {
      n := FindFrame(xs, n, i);
    }
  }

  /** The skew is the distance to the last change of DATA, unless that change came in a sample
      that gave up a frame: then the framer has forgotten it and reports an earlier one, which
      shows exactly if the true distance is below 127 us. */
  lemma SkewIsLastChangeIff(xs: seq<Sample>, n: nat, k: nat, f: Ps2Frame)
    requires Reports(xs, n, k, f) && InOrder(xs) && xs[k].t < 0x8000_0000_0000_0000
    ensures var r, d := LastData(xs, k), LastNotedData(xs, k);
            d <= r
            && (f.skewUs == (if xs[k].t - xs[r].t < 127 then xs[k].t - xs[r].t else 127)
                <==> r == 0 || !Flushed(xs, r) || xs[k].t - xs[r].t >= 127 || xs[d].t == xs[r].t)
  {
    hide Flushed, Quicks;
  }

  ghost predicate Holds(s: State, phase: Phase, clk: bool, data: bool, edge: Micros, change: Micros) {
    s.Valid() && s.phase == phase && s.lastClk == Some(clk) && s.lastData == Some(data)
    && s.lastEdgeUs == edge && s.lastDataChangeUs == change
  }

  lemma ForgetsFirst(s: State)
    requires s == InitState
    ensures Holds(Step(s, true, true, 100).0, Idle, true, true, 0, 100)
  {
  }

  lemma ForgetsStart(s: State)
    requires Holds(s, Idle, true, true, 0, 100)
    ensures var s' := Step(s, false, false, 110).0;
            Holds(s', Receiving(1), false, false, 110, 110) && s'.lastFallingUs == 110
  {
    hide Placed, NoPeriods;
  }

  lemma ForgetsRise(s: State)
    requires Holds(s, Receiving(1), false, false, 110, 110) && s.lastFallingUs == 110
    ensures var s' := Step(s, true, false, 120).0;
            Holds(s', Receiving(1), true, false, 120, 110) && s'.lastFallingUs == 110
  {
  }

  lemma ForgetsFlush(s: State)
    requires Holds(s, Receiving(1), true, false, 120, 110) && s.lastFallingUs == 110
    ensures TimesOut(s, 310) && Holds(Step(s, true, true, 310).0, Idle, true, true, 120, 110)
  {
    hide NoPeriods;
  }

  lemma ForgetsRestart(s: State)
    requires Holds(s, Idle, true, true, 120, 110)
    ensures var s' := Step(s, false, true, 320).0;
            Holds(s', Receiving(1), false, true, 320, 110) && s'.lastFallingUs == s'.frameStartUs == 320
            && s'.skewUs == 127
  {
    hide Placed, NoPeriods;
  }

  lemma ForgetsEnd(s: State)
    requires Holds(s, Receiving(1), false, true, 320, 110)
    requires s.lastFallingUs == s.frameStartUs == 320 && s.skewUs == 127
    ensures var f := Step(s, true, true, 520).1; f.Some? && f.value.startUs == 320 && f.value.skewUs == 127
  {
    hide DataOf, NoPeriods;
  }

  /** Such a run: DATA rises in the very sample that gives up a one-bit frame, and the next
      frame starts 10 us later with a skew of 127 instead of 10. */
  lemma FlushForgetsData()
    ensures var xs := [Sample(true, true, 100), Sample(false, false, 110), Sample(true, false, 120),
                       Sample(true, true, 310), Sample(false, true, 320), Sample(true, true, 520)];
            Flushed(xs, 3) && DataChange(xs, 3) && !DataChange(xs, 4)
            && Output(xs, 5).Some? && Output(xs, 5).value.startUs == 320 && Output(xs, 5).value.skewUs == 127
  {
    hide Step, Before, Holds, TimesOut, Flushed;
    var xs := [Sample(true, true, 100), Sample(false, false, 110), Sample(true, false, 120),
               Sample(true, true, 310), Sample(false, true, 320), Sample(true, true, 520)];
    AtStart(xs);
    OneMore(xs, 0);
    OneMore(xs, 1);
    OneMore(xs, 2);
    OneMore(xs, 3);
    OneMore(xs, 4);
    ForgetsFirst(Before(xs, 0));
    ForgetsStart(Before(xs, 1));
    ForgetsRise(Before(xs, 2));
    ForgetsFlush(Before(xs, 3));
    FlushedIff(xs, 3);
    ForgetsRestart(Before(xs, 4));
    ForgetsEnd(Before(xs, 5));
  }
}
