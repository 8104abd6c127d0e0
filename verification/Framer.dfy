/** The PS/2 wire frame extractor (crates/ps2-framer/src/framer.rs).

    `Step` is one call of `ingest` on the abstract state; the class `Framer` holds the
    fields and is proved to follow it.  Timestamps are 64-bit microseconds; the narrowing
    casts and the wrapping signed difference are kept. */
module Framer {
  import opened Wrappers

  const GLITCH_THRESHOLD_US := 4
  const IDLE_TIMEOUT_US := 200
  const XT_BIT_COUNT := 9
  const AT_BIT_COUNT := 11
  const SLOTS := 11

  type Micros = t: int | 0 <= t < 0x1_0000_0000_0000_0000

  datatype FrameKind = At | Xt | Invalid

  datatype Ps2Frame = Ps2Frame(
    kind: FrameKind, data: bv8, parityOk: bool, framingOk: bool, startUs: Micros,
    periodsUs: seq<nat>, skewUs: int, glitches: nat)

  datatype Phase = Idle | Receiving(bits: nat)

  datatype State = State(
    phase: Phase, lastClk: Option<bool>, lastEdgeUs: Micros, assembled: bv16,
    frameStartUs: Micros, lastFallingUs: Micros, periodsUs: seq<nat>, glitches: nat,
    skewUs: int, lastDataChangeUs: Micros, lastData: Option<bool>)
  {
    predicate Valid() {
      |periodsUs| == SLOTS && (phase.Receiving? ==> 1 <= phase.bits < AT_BIT_COUNT)
    }
  }

  // ------------------------------------------------------------- machine arithmetic

  function SaturatingSub(a: nat, b: nat): nat { if a < b then 0 else a - b }

  function AsU32(n: nat): nat { n % 0x1_0000_0000 }

  function AsU16(n: nat): nat { n % 0x1_0000 }

  /** A difference of 64-bit numbers as a signed 64-bit number. */
  function WrapI64(n: int): int {
    var m := n % 0x1_0000_0000_0000_0000;
    if m < 0x8000_0000_0000_0000 then m else m - 0x1_0000_0000_0000_0000
  }

  function ClampI8(n: int): int {
    if n < -128 then -128 else if n > 127 then 127 else n
  }

  /** `1 << i` on 16 bits. */
  function Bit16(i: nat): bv16
    requires i < 16
  {
    match i
    case 0 => 0x0001 case 1 => 0x0002 case 2 => 0x0004 case 3 => 0x0008
    case 4 => 0x0010 case 5 => 0x0020 case 6 => 0x0040 case 7 => 0x0080
    case 8 => 0x0100 case 9 => 0x0200 case 10 => 0x0400 case 11 => 0x0800
    case 12 => 0x1000 case 13 => 0x2000 case 14 => 0x4000 case _ => 0x8000
  }

  /** `u16::from(data) << i`. */
  function Placed(data: bool, i: nat): bv16
    requires i < 16
  {
    if data then Bit16(i) else 0
  }

  /** `(w >> i) & 1`, as a boolean. */
  predicate Taken(w: bv16, i: nat)
    requires i < 16
  {
    w & Bit16(i) != 0
  }

  /** Odd number of ones in a byte, `count_ones() & 1`. */
  predicate OddOnes(b: bv8) {
    var h := b ^ (b >> 4);
    var q := h ^ (h >> 2);
    (q ^ (q >> 1)) & 1 == 1
  }

  // ------------------------------------------------------------- one sample

  /** `[0; 11]`. */
  function NoPeriods(): (z: seq<nat>)
    ensures |z| == SLOTS
  {
    seq(SLOTS, _ => 0)
  }

  const InitState := State(Idle, None, 0, 0, 0, 0, NoPeriods(), 0, 0, 0, None)

  function ResetIdle(s: State): State {
    s.(phase := Idle, assembled := 0, frameStartUs := 0, lastFallingUs := 0,
       periodsUs := NoPeriods(), glitches := 0, skewUs := 0)
  }

  function DataOf(assembled: bv16): bv8 {
    ((assembled >> 1) & 0xFF) as bv8
  }

  function BuildFrame(s: State, totalBits: nat): Ps2Frame {
    var data := DataOf(s.assembled);
    if totalBits == AT_BIT_COUNT then
      var parityOk := OddOnes(data) != Taken(s.assembled, 9);
      var framingOk := !Taken(s.assembled, 0) && Taken(s.assembled, 10);
      Ps2Frame(At, data, parityOk, framingOk, s.frameStartUs, s.periodsUs, s.skewUs, s.glitches)
    else
      Ps2Frame(Xt, data, true, Taken(s.assembled, 0), s.frameStartUs, s.periodsUs, s.skewUs, s.glitches)
  }

  function BuildFrameInvalid(s: State): Ps2Frame {
    Ps2Frame(Invalid, DataOf(s.assembled), false, false, s.frameStartUs, s.periodsUs, s.skewUs, s.glitches)
  }

  function EmitOnTimeout(s: State, bits: nat): Option<Ps2Frame> {
    if bits >= AT_BIT_COUNT then None
    else if bits == XT_BIT_COUNT && Taken(s.assembled, 0) then Some(BuildFrame(s, XT_BIT_COUNT))
    else if bits > 0 then Some(BuildFrameInvalid(s))
    else None
  }

  /** A falling edge that starts a frame. */
  function StartFrame(s: State, data: bool, t: Micros): (r: State)
    ensures r.Valid()
  {
    s.(assembled := Placed(data, 0), frameStartUs := t, lastFallingUs := t,
       periodsUs := NoPeriods(), glitches := 0,
       skewUs := ClampI8(WrapI64(t - s.lastDataChangeUs)), phase := Receiving(1))
  }

  /** A falling edge that adds bit number `bits` to the frame. */
  function AddBit(s: State, bits: nat, data: bool, t: Micros): (r: State)
    requires 1 <= bits < AT_BIT_COUNT && |s.periodsUs| == SLOTS
    ensures |r.periodsUs| == SLOTS && r.phase == Receiving(bits + 1)
  {
    s.(periodsUs := s.periodsUs[bits - 1 := AsU16(SaturatingSub(t, s.lastFallingUs))],
       lastFallingUs := t, assembled := s.assembled | Placed(data, bits),
       phase := Receiving(bits + 1))
  }

  /** An accepted falling edge. */
  function OnClkFall(s: State, data: bool, t: Micros): (State, Option<Ps2Frame>)
    requires s.Valid()
  {
    match s.phase
    case Idle => (StartFrame(s, data, t), None)
    case Receiving(bits) =>
      var s' := AddBit(s, bits, data, t);
      if bits + 1 >= AT_BIT_COUNT then (ResetIdle(s'), Some(BuildFrame(s', AT_BIT_COUNT)))
      else (s', None)
  }

  /** The in-flight frame is given up at time `t`. */
  predicate TimesOut(s: State, t: Micros) {
    s.phase.Receiving? && AsU32(SaturatingSub(t, s.lastFallingUs)) >= IDLE_TIMEOUT_US
  }

  /** CLK differs from the previous sample. */
  predicate ClkChanged(s: State, clk: bool) {
    s.lastClk.Some? && s.lastClk.value != clk
  }

  /** The level that just ended lasted too short to count. */
  predicate TooShort(s: State, t: Micros) {
    AsU32(SaturatingSub(t, s.lastEdgeUs)) < GLITCH_THRESHOLD_US
  }

  /** The sample is a falling edge that clocks a bit. */
  predicate Accepts(s: State, clk: bool, t: Micros) {
    !TimesOut(s, t) && ClkChanged(s, clk) && !TooShort(s, t) && !clk
  }

  /** The state once the sampled levels are noted. */
  function Sampled(s: State, clk: bool, data: bool, t: Micros): State {
    s.(lastDataChangeUs := if s.lastData != Some(data) then t else s.lastDataChangeUs,
       lastData := Some(data), lastClk := Some(clk))
  }

  function Step(s: State, clk: bool, data: bool, t: Micros): (r: (State, Option<Ps2Frame>))
    requires s.Valid()
    ensures r.0.Valid()
  {
    if TimesOut(s, t) then
      (ResetIdle(s).(lastClk := Some(clk), lastData := Some(data)), EmitOnTimeout(s, s.phase.bits))
    else if !ClkChanged(s, clk) then
      (Sampled(s, clk, data, t), None)
    else
      var s' := Sampled(s, clk, data, t).(lastEdgeUs := t);
      if TooShort(s, t) then
        (if s.phase.Receiving? then s'.(glitches := if s.glitches < 255 then s.glitches + 1 else 255)
         else s', None)
      else if !clk then OnClkFall(s', data, t)
      else (s', None)
  }

  // ------------------------------------------------------------- the object

  class Framer {
    var phase: Phase
    var lastClk: Option<bool>
    var lastEdgeUs: Micros
    var assembled: bv16
    var frameStartUs: Micros
    var lastFallingUs: Micros
    const periodsUs: array<nat>
    var glitches: nat
    var skewUs: int
    var lastDataChangeUs: Micros
    var lastData: Option<bool>

    ghost predicate Valid()
      reads this, periodsUs
    {
      periodsUs.Length == SLOTS && Abstract().Valid()
    }

    ghost function Abstract(): State
      reads this, periodsUs
    {
      State(phase, lastClk, lastEdgeUs, assembled, frameStartUs, lastFallingUs, periodsUs[..],
            glitches, skewUs, lastDataChangeUs, lastData)
    }

    constructor ()
      ensures Valid() && fresh(periodsUs)
      ensures Abstract() == InitState
    {
      phase := Idle;
      lastClk, lastData := None, None;
      lastEdgeUs, frameStartUs, lastFallingUs, lastDataChangeUs := 0, 0, 0, 0;
      assembled, glitches, skewUs := 0, 0, 0;
      periodsUs := new nat[SLOTS](_ => 0);
    }

    method ClearPeriods()
      requires periodsUs.Length == SLOTS
      modifies periodsUs
      ensures periodsUs[..] == NoPeriods()
    {
      forall i | 0 <= i < periodsUs.Length {
        periodsUs[i] := 0;
      }
    }

    method ResetToIdle()
      requires periodsUs.Length == SLOTS
      modifies this, periodsUs
      ensures Valid() && Abstract() == ResetIdle(old(Abstract()))
    {
      phase := Idle;
      assembled := 0;
      frameStartUs := 0;
      lastFallingUs := 0;
      ClearPeriods();
      glitches := 0;
      skewUs := 0;
    }

    method Ingest(clk: bool, data: bool, t: Micros) returns (frame: Option<Ps2Frame>)
      requires Valid()
      modifies this, periodsUs
      ensures Valid()
      ensures (Abstract(), frame) == Step(old(Abstract()), clk, data, t)
    {
      hide OnClkFall, EmitOnTimeout, NoPeriods;
      if phase.Receiving? {
        if AsU32(SaturatingSub(t, lastFallingUs)) >= IDLE_TIMEOUT_US {
          frame := Timeout(phase.bits);
          ResetToIdle();
          lastClk := Some(clk);
          lastData := Some(data);
          return frame;
        }
      }
      var prevClk := NoteLevels(clk, data, t);
      if prevClk.None? || prevClk.value == clk {
        return None;
      }
      var durUs := AsU32(SaturatingSub(t, lastEdgeUs));
      var prevLevel := prevClk.value;
      lastEdgeUs := t;
      if durUs < GLITCH_THRESHOLD_US {
        if phase.Receiving? {
          glitches := if glitches < 255 then glitches + 1 else 255;
        }
        return None;
      }
      if prevLevel && !clk {
        frame := ClkFall(data, t);
        return frame;
      }
      return None;
    }

    /** Note the sampled levels; the CLK level seen before. */
    method NoteLevels(clk: bool, data: bool, t: Micros) returns (prevClk: Option<bool>)
      modifies `lastData, `lastDataChangeUs, `lastClk
      ensures prevClk == old(lastClk) && Abstract() == Sampled(old(Abstract()), clk, data, t)
    {
      if lastData != Some(data) {
        lastDataChangeUs := t;
        lastData := Some(data);
      }
      prevClk := lastClk;
      lastClk := Some(clk);
    }

    method ClkFall(data: bool, t: Micros) returns (frame: Option<Ps2Frame>)
      requires Valid()
      modifies this, periodsUs
      ensures Valid()
      ensures (Abstract(), frame) == OnClkFall(old(Abstract()), data, t)
    {
      hide BuildFrame, StartFrame, AddBit, ResetIdle, NoPeriods;
      match phase {
        case Idle =>
          StartBit(data, t);
          return None;
        case Receiving(bits) =>
          NextBit(bits, data, t);
          if bits + 1 >= AT_BIT_COUNT {
            frame := Built(AT_BIT_COUNT);
            ResetToIdle();
            return frame;
          }
          return None;
      }
    }

    method StartBit(data: bool, t: Micros)
      requires Valid()
      modifies this, periodsUs
      ensures Abstract() == StartFrame(old(Abstract()), data, t)
    {
      hide Placed, ClampI8, WrapI64, NoPeriods;
      assembled := Placed(data, 0);
      frameStartUs := t;
      lastFallingUs := t;
      ClearPeriods();
      glitches := 0;
      skewUs := ClampI8(WrapI64(t - lastDataChangeUs));
      phase := Receiving(1);
    }

    method NextBit(bits: nat, data: bool, t: Micros)
      requires Valid() && phase == Receiving(bits)
      modifies this, periodsUs
      ensures Abstract() == AddBit(old(Abstract()), bits, data, t)
    {
      hide Placed, AsU16;
      var period := AsU16(SaturatingSub(t, lastFallingUs));
      if bits <= periodsUs.Length {
        periodsUs[bits - 1] := period;
      }
      lastFallingUs := t;
      assembled := assembled | Placed(data, bits);
      phase := Receiving(bits + 1);
    }

    method Timeout(bits: nat) returns (frame: Option<Ps2Frame>)
      ensures frame == EmitOnTimeout(Abstract(), bits)
    {
      if bits >= AT_BIT_COUNT {
        return None;
      }
      if bits == XT_BIT_COUNT && Taken(assembled, 0) {
        frame := Built(XT_BIT_COUNT);
        return frame;
      }
      if bits > 0 {
        return Some(Ps2Frame(Invalid, DataOf(assembled), false, false, frameStartUs, periodsUs[..], skewUs, glitches));
      }
      return None;
    }

    method Built(totalBits: nat) returns (frame: Option<Ps2Frame>)
      ensures frame == Some(BuildFrame(Abstract(), totalBits))
    {
      var data := DataOf(assembled);
      var kind, parityOk, framingOk;
      if totalBits == AT_BIT_COUNT {
        kind := At;
        parityOk := OddOnes(data) != Taken(assembled, 9);
        framingOk := !Taken(assembled, 0) && Taken(assembled, 10);
      } else {
        kind, parityOk, framingOk := Xt, true, Taken(assembled, 0);
      }
      return Some(Ps2Frame(kind, data, parityOk, framingOk, frameStartUs, periodsUs[..], skewUs, glitches));
    }
  }
}
