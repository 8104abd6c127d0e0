/** The oversampler's drain loop (firmware/src/ps2/oversampler.rs:100-264): unpack words into
    samples, frame them, and keep frames the device itself drove away from the classifier. */
module Oversampler {
  import opened Wrappers
  import opened Framer
  import opened Segmentation
  import opened FramerRefinement
  import Ring

  const SAMPLES_PER_WORD := 10
  const SELF_TX_GUARD_US := 1500

  /** One sample of CLK_IN, CLK_PULL and DATA_IN; `pull` low means the device drives CLK. */
  datatype Trio = Trio(clk: bool, pull: bool, data: bool)

  /** A frame, when it was emitted, and whether it was taken for the device's own. */
  datatype Emission = Emission(frame: Ps2Frame, at: Micros, selfDriven: bool)

  datatype Sampler = Sampler(framer: State, tUs: nat, lastSelfTx: Option<Micros>) {
    predicate Valid() { framer.Valid() }
  }

  const InitSampler := Sampler(InitState, 0, None)

  lemma InitIsValid()
    ensures InitSampler.Valid() && InitSampler.tUs == 0
  {
  }

  predicate SelfDriven(lastSelfTx: Option<Micros>, t: Micros) {
    lastSelfTx.Some? && SaturatingSub(t, lastSelfTx.value) < SELF_TX_GUARD_US
  }

  function Tick(o: Sampler, x: Trio): (r: (Sampler, seq<Emission>))
    requires o.Valid() && o.tUs < 0x1_0000_0000_0000_0000
    ensures r.0.Valid() && r.0.tUs == o.tUs + 1
  {
    var lastSelfTx := if x.pull then o.lastSelfTx else Some(o.tUs);
    var (s, f) := Step(o.framer, x.clk, x.data, o.tUs);
    (Sampler(s, o.tUs + 1, lastSelfTx),
     if f.None? then [] else [Emission(f.value, o.tUs, SelfDriven(lastSelfTx, o.tUs))])
  }

  function Ticks(o: Sampler, xs: seq<Trio>): (r: (Sampler, seq<Emission>))
    requires o.Valid() && o.tUs + |xs| < 0x1_0000_0000_0000_0000
    ensures r.0.Valid() && r.0.tUs == o.tUs + |xs|
    decreases |xs|
  {
    if xs == [] then (o, [])
    else
      var n := |xs| - 1;
      var (o1, es) := Ticks(o, xs[..n]);
      var (o2, e) := Tick(o1, xs[n]);
      (o2, es + e)
  }

  // ------------------------------------------------------------ words

  function OfBits(sample: bv32): Trio {
    Trio(sample & 1 != 0, sample & 2 != 0, sample & 4 != 0)
  }

  /** `word >> (3 * i)`. */
  function ShiftedBy(word: bv32, i: nat): bv32
    requires i < SAMPLES_PER_WORD
  {
    match i
    case 0 => word case 1 => word >> 3 case 2 => word >> 6 case 3 => word >> 9 case 4 => word >> 12
    case 5 => word >> 15 case 6 => word >> 18 case 7 => word >> 21 case 8 => word >> 24 case _ => word >> 27
  }

  /** Sample `i` of a word: the earliest is in the low three bits. */
  function SampleAt(word: bv32, i: nat): Trio
    requires i < 10
  {
    OfBits(ShiftedBy(word, i) & 7)
  }

  function Samples(word: bv32): (xs: seq<Trio>)
    ensures |xs| == 10
  {
    seq(10, i requires 0 <= i < 10 => SampleAt(word, i))
  }

  function AllSamples(words: seq<bv32>): (xs: seq<Trio>)
    ensures |xs| == 10 * |words|
  {
    if words == [] then [] else AllSamples(words[..|words| - 1]) + Samples(words[|words| - 1])
  }

  /** The three bits of a sample, CLK lowest. */
  function SampleBits(x: Trio): bv32 {
    (if x.clk then 1 else 0) | (if x.pull then 2 else 0) | (if x.data then 4 else 0)
  }

  /** The documented layout: ten samples, the first in the lowest three bits. */
  function PackSamples(xs: seq<Trio>): bv32
    requires |xs| == SAMPLES_PER_WORD
  {
    SampleBits(xs[0]) | (SampleBits(xs[1]) << 3) | (SampleBits(xs[2]) << 6) | (SampleBits(xs[3]) << 9)
    | (SampleBits(xs[4]) << 12) | (SampleBits(xs[5]) << 15) | (SampleBits(xs[6]) << 18)
    | (SampleBits(xs[7]) << 21) | (SampleBits(xs[8]) << 24) | (SampleBits(xs[9]) << 27)
  }

  lemma ThreeBits(x: Trio)
    ensures SampleBits(x) <= 7
    ensures OfBits(SampleBits(x)) == x
  {
  }

  lemma FieldsApart(a: bv32, b: bv32, c: bv32, d: bv32, e: bv32, f: bv32, g: bv32, h: bv32, i: bv32, j: bv32)
    requires a <= 7 && b <= 7 && c <= 7 && d <= 7 && e <= 7 && f <= 7 && g <= 7 && h <= 7 && i <= 7 && j <= 7
    ensures var w := a | (b << 3) | (c << 6) | (d << 9) | (e << 12) | (f << 15) | (g << 18) | (h << 21) | (i << 24) | (j << 27);
            w & 7 == a && (w >> 3) & 7 == b && (w >> 6) & 7 == c && (w >> 9) & 7 == d && (w >> 12) & 7 == e
            && (w >> 15) & 7 == f && (w >> 18) & 7 == g && (w >> 21) & 7 == h && (w >> 24) & 7 == i && (w >> 27) & 7 == j
  {
  }

  /** Walking a word gives back the samples packed into it, in order. */
  lemma WalkUnpacks(xs: seq<Trio>)
    requires |xs| == SAMPLES_PER_WORD
    ensures Samples(PackSamples(xs)) == xs
  {
    var a, b, c, d, e := SampleBits(xs[0]), SampleBits(xs[1]), SampleBits(xs[2]), SampleBits(xs[3]), SampleBits(xs[4]);
    var f, g, h, i, j := SampleBits(xs[5]), SampleBits(xs[6]), SampleBits(xs[7]), SampleBits(xs[8]), SampleBits(xs[9]);
    forall k | 0 <= k < SAMPLES_PER_WORD ensures SampleBits(xs[k]) <= 7 && OfBits(SampleBits(xs[k])) == xs[k] {
      ThreeBits(xs[k]);
    }
    hide SampleBits, OfBits, SampleAt;
    FieldsApart(a, b, c, d, e, f, g, h, i, j);
    FieldsAt(PackSamples(xs));
  }

  lemma FieldsAt(w: bv32)
    ensures SampleAt(w, 0) == OfBits(w & 7) && SampleAt(w, 1) == OfBits((w >> 3) & 7)
    ensures SampleAt(w, 2) == OfBits((w >> 6) & 7) && SampleAt(w, 3) == OfBits((w >> 9) & 7)
    ensures SampleAt(w, 4) == OfBits((w >> 12) & 7) && SampleAt(w, 5) == OfBits((w >> 15) & 7)
    ensures SampleAt(w, 6) == OfBits((w >> 18) & 7) && SampleAt(w, 7) == OfBits((w >> 21) & 7)
    ensures SampleAt(w, 8) == OfBits((w >> 24) & 7) && SampleAt(w, 9) == OfBits((w >> 27) & 7)
  {
    hide OfBits;
  }

  /** Two neighbouring samples of the word differ in CLK. */
  ghost predicate Toggled(word: bv32) {
    exists i, j :: 0 <= i && j == i + 1 && j < 10 && Samples(word)[i].clk != Samples(word)[j].clk
  }

  /** CLK moved inside the word. */
  method ClkToggledInWord(word: bv32) returns (toggled: bool)
    ensures toggled <==> Toggled(word)
  {
    hide SampleAt;
    var last := SampleAt(word, 0).clk;
    var i := 1;
    while i < 10
      invariant 1 <= i <= 10 && last == Samples(word)[i - 1].clk
      invariant forall k, j :: 0 <= k && j == k + 1 && j < i ==> Samples(word)[k].clk == Samples(word)[j].clk
    {
      var clk := SampleAt(word, i).clk;
      if clk != last {
        assert Samples(word)[i - 1].clk != Samples(word)[i].clk;
        return true;
      }
      last := clk;
      i := i + 1;
    }
    return false;
  }

  /** How many words CLK moved in. */
  ghost function Active(words: seq<bv32>): nat {
    if words == [] then 0
    else Active(words[..|words| - 1]) + if Toggled(words[|words| - 1]) then 1 else 0
  }

  // ------------------------------------------------------------ counters

  function Wrapping32(n: nat): u32 { n % 0x1_0000_0000 }

  function Errored(es: seq<Emission>): nat {
    if es == [] then 0
    else
      var f := es[|es| - 1].frame;
      Errored(es[..|es| - 1]) + if f.parityOk && f.framingOk then 0 else 1
  }

  function GlitchesIn(es: seq<Emission>): nat {
    if es == [] then 0 else GlitchesIn(es[..|es| - 1]) + es[|es| - 1].frame.glitches
  }

  /** The frames offered to the classifier queue. */
  function Forwarded(es: seq<Emission>): seq<Ps2Frame> {
    if es == [] then []
    else
      var e := es[|es| - 1];
      Forwarded(es[..|es| - 1]) + if e.selfDriven then [] else [e.frame]
  }

  function KeptBack(es: seq<Emission>): (n: nat)
    ensures n + |Forwarded(es)| == |es|
  {
    if es == [] then 0 else KeptBack(es[..|es| - 1]) + if es[|es| - 1].selfDriven then 1 else 0
  }

  ghost predicate Bad(es: seq<Emission>, i: int) {
    0 <= i < |es| && !(es[i].frame.parityOk && es[i].frame.framingOk)
  }

  ghost predicate Own(es: seq<Emission>, i: int) { 0 <= i < |es| && es[i].selfDriven }

  /** The error count is the number of frames with a bad parity or bad framing. */
  lemma {:induction false} ErroredCounts(es: seq<Emission>)
    ensures Errored(es) == |set i | 0 <= i < |es| && Bad(es, i)|
    decreases |es|
  {
    if es != [] {
      var n := |es| - 1;
      var g := es[..n];
      ErroredCounts(g);
      hide Errored, Bad;
      ErroredLast(es);
      forall i | 0 <= i < n ensures Bad(es, i) <==> Bad(g, i) {
        BadBefore(es, i);
      }
      var before, all := set i | 0 <= i < |g| && Bad(g, i), set i | 0 <= i < |es| && Bad(es, i);
      if Bad(es, n) {
        assert all == before + {n};
      } else {
        assert all == before;
      }
    }
  }

  lemma BadBefore(es: seq<Emission>, i: nat)
    requires i < |es| - 1
    ensures Bad(es, i) <==> Bad(es[..|es| - 1], i)
  {
  }

  lemma ErroredLast(es: seq<Emission>)
    requires es != []
    ensures Errored(es) == Errored(es[..|es| - 1]) + if Bad(es, |es| - 1) then 1 else 0
  {
  }

  /** And the number kept back that of the device's own. */
  lemma {:induction false} KeptBackCounts(es: seq<Emission>)
    ensures KeptBack(es) == |set i | 0 <= i < |es| && Own(es, i)|
    decreases |es|
  {
    if es != [] {
      var n := |es| - 1;
      var g := es[..n];
      KeptBackCounts(g);
      var before := set i | 0 <= i < |g| && Own(g, i);
      assert (set i | 0 <= i < |es| && Own(es, i)) == before + (if Own(es, n) then {n} else {});
    }
  }

  /** Where each frame that is not kept back goes in the queue. */
  lemma {:induction false} ForwardedAt(es: seq<Emission>, i: nat)
    requires i < |es| && !es[i].selfDriven
    ensures KeptBack(es[..i]) <= i && i - KeptBack(es[..i]) < |Forwarded(es)|
    ensures Forwarded(es)[i - KeptBack(es[..i])] == es[i].frame
    decreases |es|
  {
    var n := |es| - 1;
    if i < n {
      ForwardedAt(es[..n], i);
      assert es[..n][..i] == es[..i];
    }
  }

  lemma WrapNone(n: u32)
    ensures Wrapping32(n) == n
  {
  }

  lemma WrapAdd(a: nat, b: nat)
    ensures Wrapping32(Wrapping32(a) + b) == Wrapping32(a + b)
  {
    var m := 0x1_0000_0000;
    var r := a % m + b;
    Ring.QuotientIs(a + b, a / m + r / m, r % m, m);
  }

  lemma SnocTally(es: seq<Emission>, e: Emission)
    ensures Errored(es + [e]) == Errored(es) + if e.frame.parityOk && e.frame.framingOk then 0 else 1
    ensures GlitchesIn(es + [e]) == GlitchesIn(es) + e.frame.glitches
    ensures KeptBack(es + [e]) == KeptBack(es) + if e.selfDriven then 1 else 0
    ensures Forwarded(es + [e]) == Forwarded(es) + if e.selfDriven then [] else [e.frame]
  {
    assert (es + [e])[..|es|] == es;
  }

  /** How one emission moves each wrapping counter. */
  lemma TallySnoc(es: seq<Emission>, e: Emission)
    ensures Wrapping32(|es + [e]|) == Wrapping32(Wrapping32(|es|) + 1)
    ensures Wrapping32(Errored(es + [e])) ==
              if e.frame.parityOk && e.frame.framingOk then Wrapping32(Errored(es))
              else Wrapping32(Wrapping32(Errored(es)) + 1)
    ensures Wrapping32(GlitchesIn(es + [e])) == Wrapping32(Wrapping32(GlitchesIn(es)) + e.frame.glitches)
    ensures Wrapping32(KeptBack(es + [e])) ==
              if e.selfDriven then Wrapping32(Wrapping32(KeptBack(es)) + 1) else Wrapping32(KeptBack(es))
    ensures Forwarded(es + [e]) == if e.selfDriven then Forwarded(es) else Forwarded(es) + [e.frame]
  {
    hide *;
    SnocTally(es, e);
    WrapAdd(|es|, 1);
    WrapAdd(Errored(es), 1);
    WrapAdd(GlitchesIn(es), e.frame.glitches);
    WrapAdd(KeptBack(es), 1);
  }

  // ------------------------------------------------------------ the drain loop

  class Oversampler {
    const framer: Framer
    var tUs: nat
    var lastSelfTx: Option<Micros>
    var words: u32
    var clkActiveWords: u32
    var fifoOverrun: u32
    var framesTotal: u32
    var framesErrored: u32
    var glitchesTotal: u32
    var selfTxFrames: u32
    /** Frames offered to the queue the classifier reads. */
    var offered: seq<Ps2Frame>
    /** Every sample walked. */
    ghost var walked: seq<Trio>

    ghost predicate Valid()
      reads `tUs, `lastSelfTx, `framesTotal, `framesErrored, `glitchesTotal, `selfTxFrames, `offered, `walked, framer, framer.periodsUs
    {
      framer.Valid() && |walked| < 0x1_0000_0000_0000_0000 && Follows()
    }

    ghost function Abstract(): Sampler
      reads `tUs, `lastSelfTx, framer, framer.periodsUs
    {
      Sampler(framer.Abstract(), tUs, lastSelfTx)
    }

    /** The fields are the ones the sample history gives. */
    ghost predicate Follows()
      requires |walked| < 0x1_0000_0000_0000_0000
      reads `tUs, `lastSelfTx, `framesTotal, `framesErrored, `glitchesTotal, `selfTxFrames, `offered, `walked, framer, framer.periodsUs
    {
      var (o, es) := Ticks(InitSampler, walked);
      Abstract() == o && Tallied(es)
    }

    ghost predicate Tallied(es: seq<Emission>)
      reads `framesTotal, `framesErrored, `glitchesTotal, `selfTxFrames, `offered
    {
      offered == Forwarded(es) && framesTotal == Wrapping32(|es|)
      && framesErrored == Wrapping32(Errored(es)) && glitchesTotal == Wrapping32(GlitchesIn(es))
      && selfTxFrames == Wrapping32(KeptBack(es))
    }

    constructor (framer: Framer)
      requires framer.Valid() && framer.Abstract() == InitState
      ensures Valid() && walked == [] && this.framer == framer
    {
      this.framer := framer;
      tUs, lastSelfTx := 0, None;
      words, clkActiveWords, fifoOverrun, framesTotal, framesErrored, glitchesTotal, selfTxFrames := 0, 0, 0, 0, 0, 0, 0;
      offered, walked := [], [];
    }

    /** Bookkeeping for one emitted frame. */
    method Emit(frame: Ps2Frame, ghost es: seq<Emission>) returns (ghost e: Emission)
      requires Tallied(es) && tUs < 0x1_0000_0000_0000_0000
      modifies this`framesTotal, this`framesErrored, this`glitchesTotal, this`selfTxFrames, this`offered
      ensures e == Emission(frame, tUs, SelfDriven(lastSelfTx, tUs)) && Tallied(es + [e])
    {
      hide Wrapping32, Errored, GlitchesIn, KeptBack, Forwarded, SelfDriven;
      e := Emission(frame, tUs, SelfDriven(lastSelfTx, tUs));
      TallySnoc(es, e);
      framesTotal := Wrapping32(framesTotal + 1);
      if !frame.parityOk || !frame.framingOk {
        framesErrored := Wrapping32(framesErrored + 1);
      }
      glitchesTotal := Wrapping32(glitchesTotal + frame.glitches);
      if SelfDriven(lastSelfTx, tUs) {
        selfTxFrames := Wrapping32(selfTxFrames + 1);
      } else {
        offered := offered + [frame];
      }
    }

    /** One sample of a word. */
    method Sample(x: Trio)
      requires Valid() && |walked| + 1 < 0x1_0000_0000_0000_0000
      modifies this, framer, framer.periodsUs
      ensures Valid() && walked == old(walked) + [x]
      ensures words == old(words) && clkActiveWords == old(clkActiveWords) && fifoOverrun == old(fifoOverrun)
    {
      hide Ticks, Tick, Step, InitState, InitSampler, Tallied, Framer.Valid, Framer.Abstract;
      InitIsValid();
      ghost var (o, es) := Ticks(InitSampler, walked);
      TicksSnoc(InitSampler, walked, x);
      IngestSample(x, o, es);
      walked := walked + [x];
    }

    method IngestSample(x: Trio, ghost o: Sampler, ghost es: seq<Emission>)
      requires framer.Valid() && Abstract() == o && Tallied(es)
      requires o.Valid() && tUs == o.tUs < 0xFFFF_FFFF_FFFF_FFFF
      modifies framer, framer.periodsUs
      modifies `tUs, `lastSelfTx, `framesTotal, `framesErrored, `glitchesTotal, `selfTxFrames, `offered
      ensures framer.Valid() && Abstract() == Tick(o, x).0 && Tallied(es + Tick(o, x).1)
    {
      hide Step, Tallied, SelfDriven, Framer.Valid, Framer.Abstract;
      if !x.pull {
        lastSelfTx := Some(tUs);
      }
      var f := framer.Ingest(x.clk, x.data, tUs);
      if f.Some? {
        ghost var e := Emit(f.value, es);
      } else {
        assert es + [] == es;
      }
      tUs := tUs + 1;
    }

    /** The body of the drain closure: ten samples, oldest first. */
    method Word(word: bv32)
      requires Valid() && |walked| + 10 < 0x1_0000_0000_0000_0000
      modifies this, framer, framer.periodsUs
      ensures Valid() && walked == old(walked) + Samples(word)
      ensures words == Wrapping32(old(words) + 1) && fifoOverrun == old(fifoOverrun)
      ensures clkActiveWords == Wrapping32(old(clkActiveWords) + if Toggled(word) then 1 else 0)
    {
      hide *;
      words := Wrapping32(words + 1);
      var toggled := ClkToggledInWord(word);
      if toggled {
        clkActiveWords := Wrapping32(clkActiveWords + 1);
      } else {
        WrapNone(clkActiveWords);
      }
      var i := 0;
      while i < 10
        invariant 0 <= i <= 10 && Valid()
        invariant walked == old(walked) + Samples(word)[..i]
        invariant words == Wrapping32(old(words) + 1) && fifoOverrun == old(fifoOverrun)
        invariant clkActiveWords == Wrapping32(old(clkActiveWords) + if Toggled(word) then 1 else 0)
      {
        Sample(SampleAt(word, i));
        SamplesUpTo(word, i);
        i := i + 1;
      }
      assert Samples(word)[..i] == Samples(word);
    }

    /** One wake-up: empty the ring into the framer.  `a1` and `a2` arrive between the looks at
        the head, `arrivals` while the ring is read. */
    method Wake(ring: Ring.RingHandle, a1: seq<bv32>, a2: seq<bv32>, arrivals: seq<seq<bv32>>)
      requires Valid() && ring.Valid()
      requires ring !in {this as object, framer, framer.periodsUs}
      requires ring.dma !in {this as object, framer, framer.periodsUs}
      requires ring.dma.words !in {this as object, framer, framer.periodsUs}
      requires |arrivals| == ring.dma.capacity - 1 && ring.AtDrain(a1, a2) < ring.dma.capacity
      requires Ring.Fits(ring.AtDrain(a1, a2), arrivals, ring.dma.capacity - 1)
      requires |walked| + 10 * ring.dma.capacity < 0x1_0000_0000_0000_0000
      modifies this, framer, framer.periodsUs, ring, ring.dma, ring.dma.words
      ensures Valid() && ring.Valid()
      ensures fifoOverrun == Wrapping32(old(fifoOverrun) + if old(ring.Unread()) == ring.dma.capacity - 1 then 1 else 0)
      ensures old(ring.Unread()) < ring.dma.capacity - 1 ==>
                walked == old(walked) + AllSamples((old(ring.dma.produced) + a1 + a2)[old(ring.consumed)..])
      ensures old(ring.Unread()) == ring.dma.capacity - 1 ==>
                walked == old(walked)
                          + AllSamples((old(ring.dma.produced) + a1 + a2)[|old(ring.dma.produced)| + |a1| - 1..])
    {
      hide *;
      var out, full := ring.Poll(a1, a2, arrivals);
      Drained(out, full);
    }

    /** Words out of the ring, and whether it looked full. */
    method Drained(out: seq<bv32>, full: bool)
      requires Valid() && |walked| + 10 * |out| < 0x1_0000_0000_0000_0000
      modifies this, framer, framer.periodsUs
      ensures Valid() && walked == old(walked) + AllSamples(out)
      ensures fifoOverrun == Wrapping32(old(fifoOverrun) + if full then 1 else 0)
    {
      hide *;
      WrapNone(fifoOverrun);
      if full {
        fifoOverrun := Wrapping32(fifoOverrun + 1);
      }
      Words(out);
    }

    method Words(ws: seq<bv32>)
      requires Valid() && |walked| + 10 * |ws| < 0x1_0000_0000_0000_0000
      modifies this, framer, framer.periodsUs
      ensures Valid() && walked == old(walked) + AllSamples(ws)
      ensures words == Wrapping32(old(words) + |ws|) && fifoOverrun == old(fifoOverrun)
      ensures clkActiveWords == Wrapping32(old(clkActiveWords) + Active(ws))
    {
      hide *;
      var i := 0;
      NoSamples();
      WrapNone(words);
      WrapNone(clkActiveWords);
      while i < |ws|
        invariant 0 <= i <= |ws| && Valid() && |AllSamples(ws[..i])| == 10 * i
        invariant walked == old(walked) + AllSamples(ws[..i])
        invariant words == Wrapping32(old(words) + i) && fifoOverrun == old(fifoOverrun)
        invariant clkActiveWords == Wrapping32(old(clkActiveWords) + Active(ws[..i]))
      {
        AllSamplesUpTo(ws, i);
        WrapAdd(old(words) + i, 1);
        WrapAdd(old(clkActiveWords) + Active(ws[..i]), if Toggled(ws[i]) then 1 else 0);
        Word(ws[i]);
        i := i + 1;
      }
      assert ws[..i] == ws;
    }
  }

  lemma NoSamples()
    ensures AllSamples([]) == [] && Active([]) == 0
  {
  }

  lemma AllSamplesUpTo(ws: seq<bv32>, i: nat)
    requires i < |ws|
    ensures AllSamples(ws[..i + 1]) == AllSamples(ws[..i]) + Samples(ws[i])
    ensures Active(ws[..i + 1]) == Active(ws[..i]) + if Toggled(ws[i]) then 1 else 0
  {
    hide Samples, Toggled;
    assert ws[..i + 1][..i] == ws[..i];
  }

  lemma SamplesUpTo(word: bv32, i: nat)
    requires i < 10
    ensures Samples(word)[..i + 1] == Samples(word)[..i] + [SampleAt(word, i)]
  {
    hide SampleAt;
  }

  lemma TicksSnoc(o: Sampler, xs: seq<Trio>, x: Trio)
    requires o.Valid() && o.tUs + |xs| + 1 < 0x1_0000_0000_0000_0000
    ensures var (o1, es) := Ticks(o, xs);
            Ticks(o, xs + [x]) == (Tick(o1, x).0, es + Tick(o1, x).1)
  {
    hide Tick;
    assert (xs + [x])[..|xs|] == xs;
  }

  // ------------------------------------------------------------ loopback suppression

  /** The last accepted falling edge of a frame, from its own timing record. */
  function LastEdge(f: Ps2Frame): nat { f.startUs + Sum(f.periodsUs) }

  /** The device drove CLK at some time in the guard window that ends at `at`. */
  ghost predicate DroveWithinGuard(xs: seq<Trio>, at: nat) {
    exists i :: 0 <= i < |xs| && i <= at < i + SELF_TX_GUARD_US && !xs[i].pull
  }

  /** Edges are samples that were walked, with CLK low and the DATA seen there. */
  ghost predicate Heard(g: Group, xs: seq<Trio>) {
    forall i :: 0 <= i < |g| ==> g[i].t < |xs| && !xs[g[i].t].clk && xs[g[i].t].data == g[i].data
  }

  /** What is true of an emission of a run over `xs`. */
  ghost predicate Sound(e: Emission, xs: seq<Trio>) {
    e.at < |xs| && (e.selfDriven <==> DroveWithinGuard(xs[..e.at + 1], e.at))
    && LastEdge(e.frame) <= e.at <= LastEdge(e.frame) + IDLE_TIMEOUT_US
    && !xs[LastEdge(e.frame)].clk
  }

  lemma SoundStays(e: Emission, xs: seq<Trio>, x: Trio)
    requires Sound(e, xs)
    ensures Sound(e, xs + [x])
  {
    assert (xs + [x])[..e.at + 1] == xs[..e.at + 1];
  }

  /** The latest sample in which the device drove CLK. */
  ghost predicate LastDrive(last: Option<Micros>, xs: seq<Trio>) {
    match last
    case None => forall i :: 0 <= i < |xs| ==> xs[i].pull
    case Some(t) => t < |xs| && !xs[t].pull && forall i :: t < i < |xs| ==> xs[i].pull
  }

  lemma SelfDrivenIff(last: Option<Micros>, xs: seq<Trio>, at: Micros)
    requires LastDrive(last, xs) && |xs| == at + 1
    ensures SelfDriven(last, at) <==> DroveWithinGuard(xs, at)
  {
  }

  /** An emission follows the frame's last accepted edge by at most the idle timeout. */
  lemma EmissionIsPrompt(s: State, g: Group, xs: seq<Trio>, x: Trio) returns (g': Group)
    requires InFlight(s, g) && |xs| + 1 < 0x1_0000_0000_0000_0000 && Heard(g, xs)
    requires Fresh(g, if xs == [] then 0 else |xs| - 1) && s.Valid()
    ensures var (s', f) := Step(s, x.clk, x.data, |xs|);
            InFlight(s', g') && Heard(g', xs + [x]) && Fresh(g', |xs|)
            && (f.Some? ==> Prompt(f.value, xs + [x]))
  {
    assert MAX_SAMPLE_GAP_US >= 1;
    hide *;
    var n := |xs|;
    var sample := Segmentation.Sample(x.clk, x.data, n);
    var eff := EffectOf(s, g, sample);
    StepRefines(s, g, if n == 0 then 0 else n - 1, sample);
    EffectIsHeard(s, g, xs, x, eff);
    g' := eff.inFlight;
    var f := Step(s, x.clk, x.data, n).1;
    FramesSize(f);
    if f.Some? {
      DonePeriods(f.value, eff.done[0], xs + [x]);
    }
  }

  lemma FramesSize(f: Option<Ps2Frame>)
    ensures |Frames(f)| == if f.Some? then 1 else 0
  {
  }

  /** A frame emitted at the last sample of `xs`. */
  ghost predicate Prompt(f: Ps2Frame, xs: seq<Trio>) {
    LastEdge(f) < |xs| <= LastEdge(f) + IDLE_TIMEOUT_US + 1 && !xs[LastEdge(f)].clk
  }

  lemma AcceptsLow(s: State, clk: bool, t: Micros)
    ensures Accepts(s, clk, t) ==> !clk
  {
  }

  lemma HeardMore(g: Group, xs: seq<Trio>, x: Trio)
    requires Heard(g, xs) && |xs| + 1 < 0x1_0000_0000_0000_0000
    ensures Heard(g, xs + [x])
    ensures !x.clk ==> Heard(g + [Edge(|xs|, x.data)], xs + [x])
  {
  }

  lemma ChainInFlight(s: State, g: Group)
    requires InFlight(s, g)
    ensures Chain(g) && |g| < AT_BIT_COUNT
  {
  }

  lemma StaleIsDone(g: Group, xs: seq<Trio>, x: Trio)
    requires |g| < AT_BIT_COUNT && Chain(g) && Heard(g, xs + [x]) && |xs| + 1 < 0x1_0000_0000_0000_0000
    requires Fresh(g, if xs == [] then 0 else |xs| - 1) && Stale(g, |xs|)
    ensures DoneAt(g, xs + [x])
  {
    hide Chain, Heard;
  }

  lemma ElevenIsDone(g: Group, xs: seq<Trio>, x: Trio)
    requires |g| + 1 == AT_BIT_COUNT && Chain(g) && |xs| + 1 < 0x1_0000_0000_0000_0000
    requires Heard(g + [Edge(|xs|, x.data)], xs + [x])
    requires Fresh(g, if xs == [] then 0 else |xs| - 1) && !Stale(g, |xs|)
    ensures DoneAt(g + [Edge(|xs|, x.data)], xs + [x])
  {
    ChainSnoc(g, Edge(|xs|, x.data));
    hide Chain, Heard;
  }

  lemma EffectIsHeard(s: State, g: Group, xs: seq<Trio>, x: Trio, eff: Effect)
    requires InFlight(s, g) && |xs| + 1 < 0x1_0000_0000_0000_0000 && Heard(g, xs)
    requires Fresh(g, if xs == [] then 0 else |xs| - 1)
    requires eff == EffectOf(s, g, Segmentation.Sample(x.clk, x.data, |xs|))
    ensures Heard(eff.inFlight, xs + [x])
    ensures |eff.done| <= 1
    ensures eff.done != [] ==> DoneAt(eff.done[0], xs + [x])
  {
    AcceptsLow(s, x.clk, |xs|);
    ChainInFlight(s, g);
    HeardMore(g, xs, x);
    NoneHeard(xs + [x]);
    hide Accepts, InFlight, Heard, Chain, DoneAt, Stale, Fresh;
    if Stale(g, |xs|) {
      StaleIsDone(g, xs, x);
    } else if Accepts(s, x.clk, |xs|) && |g| + 1 == AT_BIT_COUNT {
      ElevenIsDone(g, xs, x);
    }
  }

  lemma NoneHeard(xs: seq<Trio>)
    ensures Heard([], xs)
  {
  }

  /** A group completed by the last sample of `xs`. */
  ghost predicate DoneAt(d: Group, xs: seq<Trio>) {
    0 < |d| <= AT_BIT_COUNT && Chain(d) && Heard(d, xs)
    && d[|d| - 1].t < |xs| <= d[|d| - 1].t + IDLE_TIMEOUT_US + 1
  }

  lemma DonePeriods(f: Ps2Frame, d: Group, xs: seq<Trio>)
    requires 0 < |d| <= AT_BIT_COUNT && DoneAt(d, xs) && ShapeOf(f) == FrameOf(d)
    ensures Prompt(f, xs)
  {
    PeriodsAddUp(d);
    hide Periods, Datas, DataByte, Sum, Chain;
  }

  /** What holds after every sample of a run from power-up. */
  lemma {:induction false} EmissionsAreSound(xs: seq<Trio>) returns (g: Group)
    requires |xs| < 0x1_0000_0000_0000_0000
    ensures var (o, es) := Ticks(InitSampler, xs);
            InFlight(o.framer, g) && Heard(g, xs) && Fresh(g, if xs == [] then 0 else |xs| - 1)
            && LastDrive(o.lastSelfTx, xs) && forall i :: 0 <= i < |es| ==> Sound(es[i], xs)
    decreases |xs|
  {
    if xs == [] {
      g := [];
    } else {
      var before, x := xs[..|xs| - 1], xs[|xs| - 1];
      assert xs == before + [x];
      g := EmissionsAreSound(before);
      g := OneMore(before, x, g);
    }
  }

  lemma OneMore(xs: seq<Trio>, x: Trio, g: Group) returns (g': Group)
    requires |xs| + 1 < 0x1_0000_0000_0000_0000
    requires var (o, es) := Ticks(InitSampler, xs);
             InFlight(o.framer, g) && Heard(g, xs) && Fresh(g, if xs == [] then 0 else |xs| - 1)
             && LastDrive(o.lastSelfTx, xs) && forall i :: 0 <= i < |es| ==> Sound(es[i], xs)
    ensures var (o, es) := Ticks(InitSampler, xs + [x]);
            InFlight(o.framer, g') && Heard(g', xs + [x]) && Fresh(g', |xs|)
            && LastDrive(o.lastSelfTx, xs + [x]) && forall i :: 0 <= i < |es| ==> Sound(es[i], xs + [x])
  {
    var (o, es) := Ticks(InitSampler, xs);
    TicksSnoc(InitSampler, xs, x);
    g' := EmissionIsPrompt(o.framer, g, xs, x);
    var (s', f) := Step(o.framer, x.clk, x.data, |xs|);
    var (o', e) := Tick(o, x);
    assert o'.framer == s';
    LastDriveSnoc(o.lastSelfTx, xs, x);
    hide Step, InFlight, Heard, Fresh, Sound, Prompt, LastDrive, Ticks;
    forall i | 0 <= i < |es| ensures Sound((es + e)[i], xs + [x]) {
      SoundStays(es[i], xs, x);
    }
    if f.Some? {
      SelfDrivenIff(o'.lastSelfTx, xs + [x], |xs|);
      NewIsSound(e[0], xs + [x]);
    }
  }

  lemma NewIsSound(e: Emission, xs: seq<Trio>)
    requires |xs| == e.at + 1 && (e.selfDriven <==> DroveWithinGuard(xs, e.at))
    requires Prompt(e.frame, xs)
    ensures Sound(e, xs)
  {
    assert xs[..e.at + 1] == xs;
  }

  lemma LastDriveSnoc(last: Option<Micros>, xs: seq<Trio>, x: Trio)
    requires LastDrive(last, xs) && |xs| < 0x1_0000_0000_0000_0000
    ensures LastDrive(if x.pull then last else Some(|xs|), xs + [x])
  {
  }

  /** Over every sample stream: a frame is kept from the classifier exactly when the device
      drove CLK less than 1500 us before the frame came out.  It comes out at most 200 us
      after its last accepted falling edge, so a frame whose last edge the device drove is
      always kept back. */
  lemma LoopbackSuppression(xs: seq<Trio>, i: nat)
    requires |xs| < 0x1_0000_0000_0000_0000 && i < |Ticks(InitSampler, xs).1|
    ensures var e := Ticks(InitSampler, xs).1[i];
            e.at < |xs| && LastEdge(e.frame) <= e.at <= LastEdge(e.frame) + 200
            && !xs[LastEdge(e.frame)].clk
            && (e.selfDriven <==> exists j :: 0 <= j <= e.at < j + 1500 && !xs[j].pull)
            && (!xs[LastEdge(e.frame)].pull ==> e.selfDriven)
  {
    hide *;
    InitIsValid();
    var g := EmissionsAreSound(xs);
    SoundMeans(Ticks(InitSampler, xs).1[i], xs);
  }

  lemma SoundMeans(e: Emission, xs: seq<Trio>)
    requires Sound(e, xs)
    ensures e.at < |xs| && LastEdge(e.frame) <= e.at <= LastEdge(e.frame) + 200
    ensures !xs[LastEdge(e.frame)].clk
    ensures e.selfDriven <==> exists j :: 0 <= j <= e.at < j + 1500 && !xs[j].pull
    ensures !xs[LastEdge(e.frame)].pull ==> e.selfDriven
  {
    hide LastEdge;
    var cut := xs[..e.at + 1];
    assert forall j :: 0 <= j <= e.at ==> cut[j] == xs[j];
  }
}
