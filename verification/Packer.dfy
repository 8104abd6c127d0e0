/** Frame words for the transmit path (crates/ps2-framer/src/packer.rs), and the bits they
    put on the wire, least significant first. */
module Packer {
  import Gf2
  import opened Framer
  import opened Segmentation
  import opened FramerRefinement

  function PackAtFrame(b: bv8): bv32 {
    var w: bv32 := 0xFFFF_F800 | ((b as bv32) << 1);
    var parity: bv32 := if OddOnes(b) then 0 else 1;
    w | (parity << 9) | (1 << 10)
  }

  function PackXtFrame(b: bv8): bv32 {
    0xFFFF_FE00 | 1 | ((b as bv32) << 1)
  }

  /** `1 << i` on 32 bits, for the slots of a frame. */
  function Bit32(i: nat): bv32
    requires i < AT_BIT_COUNT
  {
    match i
    case 0 => 0x001 case 1 => 0x002 case 2 => 0x004 case 3 => 0x008
    case 4 => 0x010 case 5 => 0x020 case 6 => 0x040 case 7 => 0x080
    case 8 => 0x100 case 9 => 0x200 case _ => 0x400
  }

  predicate WordBit(w: bv32, i: nat)
    requires i < AT_BIT_COUNT
  {
    w & Bit32(i) != 0
  }

  /** The first `n` bits shifted out of a frame word. */
  function WordBits(w: bv32, n: nat): (bits: Gf2.Bits)
    requires n <= AT_BIT_COUNT
    ensures |bits| == n
  {
    seq(n, i requires 0 <= i < n => WordBit(w, i))
  }

  /** Slots 1 to 8 of a word. */
  function WordData(w: bv32): bv8 {
    Flag(WordBit(w, 1), 0x01) | Flag(WordBit(w, 2), 0x02) | Flag(WordBit(w, 3), 0x04) | Flag(WordBit(w, 4), 0x08)
    | Flag(WordBit(w, 5), 0x10) | Flag(WordBit(w, 6), 0x20) | Flag(WordBit(w, 7), 0x40) | Flag(WordBit(w, 8), 0x80)
  }

  lemma DataByteOfWord(w: bv32, n: nat)
    requires XT_BIT_COUNT <= n <= AT_BIT_COUNT
    ensures DataByte(WordBits(w, n)) == WordData(w)
  {
    hide Flag, WordBit;
    var ds := WordBits(w, n);
    assert forall i: nat :: i < n ==> Bit(ds, i) == WordBit(w, i);
  }

  lemma AtWordData(b: bv8)
    ensures WordData(PackAtFrame(b)) == b
  {
  }

  lemma AtWordFraming(b: bv8)
    ensures !WordBit(PackAtFrame(b), 0) && WordBit(PackAtFrame(b), 10)
    ensures WordBit(PackAtFrame(b), 9) == !OddOnes(b)
  {
    hide OddOnes;
  }

  lemma XtWordFields(b: bv8)
    ensures WordBit(PackXtFrame(b), 0) && WordData(PackXtFrame(b)) == b
  {
  }

  /** Everything above the frame is padded high, so shifting on leaves the line idle. */
  lemma WordsPaddedHigh(b: bv8)
    ensures PackAtFrame(b) >> 11 == 0x1F_FFFF && PackXtFrame(b) >> 9 == 0x7F_FFFF
  {
    hide OddOnes;
  }

  /** A packed AT word reads back as its byte, with odd parity and good framing. */
  lemma AtWordDecodes(b: bv8, g: Group)
    requires |g| == AT_BIT_COUNT && Datas(g) == WordBits(PackAtFrame(b), AT_BIT_COUNT)
    ensures var f := FrameOf(g); f.kind == At && f.data == b && f.parityOk && f.framingOk
  {
    var w := PackAtFrame(b);
    AtWordData(b);
    AtWordFraming(b);
    DataByteOfWord(w, AT_BIT_COUNT);
    ParityCheck(Datas(g));
    hide Datas, OddOnes, WordData, WordBit, PackAtFrame, Gf2.Parity, DataByte;
  }

  lemma XtWordDecodes(b: bv8, g: Group)
    requires |g| == XT_BIT_COUNT && Datas(g) == WordBits(PackXtFrame(b), XT_BIT_COUNT)
    ensures var f := FrameOf(g); f.kind == Xt && f.data == b && f.parityOk && f.framingOk
  {
    XtWordFields(b);
    DataByteOfWord(PackXtFrame(b), XT_BIT_COUNT);
    hide Datas, WordData, WordBit, PackXtFrame, DataByte;
  }
}
