/** CRC-16/CCITT-FALSE as the packet codec computes it, bit by bit
    (crates/protocol/src/packet/crc16.rs). */
module Crc16 {
  import opened Bytes
  import opened Gf2

  const POLY: bv16 := 0x1021
  const INIT: bv16 := 0xFFFF

  /** Body of the inner loop. */
  function Shift(crc: bv16): bv16 {
    if crc & 0x8000 != 0 then (crc << 1) ^ POLY else crc << 1
  }

  function Shifts(crc: bv16, n: nat): bv16 {
    if n == 0 then crc else Shift(Shifts(crc, n - 1))
  }

  /** Body of the outer loop. */
  function ByteStep(crc: bv16, b: bv8): bv16 {
    Shifts(crc ^ ((b as bv16) << 8), 8)
  }

  function Update(crc: bv16, data: seq<bv8>): bv16
    decreases |data|
  {
    if data == [] then crc
    else ByteStep(Update(crc, data[..|data| - 1]), data[|data| - 1])
  }

  function Checksum(buf: seq<bv8>): bv16 {
    Update(INIT, buf)
  }

  /** The loop that `compute` and the incremental engine share. */
  method Absorb(start: bv16, buf: seq<bv8>) returns (crc: bv16)
    ensures crc == Update(start, buf)
  {
    crc := start;
    for i := 0 to |buf|
      invariant crc == Update(start, buf[..i])
    {
      crc := crc ^ ((buf[i] as bv16) << 8);
      ghost var absorbed := crc;
      for k := 0 to 8
        invariant crc == Shifts(absorbed, k)
      {
        if crc & 0x8000 != 0 {
          crc := (crc << 1) ^ POLY;
        } else {
          crc := crc << 1;
        }
      }
      assert buf[..i + 1][..i] == buf[..i];
    }
    assert buf[..|buf|] == buf;
  }

  method Compute(buf: seq<bv8>) returns (crc: bv16)
    ensures crc == Checksum(buf)
  {
    crc := Absorb(INIT, buf);
  }

  /** `Update` can be split at any point, so checksums of chunks chain. */
  lemma {:induction false} UpdateConcat(crc: bv16, a: seq<bv8>, b: seq<bv8>)
    ensures Update(crc, a + b) == Update(Update(crc, a), b)
    decreases |b|
  {
    if b == [] {
      assert a + b == a;
    } else {
      var n := |b| - 1;
      assert (a + b)[..|a + b| - 1] == a + b[..n];
      UpdateConcat(crc, a, b[..n]);
    }
  }

  // ------------------------------------------------ the register seen as a polynomial

  /** x^12 + x^5 + 1: the generator x^16 + x^12 + x^5 + 1 without its leading term. */
  const GENERATOR: Bits :=
    [false, false, false, true,  false, false, false, false,
     false, false, true,  false, false, false, false, true]

  /** The mask of coefficient x^(15 - i). */
  function Mask(i: nat): bv16
    requires i < 16
  {
    match i
    case 0 => 0x8000 case 1 => 0x4000 case 2 => 0x2000 case 3 => 0x1000
    case 4 => 0x0800 case 5 => 0x0400 case 6 => 0x0200 case 7 => 0x0100
    case 8 => 0x0080 case 9 => 0x0040 case 10 => 0x0020 case 11 => 0x0010
    case 12 => 0x0008 case 13 => 0x0004 case 14 => 0x0002 case _ => 0x0001
  }

  predicate Bit(r: bv16, m: bv16) { r & m != 0 }

  function Bits16(r: bv16): (b: Bits)
    ensures |b| == 16
  {
    seq(16, i requires 0 <= i < 16 => Bit(r, Mask(i)))
  }

  predicate Single(m: bv16) { m & (m - 1) == 0 }

  lemma MaskSingle(i: nat)
    requires i < 16
    ensures Single(Mask(i))
  {
  }

  lemma MaskNext(i: nat)
    requires i < 15
    ensures Mask(i + 1) == Mask(i) >> 1 && Mask(i) & 1 == 0
  {
  }

  lemma ShlLowBit(r: bv16)
    ensures !Bit(r << 1, 1)
  {
  }

  lemma XorBit(r: bv16, s: bv16, m: bv16)
    requires Single(m)
    ensures Bit(r ^ s, m) == (Bit(r, m) != Bit(s, m))
  {
  }

  lemma ShlBitNext(r: bv16, m: bv16, next: bv16)
    requires m & 1 == 0 && next == m >> 1
    ensures Bit(r << 1, m) == Bit(r, next)
  {
  }

  lemma ShlBitAt(r: bv16, i: nat)
    requires i < 15
    ensures Bit(r << 1, Mask(i)) == Bit(r, Mask(i + 1))
  {
    MaskNext(i);
    ShlBitNext(r, Mask(i), Mask(i + 1));
  }

  lemma ShlBits(r: bv16)
    ensures Bits16(r << 1) == Bits16(r)[1..] + [false]
  {
    var a, b := Bits16(r << 1), Bits16(r);
    assert |a| == 16 && |b| == 16;
    forall i | 0 <= i < 16 ensures a[i] == (b[1..] + [false])[i] {
      if i < 15 {
        ShlBitAt(r, i);
      } else {
        ShlLowBit(r);
      }
    }
  }

  lemma XorBits(r: bv16, s: bv16)
    ensures Bits16(r ^ s) == Xor(Bits16(r), Bits16(s))
  {
    forall i | 0 <= i < 16 ensures Bits16(r ^ s)[i] == Xor(Bits16(r), Bits16(s))[i] {
      MaskSingle(i);
      XorBit(r, s, Mask(i));
    }
  }

  lemma PolyBits()
    ensures Bits16(POLY) == GENERATOR
  {
    forall i | 0 <= i < 16 ensures Bit(POLY, Mask(i)) == GENERATOR[i] {
    }
  }

  lemma ShiftIsStep(r: bv16)
    ensures Bits16(Shift(r)) == Step(GENERATOR, Bits16(r), false)
  {
    ShlBits(r);
    assert Bits16(r)[0] == Bit(r, 0x8000);
    if Bit(r, 0x8000) {
      XorBits(r << 1, POLY);
      PolyBits();
    }
  }

  lemma {:induction false} ShiftsAreRun(r: bv16, n: nat)
    ensures Bits16(Shifts(r, n)) == Run(GENERATOR, Bits16(r), Zeros(n))
  {
    if n > 0 {
      ShiftsAreRun(r, n - 1);
      ShiftIsStep(Shifts(r, n - 1));
      RunSnoc(GENERATOR, Bits16(r), Zeros(n - 1), false);
      assert Zeros(n - 1) + [false] == Zeros(n);
    }
  }

  lemma WidenBit(b: bv8, m: bv8)
    ensures Bit((b as bv16) << 8, (m as bv16) << 8) == ByteBit(b, m)
  {
  }

  lemma WidenLowBit(b: bv8, m: bv16)
    requires m & 0xFF == m
    ensures !Bit((b as bv16) << 8, m)
  {
  }

  lemma MaskHalves(i: nat)
    requires i < 8
    ensures Mask(i) == (ByteMask(i) as bv16) << 8
    ensures Mask(i + 8) == ByteMask(i) as bv16 && Mask(i + 8) & 0xFF == Mask(i + 8)
  {
  }

  lemma WidenBitAt(b: bv8, i: nat)
    requires i < 8
    ensures Bits16((b as bv16) << 8)[i] == ByteBits(b)[i] && !Bits16((b as bv16) << 8)[i + 8]
  {
    MaskHalves(i);
    WidenBit(b, ByteMask(i));
    WidenLowBit(b, Mask(i + 8));
  }

  lemma WidenBits(b: bv8)
    ensures Bits16((b as bv16) << 8) == ByteBits(b) + Zeros(8)
  {
    var wide, bits := Bits16((b as bv16) << 8), ByteBits(b) + Zeros(8);
    forall i | 0 <= i < 16 ensures wide[i] == bits[i] {
      WidenBitAt(b, if i < 8 then i else i - 8);
    }
  }

  lemma ByteStepIsRun(r: bv16, b: bv8)
    ensures Bits16(ByteStep(r, b)) == Run(GENERATOR, Bits16(r), ByteBits(b))
  {
    var absorbed := r ^ ((b as bv16) << 8);
    assert Bits16(absorbed) == Xor(Bits16(r), ByteBits(b) + Zeros(8)) by {
      XorBits(r, (b as bv16) << 8);
      WidenBits(b);
    }
    ShiftsAreRun(absorbed, 8);
    PreloadIsFeed(GENERATOR, Bits16(r), ByteBits(b));
  }

  lemma {:induction false} UpdateIsRun(r: bv16, m: seq<bv8>)
    ensures Bits16(Update(r, m)) == Run(GENERATOR, Bits16(r), MessageBits(m))
    decreases |m|
  {
    if m != [] {
      var m', b := m[..|m| - 1], m[|m| - 1];
      UpdateIsRun(r, m');
      ByteStepIsRun(Update(r, m'), b);
      RunConcat(GENERATOR, Bits16(r), MessageBits(m'), ByteBits(b));
    }
  }

  /** `x^16 + x^12 + x^5 + 1`, less its leading term. */
  predicate IsCcitt(g: Bits) {
    |g| == 16 && forall i :: 0 <= i < 16 ==> g[i] == (15 - i == 12 || 15 - i == 5 || 15 - i == 0)
  }

  lemma Constants(g: Bits, ones: Bits)
    requires IsCcitt(g) && |ones| == 16 && forall i :: 0 <= i < 16 ==> ones[i]
    ensures g == GENERATOR && ones == Bits16(INIT)
  {
    forall i | 0 <= i < 16 ensures Bits16(INIT)[i] {
    }
  }

  /** The checksum is the remainder, on division by `x^16 + x^12 + x^5 + 1`, of the message
      with sixteen ones added to its leading bits, and nothing else is. */
  lemma ChecksumIsRemainder(g: Bits, ones: Bits, m: seq<bv8>, q: Bits, rem: Bits)
    requires IsCcitt(g) && |ones| == 16 && forall i :: 0 <= i < 16 ==> ones[i]
    requires |q| == 8 * |m| && |rem| == 16
    ensures Divides(g, ones, MessageBits(m), q, rem) ==> rem == Bits16(Checksum(m))
    ensures exists q' :: |q'| == 8 * |m| && Divides(g, ones, MessageBits(m), q', Bits16(Checksum(m)))
  {
    Constants(g, ones);
    var r, bits := Bits16(INIT), MessageBits(m);
    UpdateIsRun(INIT, m);
    RunDivides(GENERATOR, r, bits);
    if Divides(GENERATOR, r, bits, q, rem) {
      RemainderUnique(GENERATOR, r, bits, q, Quotient(GENERATOR, r, bits), rem, Run(GENERATOR, r, bits));
    }
  }

  lemma ShiftsTwo(crc: bv16, n: nat)
    ensures Shifts(crc, 0) == crc && Shifts(crc, n + 2) == Shift(Shift(Shifts(crc, n)))
  {
    hide Shift;
  }

  /** The loops, byte by byte. */
  lemma CheckStep(m: seq<bv8>, k: nat, crc: bv16, crc': bv16)
    requires k < |m| && Update(INIT, m[..k]) == crc
    requires crc' == Shift(Shift(Shift(Shift(Shift(Shift(Shift(Shift(crc ^ ((m[k] as bv16) << 8)))))))))
    ensures Update(INIT, m[..k + 1]) == crc'
  {
    hide Shift;
    assert m[..k + 1][..k] == m[..k];
    var x := crc ^ ((m[k] as bv16) << 8);
    ShiftsTwo(x, 0);
    ShiftsTwo(x, 2);
    ShiftsTwo(x, 4);
    ShiftsTwo(x, 6);
  }

  /** The published check value of CRC-16/CCITT-FALSE, for the digits 1 to 9. */
  lemma CheckValue()
    ensures Checksum([0x31, 0x32, 0x33, 0x34, 0x35, 0x36, 0x37, 0x38, 0x39]) == 0x29B1
  {
    var m: seq<bv8> := [0x31, 0x32, 0x33, 0x34, 0x35, 0x36, 0x37, 0x38, 0x39];
    assert m[..0] == [];
    hide Update;
    CheckStep(m, 0, 0xFFFF, 0xC782);
    CheckStep(m, 1, 0xC782, 0x3DBA);
    CheckStep(m, 2, 0x3DBA, 0x5BCE);
    CheckStep(m, 3, 0x5BCE, 0x5349);
    CheckStep(m, 4, 0x5349, 0x4560);
    CheckStep(m, 5, 0x4560, 0x2EF4);
    CheckStep(m, 6, 0x2EF4, 0x7718);
    CheckStep(m, 7, 0x7718, 0xA12B);
    CheckStep(m, 8, 0xA12B, 0x29B1);
    assert m[..9] == m;
  }

  // ------------------------------------------------------- checksum followed by itself

  function Hi(crc: bv16): bv8 { (crc >> 8) as bv8 }
  function Lo(crc: bv16): bv8 { (crc & 0xFF) as bv8 }

  lemma BigEndianBits(crc: bv16)
    ensures MessageBits([Hi(crc), Lo(crc)]) == Bits16(crc)
  {
    var m := [Hi(crc), Lo(crc)];
    assert m[..1] == [Hi(crc)] && m[..1][..0] == [];
    assert MessageBits([]) == [];
    HalvesBits(crc);
  }

  lemma HalfBit(crc: bv16, m: bv8)
    ensures ByteBit(Hi(crc), m) == Bit(crc, (m as bv16) << 8)
    ensures ByteBit(Lo(crc), m) == Bit(crc, m as bv16)
  {
  }

  lemma HalvesBitAt(crc: bv16, i: nat)
    requires i < 8
    ensures ByteBits(Hi(crc))[i] == Bits16(crc)[i] && ByteBits(Lo(crc))[i] == Bits16(crc)[i + 8]
  {
    MaskHalves(i);
    HalfBit(crc, ByteMask(i));
  }

  lemma HalvesBits(crc: bv16)
    ensures ByteBits(Hi(crc)) + ByteBits(Lo(crc)) == Bits16(crc)
  {
    var halves, bits := ByteBits(Hi(crc)) + ByteBits(Lo(crc)), Bits16(crc);
    forall i | 0 <= i < 16 ensures halves[i] == bits[i] {
      HalvesBitAt(crc, if i < 8 then i else i - 8);
    }
  }

  lemma AllBitsClear(r: bv16)
    requires r & 0xF000 == 0 && r & 0x0F00 == 0 && r & 0x00F0 == 0 && r & 0x000F == 0
    ensures r == 0
  {
  }

  lemma FourBitsClear(r: bv16, a: bv16, b: bv16, c: bv16, d: bv16)
    requires !Bit(r, a) && !Bit(r, b) && !Bit(r, c) && !Bit(r, d)
    ensures r & (a | b | c | d) == 0
  {
  }

  lemma Bits16Zero(r: bv16)
    ensures IsZero(Bits16(r)) <==> r == 0
  {
    if IsZero(Bits16(r)) {
      forall i | 0 <= i < 16 ensures !Bit(r, Mask(i)) {
        assert !Bits16(r)[i];
      }
      FourBitsClear(r, Mask(0), Mask(1), Mask(2), Mask(3));
      FourBitsClear(r, Mask(4), Mask(5), Mask(6), Mask(7));
      FourBitsClear(r, Mask(8), Mask(9), Mask(10), Mask(11));
      FourBitsClear(r, Mask(12), Mask(13), Mask(14), Mask(15));
      AllBitsClear(r);
    }
  }

  /** Two bytes' worth of bits clear the register only if they are its value. */
  lemma ClearedByOwnValue(c: bv16, w: bv16)
    requires IsZero(Run(GENERATOR, Bits16(c), Bits16(w)))
    ensures c == w
  {
    hide *;
    GeneratorEnds();
    XorBits(c, w);
    PreloadIsFeed(GENERATOR, Bits16(c), Bits16(w));
    assert Bits16(w) + Zeros(0) == Bits16(w);
    if !IsZero(Bits16(c ^ w)) {
      ZerosKeepNonzero(GENERATOR, Bits16(c ^ w), 16);
    }
    Bits16Zero(c ^ w);
    XorZeroSame16(c, w);
  }

  /** Two more bytes clear the register exactly if they are its big-endian value. */
  lemma ResidueIff(crc: bv16, m: seq<bv8>, w: bv16)
    ensures Update(crc, m + [Hi(w), Lo(w)]) == 0 <==> Update(crc, m) == w
  {
    hide *;
    var c, all := Update(crc, m), m + [Hi(w), Lo(w)];
    if c == w {
      ResidueIsZero(crc, m);
    } else if Update(crc, all) == 0 {
      GeneratorEnds();
      UpdateIsRun(crc, m);
      UpdateIsRun(crc, all);
      MessageBitsConcat(m, [Hi(w), Lo(w)]);
      BigEndianBits(w);
      RunConcat(GENERATOR, Bits16(crc), MessageBits(m), Bits16(w));
      Bits16Zero(Update(crc, all));
      ClearedByOwnValue(c, w);
    }
  }

  lemma GeneratorEnds()
    ensures |GENERATOR| == 16 && GENERATOR[15]
  {
  }

  lemma XorZeroSame16(a: bv16, b: bv16)
    ensures a ^ b == 0 <==> a == b
  {
  }

  /** Running on over the big-endian checksum clears the register, for every message and
      every starting value. */
  lemma ResidueIsZero(crc: bv16, m: seq<bv8>)
    ensures Update(crc, m + [Hi(Update(crc, m)), Lo(Update(crc, m))]) == 0
  {
    var c := Update(crc, m);
    var all := m + [Hi(c), Lo(c)];
    UpdateIsRun(crc, m);
    UpdateIsRun(crc, all);
    MessageBitsConcat(m, [Hi(c), Lo(c)]);
    BigEndianBits(c);
    Residue(GENERATOR, Bits16(crc), MessageBits(m));
    Bits16Zero(Update(crc, all));
  }
}
