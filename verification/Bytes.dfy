/** Bytes, their bits and their values.  Bytes are bit vectors because the checksums work on
    their bits; `Value` and `Byte` convert to and from numbers through the bit string. */
module Bytes {
  import opened Gf2

  type byte = bv8

  function ByteMask(i: nat): bv8
    requires i < 8
  {
    match i
    case 0 => 0x80 case 1 => 0x40 case 2 => 0x20 case 3 => 0x10
    case 4 => 0x08 case 5 => 0x04 case 6 => 0x02 case _ => 0x01
  }

  predicate ByteBit(b: bv8, m: bv8) { b & m != 0 }

  /** The bits of a byte, most significant first. */
  function ByteBits(b: bv8): (s: Bits)
    ensures |s| == 8
  {
    seq(8, i requires 0 <= i < 8 => ByteBit(b, ByteMask(i)))
  }

  function MessageBits(m: seq<bv8>): (s: Bits)
    ensures |s| == 8 * |m|
    decreases |m|
  {
    if m == [] then [] else MessageBits(m[..|m| - 1]) + ByteBits(m[|m| - 1])
  }

  lemma {:induction false} MessageBitsConcat(a: seq<bv8>, b: seq<bv8>)
    ensures MessageBits(a + b) == MessageBits(a) + MessageBits(b)
    decreases |b|
  {
    if b == [] {
      assert a + b == a;
    } else {
      var n := |b| - 1;
      assert (a + b)[..|a + b| - 1] == a + b[..n];
      MessageBitsConcat(a, b[..n]);
    }
  }

  // ------------------------------------------------------------ values

  function Pow2(n: nat): nat {
    if n == 0 then 1 else 2 * Pow2(n - 1)
  }

  function BitsValue(s: Bits): (v: nat)
    ensures v < Pow2(|s|)
    decreases |s|
  {
    if s == [] then 0
    else 2 * BitsValue(s[..|s| - 1]) + (if s[|s| - 1] then 1 else 0)
  }

  function ValueBits(v: nat, n: nat): (s: Bits)
    requires v < Pow2(n)
    ensures |s| == n
    ensures BitsValue(s) == v
  {
    if n == 0 then [] else ValueBits(v / 2, n - 1) + [v % 2 == 1]
  }

  lemma {:induction false} BitsValueInjective(s: Bits, t: Bits)
    requires |s| == |t| && BitsValue(s) == BitsValue(t)
    ensures s == t
    decreases |s|
  {
    if s != [] {
      var n := |s| - 1;
      BitsValueInjective(s[..n], t[..n]);
      assert s == s[..n] + [s[n]] && t == t[..n] + [t[n]];
    }
  }

  function Flag(b: bool, m: bv8): bv8 {
    if b then m else 0
  }

  function Assemble(s: Bits): bv8
    requires |s| == 8
  {
    Flag(s[0], 0x80) | Flag(s[1], 0x40) | Flag(s[2], 0x20) | Flag(s[3], 0x10)
    | Flag(s[4], 0x08) | Flag(s[5], 0x04) | Flag(s[6], 0x02) | Flag(s[7], 0x01)
  }

  lemma AssembleBit(s: Bits, i: nat)
    requires |s| == 8 && i < 8
    ensures ByteBit(Assemble(s), ByteMask(i)) == s[i]
  {
  }

  lemma AssembleBits(s: Bits)
    requires |s| == 8
    ensures ByteBits(Assemble(s)) == s
  {
    forall i | 0 <= i < 8 ensures ByteBits(Assemble(s))[i] == s[i] {
      AssembleBit(s, i);
    }
  }

  lemma ByteXorBit(a: bv8, b: bv8, m: bv8)
    requires m & (m - 1) == 0
    ensures ByteBit(a ^ b, m) == (ByteBit(a, m) != ByteBit(b, m))
  {
  }

  lemma ByteMaskSingle(i: nat)
    requires i < 8
    ensures ByteMask(i) & (ByteMask(i) - 1) == 0
  {
  }

  lemma ByteXorBits(a: bv8, b: bv8)
    ensures ByteBits(a ^ b) == Xor(ByteBits(a), ByteBits(b))
  {
    forall i | 0 <= i < 8 ensures ByteBits(a ^ b)[i] == Xor(ByteBits(a), ByteBits(b))[i] {
      ByteMaskSingle(i);
      ByteXorBit(a, b, ByteMask(i));
    }
  }

  lemma FourClear(b: bv8)
    ensures !ByteBit(b, 0x80) && !ByteBit(b, 0x40) && !ByteBit(b, 0x20) && !ByteBit(b, 0x10) ==> b & 0xF0 == 0
    ensures !ByteBit(b, 0x08) && !ByteBit(b, 0x04) && !ByteBit(b, 0x02) && !ByteBit(b, 0x01) ==> b & 0x0F == 0
    ensures b & 0xF0 == 0 && b & 0x0F == 0 ==> b == 0
  {
  }

  lemma ByteBitsZero(b: bv8)
    ensures IsZero(ByteBits(b)) <==> b == 0
  {
    if IsZero(ByteBits(b)) {
      forall i | 0 <= i < 8 ensures !ByteBit(b, ByteMask(i)) {
        assert !ByteBits(b)[i];
      }
      assert !ByteBit(b, ByteMask(0)) && !ByteBit(b, ByteMask(1)) && !ByteBit(b, ByteMask(2)) && !ByteBit(b, ByteMask(3));
      assert !ByteBit(b, ByteMask(4)) && !ByteBit(b, ByteMask(5)) && !ByteBit(b, ByteMask(6)) && !ByteBit(b, ByteMask(7));
      FourClear(b);
    }
  }

  lemma XorZeroSame(a: bv8, b: bv8)
    ensures a ^ b == 0 <==> a == b
  {
  }

  lemma ByteBitsInjective(a: bv8, b: bv8)
    requires ByteBits(a) == ByteBits(b)
    ensures a == b
  {
    ByteXorBits(a, b);
    ByteBitsZero(a ^ b);
    XorZeroSame(a, b);
  }

  lemma Pow2Of8()
    ensures Pow2(8) == 256
  {
    assert Pow2(4) == 16;
  }

  function Value(b: byte): (v: nat)
    ensures v < 256
  {
    Pow2Of8();
    BitsValue(ByteBits(b))
  }

  lemma ValueInjective(a: byte, b: byte)
    requires Value(a) == Value(b)
    ensures a == b
  {
    BitsValueInjective(ByteBits(a), ByteBits(b));
    ByteBitsInjective(a, b);
  }

  lemma ValueOnto(v: nat)
    requires v < 256
    ensures exists b: byte :: Value(b) == v
  {
    Pow2Of8();
    AssembleBits(ValueBits(v, 8));
    assert Value(Assemble(ValueBits(v, 8))) == v;
  }

  /** The byte of a given value. */
  function Byte(v: nat): (b: byte)
    requires v < 256
    ensures Value(b) == v
  {
    ValueOnto(v);
    assert forall a: byte, b: byte :: Value(a) == v && Value(b) == v ==> a == b by {
      forall a: byte, b: byte | Value(a) == v && Value(b) == v ensures a == b {
        ValueInjective(a, b);
      }
    }
    var b: byte :| Value(b) == v;
    b
  }

  lemma ByteOfValue(b: byte)
    ensures Byte(Value(b)) == b
  {
    ValueInjective(Byte(Value(b)), b);
  }

  // ------------------------------------------------------------ big-endian fields

  /** `to_be_bytes` of a 16-bit number. */
  function BigEndian16(n: nat): (s: seq<byte>)
    requires n < 0x1_0000
    ensures |s| == 2
    ensures FromBigEndian16(s[0], s[1]) == n
  {
    [Byte(n / 256), Byte(n % 256)]
  }

  /** `u16::from_be_bytes`. */
  function FromBigEndian16(hi: byte, lo: byte): (n: nat)
    ensures n < 0x1_0000
  {
    256 * Value(hi) + Value(lo)
  }

  lemma {:induction false} BitsValueConcat(s: Bits, t: Bits)
    ensures BitsValue(s + t) == BitsValue(s) * Pow2(|t|) + BitsValue(t)
    decreases |t|
  {
    if t == [] {
      assert s + t == s;
    } else {
      var n := |t| - 1;
      assert (s + t)[..|s + t| - 1] == s + t[..n];
      BitsValueConcat(s, t[..n]);
      DoubleSum(BitsValue(s), Pow2(n), BitsValue(t[..n]));
    }
  }

  lemma DoubleSum(a: nat, b: nat, c: nat)
    ensures 2 * (a * b + c) == a * (2 * b) + 2 * c
  {
  }

  lemma MessageBitsOfPair(a: byte, b: byte)
    ensures MessageBits([a, b]) == ByteBits(a) + ByteBits(b)
  {
    var m := [a, b];
    assert m[..1] == [a] && m[..1][..0] == [];
    assert MessageBits([]) == [];
  }

  /** The number that bytes spell, the most significant bit first. */
  function Spelt(m: seq<byte>): (n: nat)
    ensures n < Pow2(8 * |m|)
  {
    BitsValue(MessageBits(m))
  }

  lemma {:induction false} MessageBitsInjective(a: seq<byte>, b: seq<byte>)
    requires |a| == |b| && MessageBits(a) == MessageBits(b)
    ensures a == b
    decreases |a|
  {
    hide ByteBits;
    if a != [] {
      var n := |a| - 1;
      assert MessageBits(a)[..8 * n] == MessageBits(a[..n]) && MessageBits(a)[8 * n..] == ByteBits(a[n]);
      assert MessageBits(b)[..8 * n] == MessageBits(b[..n]) && MessageBits(b)[8 * n..] == ByteBits(b[n]);
      MessageBitsInjective(a[..n], b[..n]);
      ByteBitsInjective(a[n], b[n]);
      assert a == a[..n] + [a[n]] && b == b[..n] + [b[n]];
    }
  }

  lemma SpeltInjective(a: seq<byte>, b: seq<byte>)
    requires |a| == |b| && Spelt(a) == Spelt(b)
    ensures a == b
  {
    BitsValueInjective(MessageBits(a), MessageBits(b));
    MessageBitsInjective(a, b);
  }

  lemma PairSpells(hi: byte, lo: byte)
    ensures Spelt([hi, lo]) == FromBigEndian16(hi, lo)
  {
    hide ByteBits, BitsValue;
    MessageBitsOfPair(hi, lo);
    BitsValueConcat(ByteBits(hi), ByteBits(lo));
    Pow2Of8();
  }

  /** On the wire the most significant byte comes first. */
  lemma BigEndian16Spells(n: nat)
    requires n < 0x1_0000
    ensures Spelt(BigEndian16(n)) == n
  {
    hide BigEndian16, FromBigEndian16, Spelt;
    var s := BigEndian16(n);
    assert s == [s[0], s[1]];
    PairSpells(s[0], s[1]);
  }

  lemma DigitsOf(a: nat, b: nat)
    requires b < 256
    ensures (256 * a + b) / 256 == a && (256 * a + b) % 256 == b
  {
  }

  lemma BigEndian16Inverse(hi: byte, lo: byte)
    ensures BigEndian16(FromBigEndian16(hi, lo)) == [hi, lo]
  {
    DigitsOf(Value(hi), Value(lo));
    ByteOfValue(hi);
    ByteOfValue(lo);
  }
}
