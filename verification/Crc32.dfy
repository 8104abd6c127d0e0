/** CRC-32/IEEE as the whole-image check computes it: reflected, least significant bit
    first (crates/protocol/src/packet/crc32.rs), against the most-significant-bit-first
    register that the DMA sniffer runs over bit-reversed data
    (firmware/src/crc_sniffer.rs). */
module Crc32 {

  const POLY: bv32 := 0xEDB88320
  const INIT: bv32 := 0xFFFFFFFF
  const XOROUT: bv32 := 0xFFFFFFFF

  /** Body of the inner loop. */
  function Shift(s: bv32): bv32 {
    if s & 1 != 0 then (s >> 1) ^ POLY else s >> 1
  }

  function Shifts(s: bv32, n: nat): bv32 {
    if n == 0 then s else Shift(Shifts(s, n - 1))
  }

  function ByteStep(s: bv32, b: bv8): bv32 {
    Shifts(s ^ (b as bv32), 8)
  }

  function Update(s: bv32, data: seq<bv8>): bv32
    decreases |data|
  {
    if data == [] then s
    else ByteStep(Update(s, data[..|data| - 1]), data[|data| - 1])
  }

  function Checksum(buf: seq<bv8>): bv32 {
    Update(INIT, buf) ^ XOROUT
  }

  /** The loop that `compute` and the incremental engine share. */
  method Absorb(start: bv32, buf: seq<bv8>) returns (state: bv32)
    ensures state == Update(start, buf)
  {
    state := start;
    for i := 0 to |buf|
      invariant state == Update(start, buf[..i])
    {
      state := state ^ (buf[i] as bv32);
      ghost var absorbed := state;
      for k := 0 to 8
        invariant state == Shifts(absorbed, k)
      {
        var lsbSet := state & 1 != 0;
        state := state >> 1;
        if lsbSet {
          state := state ^ POLY;
        }
      }
      assert buf[..i + 1][..i] == buf[..i];
    }
    assert buf[..|buf|] == buf;
  }

  method Compute(buf: seq<bv8>) returns (crc: bv32)
    ensures crc == Checksum(buf)
  {
    var state := Absorb(INIT, buf);
    return state ^ XOROUT;
  }

  lemma {:induction false} UpdateConcat(s: bv32, a: seq<bv8>, b: seq<bv8>)
    ensures Update(s, a + b) == Update(Update(s, a), b)
    decreases |b|
  {
    if b == [] {
      assert a + b == a;
    } else {
      var n := |b| - 1;
      assert (a + b)[..|a + b| - 1] == a + b[..n];
      UpdateConcat(s, a, b[..n]);
    }
  }

  lemma ShiftsTwo(s: bv32, n: nat)
    ensures Shifts(s, 0) == s && Shifts(s, n + 2) == Shift(Shift(Shifts(s, n)))
  {
    hide Shift;
  }

  /** The loops, byte by byte. */
  lemma CheckStep(m: seq<bv8>, k: nat, s: bv32, s': bv32)
    requires k < |m| && Update(INIT, m[..k]) == s
    requires s' == Shift(Shift(Shift(Shift(Shift(Shift(Shift(Shift(s ^ (m[k] as bv32)))))))))
    ensures Update(INIT, m[..k + 1]) == s'
  {
    hide Shift;
    assert m[..k + 1][..k] == m[..k];
    var x := s ^ (m[k] as bv32);
    ShiftsTwo(x, 0);
    ShiftsTwo(x, 2);
    ShiftsTwo(x, 4);
    ShiftsTwo(x, 6);
  }

  /** The published check value of CRC-32/IEEE, for the digits 1 to 9. */
  lemma CheckValue()
    ensures Checksum([0x31, 0x32, 0x33, 0x34, 0x35, 0x36, 0x37, 0x38, 0x39]) == 0xCBF43926
  {
    var m: seq<bv8> := [0x31, 0x32, 0x33, 0x34, 0x35, 0x36, 0x37, 0x38, 0x39];
    assert m[..0] == [];
    hide Update;
    CheckStep(m, 0, 0xFFFFFFFF, 0x7C231048);
    CheckStep(m, 1, 0x7C231048, 0xB0ACBB32);
    CheckStep(m, 2, 0xB0ACBB32, 0x77B79C2D);
    CheckStep(m, 3, 0x77B79C2D, 0x641C1F5C);
    CheckStep(m, 4, 0x641C1F5C, 0x340AC5E3);
    CheckStep(m, 5, 0x340AC5E3, 0xF68D2C9E);
    CheckStep(m, 6, 0xF68D2C9E, 0xAFFC9660);
    CheckStep(m, 7, 0xAFFC9660, 0x651F2550);
    CheckStep(m, 8, 0x651F2550, 0x340BC6D9);
    assert m[..9] == m;
  }

  // ------------------------------------------------------------ the sniffer's register

  const MSB_POLY: bv32 := 0x04C11DB7

  function MsbShift(r: bv32): bv32 {
    if r & 0x80000000 != 0 then (r << 1) ^ MSB_POLY else r << 1
  }

  function MsbShifts(r: bv32, n: nat): bv32 {
    if n == 0 then r else MsbShift(MsbShifts(r, n - 1))
  }

  function MsbByteStep(r: bv32, b: bv8): bv32 {
    MsbShifts(r ^ ((b as bv32) << 24), 8)
  }

  function MsbUpdate(r: bv32, data: seq<bv8>): bv32
    decreases |data|
  {
    if data == [] then r
    else MsbByteStep(MsbUpdate(r, data[..|data| - 1]), data[|data| - 1])
  }

  /** Bit reversal, by exchanging ever larger neighbours.  `ReverseShr` and `ReverseLow`
      say that this is what it does. */
  function Reverse(s: bv32): bv32 {
    var a := ((s & 0x55555555) << 1) | ((s >> 1) & 0x55555555);
    var b := ((a & 0x33333333) << 2) | ((a >> 2) & 0x33333333);
    var c := ((b & 0x0F0F0F0F) << 4) | ((b >> 4) & 0x0F0F0F0F);
    var d := ((c & 0x00FF00FF) << 8) | ((c >> 8) & 0x00FF00FF);
    (d << 16) | (d >> 16)
  }

  function ReverseByte(s: bv8): bv8 {
    var a := ((s & 0x55) << 1) | ((s >> 1) & 0x55);
    var b := ((a & 0x33) << 2) | ((a >> 2) & 0x33);
    (b << 4) | (b >> 4)
  }

  function ReverseBytes(data: seq<bv8>): (r: seq<bv8>)
    ensures |r| == |data|
  {
    seq(|data|, i requires 0 <= i < |data| => ReverseByte(data[i]))
  }

  lemma ReverseXor(a: bv32, b: bv32)
    ensures Reverse(a ^ b) == Reverse(a) ^ Reverse(b)
  {
  }

  lemma ReverseShr(s: bv32)
    ensures Reverse(s >> 1) == Reverse(s) << 1
  {
  }

  lemma ReverseLow(s: bv32)
    ensures (Reverse(s) & 0x80000000 != 0) == (s & 1 != 0)
  {
  }

  lemma ReverseTwice(s: bv32)
    ensures Reverse(Reverse(s)) == s
  {
  }

  lemma ReverseWidened(b: bv8)
    ensures Reverse(b as bv32) == (ReverseByte(b) as bv32) << 24
  {
  }

  lemma PolyReversed()
    ensures Reverse(POLY) == MSB_POLY && Reverse(INIT) == INIT
  {
  }

  lemma ReverseShift(s: bv32)
    ensures Reverse(Shift(s)) == MsbShift(Reverse(s))
  {
    ReverseShr(s);
    ReverseLow(s);
    PolyReversed();
    if s & 1 != 0 {
      ReverseXor(s >> 1, POLY);
    }
  }

  lemma {:induction false} ReverseShifts(s: bv32, n: nat)
    ensures Reverse(Shifts(s, n)) == MsbShifts(Reverse(s), n)
  {
    if n > 0 {
      ReverseShifts(s, n - 1);
      ReverseShift(Shifts(s, n - 1));
    }
  }

  lemma ReverseByteStep(s: bv32, b: bv8)
    ensures Reverse(ByteStep(s, b)) == MsbByteStep(Reverse(s), ReverseByte(b))
  {
    ReverseShifts(s ^ (b as bv32), 8);
    assert Reverse(s ^ (b as bv32)) == Reverse(s) ^ ((ReverseByte(b) as bv32) << 24) by {
      ReverseXor(s, b as bv32);
      ReverseWidened(b);
    }
  }

  lemma {:induction false} ReverseUpdate(s: bv32, data: seq<bv8>)
    ensures Reverse(Update(s, data)) == MsbUpdate(Reverse(s), ReverseBytes(data))
    decreases |data|
  {
    if data != [] {
      var n := |data| - 1;
      ReverseUpdate(s, data[..n]);
      assert ReverseBytes(data)[..n] == ReverseBytes(data[..n]);
      ReverseByteStep(Update(s, data[..n]), data[n]);
    }
  }

  /** The reflected loop equals the most-significant-bit-first register fed bit-reversed
      bytes, read out bit-reversed and inverted, for every message. */
  lemma ReflectedEqualsSniffer(data: seq<bv8>)
    ensures Checksum(data) == Reverse(MsbUpdate(0xFFFFFFFF, ReverseBytes(data))) ^ 0xFFFFFFFF
  {
    ReverseUpdate(INIT, data);
    PolyReversed();
    ReverseTwice(Update(INIT, data));
  }
}
