/** What the packet checksum, together with the framing bytes, is guaranteed to catch. */
module ErrorDetection {
  import opened Wrappers
  import opened Gf2
  import opened Bytes
  import Crc16
  import opened Packet

  /** The frame as received when the channel flips the bits set in `e`. */
  function Corrupt(f: seq<byte>, e: seq<byte>): (c: seq<byte>)
    requires |f| == |e|
    ensures |c| == |f|
  {
    seq(|f|, i requires 0 <= i < |f| => f[i] ^ e[i])
  }

  /** All flipped bits lie within `w` consecutive ones, in transmission order. */
  ghost predicate Burst(e: Bits, w: nat) {
    exists k: int :: BurstAt(e, k, w)
  }

  ghost predicate BurstAt(e: Bits, k: int, w: nat) {
    forall i :: 0 <= i < |e| && e[i] ==> k <= i < k + w
  }

  /** An error pattern of the kinds the codec promises to catch. */
  ghost predicate Detectable(e: seq<byte>) {
    var bits := MessageBits(e);
    Parity(bits) || (!IsZero(bits) && Burst(bits, 16))
  }

  lemma CorruptInit(f: seq<byte>, e: seq<byte>)
    requires |f| == |e| > 0
    ensures Corrupt(f, e)[..|f| - 1] == Corrupt(f[..|f| - 1], e[..|f| - 1])
    ensures Corrupt(f, e)[|f| - 1] == f[|f| - 1] ^ e[|f| - 1]
  {
  }

  lemma {:induction false} CorruptBits(f: seq<byte>, e: seq<byte>)
    requires |f| == |e|
    ensures MessageBits(Corrupt(f, e)) == Xor(MessageBits(f), MessageBits(e))
    decreases |f|
  {
    if f != [] {
      var n := |f| - 1;
      CorruptBits(f[..n], e[..n]);
      CorruptInit(f, e);
      ByteXorBits(f[n], e[n]);
      XorConcat(MessageBits(f[..n]), MessageBits(e[..n]), ByteBits(f[n]), ByteBits(e[n]));
    }
  }

  /** The bytes between SOH and ETX: what is covered, and its checksum. */
  function Body(f: seq<byte>): (b: seq<byte>)
    requires |f| >= OVERHEAD
  {
    f[1..|f| - 1]
  }

  lemma BodyClearsRegister(p: Packet)
    requires p.Fits()
    ensures IsZero(Run(Crc16.GENERATOR, Crc16.Bits16(Crc16.INIT), MessageBits(Body(Frame(p)))))
  {
    var covered := Covered(p);
    var crc := Crc16.Checksum(covered);
    assert Body(Frame(p)) == covered + [Crc16.Hi(crc), Crc16.Lo(crc)];
    Crc16.ResidueIsZero(Crc16.INIT, covered);
    Crc16.UpdateIsRun(Crc16.INIT, Body(Frame(p)));
    Crc16.Bits16Zero(Crc16.Update(Crc16.INIT, Body(Frame(p))));
  }

  lemma XorCancels(r: Bits, s: Bits)
    requires |r| == |s| && IsZero(r) && IsZero(Xor(r, s))
    ensures IsZero(s)
  {
    forall i | 0 <= i < |s| ensures !s[i] {
      assert !Xor(r, s)[i];
    }
  }

  lemma BodyOfCorrupt(f: seq<byte>, e: seq<byte>)
    requires |f| == |e| >= OVERHEAD
    ensures |Body(f)| == |Body(e)| && Body(Corrupt(f, e)) == Corrupt(Body(f), Body(e))
  {
  }

  /** A flip pattern that maps one frame to another has a body that clears the register
      started from zero. */
  lemma {:induction false} UndetectedBodyCancels(p: Packet, q: Packet, e: seq<byte>)
    requires p.Fits() && q.Fits() && |e| == |Frame(p)|
    requires Corrupt(Frame(p), e) == Frame(q)
    ensures IsZero(Run(Crc16.GENERATOR, Zeros(16), MessageBits(Body(e))))
  {
    assert |Crc16.GENERATOR| == 16;
    hide *;
    BodyOfCorrupt(Frame(p), e);
    var g, init := Crc16.GENERATOR, Crc16.Bits16(Crc16.INIT);
    var pBits, eBits := MessageBits(Body(Frame(p))), MessageBits(Body(e));
    BodyClearsRegister(p);
    BodyClearsRegister(q);
    CorruptBits(Body(Frame(p)), Body(e));
    XorWithZeros(init);
    RunLinear(g, init, Zeros(16), pBits, eBits);
    XorCancels(Run(g, init, pBits), Run(g, Zeros(16), eBits));
  }

  lemma MessageBitsOfOne(b: byte)
    ensures MessageBits([b]) == ByteBits(b)
  {
    assert [b][..0] == [];
    assert MessageBits([b]) == MessageBits([]) + ByteBits(b);
  }

  lemma EndsUntouched(p: Packet, q: Packet, e: seq<byte>)
    requires p.Fits() && q.Fits() && |e| == |Frame(p)|
    requires Corrupt(Frame(p), e) == Frame(q)
    ensures e[0] == 0 && e[|e| - 1] == 0
  {
    var n := |e| - 1;
    assert Frame(p)[0] == Frame(q)[0] == SOH;
    FrameEnd(p);
    FrameEnd(q);
    UnchangedByte(Frame(p)[0], e[0]);
    UnchangedByte(Frame(p)[n], e[n]);
  }

  lemma FrameEnd(p: Packet)
    requires p.Fits()
    ensures Frame(p)[|Frame(p)| - 1] == ETX
  {
    assert Frame(p)[|Frame(p)| - 1] == Trailer(Crc16.Checksum(Covered(p)))[2];
  }

  lemma FramingUntouched(p: Packet, q: Packet, e: seq<byte>)
    requires p.Fits() && q.Fits() && |e| == |Frame(p)|
    requires Corrupt(Frame(p), e) == Frame(q)
    ensures MessageBits(e) == Zeros(8) + MessageBits(Body(e)) + Zeros(8)
  {
    EndsUntouched(p, q, e);
    BitsBetweenZeros(e);
  }

  lemma BitsBetweenZeros(e: seq<byte>)
    requires |e| >= OVERHEAD && e[0] == 0 && e[|e| - 1] == 0
    ensures MessageBits(e) == Zeros(8) + MessageBits(Body(e)) + Zeros(8)
  {
    hide *;
    EndsAndBody(e);
    MessageBitsOfZero();
    BitsOfPadded([0], Body(e));
  }

  lemma EndsAndBody(e: seq<byte>)
    requires |e| >= OVERHEAD && e[0] == 0 && e[|e| - 1] == 0
    ensures e == [0] + Body(e) + [0]
  {
  }

  lemma BitsOfPadded(a: seq<byte>, m: seq<byte>)
    ensures MessageBits(a + m + a) == MessageBits(a) + MessageBits(m) + MessageBits(a)
  {
    MessageBitsConcat(a + m, a);
    MessageBitsConcat(a, m);
  }

  lemma MessageBitsOfZero()
    ensures MessageBits([0]) == Zeros(8)
  {
    MessageBitsOfOne(0);
    ByteBitsZero(0);
  }

  lemma UnchangedByte(a: byte, e: byte)
    requires a ^ e == a
    ensures e == 0
  {
  }

  /** A window of 16 bits can be slid inside the body without losing any flipped bit. */
  lemma BodyWindow(bits: Bits, body: Bits, k: int) returns (k': nat)
    requires bits == Zeros(8) + body + Zeros(8) && |body| >= 16
    requires BurstAt(bits, k, 16)
    ensures k' + 16 <= |body| && BurstAt(body, k', 16)
  {
    var j := k - 8;
    k' := if j < 0 then 0 else if j + 16 > |body| then |body| - 16 else j;
    forall i | 0 <= i < |body| && body[i] ensures k' <= i < k' + 16 {
      assert bits[i + 8];
    }
  }

  lemma BodyNonzero(bits: Bits, body: Bits)
    requires bits == Zeros(8) + body + Zeros(8) && !IsZero(bits)
    ensures !IsZero(body)
  {
    var i :| 0 <= i < |bits| && bits[i];
    assert body[i - 8];
  }

  lemma {:induction false} ParityOfOne(n: nat, b: Bits)
    ensures Parity(Zeros(n) + ([true] + b)) == !Parity(b)
  {
    ParityOfZero(Zeros(n));
    ParityConcat(Zeros(n), [true] + b);
    assert ([true] + b)[1..] == b;
  }

  /** The generator has a constant term, and an even number of terms with the leading one. */
  lemma GeneratorShape()
    ensures Crc16.GENERATOR[15] && Parity(Crc16.GENERATOR)
  {
    hide Parity;
    var one := Zeros(4) + ([true] + []);
    var two := Zeros(6) + ([true] + one);
    ParityOfZero([]);
    ParityOfOne(4, []);
    ParityOfOne(6, one);
    ParityOfOne(3, two);
    assert Crc16.GENERATOR == Zeros(3) + ([true] + two);
  }

  /** No error burst of up to 16 bits and no odd number of flipped bits gets a frame past
      `Decode`, wherever it falls: in SOH, the length, the payload, the checksum or ETX. */
  lemma CorruptionRejected(p: Packet, e: seq<byte>)
    requires p.Fits() && |e| == |Frame(p)|
    requires Detectable(e)
    ensures Decode(Corrupt(Frame(p), e)).Err?
  {
    var c := Corrupt(Frame(p), e);
    if Decode(c).Ok? {
      var q := Decode(c).value;
      DecodedIsFrame(c);
      UndetectedBodyCancels(p, q, e);
      FramingUntouched(p, q, e);
      UndetectedIsUndetectable(MessageBits(e), MessageBits(Body(e)));
      assert false;
    }
  }

  lemma UndetectedIsUndetectable(bits: Bits, body: Bits)
    requires bits == Zeros(8) + body + Zeros(8) && |body| >= 16
    requires IsZero(Run(Crc16.GENERATOR, Zeros(16), body))
    ensures !Parity(bits) && (IsZero(bits) || !Burst(bits, 16))
  {
    UndetectedIsEven(bits, body);
    hide Parity, Run, Zeros;
    if !IsZero(bits) && Burst(bits, 16) {
      var k: int :| BurstAt(bits, k, 16);
      var k' := BodyWindow(bits, body, k);
      BodyNonzero(bits, body);
      GeneratorShape();
      BurstDetected(Crc16.GENERATOR, body, k');
    }
  }

  lemma UndetectedIsEven(bits: Bits, body: Bits)
    requires bits == Zeros(8) + body + Zeros(8)
    requires IsZero(Run(Crc16.GENERATOR, Zeros(16), body))
    ensures !Parity(bits)
  {
    hide Parity, Run;
    var g := Crc16.GENERATOR;
    GeneratorShape();
    ParityOfZero(Zeros(16));
    ParityOfZero(Zeros(8));
    ParityOfZero(Run(g, Zeros(16), body));
    RunParity(g, Zeros(16), body);
    ParityConcat(Zeros(8) + body, Zeros(8));
    ParityConcat(Zeros(8), body);
  }
}
