/** The wire packet codec (crates/protocol/src/packet/mod.rs):
    `SOH | CMD | SEQ | LEN_HI | LEN_LO | PAYLOAD | CRC_HI | CRC_LO | ETX`. */
module Packet {
  import opened Wrappers
  import opened Bytes
  import Crc16

  const SOH: byte := 0x01
  const ETX: byte := 0x03
  const HEADER_LEN: nat := 5
  const TRAILER_LEN: nat := 3
  const OVERHEAD: nat := HEADER_LEN + TRAILER_LEN
  const MAX_PAYLOAD: nat := 256 - OVERHEAD
  const MAX_PACKET: nat := MAX_PAYLOAD + OVERHEAD

  datatype Packet = Packet(cmd: byte, seqNo: byte, payload: seq<byte>) {
    /** What the fixed capacity of the payload vector guarantees. */
    predicate Fits() { |payload| <= MAX_PAYLOAD }
  }

  /** `OutgoingPacket::new`. */
  function NewOutgoing(cmd: byte, seqNo: byte, payload: seq<byte>): Option<Packet> {
    if |payload| > MAX_PAYLOAD then None else Some(Packet(cmd, seqNo, payload))
  }

  datatype DecodeError = TooShort | BadSoh | BadLen | BadEtx | BadCrc | PayloadOverflow

  datatype EncodeError = PayloadTooLarge | OutputTooSmall

  // ------------------------------------------------------------ checksum bytes

  /** `u16::from_be_bytes` on a checksum; `to_be_bytes` is `Crc16.Hi` and `Crc16.Lo`. */
  function Join(hi: byte, lo: byte): bv16 {
    ((hi as bv16) << 8) | (lo as bv16)
  }

  lemma JoinOfHalves(w: bv16)
    ensures Join(Crc16.Hi(w), Crc16.Lo(w)) == w
  {
  }

  lemma HalvesOfJoin(hi: byte, lo: byte)
    ensures Crc16.Hi(Join(hi, lo)) == hi && Crc16.Lo(Join(hi, lo)) == lo
  {
  }

  // ------------------------------------------------------------ wire format

  /** The part of a frame that the checksum covers. */
  function Covered(p: Packet): (s: seq<byte>)
    requires p.Fits()
    ensures |s| == 4 + |p.payload|
  {
    [p.cmd, p.seqNo] + BigEndian16(|p.payload|) + p.payload
  }

  function Trailer(crc: bv16): (s: seq<byte>)
    ensures |s| == TRAILER_LEN
  {
    [Crc16.Hi(crc), Crc16.Lo(crc), ETX]
  }

  function Frame(p: Packet): (f: seq<byte>)
    requires p.Fits()
    ensures |f| == |p.payload| + OVERHEAD <= MAX_PACKET
  {
    [SOH] + Covered(p) + Trailer(Crc16.Checksum(Covered(p)))
  }

  /** The five header bytes. */
  method FillFixed(p: Packet, out: array<byte>)
    requires p.Fits() && out.Length >= HEADER_LEN
    modifies out
    ensures out[..] == ([SOH, p.cmd, p.seqNo] + BigEndian16(|p.payload|)) + old(out[HEADER_LEN..])
  {
    var len := BigEndian16(|p.payload|);
    hide *;
    out[0] := SOH;
    out[1] := p.cmd;
    out[2] := p.seqNo;
    out[3] := len[0];
    out[4] := len[1];
  }

  /** The writes of `encode` ahead of the checksum. */
  method FillHeader(p: Packet, out: array<byte>)
    requires p.Fits() && out.Length >= |p.payload| + OVERHEAD
    modifies out
    ensures out[..] == [SOH] + Covered(p) + old(out[HEADER_LEN + |p.payload|..])
  {
    assert OVERHEAD == HEADER_LEN + 3 && HEADER_LEN == 5;
    hide *;
    var n := |p.payload|;
    FillFixed(p, out);
    ghost var head, fixed := [SOH, p.cmd, p.seqNo] + BigEndian16(n), out[..];
    forall i | 0 <= i < n {
      out[HEADER_LEN + i] := p.payload[i];
    }
    assert out[..] == head + p.payload + fixed[HEADER_LEN + n..];
    CoveredAgain(p, head + p.payload);
  }

  lemma CoveredAgain(p: Packet, bytes: seq<byte>)
    requires p.Fits()
    requires bytes == [SOH, p.cmd, p.seqNo] + BigEndian16(|p.payload|) + p.payload
    ensures bytes == [SOH] + Covered(p)
  {
    hide BigEndian16;
  }

  method Encode(cmd: byte, seqNo: byte, payload: seq<byte>, out: array<byte>)
    returns (r: Result<nat, EncodeError>)
    modifies out
    ensures r == (if |payload| > MAX_PAYLOAD then Err(PayloadTooLarge)
                  else if out.Length < |payload| + OVERHEAD then Err(OutputTooSmall)
                  else Ok(|payload| + OVERHEAD))
    ensures r.Err? ==> out[..] == old(out[..])
    ensures r.Ok? ==> out[..r.value] == Frame(Packet(cmd, seqNo, payload))
    ensures r.Ok? ==> out[r.value..] == old(out[r.value..])
  {
    hide Value, BigEndian16, FromBigEndian16, Crc16.Checksum, Crc16.Hi, Crc16.Lo;
    if |payload| > MAX_PAYLOAD {
      return Err(PayloadTooLarge);
    }
    var total := |payload| + OVERHEAD;
    if out.Length < total {
      return Err(OutputTooSmall);
    }
    var p := Packet(cmd, seqNo, payload);
    ghost var before := out[..];
    FillHeader(p, out);
    FillTrailer(p, out, before);
    return Ok(total);
  }

  /** The writes of `encode` from the checksum on. */
  method FillTrailer(p: Packet, out: array<byte>, ghost before: seq<byte>)
    requires p.Fits() && out.Length == |before| >= |p.payload| + OVERHEAD
    requires out[..] == [SOH] + Covered(p) + before[HEADER_LEN + |p.payload|..]
    modifies out
    ensures out[..|p.payload| + OVERHEAD] == Frame(p)
    ensures out[|p.payload| + OVERHEAD..] == before[|p.payload| + OVERHEAD..]
  {
    var crcEnd := HEADER_LEN + |p.payload|;
    assert OVERHEAD == HEADER_LEN + 3;
    hide *;
    ghost var filled := out[..];
    assert filled[1..crcEnd] == Covered(p);
    var crc := Crc16.Compute(out[1..crcEnd]);
    out[crcEnd] := Crc16.Hi(crc);
    out[crcEnd + 1] := Crc16.Lo(crc);
    out[crcEnd + 2] := ETX;
    assert out[..] == filled[..crcEnd] + [Crc16.Hi(crc), Crc16.Lo(crc), ETX] + filled[crcEnd + 3..];
    assert filled[..crcEnd] == [SOH] + Covered(p) && filled[crcEnd + 3..] == before[crcEnd + 3..];
    FrameAgain(p, out[..crcEnd + 3]);
  }

  lemma FrameAgain(p: Packet, bytes: seq<byte>)
    requires p.Fits()
    requires var crc := Crc16.Checksum(Covered(p));
             bytes == [SOH] + Covered(p) + [Crc16.Hi(crc), Crc16.Lo(crc), ETX]
    ensures bytes == Frame(p)
  {
    hide Covered, Crc16.Checksum;
  }

  function Decode(buf: seq<byte>): Result<Packet, DecodeError> {
    if |buf| < OVERHEAD then Err(TooShort)
    else if buf[0] != SOH then Err(BadSoh)
    else
      var payloadLen := FromBigEndian16(buf[3], buf[4]);
      if payloadLen > MAX_PAYLOAD then Err(PayloadOverflow)
      else if |buf| != payloadLen + OVERHEAD then Err(BadLen)
      else if buf[HEADER_LEN + payloadLen + 2] != ETX then Err(BadEtx)
      else
        var crcEnd := HEADER_LEN + payloadLen;
        if Crc16.Checksum(buf[1..crcEnd]) != Join(buf[crcEnd], buf[crcEnd + 1]) then Err(BadCrc)
        else Ok(Packet(buf[1], buf[2], buf[HEADER_LEN..crcEnd]))
  }

  /** Every frame decodes to the packet it was built from. */
  lemma DecodeOfFrame(p: Packet)
    requires p.Fits()
    ensures Decode(Frame(p)) == Ok(p)
  {
    hide Value, Crc16.Checksum;
    var f, n := Frame(p), |p.payload|;
    var crc := Crc16.Checksum(Covered(p));
    assert f[3] == Covered(p)[2] && f[4] == Covered(p)[3];
    assert f[1..HEADER_LEN + n] == Covered(p);
    assert f[HEADER_LEN..HEADER_LEN + n] == p.payload;
    assert f[HEADER_LEN + n] == Trailer(crc)[0] && f[HEADER_LEN + n + 1] == Trailer(crc)[1];
    assert f[HEADER_LEN + n + 2] == Trailer(crc)[2];
    JoinOfHalves(crc);
  }

  /** Nothing but a frame decodes. */
  lemma DecodedIsFrame(buf: seq<byte>)
    requires Decode(buf).Ok?
    ensures Decode(buf).value.Fits() && buf == Frame(Decode(buf).value)
  {
    var p := Decode(buf).value;
    var crc := Crc16.Checksum(Covered(p));
    DecodedLayout(buf);
    hide *;
    SplitTrailer(buf);
    FrameAgain(p, buf);
  }

  lemma SplitTrailer(buf: seq<byte>)
    requires |buf| >= 4
    ensures var n := |buf| - 3;
            buf == buf[..1] + buf[1..n] + [buf[n], buf[n + 1], buf[n + 2]]
  {
  }

  lemma DecodedLayout(buf: seq<byte>)
    requires Decode(buf).Ok?
    ensures var p := Decode(buf).value;
            var crcEnd := HEADER_LEN + |p.payload|;
            p.Fits() && |buf| == crcEnd + 3 && buf[..1] == [SOH] && buf[crcEnd + 2] == ETX
            && buf[1..crcEnd] == Covered(p)
            && buf[crcEnd] == Crc16.Hi(Crc16.Checksum(Covered(p)))
            && buf[crcEnd + 1] == Crc16.Lo(Crc16.Checksum(Covered(p)))
  {
    hide FromBigEndian16, BigEndian16, Crc16.Checksum, Join, Crc16.Hi, Crc16.Lo;
    var p := Decode(buf).value;
    var n := |p.payload|;
    var crcEnd := HEADER_LEN + n;
    BigEndian16Inverse(buf[3], buf[4]);
    assert buf[1..crcEnd] == [buf[1], buf[2]] + [buf[3], buf[4]] + buf[HEADER_LEN..crcEnd];
    HalvesOfJoin(buf[crcEnd], buf[crcEnd + 1]);
  }

  /** The frame byte by byte: 0x01, command, number, the length spelt in two bytes, the payload,
      two bytes that leave no residue, and 0x03. */
  lemma FrameLayout(p: Packet)
    requires p.Fits()
    ensures var f, n := Frame(p), |p.payload|;
            |f| == n + 8 && n <= 248 && f[0] == 0x01 && f[1] == p.cmd && f[2] == p.seqNo && Spelt(f[3..5]) == n
            && f[5..5 + n] == p.payload && f[n + 7] == 0x03 && Crc16.Update(0xFFFF, f[1..n + 7]) == 0
  {
    hide Frame, Spelt, Crc16.Update;
    DecodeOfFrame(p);
    var f := Frame(p);
    FrameFields(p);
    LengthSpelt(f);
    DecodeErrors(f);
  }

  lemma FrameFields(p: Packet)
    requires p.Fits()
    ensures var f, n := Frame(p), |p.payload|;
            f[1] == p.cmd && f[2] == p.seqNo && f[5..5 + n] == p.payload
  {
    hide BigEndian16, Crc16.Checksum;
  }

  /** The frame is complete: SOH, a length of at most 248 and exactly as many bytes. */
  predicate Complete(buf: seq<byte>) {
    |buf| >= 8 && buf[0] == 0x01 && Spelt(buf[3..5]) <= 248 && |buf| == Spelt(buf[3..5]) + 8
  }

  lemma LengthSpelt(buf: seq<byte>)
    requires |buf| >= 5
    ensures Spelt(buf[3..5]) == FromBigEndian16(buf[3], buf[4])
  {
    assert buf[3..5] == [buf[3], buf[4]];
    PairSpells(buf[3], buf[4]);
  }

  /** The error of every buffer that is refused: the first check that fails, in this order.
      The checksum is judged by the residue of everything between SOH and ETX. */
  lemma DecodeErrors(buf: seq<byte>)
    ensures Decode(buf) == Err(TooShort) <==> |buf| < 8
    ensures Decode(buf) == Err(BadSoh) <==> |buf| >= 8 && buf[0] != 0x01
    ensures Decode(buf) == Err(PayloadOverflow) <==> |buf| >= 8 && buf[0] == 0x01 && Spelt(buf[3..5]) > 248
    ensures Decode(buf) == Err(BadLen) <==>
              |buf| >= 8 && buf[0] == 0x01 && Spelt(buf[3..5]) <= 248 && |buf| != Spelt(buf[3..5]) + 8
    ensures Decode(buf) == Err(BadEtx) <==> Complete(buf) && buf[|buf| - 1] != 0x03
    ensures Decode(buf) == Err(BadCrc) <==>
              Complete(buf) && buf[|buf| - 1] == 0x03 && Crc16.Update(0xFFFF, buf[1..|buf| - 1]) != 0
  {
    hide Spelt, FromBigEndian16, Crc16.Update, Join;
    if |buf| >= 8 {
      LengthSpelt(buf);
      var n := |buf| - 3;
      BodyResidue(buf[1..n], buf[n], buf[n + 1]);
      assert buf[1..n] + [buf[n], buf[n + 1]] == buf[1..|buf| - 1];
    }
  }

  lemma BodyResidue(m: seq<byte>, hi: byte, lo: byte)
    ensures Crc16.Update(0xFFFF, m + [hi, lo]) == 0 <==> Crc16.Checksum(m) == Join(hi, lo)
  {
    hide Join, Crc16.Update, Crc16.Hi, Crc16.Lo;
    HalvesOfJoin(hi, lo);
    Crc16.ResidueIff(0xFFFF, m, Join(hi, lo));
  }

  /** `Decode` accepts exactly the encodings, so encoding and decoding are inverse
      bijections between packets that fit and accepted byte strings. */
  lemma {:induction false} DecodeExact(buf: seq<byte>, p: Packet)
    ensures Decode(buf) == Ok(p) <==> p.Fits() && buf == Frame(p)
  {
    if Decode(buf) == Ok(p) {
      DecodedIsFrame(buf);
    }
    if p.Fits() && buf == Frame(p) {
      DecodeOfFrame(p);
    }
  }

  lemma DecodeInjective(a: seq<byte>, b: seq<byte>)
    requires Decode(a).Ok? && Decode(a) == Decode(b)
    ensures a == b
  {
    DecodedIsFrame(a);
    DecodedIsFrame(b);
  }
}
