/** Serving an image in 64-byte blocks: the blob (crates/protocol/src/block_source.rs), the
    block server (crates/protocol/src/block_server.rs) and the capability payload that
    announces size and CRC-32 (crates/protocol/src/cap.rs). */
module BlockServer {
  import opened Wrappers
  import opened Bytes
  import Crc32

  const BLOCK_SIZE: nat := 64
  const RECV_HDR_LEN: nat := 5
  const RECV_MAX_PAYLOAD: nat := RECV_HDR_LEN + BLOCK_SIZE
  const MAX_BLOCKS: nat := 0x1_0000

  type BlockNo = n: nat | n < MAX_BLOCKS

  datatype BlockError = BadRequestPayload | BlockOutOfRange

  // ------------------------------------------------------------ big-endian words

  /** `to_be_bytes` of a 32-bit number. */
  function BigEndian32(n: nat): (s: seq<byte>)
    requires n < 0x1_0000_0000
    ensures |s| == 4
  {
    BigEndian16(n / 0x1_0000) + BigEndian16(n % 0x1_0000)
  }

  function FromBigEndian32(a: byte, b: byte, c: byte, d: byte): (n: nat)
    ensures n < 0x1_0000_0000
  {
    0x1_0000 * FromBigEndian16(a, b) + FromBigEndian16(c, d)
  }

  lemma BigEndian32Reads(n: nat)
    requires n < 0x1_0000_0000
    ensures var s := BigEndian32(n); FromBigEndian32(s[0], s[1], s[2], s[3]) == n
  {
    hide BigEndian16, FromBigEndian16;
  }

  /** On the wire the most significant byte comes first. */
  lemma BigEndian32Spells(n: nat)
    requires n < 0x1_0000_0000
    ensures Spelt(BigEndian32(n)) == n
  {
    hide BigEndian16, BitsValue, MessageBits;
    var hi, lo := n / 0x1_0000, n % 0x1_0000;
    BigEndian16Spells(hi);
    BigEndian16Spells(lo);
    MessageBitsConcat(BigEndian16(hi), BigEndian16(lo));
    BitsValueConcat(MessageBits(BigEndian16(hi)), MessageBits(BigEndian16(lo)));
    Pow2Of16();
  }

  lemma Pow2Of16()
    ensures Pow2(16) == 0x1_0000
  {
    Pow2Of8();
    assert Pow2(12) == 4096;
  }

  /** `to_be_bytes` of a checksum. */
  function WordBytes(w: bv32): (s: seq<byte>)
    ensures |s| == 4
  {
    [((w >> 24) & 0xFF) as bv8, ((w >> 16) & 0xFF) as bv8, ((w >> 8) & 0xFF) as bv8, (w & 0xFF) as bv8]
  }

  function JoinWord(a: byte, b: byte, c: byte, d: byte): bv32 {
    ((a as bv32) << 24) | ((b as bv32) << 16) | ((c as bv32) << 8) | (d as bv32)
  }

  lemma WordBytesReads(w: bv32)
    ensures var s := WordBytes(w); JoinWord(s[0], s[1], s[2], s[3]) == w
  {
  }

  lemma ZeroByte()
    ensures Value(0) == 0 && Byte(0) == 0
  {
    hide Byte;
    ByteBitsZero(0);
    ZeroBits(ByteBits(0));
    ByteOfValue(0);
  }

  lemma {:induction false} ZeroBits(s: Gf2.Bits)
    requires Gf2.IsZero(s)
    ensures BitsValue(s) == 0
    decreases |s|
  {
    if s != [] {
      ZeroBits(s[..|s| - 1]);
    }
  }

  // ------------------------------------------------------------ the blob

  /** An in-memory image with its advertised checksum. */
  datatype SliceBlob = SliceBlob(data: seq<byte>, crc32: bv32) {
    /** The bytes of a block and their count; `None` past the end.  `usize` has 32 bits. */
    function Block(blockNo: BlockNo, blockSize: nat): Option<(seq<byte>, byte)> {
      var start := blockNo * blockSize;
      if start >= 0x1_0000_0000 || start >= |data| then None
      else
        var end := if start + blockSize < |data| then start + blockSize else |data|;
        Some((data[start..end], Byte(|data[start..end]| % 256)))
    }

    /** The advertised checksum is that of the image, and every block can be asked for. */
    ghost predicate Servable() {
      crc32 == Crc32.Checksum(data) && |data| <= MAX_BLOCKS * BLOCK_SIZE
    }
  }

  /** The part of the image in the first `n` blocks. */
  function Prefix(blob: SliceBlob, n: nat): seq<byte> {
    if n * BLOCK_SIZE < |blob.data| then blob.data[..n * BLOCK_SIZE] else blob.data
  }

  /** Every block that the image reaches is served; appending it to the blocks before it
      extends the whole-block prefix, and its count byte is its length. */
  lemma BlockExtendsPrefix(blob: SliceBlob, n: BlockNo)
    ensures blob.Block(n, BLOCK_SIZE).Some? <==> n * BLOCK_SIZE < |blob.data|
    ensures n * BLOCK_SIZE < |blob.data| ==>
              var (bytes, count) := blob.Block(n, BLOCK_SIZE).value;
              Prefix(blob, n) + bytes == Prefix(blob, n + 1)
              && 1 <= |bytes| <= BLOCK_SIZE && Value(count) == |bytes|
  {
    hide Value, Byte;
  }

  /** The blocks make up the image: none missing, none past the end. */
  lemma AllBlocks(blob: SliceBlob, n: nat)
    requires n == (|blob.data| + 63) / 64
    ensures Prefix(blob, n) == blob.data
    ensures forall k: BlockNo :: blob.Block(k, BLOCK_SIZE).Some? <==> k < n
  {
    forall k: BlockNo ensures blob.Block(k, BLOCK_SIZE).Some? <==> k < n {
      BlockExtendsPrefix(blob, k);
    }
  }

  // ------------------------------------------------------------ payloads

  /** Payload of SEND_BLOCK, BLOCK_ACK and BLOCK_NAK. */
  function NumberPayload(n: BlockNo): (s: seq<byte>)
    ensures |s| == 4
  {
    BigEndian32(n)
  }

  function ParseSendBlock(payload: seq<byte>): Result<BlockNo, BlockError> {
    if |payload| != 4 then Err(BadRequestPayload)
    else if payload[0] != 0 || payload[1] != 0 then Err(BadRequestPayload)
    else Ok(FromBigEndian16(payload[2], payload[3]))
  }

  lemma ZeroPair()
    ensures BigEndian16(0) == [0, 0]
  {
    ZeroByte();
    hide Value, Byte;
  }

  lemma NumberPayloadBytes(n: BlockNo)
    ensures NumberPayload(n) == [0, 0] + BigEndian16(n)
  {
    hide BigEndian16, Value, Byte;
    ZeroPair();
  }

  /** A number is parsed from exactly the payload that encodes it: the four bytes that spell
      it. */
  lemma ParseExact(payload: seq<byte>, n: BlockNo)
    ensures ParseSendBlock(payload) == Ok(n) <==> payload == NumberPayload(n)
    ensures ParseSendBlock(payload) == Ok(n) <==> |payload| == 4 && Spelt(payload) == n
  {
    ParsedIsEncoded(payload, n);
    hide ParseSendBlock, Spelt, BigEndian32;
    BigEndian32Spells(n);
    if |payload| == 4 && Spelt(payload) == n {
      SpeltInjective(payload, NumberPayload(n));
    }
  }

  lemma ParsedIsEncoded(payload: seq<byte>, n: BlockNo)
    ensures ParseSendBlock(payload) == Ok(n) <==> payload == NumberPayload(n)
  {
    NumberPayloadBytes(n);
    hide NumberPayload, BigEndian16, FromBigEndian16;
    if |payload| == 4 && payload[0] == 0 && payload[1] == 0 {
      BigEndian16Inverse(payload[2], payload[3]);
      assert payload == [0, 0] + [payload[2], payload[3]];
    }
    assert NumberPayload(n)[2..] == BigEndian16(n);
  }

  /** Payload of RECV_BLOCK: the echoed number, the count and the bytes. */
  function RecvPayload(n: BlockNo, bytes: seq<byte>, count: byte): seq<byte> {
    NumberPayload(n) + [count] + bytes
  }

  // ------------------------------------------------------------ the server

  method FillRecv(out: array<byte>, number: seq<byte>, count: byte, bytes: seq<byte>)
    requires |number| == 4 && out.Length >= RECV_HDR_LEN + |bytes|
    modifies out
    ensures out[..RECV_HDR_LEN + |bytes|] == number + [count] + bytes
    ensures out[RECV_HDR_LEN + |bytes|..] == old(out[RECV_HDR_LEN + |bytes|..])
  {
    Fill(out, 0, number);
    out[4] := count;
    assert out[..RECV_HDR_LEN] == number + [count];
    Fill(out, RECV_HDR_LEN, bytes);
  }

  class BlockServer {
    var expectedBlock: BlockNo

    constructor ()
      ensures expectedBlock == 0
    {
      expectedBlock := 0;
    }

    method Reset()
      modifies this
      ensures expectedBlock == 0
    {
      expectedBlock := 0;
    }

    method BuildRecvBlock(blob: SliceBlob, blockNo: BlockNo, out: array<byte>)
      returns (r: Result<nat, BlockError>)
      requires out.Length >= RECV_MAX_PAYLOAD
      modifies out
      ensures blob.Block(blockNo, BLOCK_SIZE) == None ==> r == Err(BlockOutOfRange) && out[..] == old(out[..])
      ensures blob.Block(blockNo, BLOCK_SIZE).Some? ==>
                var (bytes, count) := blob.Block(blockNo, BLOCK_SIZE).value;
                r == Ok(RECV_HDR_LEN + Value(count)) && RECV_HDR_LEN + Value(count) <= out.Length
                && out[..r.value] == RecvPayload(blockNo, bytes, count) && out[r.value..] == old(out[r.value..])
    {
      hide Value, BigEndian32, Crc32.Checksum, Prefix, SliceBlob.Block;
      BlockExtendsPrefix(blob, blockNo);
      var block := blob.Block(blockNo, BLOCK_SIZE);
      if block.None? {
        return Err(BlockOutOfRange);
      }
      var (bytes, count) := block.value;
      FillRecv(out, BigEndian32(blockNo), count, bytes);
      return Ok(RECV_HDR_LEN + |bytes|);
    }

    method HandleAck(payload: seq<byte>)
      modifies this
      ensures expectedBlock == Acked(old(expectedBlock), payload)
    {
      var parsed := ParseSendBlock(payload);
      if parsed.Ok? {
        if parsed.value == expectedBlock {
          expectedBlock := if expectedBlock == 0xFFFF then 0xFFFF else expectedBlock + 1;
        }
      }
    }
  }

  /** `copy_from_slice` at an offset. */
  method Fill(out: array<byte>, at: nat, bytes: seq<byte>)
    requires at + |bytes| <= out.Length
    modifies out
    ensures out[..] == old(out[..at]) + bytes + old(out[at + |bytes|..])
  {
    forall i | 0 <= i < |bytes| {
      out[at + i] := bytes[i];
    }
  }

  /** The expected block after an acknowledgement. */
  function Acked(expected: BlockNo, payload: seq<byte>): BlockNo {
    var parsed := ParseSendBlock(payload);
    if parsed == Ok(expected) && expected < 0xFFFF then expected + 1 else expected
  }

  // ------------------------------------------------------------ capabilities

  const VERSION_MAJOR: byte := 1
  const VERSION_MINOR: byte := 0
  const ACTIVE_MODE_SPP: byte := 1
  const CAP_PAYLOAD_LEN: nat := 36

  function Zeroes(n: nat): (s: seq<byte>)
    ensures |s| == n
  {
    seq(n, _ => 0)
  }

  /** The CAP_RSP payload, field by field. */
  function CapPrefix(activeMode: byte): (s: seq<byte>)
    ensures |s| == 28
  {
    [VERSION_MAJOR, VERSION_MINOR] + Zeroes(21) + [activeMode] + Zeroes(4)
  }

  function CapPayload(blob: SliceBlob, activeMode: byte): (s: seq<byte>)
    ensures |s| == CAP_PAYLOAD_LEN
  {
    CapPrefix(activeMode) + BigEndian32(|blob.data| % 0x1_0000_0000) + WordBytes(blob.crc32)
  }

  method BuildCapRspPayload(blob: SliceBlob, activeMode: byte, out: array<byte>) returns (n: nat)
    requires out.Length >= CAP_PAYLOAD_LEN
    modifies out
    ensures n == CAP_PAYLOAD_LEN
    ensures out[..n] == CapPayload(blob, activeMode) && out[n..] == old(out[n..])
  {
    var size := BigEndian32(|blob.data| % 0x1_0000_0000);
    var crc := WordBytes(blob.crc32);
    hide BigEndian32, WordBytes, CapPrefix;
    FillPrefix(out, activeMode);
    Fill(out, 28, size);
    Fill(out, 32, crc);
    assert out[..36] == CapPrefix(activeMode) + size + crc;
    return CAP_PAYLOAD_LEN;
  }

  /** The zeroed payload with the version and the mode set. */
  method FillPrefix(out: array<byte>, activeMode: byte)
    requires out.Length >= CAP_PAYLOAD_LEN
    modifies out
    ensures out[..28] == CapPrefix(activeMode) && out[36..] == old(out[36..])
  {
    ghost var before := out[..];
    Fill(out, 0, Zeroes(CAP_PAYLOAD_LEN));
    out[0] := VERSION_MAJOR;
    out[1] := VERSION_MINOR;
    out[23] := activeMode;
    assert out[36..] == before[36..];
  }

  lemma CapFields(blob: SliceBlob, mode: byte)
    ensures var s := CapPayload(blob, mode);
            s[0] == 1 && s[1] == 0 && s[23] == mode
            && (forall i :: 2 <= i < 23 || 24 <= i < 28 ==> s[i] == 0)
            && s[28..32] == BigEndian32(|blob.data| % 0x1_0000_0000) && s[32..36] == WordBytes(blob.crc32)
  {
    hide BigEndian32, WordBytes;
  }

  /** What a host reads from the size and checksum fields. */
  function AnnouncedSize(s: seq<byte>): nat
    requires |s| >= CAP_PAYLOAD_LEN
  {
    FromBigEndian32(s[28], s[29], s[30], s[31])
  }

  function AnnouncedCrc(s: seq<byte>): bv32
    requires |s| >= CAP_PAYLOAD_LEN
  {
    JoinWord(s[32], s[33], s[34], s[35])
  }

  lemma SizeField(s: seq<byte>, n: nat)
    requires |s| == CAP_PAYLOAD_LEN && n < 0x1_0000_0000 && s[28..32] == BigEndian32(n)
    ensures AnnouncedSize(s) == n
  {
    hide BigEndian32, FromBigEndian32;
    BigEndian32Reads(n);
    var f := s[28..32];
    assert f[0] == s[28] && f[1] == s[29] && f[2] == s[30] && f[3] == s[31];
  }

  lemma CrcField(s: seq<byte>, w: bv32)
    requires |s| == CAP_PAYLOAD_LEN && s[32..36] == WordBytes(w)
    ensures AnnouncedCrc(s) == w
  {
    hide WordBytes, JoinWord;
    WordBytesReads(w);
    var f := s[32..36];
    assert f[0] == s[32] && f[1] == s[33] && f[2] == s[34] && f[3] == s[35];
  }

  lemma CapReads(blob: SliceBlob, mode: byte)
    requires |blob.data| < 0x1_0000_0000
    ensures var s := CapPayload(blob, mode);
            s[0] == VERSION_MAJOR && AnnouncedSize(s) == |blob.data| && AnnouncedCrc(s) == blob.crc32
  {
    hide CapPayload, BigEndian32, WordBytes, AnnouncedSize, AnnouncedCrc;
    CapFields(blob, mode);
    SizeField(CapPayload(blob, mode), |blob.data|);
    CrcField(CapPayload(blob, mode), blob.crc32);
  }

  /** A host reads back the version 1.0, the mode, the size and the checksum that were
      announced, most significant bytes first, and everything else is zero. */
  lemma CapAnnounces(blob: SliceBlob, mode: byte)
    requires |blob.data| < 0x1_0000_0000
    ensures var s := CapPayload(blob, mode);
            s[0] == 1 && s[1] == 0 && s[23] == mode
            && (forall i :: 2 <= i < 23 || 24 <= i < 28 ==> s[i] == 0)
            && AnnouncedSize(s) == |blob.data| == Spelt(s[28..32]) && AnnouncedCrc(s) == blob.crc32
            && blob.crc32 == ((s[32] as bv32) << 24) | ((s[33] as bv32) << 16) | ((s[34] as bv32) << 8) | (s[35] as bv32)
  {
    hide CapPayload, BigEndian32, WordBytes, AnnouncedSize, Spelt;
    BigEndian32Spells(|blob.data|);
    CapFields(blob, mode);
    CapReads(blob, mode);
  }
}
