/** The firmware's packet dispatcher (firmware/src/protocol/mod.rs) as a state machine, and
    what its state says about every history of packets. */
module Session {
  import opened Wrappers
  import opened Bytes
  import opened Packet
  import opened BlockServer

  const CMD_CAP_REQ: byte := 0x00
  const CMD_CAP_RSP: byte := 0x0F
  const CMD_CAP_ACK: byte := 0x0E
  const CMD_PING: byte := 0x10
  const CMD_PONG: byte := 0x11
  const CMD_SEND_BLOCK: byte := 0x20
  const CMD_RECV_BLOCK: byte := 0x21
  const CMD_BLOCK_ACK: byte := 0x22
  const CMD_BLOCK_NAK: byte := 0x23

  datatype Outcome = Reply(packet: Packet) | Silent | Ignored

  datatype Event = SeqGap(expected: u8, got: u8, cmd: byte) | UnknownCmd(cmd: byte) | BlockAck(blockNo: nat, crc32: bv32)

  // ------------------------------------------------------------ one packet

  datatype Session = Session(expectedBlock: BlockNo, txSeq: u8, rxSeqExpected: u8, capAcked: bool)

  const InitSession := Session(0, 0, 0, false)

  function WrappingSucc(n: u8): u8 { if n == 255 then 0 else n + 1 }

  function BuildReply(cmd: byte, seqNo: u8, payload: seq<byte>): Outcome {
    match NewOutgoing(cmd, Byte(seqNo), payload)
    case Some(p) => Reply(p)
    case None => Ignored
  }

  /** What a SEND_BLOCK asks for, and is served. */
  function Served(blob: SliceBlob, payload: seq<byte>): Option<seq<byte>> {
    match ParseSendBlock(payload)
    case Err(_) => None
    case Ok(n) =>
      match blob.Block(n, BLOCK_SIZE)
      case None => None
      case Some((bytes, count)) => Some(RecvPayload(n, bytes, count))
  }

  function Handle(blob: SliceBlob, s: Session, p: Packet): (Session, Outcome) {
    var s := s.(rxSeqExpected := WrappingSucc(Value(p.seqNo)));
    if p.cmd == CMD_CAP_REQ then
      (InitSession.(txSeq := 1), BuildReply(CMD_CAP_RSP, 0, CapPayload(blob, ACTIVE_MODE_SPP)))
    else if p.cmd == CMD_CAP_ACK then (s.(capAcked := true), Silent)
    else if p.cmd == CMD_PING then (s.(txSeq := WrappingSucc(s.txSeq)), BuildReply(CMD_PONG, s.txSeq, p.payload))
    else if p.cmd == CMD_SEND_BLOCK then
      match Served(blob, p.payload)
      case None => (s, Ignored)
      case Some(payload) => (s.(txSeq := WrappingSucc(s.txSeq)), BuildReply(CMD_RECV_BLOCK, s.txSeq, payload))
    else if p.cmd == CMD_BLOCK_ACK then (s.(expectedBlock := Acked(s.expectedBlock, p.payload)), Silent)
    else if p.cmd == CMD_BLOCK_NAK then (s, Silent)
    else (s, Ignored)
  }

  predicate Known(cmd: byte) {
    cmd == CMD_CAP_REQ || cmd == CMD_CAP_ACK || cmd == CMD_PING || cmd == CMD_SEND_BLOCK
    || cmd == CMD_BLOCK_ACK || cmd == CMD_BLOCK_NAK
  }

  function Telemetry(blob: SliceBlob, s: Session, p: Packet): seq<Event> {
    (if Value(p.seqNo) != s.rxSeqExpected then [SeqGap(s.rxSeqExpected, Value(p.seqNo), p.cmd)] else [])
    + (if !Known(p.cmd) then [UnknownCmd(p.cmd)]
       else if p.cmd == CMD_BLOCK_ACK then
         var e := Acked(s.expectedBlock, p.payload);
         [BlockAck(if e == 0 then 0 else e - 1, blob.crc32)]
       else [])
  }

  /** Replies fit a packet. */
  lemma RepliesFit(blob: SliceBlob, s: Session, p: Packet)
    requires p.Fits()
    ensures var o := Handle(blob, s, p).1; o.Reply? ==> o.packet.Fits()
    ensures var o := Handle(blob, s, p).1;
            o.Reply? <==> p.cmd == CMD_CAP_REQ || p.cmd == CMD_PING
                          || (p.cmd == CMD_SEND_BLOCK && Served(blob, p.payload).Some?)
  {
    ServedFits(blob, p.payload);
    hide Served, CapPayload, Acked;
  }

  lemma ServedFits(blob: SliceBlob, payload: seq<byte>)
    ensures Served(blob, payload).Some? ==> |Served(blob, payload).value| <= RECV_MAX_PAYLOAD
  {
    var parsed := ParseSendBlock(payload);
    if parsed.Ok? {
      BlockExtendsPrefix(blob, parsed.value);
    }
    hide NumberPayload, ParseSendBlock;
  }

  /** Which packets are answered, and with what command; which are taken in silence, and which
      are ignored. */
  lemma OutcomeTable(blob: SliceBlob, s: Session, p: Packet)
    requires p.Fits()
    ensures var o := Handle(blob, s, p).1;
            (o.Reply? <==> p.cmd == 0x00 || p.cmd == 0x10 || (p.cmd == 0x20 && Served(blob, p.payload).Some?))
            && (o.Reply? ==> o.packet.cmd == (if p.cmd == 0x00 then 0x0F else if p.cmd == 0x10 then 0x11 else 0x21))
            && (o == Silent <==> p.cmd == 0x0E || p.cmd == 0x22 || p.cmd == 0x23)
            && (p.cmd == 0x00 ==> o.packet.payload == CapPayload(blob, 1))
  {
    ServedFits(blob, p.payload);
    hide Served, CapPayload, Acked, Byte, Value;
  }

  /** A SEND_BLOCK is answered exactly when it names a block of the image, and then with that
      block: its number, its length and its bytes. */
  lemma BlockRequestAnswered(blob: SliceBlob, s: Session, seqNo: byte, payload: seq<byte>, n: BlockNo)
    ensures var o := Handle(blob, s, Packet(CMD_SEND_BLOCK, seqNo, payload)).1;
            (o == Ignored <==> Served(blob, payload) == None)
            && (payload == NumberPayload(n) && n * 64 >= |blob.data| ==> o == Ignored)
            && (payload == NumberPayload(n) && n * 64 < |blob.data| ==>
                  var end := if (n + 1) * 64 < |blob.data| then (n + 1) * 64 else |blob.data|;
                  o.Reply? && o.packet.cmd == CMD_RECV_BLOCK
                  && |o.packet.payload| > 5 && o.packet.payload[..4] == payload
                  && Value(o.packet.payload[4]) == end - n * 64
                  && o.packet.payload[5..] == blob.data[n * 64..end])
  {
    ParseExact(payload, n);
    BlockExtendsPrefix(blob, n);
    ServedFits(blob, payload);
    hide NumberPayload, ParseSendBlock, Value, Byte, CapPayload, Acked;
  }

  // ------------------------------------------------------------ the object

  class SessionState {
    const blockServer: BlockServer
    const blob: SliceBlob
    var txSeq: u8
    var rxSeqExpected: u8
    var capAcked: bool

    ghost function Abstract(): Session
      reads this, blockServer
    {
      Session(blockServer.expectedBlock, txSeq, rxSeqExpected, capAcked)
    }

    constructor (blob: SliceBlob)
      ensures Abstract() == InitSession && this.blob == blob && fresh(blockServer)
    {
      blockServer := new BlockServer();
      this.blob := blob;
      txSeq, rxSeqExpected, capAcked := 0, 0, false;
    }

    method Reset()
      modifies this, blockServer
      ensures Abstract() == InitSession
    {
      blockServer.Reset();
      txSeq, rxSeqExpected, capAcked := 0, 0, false;
    }

    method NextSeq() returns (s: u8)
      modifies `txSeq
      ensures s == old(txSeq) && txSeq == WrappingSucc(old(txSeq))
    {
      s := txSeq;
      txSeq := if txSeq == 255 then 0 else txSeq + 1;
    }

    method HandlePacket(p: Packet) returns (outcome: Outcome, events: seq<Event>)
      requires p.Fits()
      modifies this, blockServer
      ensures (Abstract(), outcome) == Handle(blob, old(Abstract()), p)
      ensures events == Telemetry(blob, old(Abstract()), p)
    {
      hide Value, CapPayload, Served, Acked, BuildReply;
      events := [];
      if Value(p.seqNo) != rxSeqExpected {
        events := [SeqGap(rxSeqExpected, Value(p.seqNo), p.cmd)];
      }
      rxSeqExpected := WrappingSucc(Value(p.seqNo));
      if p.cmd == CMD_CAP_REQ {
        outcome := HandleCapReq();
      } else if p.cmd == CMD_CAP_ACK {
        capAcked := true;
        outcome := Silent;
      } else if p.cmd == CMD_PING {
        var s := NextSeq();
        outcome := BuildReply(CMD_PONG, s, p.payload);
      } else if p.cmd == CMD_SEND_BLOCK {
        outcome := HandleSendBlock(p.payload);
      } else if p.cmd == CMD_BLOCK_ACK {
        blockServer.HandleAck(p.payload);
        var e := blockServer.expectedBlock;
        events := events + [BlockAck(if e == 0 then 0 else e - 1, blob.crc32)];
        outcome := Silent;
      } else if p.cmd == CMD_BLOCK_NAK {
        outcome := Silent;
      } else {
        events := events + [UnknownCmd(p.cmd)];
        outcome := Ignored;
      }
    }

    method HandleCapReq() returns (outcome: Outcome)
      modifies this, blockServer
      ensures Abstract() == InitSession.(txSeq := 1)
      ensures outcome == BuildReply(CMD_CAP_RSP, 0, CapPayload(blob, ACTIVE_MODE_SPP))
    {
      hide CapPayload;
      Reset();
      var payload := new byte[CAP_PAYLOAD_LEN](_ => 0);
      var n := BuildCapRspPayload(blob, ACTIVE_MODE_SPP, payload);
      var s := NextSeq();
      outcome := BuildReply(CMD_CAP_RSP, s, payload[..n]);
    }

    method HandleSendBlock(request: seq<byte>) returns (outcome: Outcome)
      modifies `txSeq
      ensures Served(blob, request) == None ==> outcome == Ignored && txSeq == old(txSeq)
      ensures Served(blob, request).Some? ==>
                txSeq == WrappingSucc(old(txSeq))
                && outcome == BuildReply(CMD_RECV_BLOCK, old(txSeq), Served(blob, request).value)
    {
      hide RecvPayload, Value;
      var blockNo := ParseSendBlock(request);
      if blockNo.Err? {
        return Ignored;
      }
      var payload := new byte[RECV_MAX_PAYLOAD](_ => 0);
      var n := blockServer.BuildRecvBlock(blob, blockNo.value, payload);
      if n.Err? {
        return Ignored;
      }
      var s := NextSeq();
      outcome := BuildReply(CMD_RECV_BLOCK, s, payload[..n.value]);
    }
  }

  // ------------------------------------------------------------ histories

  type History = seq<Packet>

  function After(blob: SliceBlob, h: History): Session {
    if h == [] then InitSession else Handle(blob, After(blob, h[..|h| - 1]), h[|h| - 1]).0
  }

  /** What the last packet of a history is answered. */
  function Answer(blob: SliceBlob, h: History): Outcome
    requires h != []
  {
    Handle(blob, After(blob, h[..|h| - 1]), h[|h| - 1]).1
  }

  /** The replies since (and including) the answer to the last CAP_REQ. */
  function Replies(blob: SliceBlob, h: History): seq<Packet> {
    if h == [] then []
    else
      (if h[|h| - 1].cmd == CMD_CAP_REQ then [] else Replies(blob, h[..|h| - 1]))
      + (if Answer(blob, h).Reply? then [Answer(blob, h).packet] else [])
  }

  ghost predicate AllFit(h: History) {
    forall i :: 0 <= i < |h| ==> h[i].Fits()
  }

  ghost predicate Numbered(replies: seq<Packet>) {
    forall i :: 0 <= i < |replies| ==> Value(replies[i].seqNo) == i % 256
  }

  lemma NumberedSnoc(replies: seq<Packet>, p: Packet)
    requires Numbered(replies) && Value(p.seqNo) == |replies| % 256
    ensures Numbered(replies + [p])
  {
    hide Value;
  }

  lemma SuccModulo(n: nat)
    ensures WrappingSucc(n % 256) == (n + 1) % 256
  {
  }

  lemma ReplyNumber(blob: SliceBlob, s: Session, p: Packet)
    requires p.Fits()
    ensures var (s', o) := Handle(blob, s, p);
            if p.cmd == CMD_CAP_REQ then o.Reply? && Value(o.packet.seqNo) == 0 && s'.txSeq == 1
            else if o.Reply? then Value(o.packet.seqNo) == s.txSeq && s'.txSeq == WrappingSucc(s.txSeq)
            else s'.txSeq == s.txSeq
  {
    ServedFits(blob, p.payload);
    hide Served, CapPayload, Acked, Value;
  }

  /** How one packet extends the replies. */
  lemma RepliesStep(blob: SliceBlob, h: History)
    requires h != []
    ensures var g, p := h[..|h| - 1], h[|h| - 1];
            var (s, o) := Handle(blob, After(blob, g), p);
            After(blob, h) == s
            && Replies(blob, h) == (if p.cmd == CMD_CAP_REQ then [] else Replies(blob, g))
                                   + (if o.Reply? then [o.packet] else [])
  {
    hide Handle;
  }

  /** The replies are numbered so far, and `next` is the number after them. */
  ghost predicate NumberedTo(replies: seq<Packet>, next: u8) {
    Numbered(replies) && next == |replies| % 256
  }

  lemma NumberedToMore(replies: seq<Packet>, next: u8, p: Packet)
    requires NumberedTo(replies, next) && Value(p.seqNo) == next
    ensures NumberedTo(replies + [p], WrappingSucc(next))
  {
    hide Value, WrappingSucc, Numbered;
    NumberedSnoc(replies, p);
    SuccModulo(|replies|);
  }

  lemma NumberedToNone()
    ensures NumberedTo([], 0) && WrappingSucc(0) == 1
  {
  }

  /** Over every history, the replies since the last CAP_REQ are numbered 0, 1, 2, ...
      modulo 256 with none skipped. */
  lemma {:induction false} RepliesNumbered(blob: SliceBlob, h: History)
    requires AllFit(h)
    ensures NumberedTo(Replies(blob, h), After(blob, h).txSeq)
    decreases |h|
  {
    NumberedToNone();
    if h == [] {
      hide *;
      NoReplies(blob, h);
    } else {
      var g, p := h[..|h| - 1], h[|h| - 1];
      assert AllFit(g) && p.Fits();
      hide *;
      RepliesNumbered(blob, g);
      var s, before := After(blob, g), Replies(blob, g);
      RepliesStep(blob, h);
      ReplyNumber(blob, s, p);
      var o := Handle(blob, s, p).1;
      if p.cmd == CMD_CAP_REQ {
        NumberedToMore([], 0, o.packet);
      } else if o.Reply? {
        NumberedToMore(before, s.txSeq, o.packet);
      } else {
        assert before + [] == before;
      }
    }
  }

  lemma NoReplies(blob: SliceBlob, h: History)
    requires h == []
    ensures Replies(blob, h) == [] && After(blob, h).txSeq == 0
  {
  }

  /** After any history a PING is answered by a PONG with its payload, numbered by the replies
      since the last CAP_REQ. */
  lemma PingEchoed(blob: SliceBlob, h: History, seqNo: byte, payload: seq<byte>)
    requires AllFit(h) && |payload| <= MAX_PAYLOAD
    ensures Answer(blob, h + [Packet(CMD_PING, seqNo, payload)])
         == Reply(Packet(CMD_PONG, Byte(|Replies(blob, h)| % 256), payload))
  {
    RepliesNumbered(blob, h);
    assert (h + [Packet(CMD_PING, seqNo, payload)])[..|h|] == h;
    hide Value, Byte, Served, CapPayload, Acked, After, Replies, Numbered;
  }

  // ------------------------------------------------------------ acknowledgements

  /** The block numbers acknowledged since the last CAP_REQ. */
  function Acks(h: History): seq<BlockNo> {
    if h == [] then []
    else
      var p := h[|h| - 1];
      if p.cmd == CMD_CAP_REQ then []
      else
        Acks(h[..|h| - 1])
        + (if p.cmd == CMD_BLOCK_ACK && ParseSendBlock(p.payload).Ok? then [ParseSendBlock(p.payload).value] else [])
  }

  /** `at` picks out 0, 1, ..., b - 1 in order. */
  ghost predicate Picks(at: seq<nat>, acks: seq<BlockNo>, b: nat) {
    |at| == b && (forall i :: 0 <= i < b ==> at[i] < |acks| && acks[at[i]] == i)
    && forall i, j :: 0 <= i < j < b ==> at[i] < at[j]
  }

  /** 0, 1, ..., b - 1 is a subsequence of the acknowledgements. */
  ghost predicate Counted(acks: seq<BlockNo>, b: nat) {
    exists at: seq<nat> :: Picks(at, acks, b)
  }

  lemma CountedFewer(acks: seq<BlockNo>, b: nat, c: nat)
    requires Counted(acks, b) && c <= b
    ensures Counted(acks, c)
  {
    var at: seq<nat> :| Picks(at, acks, b);
    assert Picks(at[..c], acks, c);
  }

  lemma CountedSnoc(acks: seq<BlockNo>, n: BlockNo, b: nat)
    ensures Counted(acks + [n], b) <==> Counted(acks, b) || (b == n + 1 && Counted(acks, n))
  {
    if Counted(acks, b) {
      var at: seq<nat> :| Picks(at, acks, b);
      assert Picks(at, acks + [n], b);
    }
    if b == n + 1 && Counted(acks, n) {
      var at: seq<nat> :| Picks(at, acks, n);
      assert Picks(at + [|acks|], acks + [n], b);
    }
    if Counted(acks + [n], b) {
      var at: seq<nat> :| Picks(at, acks + [n], b);
      if b > 0 && at[b - 1] == |acks| {
        assert Picks(at[..b - 1], acks, b - 1);
      } else {
        assert forall i :: 0 <= i < b - 1 ==> at[i] < at[b - 1];
        assert Picks(at, acks, b);
      }
    }
  }

  /** The counter that an acknowledgement number moves. */
  function Advance(e: BlockNo, n: BlockNo): BlockNo {
    if n == e && e < 0xFFFF then e + 1 else e
  }

  /** `e` is the largest number up to 65535 that has been counted. */
  ghost predicate LargestCounted(e: BlockNo, acks: seq<BlockNo>) {
    Counted(acks, e) && forall b :: e < b <= 0xFFFF ==> !Counted(acks, b)
  }

  lemma AdvanceCounts(e: BlockNo, acks: seq<BlockNo>, n: BlockNo)
    requires LargestCounted(e, acks)
    ensures LargestCounted(Advance(e, n), acks + [n])
  {
    hide Counted;
    CountedSnoc(acks, n, Advance(e, n));
    forall b | Advance(e, n) < b <= 0xFFFF ensures !Counted(acks + [n], b) {
      CountedSnoc(acks, n, b);
    }
  }

  /** Everything up to the largest has been counted too, so it is the only such number. */
  lemma LargestIsExact(e: BlockNo, acks: seq<BlockNo>, b: nat)
    requires LargestCounted(e, acks) && b <= 0xFFFF
    ensures Counted(acks, b) <==> b <= e
  {
    hide Counted;
    if b <= e {
      CountedFewer(acks, e, b);
    }
  }

  lemma NoPick(at: seq<nat>, b: nat)
    requires b > 0
    ensures !Picks(at, [], b)
  {
    if at != [] {
      assert at[0] >= 0;
    }
  }

  lemma NothingCounted()
    ensures LargestCounted(0, [])
  {
    assert Picks([], [], 0);
    forall b: nat, at: seq<nat> | 0 < b ensures !Picks(at, [], b) {
      NoPick(at, b);
    }
  }

  lemma AckStep(blob: SliceBlob, s: Session, p: Packet)
    ensures var s' := Handle(blob, s, p).0;
            s'.expectedBlock ==
              if p.cmd == CMD_CAP_REQ then 0
              else if p.cmd == CMD_BLOCK_ACK && ParseSendBlock(p.payload).Ok? then
                Advance(s.expectedBlock, ParseSendBlock(p.payload).value)
              else s.expectedBlock
  {
    hide Served, CapPayload, Value, ParseSendBlock;
  }

  lemma {:induction false} CounterIsLargest(blob: SliceBlob, h: History)
    ensures LargestCounted(After(blob, h).expectedBlock, Acks(h))
    decreases |h|
  {
    NothingCounted();
    if h != [] {
      var g, p := h[..|h| - 1], h[|h| - 1];
      CounterIsLargest(blob, g);
      var s := After(blob, g);
      AckStep(blob, s, p);
      hide Handle, LargestCounted, ParseSendBlock;
      assert Acks(g) + [] == Acks(g);
      if p.cmd == CMD_BLOCK_ACK && ParseSendBlock(p.payload).Ok? {
        AdvanceCounts(s.expectedBlock, Acks(g), ParseSendBlock(p.payload).value);
      }
    }
  }

  /** Over every history, `expected_block` is the largest b up to 65535 such that
      0, 1, ..., b - 1 is a subsequence of the acknowledged numbers since the last CAP_REQ. */
  lemma ExpectedBlockCounts(blob: SliceBlob, h: History)
    ensures LargestCounted(After(blob, h).expectedBlock, Acks(h))
    ensures forall b: nat :: b <= 0xFFFF ==> (Counted(Acks(h), b) <==> b <= After(blob, h).expectedBlock)
  {
    CounterIsLargest(blob, h);
    hide *;
    forall b: nat | b <= 0xFFFF ensures Counted(Acks(h), b) <==> b <= After(blob, h).expectedBlock {
      LargestIsExact(After(blob, h).expectedBlock, Acks(h), b);
    }
  }

  // ------------------------------------------------------------ sequence gaps

  predicate Gap(s: Session, p: Packet) { Value(p.seqNo) != s.rxSeqExpected }

  /** When the packet after `h` is reported as a gap: after a CAP_REQ exactly if it is not
      numbered 0, otherwise exactly if it does not continue the numbering.  So a host that
      numbers its packets consecutively is reported right after its CAP_REQ, unless that
      CAP_REQ was numbered 255. */
  lemma GapIff(blob: SliceBlob, h: History, p: Packet)
    requires h != []
    ensures var last := h[|h| - 1];
            Gap(After(blob, h), p) <==>
              Value(p.seqNo) != if last.cmd == CMD_CAP_REQ then 0 else (Value(last.seqNo) + 1) % 256
    ensures Gap(After(blob, h), p) <==> SeqGap(After(blob, h).rxSeqExpected, Value(p.seqNo), p.cmd)
                                        in Telemetry(blob, After(blob, h), p)
  {
    hide Served, CapPayload, Value, Acked, BuildReply;
    SuccModulo(Value(h[|h| - 1].seqNo));
  }

  /** The number expected next. */
  function Expected(h: History): nat {
    if h == [] || h[|h| - 1].cmd == 0x00 then 0 else (Value(h[|h| - 1].seqNo) + 1) % 256
  }

  /** What is reported of every packet, from the history alone: a gap if its number is not the
      expected one; then, for a BLOCK_ACK, the last block of the unbroken run acknowledged by
      now (block 0 if there is none), and for a command that is not one of the six, that it is
      unknown. */
  lemma TelemetryIsHistory(blob: SliceBlob, h: History, p: Packet, e: BlockNo)
    requires LargestCounted(e, Acks(h + [p]))
    ensures Telemetry(blob, After(blob, h), p)
         == (if Value(p.seqNo) != Expected(h) then [SeqGap(Expected(h), Value(p.seqNo), p.cmd)] else [])
            + (if p.cmd == 0x22 then [BlockAck(if e == 0 then 0 else e - 1, blob.crc32)]
               else if p.cmd == 0x00 || p.cmd == 0x0E || p.cmd == 0x10 || p.cmd == 0x20 || p.cmd == 0x23 then []
               else [UnknownCmd(p.cmd)])
  {
    ExpectedIs(blob, h);
    if p.cmd == CMD_BLOCK_ACK {
      AckedNow(blob, h, p, e);
    }
    hide Served, CapPayload, Value, Acked, After, LargestCounted, Acks, Expected;
  }

  lemma ExpectedIs(blob: SliceBlob, h: History)
    ensures After(blob, h).rxSeqExpected == Expected(h)
  {
    hide Served, CapPayload, Value, Acked, BuildReply;
    if h != [] {
      SuccModulo(Value(h[|h| - 1].seqNo));
    }
  }

  lemma AckedNow(blob: SliceBlob, h: History, p: Packet, e: BlockNo)
    requires LargestCounted(e, Acks(h + [p])) && p.cmd == CMD_BLOCK_ACK
    ensures Acked(After(blob, h).expectedBlock, p.payload) == e
  {
    CounterIsLargest(blob, h + [p]);
    assert (h + [p])[..|h|] == h;
    hide Counted, Acks, Served, CapPayload, Value, BuildReply;
    LargestIsExact(e, Acks(h + [p]), After(blob, h + [p]).expectedBlock);
    LargestIsExact(After(blob, h + [p]).expectedBlock, Acks(h + [p]), e);
  }

  /** A host that numbers consecutively from 0, CAP_REQ first, is reported a gap. */
  lemma ConsecutiveHostIsReported(blob: SliceBlob)
    ensures var h := [Packet(CMD_CAP_REQ, Byte(0), [])];
            Gap(After(blob, h), Packet(CMD_CAP_ACK, Byte(1), []))
  {
    GapIff(blob, [Packet(CMD_CAP_REQ, Byte(0), [])], Packet(CMD_CAP_ACK, Byte(1), []));
    hide Byte, Value;
  }

  /** The handshake is complete exactly when a CAP_ACK followed the last CAP_REQ. */
  ghost predicate AckedSince(h: History) {
    exists i :: 0 <= i < |h| && h[i].cmd == CMD_CAP_ACK && forall j :: i < j < |h| ==> h[j].cmd != CMD_CAP_REQ
  }

  lemma CapStep(blob: SliceBlob, s: Session, p: Packet)
    ensures Handle(blob, s, p).0.capAcked ==
              if p.cmd == CMD_CAP_REQ then false else if p.cmd == CMD_CAP_ACK then true else s.capAcked
  {
    hide Served, CapPayload, Value, Acked, BuildReply;
  }

  lemma AckedSinceSnoc(h: History, p: Packet)
    ensures AckedSince(h + [p]) <==>
              if p.cmd == CMD_CAP_REQ then false else if p.cmd == CMD_CAP_ACK then true else AckedSince(h)
  {
    var g := h + [p];
    assert g[|h|] == p;
    if AckedSince(h) && p.cmd != CMD_CAP_REQ {
      var i :| 0 <= i < |h| && h[i].cmd == CMD_CAP_ACK && forall j :: i < j < |h| ==> h[j].cmd != CMD_CAP_REQ;
      assert g[i].cmd == CMD_CAP_ACK;
    }
    if AckedSince(g) {
      var i :| 0 <= i < |g| && g[i].cmd == CMD_CAP_ACK && forall j :: i < j < |g| ==> g[j].cmd != CMD_CAP_REQ;
      if i < |h| {
        assert h[i].cmd == CMD_CAP_ACK && forall j :: i < j < |h| ==> g[j] == h[j];
      }
    }
  }

  lemma {:induction false} CapAckedIff(blob: SliceBlob, h: History)
    ensures After(blob, h).capAcked <==> AckedSince(h)
    decreases |h|
  {
    if h != [] {
      var n := |h| - 1;
      var g, p := h[..n], h[n];
      assert g + [p] == h;
      CapAckedIff(blob, g);
      CapStep(blob, After(blob, g), p);
      AckedSinceSnoc(g, p);
      hide Handle, AckedSince;
    }
  }
}
