/** Downloading the image end to end: the firmware's dispatcher and block server, a
    stop-and-wait host (docs/stage1_design.md:283-310), and a channel that drops, repeats,
    reorders and detectably corrupts frames. */
module Download {
  import opened Wrappers
  import opened Bytes
  import opened Packet
  import opened ErrorDetection
  import opened BlockServer
  import opened Session
  import Crc32

  // ------------------------------------------------------------ the channel

  type Frames = set<seq<byte>>

  /** What may arrive when `sent` is everything ever sent: any of it, any number of times, in
      any order or never, or any of it with a detectable error. */
  ghost predicate Deliverable(buf: seq<byte>, sent: Frames) {
    buf in sent || exists f, e :: f in sent && Damaged(buf, f, e)
  }

  ghost predicate Damaged(buf: seq<byte>, f: seq<byte>, e: seq<byte>) {
    |e| == |f| && Detectable(e) && buf == Corrupt(f, e)
  }

  ghost predicate FrameOf(f: seq<byte>, p: Packet) { p.Fits() && f == Frame(p) }

  ghost predicate WellFormed(sent: Frames) {
    forall f :: f in sent ==> exists p :: FrameOf(f, p)
  }

  /** What decodes is what was sent. */
  lemma DecodedWasSent(buf: seq<byte>, sent: Frames)
    requires Deliverable(buf, sent) && WellFormed(sent) && Decode(buf).Ok?
    ensures buf in sent && FrameOf(buf, Decode(buf).value)
  {
    hide Decode, Corrupt, Detectable;
    if buf !in sent {
      var f, e :| f in sent && Damaged(buf, f, e);
      var p :| FrameOf(f, p);
      CorruptionRejected(p, e);
      assert false;
    }
    DecodedIsFrame(buf);
  }

  // ------------------------------------------------------------ the host

  /** The image served, the largest size the host takes, and how often it tries a block. */
  datatype Setup = Setup(blob: SliceBlob, maxSize: nat, attempts: nat) {
    ghost predicate Ok() { blob.Servable() && attempts >= 1 }

    predicate Acceptable() { 0 < |blob.data| <= maxSize }
  }

  datatype GiveUp = RefusedSize | Exhausted(block: nat) | BadChecksum

  /** While fetching block `k` the host has `left` attempts at it, the present one included. */
  datatype Host =
    | AwaitCap
    | Fetching(size: nat, crc: bv32, k: nat, buffer: seq<byte>, left: nat)
    | Done(buffer: seq<byte>)
    | Failed(why: GiveUp)

  /** A CAP_RSP the host understands. */
  predicate CapOk(p: Packet) {
    p.cmd == CMD_CAP_RSP && |p.payload| >= CAP_PAYLOAD_LEN && p.payload[0] == VERSION_MAJOR
  }

  /** A RECV_BLOCK for block `k` whose bytes are all there and stay inside the image. */
  predicate BlockOk(p: Packet, k: nat, have: nat, size: nat) {
    p.cmd == CMD_RECV_BLOCK && |p.payload| >= RECV_HDR_LEN && k < MAX_BLOCKS
    && p.payload[..4] == NumberPayload(k)
    && Value(p.payload[4]) == |p.payload| - RECV_HDR_LEN
    && have + |p.payload| - RECV_HDR_LEN <= size
  }

  /** An attempt at the current block has failed. */
  function Spend(h: Host): Host {
    match h
    case Fetching(size, crc, k, buffer, left) =>
      if left <= 1 then Failed(Exhausted(k)) else Fetching(size, crc, k, buffer, left - 1)
    case _ => h
  }

  /** The host after a decoded packet.  While it waits for a block, any other packet spends an
      attempt; before that, it ignores what it does not understand. */
  function HostHandle(h: Host, p: Packet, c: Setup): Host {
    match h
    case AwaitCap =>
      if !CapOk(p) then h
      else
        var size := AnnouncedSize(p.payload);
        if 0 < size <= c.maxSize then Fetching(size, AnnouncedCrc(p.payload), 0, [], c.attempts)
        else Failed(RefusedSize)
    case Fetching(size, crc, k, buffer, left) =>
      if !BlockOk(p, k, |buffer|, size) then Spend(h)
      else
        var buffer' := buffer + p.payload[RECV_HDR_LEN..];
        if (k + 1) * BLOCK_SIZE < size then Fetching(size, crc, k + 1, buffer', c.attempts)
        else if Crc32.Checksum(buffer') == crc then Done(buffer')
        else Failed(BadChecksum)
    case _ => h
  }

  /** The host after whatever arrived; a frame that does not decode spends an attempt too. */
  function HostAfter(h: Host, buf: seq<byte>, c: Setup): Host {
    match Decode(buf)
    case Err(_) => Spend(h)
    case Ok(p) => HostHandle(h, p, c)
  }

  /** What the host answers when it moves from `h` to `h'`. */
  function HostReplies(h: Host, h': Host): seq<(byte, seq<byte>)> {
    if h == h' || (h'.Failed? && h'.why != BadChecksum) then []
    else if h.AwaitCap? then [(CMD_CAP_ACK, [])]
    else if h.Fetching? && h.k < MAX_BLOCKS then
      [(if h' == Spend(h) then CMD_BLOCK_NAK else CMD_BLOCK_ACK, NumberPayload(h.k))]
    else []
  }

  /** What the host may send of its own accord, at any time and as often as it likes. */
  predicate HostMaySend(h: Host, p: Packet) {
    p.Fits()
    && (p.cmd == CMD_PING
        || (h.AwaitCap? && p.cmd == CMD_CAP_REQ)
        || (h.Fetching? && h.k < MAX_BLOCKS && p.payload == NumberPayload(h.k) && p.cmd == CMD_SEND_BLOCK))
  }

  // ------------------------------------------------------------ the whole system

  datatype World = World(host: Host, session: Session, toDevice: Frames, toHost: Frames)

  datatype Action =
    | HostSends(packet: Packet)
    | DeviceHears(buf: seq<byte>)
    | HostHears(buf: seq<byte>, seqNo: byte)
    | HostTimesOut(seqNo: byte)

  const InitWorld := World(AwaitCap, InitSession, {}, {})

  ghost predicate Enabled(w: World, a: Action) {
    match a
    case HostSends(p) => HostMaySend(w.host, p)
    case DeviceHears(buf) => Deliverable(buf, w.toDevice)
    case HostHears(buf, _) => Deliverable(buf, w.toHost)
    case HostTimesOut(_) => w.host.Fetching?
  }

  function Sent(out: seq<(byte, seq<byte>)>, seqNo: byte): Frames {
    if out == [] || |out[0].1| > MAX_PAYLOAD then {} else {Frame(Packet(out[0].0, seqNo, out[0].1))}
  }

  function ReplyFrames(o: Outcome): Frames {
    if o.Reply? && o.packet.Fits() then {Frame(o.packet)} else {}
  }

  /** The host moves on, and says so. */
  function HostMoves(w: World, h: Host, seqNo: byte): World {
    w.(host := h, toDevice := w.toDevice + Sent(HostReplies(w.host, h), seqNo))
  }

  function Apply(c: Setup, w: World, a: Action): World {
    match a
    case HostSends(p) => if p.Fits() then w.(toDevice := w.toDevice + {Frame(p)}) else w
    case DeviceHears(buf) => (
      match Decode(buf)
      case Err(_) => w
      case Ok(p) =>
        var (s, o) := Handle(c.blob, w.session, p);
        w.(session := s, toHost := w.toHost + ReplyFrames(o)))
    case HostHears(buf, seqNo) => HostMoves(w, HostAfter(w.host, buf, c), seqNo)
    case HostTimesOut(seqNo) => HostMoves(w, Spend(w.host), seqNo)
  }

  /** `w'` is reached from `w` by the actions, each possible when it happens. */
  ghost predicate Leads(c: Setup, w: World, actions: seq<Action>, w': World)
    decreases |actions|
  {
    if actions == [] then w' == w
    else Enabled(w, actions[0]) && Leads(c, Apply(c, w, actions[0]), actions[1..], w')
  }

  // ------------------------------------------------------------ the invariant

  /** Replies carry the announced facts and the blocks of this image. */
  ghost predicate Honest(blob: SliceBlob, p: Packet) {
    p.Fits()
    && (p.cmd == CMD_CAP_RSP ==> p.payload == CapPayload(blob, ACTIVE_MODE_SPP))
    && (p.cmd == CMD_RECV_BLOCK ==> exists n: BlockNo :: ServedAs(blob, n, p.payload))
  }

  ghost predicate ServedAs(blob: SliceBlob, n: BlockNo, payload: seq<byte>) {
    var b := blob.Block(n, BLOCK_SIZE);
    b.Some? && payload == RecvPayload(n, b.value.0, b.value.1)
  }

  ghost predicate HonestFrame(blob: SliceBlob, f: seq<byte>) {
    exists p :: FrameOf(f, p) && Honest(blob, p)
  }

  /** The host holds the whole-block prefix of the image, or all of it, or has given up for a
      reason that is so. */
  ghost predicate HostTrue(c: Setup, h: Host) {
    match h
    case AwaitCap => true
    case Fetching(size, crc, k, buffer, left) =>
      size == |c.blob.data| && crc == c.blob.crc32 && c.Acceptable()
      && k * BLOCK_SIZE < size && buffer == Prefix(c.blob, k) && 1 <= left <= c.attempts
    case Done(buffer) => buffer == c.blob.data && c.Acceptable() && Crc32.Checksum(buffer) == c.blob.crc32
    case Failed(why) =>
      match why
      case RefusedSize => !c.Acceptable()
      case Exhausted(k) => c.Acceptable() && k * BLOCK_SIZE < |c.blob.data|
      case BadChecksum => false
  }

  ghost predicate Inv(c: Setup, w: World) {
    HostTrue(c, w.host) && WellFormed(w.toDevice)
    && forall f :: f in w.toHost ==> HonestFrame(c.blob, f)
  }

  // ------------------------------------------------------------ preservation

  lemma ReplyPayload(blob: SliceBlob, s: Session, p: Packet)
    ensures var o := Handle(blob, s, p).1;
            o.Reply? ==>
              (o.packet.cmd == CMD_CAP_RSP ==> o.packet.payload == CapPayload(blob, ACTIVE_MODE_SPP))
              && (o.packet.cmd == CMD_RECV_BLOCK ==>
                    Served(blob, p.payload).Some? && o.packet.payload == Served(blob, p.payload).value)
  {
    hide Served, CapPayload, Acked, Value;
  }

  lemma HonestReply(blob: SliceBlob, s: Session, p: Packet)
    requires p.Fits()
    ensures var o := Handle(blob, s, p).1; o.Reply? ==> Honest(blob, o.packet)
  {
    ServedIsBlock(blob, p.payload);
    RepliesFit(blob, s, p);
    ReplyPayload(blob, s, p);
    hide Handle, Served, CapPayload, ServedAs;
  }

  lemma ServedIsBlock(blob: SliceBlob, payload: seq<byte>)
    ensures Served(blob, payload).Some? ==> exists n: BlockNo :: ServedAs(blob, n, Served(blob, payload).value)
  {
    hide RecvPayload;
    var parsed := ParseSendBlock(payload);
    hide ParseSendBlock;
    if parsed.Ok? && Served(blob, payload).Some? {
      assert ServedAs(blob, parsed.value, Served(blob, payload).value);
    }
  }

  lemma FirstIsTrue(c: Setup)
    requires c.Ok()
    ensures c.Acceptable() ==> HostTrue(c, Fetching(|c.blob.data|, c.blob.crc32, 0, [], c.attempts))
    ensures !c.Acceptable() ==> HostTrue(c, Failed(RefusedSize))
    ensures |c.blob.data| < 0x1_0000_0000 && HostTrue(c, AwaitCap)
  {
    BlockExtendsPrefix0(c.blob);
    hide Prefix, Crc32.Checksum;
  }

  lemma CapMovesHost(c: Setup, p: Packet)
    requires c.Ok() && Honest(c.blob, p)
    ensures HostTrue(c, HostHandle(AwaitCap, p, c))
  {
    FirstIsTrue(c);
    CapReads(c.blob, ACTIVE_MODE_SPP);
    hide HostTrue, CapPayload, AnnouncedSize, AnnouncedCrc, ServedAs;
  }

  lemma BlockExtendsPrefix0(blob: SliceBlob)
    ensures 0 < |blob.data| ==> Prefix(blob, 0) == []
  {
  }

  lemma NumbersDiffer(m: BlockNo, n: BlockNo)
    requires NumberPayload(m) == NumberPayload(n)
    ensures m == n
  {
    hide NumberPayload, ParseSendBlock;
    ParseExact(NumberPayload(m), m);
    ParseExact(NumberPayload(n), n);
  }

  /** The payload of a served block, taken apart. */
  lemma ServedParts(blob: SliceBlob, n: BlockNo, payload: seq<byte>)
    requires ServedAs(blob, n, payload)
    ensures |payload| >= RECV_HDR_LEN && payload[..4] == NumberPayload(n)
    ensures Value(payload[4]) == |payload| - RECV_HDR_LEN
    ensures n * BLOCK_SIZE < |blob.data| && Prefix(blob, n) + payload[RECV_HDR_LEN..] == Prefix(blob, n + 1)
  {
    BlockExtendsPrefix(blob, n);
    var (bytes, count) := blob.Block(n, BLOCK_SIZE).value;
    hide NumberPayload, Value, Prefix;
    assert payload == NumberPayload(n) + [count] + bytes;
    assert payload[RECV_HDR_LEN..] == bytes;
  }

  /** The next block of the prefix, or the rest of the image. */
  lemma PrefixMoves(blob: SliceBlob, k: nat)
    ensures (k + 1) * BLOCK_SIZE >= |blob.data| ==> Prefix(blob, k + 1) == blob.data
  {
  }

  lemma HonestBlock(blob: SliceBlob, p: Packet) returns (n: BlockNo)
    requires Honest(blob, p) && p.cmd == CMD_RECV_BLOCK
    ensures ServedAs(blob, n, p.payload)
  {
    hide ServedAs, CapPayload;
    n :| ServedAs(blob, n, p.payload);
  }

  lemma BlockOkMeans(p: Packet, k: nat, have: nat, size: nat)
    requires BlockOk(p, k, have, size)
    ensures p.cmd == CMD_RECV_BLOCK && k < MAX_BLOCKS && |p.payload| >= 5 && p.payload[..4] == NumberPayload(k)
  {
    hide NumberPayload, Value;
  }

  lemma AcceptedBlock(blob: SliceBlob, h: Host, p: Packet)
    requires Honest(blob, p) && h.Fetching? && BlockOk(p, h.k, |h.buffer|, h.size)
    requires h.buffer == Prefix(blob, h.k)
    ensures h.buffer + p.payload[RECV_HDR_LEN..] == Prefix(blob, h.k + 1)
  {
    hide *;
    BlockOkMeans(p, h.k, |h.buffer|, h.size);
    var n := HonestBlock(blob, p);
    ServedParts(blob, n, p.payload);
    NumbersDiffer(n, h.k);
  }

  /** What a block that the host wants does to it. */
  lemma HostTakesBlock(h: Host, p: Packet, c: Setup)
    requires h.Fetching?
    ensures BlockOk(p, h.k, |h.buffer|, h.size) ==>
              var buffer := h.buffer + p.payload[RECV_HDR_LEN..];
              HostHandle(h, p, c) ==
                if (h.k + 1) * BLOCK_SIZE < h.size then Fetching(h.size, h.crc, h.k + 1, buffer, c.attempts)
                else if Crc32.Checksum(buffer) == h.crc then Done(buffer) else Failed(BadChecksum)
    ensures !BlockOk(p, h.k, |h.buffer|, h.size) ==> HostHandle(h, p, c) == Spend(h)
  {
    hide NumberPayload, Crc32.Checksum, Value, Spend;
  }

  lemma FetchingMeans(c: Setup, h: Host)
    requires h.Fetching? && HostTrue(c, h)
    ensures h.size == |c.blob.data| && h.crc == c.blob.crc32 && c.Acceptable()
    ensures h.buffer == Prefix(c.blob, h.k)
  {
    hide Prefix;
  }

  /** One more block of the prefix: fetching on, or done with a good checksum. */
  lemma LongerIsTrue(c: Setup, k: nat)
    requires c.Ok() && c.Acceptable()
    ensures var buffer := Prefix(c.blob, k + 1);
            if (k + 1) * BLOCK_SIZE < |c.blob.data|
            then HostTrue(c, Fetching(|c.blob.data|, c.blob.crc32, k + 1, buffer, c.attempts))
            else Crc32.Checksum(buffer) == c.blob.crc32 && HostTrue(c, Done(buffer))
  {
    PrefixMoves(c.blob, k);
    hide Prefix, Crc32.Checksum;
  }

  lemma BlockMovesHost(c: Setup, h: Host, p: Packet)
    requires c.Ok() && Honest(c.blob, p) && h.Fetching? && HostTrue(c, h)
    ensures HostTrue(c, HostHandle(h, p, c))
  {
    hide *;
    HostTakesBlock(h, p, c);
    SpendIsTrue(c, h);
    FetchingMeans(c, h);
    if BlockOk(p, h.k, |h.buffer|, h.size) {
      AcceptedBlock(c.blob, h, p);
      LongerIsTrue(c, h.k);
    }
  }

  lemma SpendIsTrue(c: Setup, h: Host)
    requires HostTrue(c, h)
    ensures HostTrue(c, Spend(h))
  {
    hide Prefix, Crc32.Checksum;
  }

  lemma HostStep(c: Setup, h: Host, p: Packet)
    requires c.Ok() && Honest(c.blob, p) && HostTrue(c, h)
    ensures HostTrue(c, HostHandle(h, p, c))
  {
    hide Honest, HostTrue, CapOk, BlockOk, Crc32.Checksum;
    match h {
      case AwaitCap => CapMovesHost(c, p);
      case Fetching(_, _, _, _, _) => BlockMovesHost(c, h, p);
      case _ =>
    }
  }

  lemma FrameDecodes(f: seq<byte>, p: Packet)
    requires FrameOf(f, p)
    ensures Decode(f) == Ok(p)
  {
    DecodeOfFrame(p);
  }

  lemma HonestDecodes(blob: SliceBlob, f: seq<byte>)
    requires HonestFrame(blob, f) && Decode(f).Ok?
    ensures Honest(blob, Decode(f).value)
  {
    hide Decode, Honest;
    var p :| FrameOf(f, p) && Honest(blob, p);
    FrameDecodes(f, p);
  }

  lemma HonestIsWellFormed(blob: SliceBlob, sent: Frames)
    requires forall f :: f in sent ==> HonestFrame(blob, f)
    ensures WellFormed(sent)
  {
  }

  lemma SentWellFormed(sent: Frames, p: Packet)
    requires WellFormed(sent) && p.Fits()
    ensures WellFormed(sent + {Frame(p)})
  {
    hide Frame;
    assert FrameOf(Frame(p), p);
  }

  lemma HonestSent(blob: SliceBlob, sent: Frames, p: Packet)
    requires (forall f :: f in sent ==> HonestFrame(blob, f)) && Honest(blob, p) && p.Fits()
    ensures forall f :: f in sent + {Frame(p)} ==> HonestFrame(blob, f)
  {
    hide Frame, Honest;
    assert FrameOf(Frame(p), p);
  }

  lemma MovesWellFormed(w: World, h: Host, seqNo: byte)
    requires WellFormed(w.toDevice)
    ensures WellFormed(HostMoves(w, h, seqNo).toDevice)
  {
    hide WellFormed, Frame, HostReplies;
    var out := HostReplies(w.host, h);
    if out != [] && |out[0].1| <= MAX_PAYLOAD {
      SentWellFormed(w.toDevice, Packet(out[0].0, seqNo, out[0].1));
    } else {
      assert w.toDevice + {} == w.toDevice;
    }
  }

  lemma HeardIsTrue(c: Setup, w: World, buf: seq<byte>)
    requires c.Ok() && Inv(c, w) && Deliverable(buf, w.toHost)
    ensures HostTrue(c, HostAfter(w.host, buf, c))
  {
    hide Decode, HostHandle, HostTrue, HonestFrame, Honest, WellFormed, Spend, Deliverable;
    SpendIsTrue(c, w.host);
    if Decode(buf).Ok? {
      HonestIsWellFormed(c.blob, w.toHost);
      DecodedWasSent(buf, w.toHost);
      HonestDecodes(c.blob, buf);
      HostStep(c, w.host, Decode(buf).value);
    }
  }

  lemma InvStep(c: Setup, w: World, a: Action)
    requires c.Ok() && Inv(c, w) && Enabled(w, a)
    ensures Inv(c, Apply(c, w, a))
  {
    hide Decode, Handle, HostAfter, HostTrue, HostReplies, HonestFrame, Honest, WellFormed, Frame, Spend, Deliverable;
    match a {
      case HostSends(p) =>
        SentWellFormed(w.toDevice, p);
      case DeviceHears(buf) =>
        if Decode(buf).Ok? {
          DecodedWasSent(buf, w.toDevice);
          var o := Handle(c.blob, w.session, Decode(buf).value).1;
          HonestReply(c.blob, w.session, Decode(buf).value);
          if o.Reply? && o.packet.Fits() {
            HonestSent(c.blob, w.toHost, o.packet);
          }
        }
      case HostHears(buf, seqNo) =>
        HeardIsTrue(c, w, buf);
        MovesWellFormed(w, HostAfter(w.host, buf, c), seqNo);
      case HostTimesOut(seqNo) =>
        SpendIsTrue(c, w.host);
        MovesWellFormed(w, Spend(w.host), seqNo);
    }
  }

  lemma {:induction false} InvHolds(c: Setup, w: World, actions: seq<Action>, w': World)
    requires c.Ok() && Inv(c, w) && Leads(c, w, actions, w')
    ensures Inv(c, w')
    decreases |actions|
  {
    hide Inv, Apply, Enabled;
    if actions != [] {
      InvStep(c, w, actions[0]);
      InvHolds(c, Apply(c, w, actions[0]), actions[1..], w');
    }
  }

  // ------------------------------------------------------------ attempts

  /** The frame decodes to block `k`. */
  predicate Brings(buf: seq<byte>, k: nat, have: nat, size: nat) {
    Decode(buf).Ok? && BlockOk(Decode(buf).value, k, have, size)
  }

  /** The action spends an attempt at block `k`: a time-out, or anything but the block. */
  predicate Spends(c: Setup, w: World, a: Action, k: nat) {
    w.host.Fetching? && w.host.k == k
    && (a.HostTimesOut? || (a.HostHears? && !Brings(a.buf, k, |w.host.buffer|, w.host.size)))
  }

  /** Attempts at block `k` spent by a run. */
  function Spent(c: Setup, w: World, actions: seq<Action>, k: nat): nat
    decreases |actions|
  {
    if actions == [] then 0
    else (if Spends(c, w, actions[0], k) then 1 else 0) + Spent(c, Apply(c, w, actions[0]), actions[1..], k)
  }

  /** Attempts at block `k` that the host still has before it gives up at it, if it may. */
  function Remaining(c: Setup, h: Host, k: nat): Option<nat> {
    match h
    case AwaitCap => Some(c.attempts)
    case Fetching(_, _, k0, _, left) =>
      if k0 < k then Some(c.attempts) else if k0 == k then Some(left) else None
    case Failed(why) => if why == Exhausted(k) then Some(0) else None
    case Done(_) => None
  }

  /** No step gains attempts, and only a failed attempt costs one. */
  lemma StepSpends(c: Setup, w: World, a: Action, k: nat)
    requires w.host.Fetching? ==> w.host.left >= 1
    requires c.attempts >= 1
    ensures var w' := Apply(c, w, a);
            (w'.host.Fetching? ==> w'.host.left >= 1)
            && (Remaining(c, w'.host, k).Some? ==>
                  Remaining(c, w.host, k)
                  == Some((if Spends(c, w, a, k) then 1 else 0) + Remaining(c, w'.host, k).value))
  {
    hide Decode, Handle, CapOk, BlockOk, Crc32.Checksum, AnnouncedSize, AnnouncedCrc, HostReplies, Frame;
  }

  lemma {:induction false} RunSpends(c: Setup, w: World, actions: seq<Action>, w': World, k: nat)
    requires c.attempts >= 1 && (w.host.Fetching? ==> w.host.left >= 1) && Leads(c, w, actions, w')
    requires Remaining(c, w'.host, k).Some?
    ensures Remaining(c, w.host, k) == Some(Spent(c, w, actions, k) + Remaining(c, w'.host, k).value)
    decreases |actions|
  {
    hide Apply, Enabled, Spends, Remaining;
    if actions != [] {
      StepSpends(c, w, actions[0], k);
      RunSpends(c, Apply(c, w, actions[0]), actions[1..], w', k);
    }
  }

  /** In every reachable state the host's buffer is a whole-block prefix of the image, and the
      attempts left at its block are those not spent; on completion the buffer is the image,
      and its CRC-32 is the one the firmware announced.  The host gives up only on a size it
      refuses, or when all its attempts at one block of the image have been spent. */
  lemma DownloadSafety(c: Setup, actions: seq<Action>, w: World)
    requires c.Ok() && Leads(c, InitWorld, actions, w)
    ensures w.host.Fetching? ==> w.host.k * 64 < |c.blob.data|
                                 && w.host.buffer == c.blob.data[..w.host.k * 64]
                                 && Spent(c, InitWorld, actions, w.host.k) == c.attempts - w.host.left
    ensures w.host.Done? ==>
              w.host.buffer == c.blob.data
              && Crc32.Checksum(w.host.buffer) == AnnouncedCrc(CapPayload(c.blob, ACTIVE_MODE_SPP))
    ensures w.host.Failed? ==>
              (w.host.why == RefusedSize && !c.Acceptable())
              || (w.host.why.Exhausted? && w.host.why.block * 64 < |c.blob.data|
                  && Spent(c, InitWorld, actions, w.host.why.block) == c.attempts)
  {
    hide *;
    InitInv(c);
    InvHolds(c, InitWorld, actions, w);
    InvMeans(c, w);
    HostTrueMeans(c, w.host);
    if w.host.Fetching? {
      RemainingFetching(c, w.host);
      RunSpends(c, InitWorld, actions, w, w.host.k);
    } else if w.host.Failed? && w.host.why.Exhausted? {
      RemainingExhausted(c, w.host);
      RunSpends(c, InitWorld, actions, w, w.host.why.block);
    }
  }

  lemma InitInv(c: Setup)
    requires c.Ok()
    ensures Inv(c, InitWorld) && c.attempts >= 1 && !InitWorld.host.Fetching?
    ensures forall k :: Remaining(c, InitWorld.host, k) == Some(c.attempts)
  {
  }

  lemma RemainingFetching(c: Setup, h: Host)
    requires h.Fetching?
    ensures Remaining(c, h, h.k) == Some(h.left)
  {
  }

  lemma RemainingExhausted(c: Setup, h: Host)
    requires h.Failed? && h.why.Exhausted?
    ensures Remaining(c, h, h.why.block) == Some(0)
  {
  }

  /** What the invariant says of the host. */
  lemma HostTrueMeans(c: Setup, h: Host)
    requires c.Ok() && HostTrue(c, h)
    ensures h.Fetching? ==> h.k * 64 < |c.blob.data| && h.buffer == c.blob.data[..h.k * 64]
    ensures h.Done? ==>
              h.buffer == c.blob.data
              && Crc32.Checksum(h.buffer) == AnnouncedCrc(CapPayload(c.blob, ACTIVE_MODE_SPP))
    ensures h.Failed? ==>
              (h.why == RefusedSize && !c.Acceptable())
              || (h.why.Exhausted? && h.why.block * 64 < |c.blob.data|)
  {
    SizeFits(c);
    CapReads(c.blob, ACTIVE_MODE_SPP);
    hide CapPayload, AnnouncedCrc, AnnouncedSize, Crc32.Checksum;
  }

  lemma SizeFits(c: Setup)
    requires c.Ok()
    ensures |c.blob.data| < 0x1_0000_0000
  {
    hide Crc32.Checksum;
  }

  // ------------------------------------------------------------ acknowledgements

  /** How many blocks the host has taken. */
  function Taken(h: Host): nat {
    match h
    case AwaitCap => 0
    case Fetching(_, _, k, _, _) => k
    case Done(buffer) => (|buffer| + 63) / 64
    case Failed(Exhausted(k)) => k
    case Failed(RefusedSize) => 0
    case Failed(BadChecksum) => MAX_BLOCKS
  }

  /** The frame acknowledges only a block below `m`. */
  predicate AcksBelow(f: seq<byte>, m: nat) {
    Decode(f).Ok? && Decode(f).value.cmd == CMD_BLOCK_ACK && ParseSendBlock(Decode(f).value.payload).Ok?
    ==> ParseSendBlock(Decode(f).value.payload).value < m
  }

  ghost predicate AcksHeld(sent: Frames, m: nat) {
    forall f :: f in sent ==> AcksBelow(f, m)
  }

  ghost predicate AckInv(c: Setup, w: World) {
    Inv(c, w) && AcksHeld(w.toDevice, Taken(w.host)) && w.session.expectedBlock <= Taken(w.host)
  }

  lemma AcksHeldMore(sent: Frames, m: nat, m': nat, more: Frames)
    requires AcksHeld(sent, m) && m <= m' && AcksHeld(more, m')
    ensures AcksHeld(sent + more, m')
  {
    forall f | f in sent ensures AcksBelow(f, m') {
      assert AcksBelow(f, m);
    }
    hide AcksBelow;
  }

  /** Moving on, the host only ever takes blocks; it acknowledges one when it has it. */
  lemma HostAcksHeld(c: Setup, w: World, h: Host, seqNo: byte)
    requires HostTrue(c, w.host) && HostTrue(c, h)
    requires h == Spend(w.host) || (exists p :: h == HostHandle(w.host, p, c))
    ensures Taken(w.host) <= Taken(h) && AcksHeld(Sent(HostReplies(w.host, h), seqNo), Taken(h))
  {
    hide Prefix, Crc32.Checksum, CapOk, BlockOk, Frame, Decode, AnnouncedSize, AnnouncedCrc, NumberPayload, ParseSendBlock;
    var out := HostReplies(w.host, h);
    if out != [] && |out[0].1| <= MAX_PAYLOAD {
      DecodeOfFrame(Packet(out[0].0, seqNo, out[0].1));
      if w.host.Fetching? {
        ParseExact(NumberPayload(w.host.k), w.host.k);
      }
    }
  }

  lemma RequestsDoNotAck(h: Host, p: Packet, m: nat)
    requires HostMaySend(h, p)
    ensures p.Fits() && AcksHeld({Frame(p)}, m)
  {
    hide Frame, NumberPayload, Decode;
    DecodeOfFrame(p);
  }

  lemma HandledAck(blob: SliceBlob, s: Session, buf: seq<byte>, m: nat)
    requires Decode(buf).Ok? && AcksBelow(buf, m) && s.expectedBlock <= m
    ensures Handle(blob, s, Decode(buf).value).0.expectedBlock <= m
  {
    hide Handle, Decode, ParseSendBlock;
    AckStep(blob, s, Decode(buf).value);
  }

  lemma HostMoved(c: Setup, w: World, h: Host, seqNo: byte)
    requires AckInv(c, w) && HostTrue(c, h)
    requires h == Spend(w.host) || (exists p :: h == HostHandle(w.host, p, c))
    ensures var w' := HostMoves(w, h, seqNo);
            AcksHeld(w'.toDevice, Taken(w'.host)) && w'.session.expectedBlock <= Taken(w'.host)
  {
    InvMeans(c, w);
    hide HostTrue, Inv, AcksHeld, HostReplies, Sent, Taken, HostHandle, Spend;
    HostAcksHeld(c, w, h, seqNo);
    AcksHeldMore(w.toDevice, Taken(w.host), Taken(h), Sent(HostReplies(w.host, h), seqNo));
  }

  lemma AckInvStep(c: Setup, w: World, a: Action)
    requires c.Ok() && AckInv(c, w) && Enabled(w, a)
    ensures AckInv(c, Apply(c, w, a))
  {
    InvStep(c, w, a);
    hide Inv, Decode, Handle, HostTrue, HostReplies, Frame, Spend, Deliverable, AcksHeld, HostMaySend, Taken, HostHandle, AcksBelow;
    InvMeans(c, w);
    InvMeans(c, Apply(c, w, a));
    match a {
      case HostSends(p) =>
        RequestsDoNotAck(w.host, p, Taken(w.host));
        AcksHeldMore(w.toDevice, Taken(w.host), Taken(w.host), {Frame(p)});
      case DeviceHears(buf) =>
        if Decode(buf).Ok? {
          DecodedWasSent(buf, w.toDevice);
          AckSent(w.toDevice, Taken(w.host), buf);
          HandledAck(c.blob, w.session, buf, Taken(w.host));
        }
      case HostHears(buf, seqNo) =>
        HostMoved(c, w, HostAfter(w.host, buf, c), seqNo);
      case HostTimesOut(seqNo) =>
        HostMoved(c, w, Spend(w.host), seqNo);
    }
  }

  lemma AckSent(sent: Frames, m: nat, f: seq<byte>)
    requires AcksHeld(sent, m) && f in sent
    ensures AcksBelow(f, m)
  {
    hide AcksBelow;
  }

  lemma InvMeans(c: Setup, w: World)
    requires Inv(c, w)
    ensures HostTrue(c, w.host) && WellFormed(w.toDevice)
  {
    hide HostTrue, WellFormed, HonestFrame;
  }

  lemma {:induction false} AckInvHolds(c: Setup, w: World, actions: seq<Action>, w': World)
    requires c.Ok() && AckInv(c, w) && Leads(c, w, actions, w')
    ensures AckInv(c, w')
    decreases |actions|
  {
    hide AckInv, Apply, Enabled;
    if actions != [] {
      AckInvStep(c, w, actions[0]);
      AckInvHolds(c, Apply(c, w, actions[0]), actions[1..], w');
    }
  }

  /** In every reachable state, whatever was lost, repeated, reordered or corrupted on the way,
      the device's count of acknowledged blocks never runs ahead of the blocks the host has. */
  lemma AcknowledgedIsTaken(c: Setup, actions: seq<Action>, w: World)
    requires c.Ok() && Leads(c, InitWorld, actions, w)
    ensures w.session.expectedBlock <= Taken(w.host)
  {
    assert AckInv(c, InitWorld);
    AckInvHolds(c, InitWorld, actions, w);
  }

  // ------------------------------------------------------------ never stuck

  lemma {:induction false} LeadsConcat(
    c: Setup, w: World, a: seq<Action>, w1: World, b: seq<Action>, w2: World)
    requires Leads(c, w, a, w1) && Leads(c, w1, b, w2)
    ensures Leads(c, w, a + b, w2)
    decreases |a|
  {
    hide Apply, Enabled;
    if a == [] {
      assert a + b == b;
    } else {
      LeadsConcat(c, Apply(c, w, a[0]), a[1..], w1, b, w2);
      assert (a + b)[0] == a[0] && (a + b)[1..] == a[1..] + b;
    }
  }

  lemma LeadsOne(c: Setup, w: World, a: Action)
    requires Enabled(w, a)
    ensures Leads(c, w, [a], Apply(c, w, a))
  {
    hide Apply, Enabled;
    assert [a][1..] == [];
    NoActions(c, Apply(c, w, a));
  }

  lemma SendingReaches(c: Setup, w: World, p: Packet)
    requires HostMaySend(w.host, p) && p.Fits()
    ensures var w' := Apply(c, w, HostSends(p));
            Enabled(w, HostSends(p)) && Enabled(w', DeviceHears(Frame(p)))
            && w'.host == w.host && w'.session == w.session
  {
    hide Frame, HostMaySend, Damaged;
  }

  lemma DeviceApplies(c: Setup, w: World, p: Packet, reply: Packet)
    requires p.Fits() && reply.Fits() && Handle(c.blob, w.session, p).1 == Reply(reply)
    ensures Apply(c, w, DeviceHears(Frame(p)))
         == w.(session := Handle(c.blob, w.session, p).0, toHost := w.toHost + {Frame(reply)})
  {
    FrameDecodes(Frame(p), p);
    hide Frame, Handle, Decode, HostHandle, HostReplies, Sent;
  }

  lemma AnswerReaches(c: Setup, w: World, p: Packet, reply: Packet, seqNo: byte)
    requires p.Fits() && reply.Fits() && Handle(c.blob, w.session, p).1 == Reply(reply)
    ensures var w' := Apply(c, w, DeviceHears(Frame(p)));
            Enabled(w', HostHears(Frame(reply), seqNo)) && w'.host == w.host
  {
    DeviceApplies(c, w, p, reply);
    hide Frame, Handle, Apply, Damaged;
  }

  lemma HostReached(c: Setup, w: World, reply: Packet, seqNo: byte)
    requires reply.Fits()
    ensures Apply(c, w, HostHears(Frame(reply), seqNo)).host == HostHandle(w.host, reply, c)
  {
    FrameDecodes(Frame(reply), reply);
    hide Frame, HostHandle, HostReplies, Decode, Spend;
  }

  /** A request that is answered, and the answer, delivered without a fault. */
  lemma Exchange(c: Setup, w: World, request: Packet, reply: Packet)
    returns (actions: seq<Action>, w': World)
    requires HostMaySend(w.host, request)
    requires Handle(c.blob, w.session, request).1 == Reply(reply)
    ensures |actions| == 3 && Leads(c, w, actions, w')
    ensures w'.host == HostHandle(w.host, reply, c)
  {
    hide *;
    MayFits(w.host, request);
    RepliesFit(c.blob, w.session, request);
    var ask, serve, take := HostSends(request), DeviceHears(Frame(request)), HostHears(Frame(reply), 0);
    var w1 := Apply(c, w, ask);
    var w2 := Apply(c, w1, serve);
    SendingReaches(c, w, request);
    AnswerReaches(c, w1, request, reply, 0);
    HostReached(c, w2, reply, 0);
    w' := Apply(c, w2, take);
    LeadsOne(c, w, ask);
    LeadsOne(c, w1, serve);
    LeadsOne(c, w2, take);
    LeadsConcat(c, w, [ask], w1, [serve], w2);
    LeadsConcat(c, w, [ask] + [serve], w2, [take], w');
    actions := ([ask] + [serve]) + [take];
  }

  lemma MayFits(h: Host, p: Packet)
    requires HostMaySend(h, p)
    ensures p.Fits()
  {
  }

  lemma CapIsAnswered(c: Setup, s: Session) returns (request: Packet, reply: Packet)
    requires c.Ok() && c.Acceptable()
    ensures HostMaySend(AwaitCap, request)
    ensures Handle(c.blob, s, request).1 == Reply(reply)
    ensures HostHandle(AwaitCap, reply, c).Fetching?
  {
    request := Packet(CMD_CAP_REQ, 0, []);
    reply := Packet(CMD_CAP_RSP, Byte(0), CapPayload(c.blob, ACTIVE_MODE_SPP));
    CapReads(c.blob, ACTIVE_MODE_SPP);
    hide CapPayload, AnnouncedSize, AnnouncedCrc, Value, Crc32.Checksum;
  }

  lemma ServedIs(blob: SliceBlob, n: BlockNo, number: seq<byte>)
    requires ParseSendBlock(number) == Ok(n) && blob.Block(n, BLOCK_SIZE).Some?
    ensures var (bytes, count) := blob.Block(n, BLOCK_SIZE).value;
            Served(blob, number) == Some(RecvPayload(n, bytes, count))
  {
    hide ParseSendBlock, RecvPayload;
  }

  lemma SendBlockHandled(blob: SliceBlob, s: Session, number: seq<byte>)
    requires Served(blob, number).Some? && |Served(blob, number).value| <= RECV_MAX_PAYLOAD
    ensures Handle(blob, s, Packet(CMD_SEND_BLOCK, 0, number)).1
         == Reply(Packet(CMD_RECV_BLOCK, Byte(s.txSeq), Served(blob, number).value))
  {
    hide Served, Value, Byte, CapPayload, Acked;
  }

  /** A served block is what a host waiting for it accepts. */
  lemma ServedIsOk(blob: SliceBlob, n: BlockNo, seqNo: byte, payload: seq<byte>)
    requires ServedAs(blob, n, payload)
    ensures BlockOk(Packet(CMD_RECV_BLOCK, seqNo, payload), n, |Prefix(blob, n)|, |blob.data|)
  {
    ServedParts(blob, n, payload);
    PrefixShort(blob, n + 1);
    hide NumberPayload, ServedAs, Value, Prefix;
    assert |Prefix(blob, n) + payload[RECV_HDR_LEN..]| == |Prefix(blob, n)| + |payload| - RECV_HDR_LEN;
  }

  lemma BlockIsAnswered(blob: SliceBlob, h: Host, s: Session) returns (request: Packet, reply: Packet)
    requires blob.Servable() && h.Fetching? && h.k * BLOCK_SIZE < h.size == |blob.data|
    requires h.buffer == Prefix(blob, h.k)
    ensures HostMaySend(h, request)
    ensures Handle(blob, s, request).1 == Reply(reply) && BlockOk(reply, h.k, |h.buffer|, h.size)
  {
    var number := NumberPayload(h.k);
    request := Packet(CMD_SEND_BLOCK, 0, number);
    assert HostMaySend(h, request) by { hide NumberPayload; }
    ParseExact(number, h.k);
    BlockExtendsPrefix(blob, h.k);
    ServedFits(blob, number);
    hide NumberPayload, RecvPayload, Handle, HostMaySend, Prefix, Served, BlockOk, Value, Byte;
    var (bytes, count) := blob.Block(h.k, BLOCK_SIZE).value;
    var payload := RecvPayload(h.k, bytes, count);
    ServedIs(blob, h.k, number);
    SendBlockHandled(blob, s, number);
    reply := Packet(CMD_RECV_BLOCK, Byte(s.txSeq), payload);
    assert ServedAs(blob, h.k, payload);
    ServedIsOk(blob, h.k, reply.seqNo, payload);
  }

  lemma PrefixShort(blob: SliceBlob, n: nat)
    ensures |Prefix(blob, n)| <= |blob.data|
  {
  }

  /** From every reachable state in which the host has not given up, whatever the channel has
      done so far, the download of an image whose size it accepts can still be completed
      without further faults. */
  lemma {:induction false} NeverStuck(c: Setup, w: World) returns (actions: seq<Action>, w': World)
    requires c.Ok() && Inv(c, w) && c.Acceptable() && !w.host.Failed?
    ensures Leads(c, w, actions, w') && w'.host == Done(c.blob.data)
    decreases if w.host.AwaitCap? then 1 else 0,
              if w.host.Fetching? then |c.blob.data| - w.host.k * BLOCK_SIZE else 0
  {
    hide Leads, Handle, HostHandle, HostMaySend, BlockOk, Prefix, Crc32.Checksum;
    if w.host.Done? {
      actions, w' := [], w;
      NoActions(c, w);
    } else {
      var request, reply;
      if w.host.AwaitCap? {
        request, reply := CapIsAnswered(c, w.session);
      } else {
        request, reply := BlockIsAnswered(c.blob, w.host, w.session);
        HostTakesBlock(w.host, reply, c);
      }
      var first, w1 := Exchange(c, w, request, reply);
      InvHolds(c, w, first, w1);
      var rest;
      rest, w' := NeverStuck(c, w1);
      actions := first + rest;
      LeadsConcat(c, w, first, w1, rest, w');
    }
  }

  lemma NoActions(c: Setup, w: World)
    ensures Leads(c, w, [], w)
  {
  }
}
