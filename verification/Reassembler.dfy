/** The byte-stream reassembler (firmware/src/transport/packet_stream.rs).

    The byte source is a finite input read so far; running out of it is the state in which
    the source's `await` would still be pending. */
module Reassembler {
  import opened Wrappers
  import opened Bytes
  import opened Packet
  import Crc16

  datatype ResyncReason = PreSohByte | PayloadTooLong | BadCrcResync | BadEtxResync | DecodeErrorResync

  // ------------------------------------------------- what a byte stream contains

  /** One step of resynchronisation, with the bytes it consumes. */
  datatype Item =
    | Dropped(bytes: seq<byte>, reason: ResyncReason)
    | Delivered(bytes: seq<byte>, packet: Packet)

  function ReasonOf(e: DecodeError): ResyncReason {
    match e
    case BadCrc => BadCrcResync
    case BadEtx => BadEtxResync
    case _ => DecodeErrorResync
  }

  /** Total frame length announced by a header. */
  function Announced(header: seq<byte>): nat
    requires |header| >= HEADER_LEN
  {
    HEADER_LEN + FromBigEndian16(header[3], header[4]) + 3
  }

  /** The first item of the stream, unless it is still incomplete. */
  function Head(input: seq<byte>): (r: Option<Item>)
    ensures r.Some? ==> 0 < |r.value.bytes| <= |input| && r.value.bytes == input[..|r.value.bytes|]
  {
    if input == [] then None
    else if input[0] != SOH then Some(Dropped(input[..1], PreSohByte))
    else if |input| < HEADER_LEN then None
    else
      var total := Announced(input);
      if total > MAX_PACKET then Some(Dropped(input[..HEADER_LEN], PayloadTooLong))
      else if |input| < total then None
      else
        match Decode(input[..total])
        case Ok(p) => Some(Delivered(input[..total], p))
        case Err(e) => Some(Dropped(input[..total], ReasonOf(e)))
  }

  /** The bytes of an incomplete frame at the end of the stream. */
  function Rest(input: seq<byte>): seq<byte>
    decreases |input|
  {
    match Head(input)
    case None => input
    case Some(item) => Rest(input[|item.bytes|..])
  }

  function Items(input: seq<byte>): seq<Item>
    decreases |input|
  {
    match Head(input)
    case None => []
    case Some(item) => [item] + Items(input[|item.bytes|..])
  }

  function Flatten(items: seq<Item>): seq<byte> {
    if items == [] then [] else items[0].bytes + Flatten(items[1..])
  }

  function Packets(items: seq<Item>): seq<Packet> {
    if items == [] then []
    else (if items[0].Delivered? then [items[0].packet] else []) + Packets(items[1..])
  }

  function Reasons(items: seq<Item>): seq<ResyncReason> {
    if items == [] then []
    else (if items[0].Dropped? then [items[0].reason] else []) + Reasons(items[1..])
  }

  lemma AssocPackets(a: seq<Packet>, b: seq<Packet>, c: seq<Packet>)
    ensures a + (b + c) == (a + b) + c
  {
  }

  lemma {:induction false} PacketsConcat(a: seq<Item>, b: seq<Item>)
    ensures Packets(a + b) == Packets(a) + Packets(b)
  {
    if a == [] {
      assert a + b == b;
    } else {
      PacketsConcat(a[1..], b);
      assert (a + b)[1..] == a[1..] + b;
      AssocPackets(if a[0].Delivered? then [a[0].packet] else [], Packets(a[1..]), Packets(b));
    }
  }

  lemma {:induction false} ReasonsConcat(a: seq<Item>, b: seq<Item>)
    ensures Reasons(a + b) == Reasons(a) + Reasons(b)
  {
    if a == [] {
      assert a + b == b;
    } else {
      ReasonsConcat(a[1..], b);
      assert (a + b)[1..] == a[1..] + b;
      AssocEvents(if a[0].Dropped? then [a[0].reason] else [], Reasons(a[1..]), Reasons(b));
    }
  }

  // ------------------------------------------------------------ the reassembler

  /** Bytes from the parallel port; `None` is a receive error. */
  class ByteSource {
    const input: seq<Option<byte>>
    var pos: nat

    constructor (input: seq<Option<byte>>)
      ensures this.input == input && pos == 0
    {
      this.input := input;
      pos := 0;
    }

    predicate Valid()
      reads this
    {
      pos <= |input|
    }

    /** What is still to be read, errors read as zero. */
    ghost function Remaining(): (s: seq<byte>)
      requires Valid()
      reads this
      ensures |s| == |input| - pos
    {
      seq(|input| - pos, i requires 0 <= i < |input| - pos && Valid() reads this =>
        OrZero(input[pos + i]))
    }

    /** `recv_byte().await.unwrap_or(0)`. */
    method Recv() returns (b: byte)
      requires Valid() && pos < |input|
      modifies this
      ensures Valid() && pos == old(pos) + 1
      ensures b == old(Remaining())[0] && Remaining() == old(Remaining())[1..]
    {
      b := OrZero(input[pos]);
      pos := pos + 1;
    }
  }

  function OrZero(b: Option<byte>): (r: byte)
    ensures b.None? ==> r == 0
  {
    match b
    case Some(v) => v
    case None => 0
  }

  /** The outcome of `next_packet` on a stream: events emitted, packet returned if the
      stream reaches one, bytes consumed. */
  datatype Pulled = Pulled(events: seq<ResyncReason>, packet: Option<Packet>, used: nat)

  function Pull(input: seq<byte>): (r: Pulled)
    ensures r.used <= |input|
    decreases |input|
  {
    match Head(input)
    case None => Pulled([], None, |input|)
    case Some(Delivered(bytes, p)) => Pulled([], Some(p), |bytes|)
    case Some(Dropped(bytes, reason)) =>
      var r := Pull(input[|bytes|..]);
      Pulled([reason] + r.events, r.packet, |bytes| + r.used)
  }

  /** What `next_packet` learns from one item. */
  function Summary(head: Option<Item>): Option<Result<Packet, ResyncReason>> {
    match head
    case None => None
    case Some(Delivered(_, p)) => Some(Ok(p))
    case Some(Dropped(_, reason)) => Some(Err(reason))
  }

  class PacketReassembler {
    const buf: array<byte>

    constructor ()
      ensures buf.Length == MAX_PACKET && fresh(buf)
    {
      buf := new byte[MAX_PACKET](_ => 0);
    }

    /** Read `n` bytes into the buffer from index `from`; fails if the input runs dry. */
    method Fill(src: ByteSource, from: nat, n: nat) returns (complete: bool)
      requires src.Valid() && from + n <= buf.Length
      modifies src, buf
      ensures src.Valid()
      ensures complete <==> |old(src.Remaining())| >= n
      ensures complete ==> src.Remaining() == old(src.Remaining())[n..]
      ensures complete ==> buf[..from + n] == old(buf[..from]) + old(src.Remaining())[..n]
      ensures !complete ==> src.Remaining() == []
    {
      ghost var input := src.Remaining();
      for i := 0 to n
        invariant src.Valid() && i <= |input|
        invariant src.Remaining() == input[i..]
        invariant buf[..from + i] == old(buf[..from]) + input[..i]
      {
        if src.pos == |src.input| {
          return false;
        }
        var b := src.Recv();
        buf[from + i] := b;
        assert buf[..from + i + 1] == buf[..from + i] + [b];
        assert input[..i + 1] == input[..i] + [input[i]];
      }
      return true;
    }

    /** The body of `next_packet`'s loop: consume one item of the stream. */
    method NextItem(src: ByteSource) returns (r: Option<Result<Packet, ResyncReason>>)
      requires src.Valid() && buf.Length == MAX_PACKET
      modifies src, buf
      ensures src.Valid()
      ensures r == Summary(Head(old(src.Remaining())))
      ensures r.Some? ==>
                src.Remaining() == old(src.Remaining())[|Head(old(src.Remaining())).value.bytes|..]
      ensures r.None? ==> src.Remaining() == []
    {
      hide Decode, Head, Announced, OrZero, FromBigEndian16;
      ghost var here := src.Remaining();
      if src.pos == |src.input| {
        HeadOfNothing(here);
        return None;
      }
      var b := src.Recv();
      HeadCases(here);
      if b != SOH {
        return Some(Err(PreSohByte));
      }
      buf[0] := SOH;
      assert buf[..1] == here[..1];
      var complete := Fill(src, 1, HEADER_LEN - 1);
      if !complete {
        return None;
      }
      assert here[..HEADER_LEN] == here[..1] + here[1..][..HEADER_LEN - 1];
      r := Framed(src, here);
    }

    /** The rest of a frame whose header is in the buffer. */
    method Framed(src: ByteSource, ghost here: seq<byte>) returns (r: Option<Result<Packet, ResyncReason>>)
      requires src.Valid() && buf.Length == MAX_PACKET && |here| >= HEADER_LEN && here[0] == SOH
      requires buf[..HEADER_LEN] == here[..HEADER_LEN] && src.Remaining() == here[HEADER_LEN..]
      modifies src, buf
      ensures src.Valid() && r == Summary(Head(here))
      ensures r.Some? ==> src.Remaining() == here[|Head(here).value.bytes|..]
      ensures r.None? ==> src.Remaining() == []
    {
      hide Decode, Head, Announced, OrZero, FromBigEndian16;
      HeadCases(here);
      assert buf[3] == here[..HEADER_LEN][3] && buf[4] == here[..HEADER_LEN][4];
      var payloadLen := FromBigEndian16(buf[3], buf[4]);
      var total := HEADER_LEN + payloadLen + 3;
      if total > MAX_PACKET {
        return Some(Err(PayloadTooLong));
      }
      var complete := Fill(src, HEADER_LEN, total - HEADER_LEN);
      if !complete {
        return None;
      }
      assert here[..total] == here[..HEADER_LEN] + here[HEADER_LEN..][..total - HEADER_LEN];
      match Decode(buf[..total]) {
        case Ok(p) => return Some(Ok(p));
        case Err(BadCrc) => return Some(Err(BadCrcResync));
        case Err(BadEtx) => return Some(Err(BadEtxResync));
        case Err(_) => return Some(Err(DecodeErrorResync));
      }
    }

    method NextPacket(src: ByteSource) returns (r: Option<Packet>, events: seq<ResyncReason>)
      requires src.Valid() && buf.Length == MAX_PACKET
      modifies src, buf
      ensures src.Valid()
      ensures var pulled := Pull(old(src.Remaining()));
              r == pulled.packet && events == pulled.events
              && src.Remaining() == old(src.Remaining())[pulled.used..]
    {
      hide Head, Decode, OrZero, Pull, SoFar;
      events := [];
      ghost var start, done := src.Remaining(), 0;
      SoFarNothing(start);
      while true
        invariant src.Valid() && done <= |start| && src.Remaining() == start[done..]
        invariant SoFar(start, events, done)
        decreases |start| - done
      {
        Onward(start, events, done);
        var item := NextItem(src);
        match item {
          case None =>
            return None, events;
          case Some(Ok(p)) =>
            return Some(p), events;
          case Some(Err(reason)) =>
            ghost var n := |Head(start[done..]).value.bytes|;
            assert start[done..][n..] == start[done + n..];
            events := events + [reason];
            done := done + n;
        }
      }
    }
  }

  /** What is still to come, after `events` and `done` bytes, completes the outcome. */
  ghost predicate SoFar(start: seq<byte>, events: seq<ResyncReason>, done: nat)
    requires done <= |start|
  {
    var rest := Pull(start[done..]);
    Pull(start) == Pulled(events + rest.events, rest.packet, done + rest.used)
  }

  lemma SoFarNothing(start: seq<byte>)
    ensures SoFar(start, [], 0)
  {
    hide Pull;
    assert start[0..] == start;
  }

  /** One more item. */
  lemma Onward(start: seq<byte>, events: seq<ResyncReason>, done: nat)
    requires done <= |start| && SoFar(start, events, done)
    ensures var head := Head(start[done..]);
            if head.None? then Pull(start) == Pulled(events, None, |start|)
            else var n := |head.value.bytes|;
                 done + n <= |start|
                 && (head.value.Delivered? ==> Pull(start) == Pulled(events, Some(head.value.packet), done + n))
                 && (head.value.Dropped? ==> SoFar(start, events + [head.value.reason], done + n))
  {
    var todo := start[done..];
    PullStep(todo);
    hide Head, Pull;
    if Head(todo).Some? {
      var n := |Head(todo).value.bytes|;
      assert todo[n..] == start[done + n..];
      if Head(todo).value.Dropped? {
        AssocEvents(events, [Head(todo).value.reason], Pull(todo[n..]).events);
      }
    }
  }

  lemma AssocEvents(a: seq<ResyncReason>, b: seq<ResyncReason>, c: seq<ResyncReason>)
    ensures a + (b + c) == (a + b) + c
  {
  }

  lemma HeadOfNothing(input: seq<byte>)
    requires |input| == 0
    ensures Head(input) == None
  {
  }

  /** `Head`, case by case. */
  lemma HeadCases(input: seq<byte>)
    requires input != []
    ensures input[0] != SOH ==> Head(input) == Some(Dropped(input[..1], PreSohByte))
    ensures input[0] == SOH && |input| < HEADER_LEN ==> Head(input) == None
    ensures input[0] == SOH && |input| >= HEADER_LEN ==>
              var total := HEADER_LEN + FromBigEndian16(input[3], input[4]) + 3;
              if total > MAX_PACKET then Head(input) == Some(Dropped(input[..HEADER_LEN], PayloadTooLong))
              else if |input| < total then Head(input) == None
              else Head(input) == match Decode(input[..total])
                                  case Ok(p) => Some(Delivered(input[..total], p))
                                  case Err(e) => Some(Dropped(input[..total], ReasonOf(e)))
  {
    hide Decode, FromBigEndian16;
  }

  lemma PullStep(input: seq<byte>)
    ensures Head(input) == None ==> Pull(input) == Pulled([], None, |input|)
    ensures Head(input) != None && Head(input).value.Delivered? ==>
              Pull(input) == Pulled([], Some(Head(input).value.packet), |Head(input).value.bytes|)
    ensures Head(input) != None && Head(input).value.Dropped? ==>
              var n := |Head(input).value.bytes|;
              var r := Pull(input[n..]);
              Pull(input) == Pulled([Head(input).value.reason] + r.events, r.packet, n + r.used)
  {
    hide Head;
  }

  lemma ItemsStep(input: seq<byte>)
    requires Head(input).Some?
    ensures var item := Head(input).value;
            var tail := input[|item.bytes|..];
            Items(input) == [item] + Items(tail)
            && Rest(input) == Rest(tail)
            && Packets(Items(input)) == (if item.Delivered? then [item.packet] else []) + Packets(Items(tail))
            && Reasons(Items(input)) == (if item.Dropped? then [item.reason] else []) + Reasons(Items(tail))
  {
    hide Head;
    assert Items(input)[1..] == Items(input[|Head(input).value.bytes|..]);
  }

  /** Calling `next_packet` over and over enumerates the items of the stream. */
  lemma {:induction false} PullsEnumerateItems(input: seq<byte>)
    ensures Pull(input).packet == None ==>
              Packets(Items(input)) == [] && Reasons(Items(input)) == Pull(input).events
    ensures Pull(input).packet != None ==>
              Packets(Items(input)) == [Pull(input).packet.value] + Packets(Items(input[Pull(input).used..]))
    ensures Pull(input).packet != None ==>
              Reasons(Items(input)) == Pull(input).events + Reasons(Items(input[Pull(input).used..]))
    decreases |input|
  {
    hide Head;
    match Head(input)
    case None =>
    case Some(item) =>
      ItemsStep(input);
      if item.Dropped? {
        var tail := input[|item.bytes|..];
        PullsEnumerateItems(tail);
        assert input[Pull(input).used..] == tail[Pull(tail).used..];
      }
  }

  // --------------------------------------------------------------- the guarantees

  lemma BytesRegroup(a: seq<byte>, b: seq<byte>, c: seq<byte>)
    ensures (a + b) + c == a + (b + c)
  {
  }

  /** No byte is lost or used twice: the items and the unfinished rest spell the input. */
  lemma {:induction false} BytesConserved(input: seq<byte>)
    ensures Flatten(Items(input)) + Rest(input) == input
    decreases |input|
  {
    hide Head;
    match Head(input)
    case None =>
    case Some(item) =>
      var tail := input[|item.bytes|..];
      BytesConserved(tail);
      assert Items(input)[1..] == Items(tail);
      assert Flatten(Items(input)) == item.bytes + Flatten(Items(tail));
      BytesRegroup(item.bytes, Flatten(Items(tail)), Rest(tail));
      assert input == item.bytes + tail;
  }

  /** Only whole, correct frames are delivered, and what is dropped is dropped for the reason
      given: a byte that is not SOH, a header announcing over 248 bytes, a complete frame
      without ETX, or a complete frame with a residue.  The generic reason never occurs. */
  lemma {:induction false} ItemsAreSound(input: seq<byte>, i: nat)
    requires i < |Items(input)|
    ensures Sound(Items(input)[i])
    decreases |input|
  {
    hide Head, Sound;
    var item := Head(input).value;
    ItemsStep(input);
    HeadIsSound(input);
    if i > 0 {
      ItemsAreSound(input[|item.bytes|..], i - 1);
    }
  }

  predicate Sound(item: Item) {
    match item
    case Delivered(bytes, p) => p.Fits() && bytes == Frame(p)
    case Dropped(bytes, reason) =>
      reason != DecodeErrorResync && bytes != []
      && (reason == PreSohByte <==> bytes[0] != 0x01)
      && (reason == PayloadTooLong <==> |bytes| == 5 && bytes[0] == 0x01 && Spelt(bytes[3..5]) > 248)
      && (reason == BadEtxResync <==> Complete(bytes) && bytes[|bytes| - 1] != 0x03)
      && (reason == BadCrcResync <==>
            Complete(bytes) && bytes[|bytes| - 1] == 0x03 && Crc16.Update(0xFFFF, bytes[1..|bytes| - 1]) != 0)
  }

  lemma HeadIsSound(input: seq<byte>)
    requires Head(input).Some?
    ensures Sound(Head(input).value)
  {
    hide Decode, Head, Spelt, FromBigEndian16, Crc16.Update, Frame;
    HeadCases(input);
    if input[0] == SOH {
      LengthSpelt(input);
      var total := HEADER_LEN + FromBigEndian16(input[3], input[4]) + 3;
      if total > MAX_PACKET {
        assert input[..HEADER_LEN][3..5] == input[3..5];
      } else {
        var frame := input[..total];
        assert frame[3..5] == input[3..5];
        DecodeErrors(frame);
        if Decode(frame).Ok? {
          DecodedIsFrame(frame);
        }
      }
    }
  }

  lemma HeadStable(a: seq<byte>, b: seq<byte>)
    requires Head(a).Some?
    ensures Head(a + b) == Head(a)
  {
    assert (a + b)[..1] == a[..1];
    if a[0] == SOH {
      assert (a + b)[..HEADER_LEN] == a[..HEADER_LEN];
      if Announced(a) <= MAX_PACKET {
        assert (a + b)[..Announced(a)] == a[..Announced(a)];
      }
    }
  }

  /** Reading on never changes what was already recognised. */
  lemma {:induction false} StreamConcat(a: seq<byte>, b: seq<byte>)
    ensures Items(a + b) == Items(a) + Items(Rest(a) + b)
    ensures Rest(a + b) == Rest(Rest(a) + b)
    decreases |a|
  {
    hide *;
    match Head(a)
    case None =>
      NothingYet(a);
    case Some(item) =>
      HeadStable(a, b);
      var tail := a[|item.bytes|..];
      assert (a + b)[|item.bytes|..] == tail + b;
      StreamConcat(tail, b);
      ItemsStep(a);
      ItemsStep(a + b);
      assert ([item] + Items(tail)) + Items(Rest(tail) + b) == [item] + (Items(tail) + Items(Rest(tail) + b));
  }

  lemma NothingYet(a: seq<byte>)
    requires Head(a) == None
    ensures Items(a) == [] && Rest(a) == a
  {
  }

  lemma HeadOfFrame(p: Packet)
    requires p.Fits()
    ensures Head(Frame(p)) == Some(Delivered(Frame(p), p))
    ensures Rest(Frame(p)) == []
    ensures Packets(Items(Frame(p))) == [p] && Reasons(Items(Frame(p))) == []
  {
    HeadIsDelivered(p);
    hide Head, Frame;
    var f := Frame(p);
    assert f[|f|..] == [];
    ItemsStep(f);
    assert Items([]) == [];
  }

  lemma HeadIsDelivered(p: Packet)
    requires p.Fits()
    ensures Head(Frame(p)) == Some(Delivered(Frame(p), p))
  {
    hide Decode, Crc16.Checksum;
    var f := Frame(p);
    DecodeOfFrame(p);
    assert f[3] == Covered(p)[2] && f[4] == Covered(p)[3];
    assert f[..|f|] == f;
  }

  predicate NoSoh(s: seq<byte>) {
    forall i :: 0 <= i < |s| ==> s[i] != SOH
  }

  lemma {:induction false} NoiseItems(noise: seq<byte>)
    requires NoSoh(noise)
    ensures Rest(noise) == [] && Packets(Items(noise)) == []
    ensures Reasons(Items(noise)) == seq(|noise|, _ => PreSohByte)
    decreases |noise|
  {
    if noise != [] {
      NoiseItems(noise[1..]);
      assert Items(noise)[1..] == Items(noise[1..]);
    }
  }

  /** Frames with SOH-free noise around them. */
  datatype Burst = Burst(noise: seq<byte>, packet: Packet)

  function Wire(bursts: seq<Burst>): seq<byte>
    requires forall i :: 0 <= i < |bursts| ==> bursts[i].packet.Fits()
  {
    if bursts == [] then []
    else bursts[0].noise + Frame(bursts[0].packet) + Wire(bursts[1..])
  }

  function Sent(bursts: seq<Burst>): (ps: seq<Packet>)
    ensures |ps| == |bursts|
  {
    seq(|bursts|, i requires 0 <= i < |bursts| => bursts[i].packet)
  }

  function NoiseCount(bursts: seq<Burst>): nat {
    if bursts == [] then 0 else |bursts[0].noise| + NoiseCount(bursts[1..])
  }

  /** One stretch of noise and one frame in front of anything else. */
  lemma NoiseThenFrame(noise: seq<byte>, p: Packet, rest: seq<byte>)
    requires p.Fits() && NoSoh(noise)
    ensures Rest(noise + Frame(p) + rest) == Rest(rest)
    ensures Packets(Items(noise + Frame(p) + rest)) == [p] + Packets(Items(rest))
    ensures Reasons(Items(noise + Frame(p) + rest)) == seq(|noise|, _ => PreSohByte) + Reasons(Items(rest))
  {
    hide *;
    var f := Frame(p);
    NoiseItems(noise);
    HeadOfFrame(p);
    StreamConcat(f, rest);
    assert [] + rest == rest;
    StreamConcat(noise, f + rest);
    assert [] + (f + rest) == f + rest;
    assert noise + f + rest == noise + (f + rest);
    PacketsConcat(Items(f), Items(rest));
    PacketsConcat(Items(noise), Items(f + rest));
    ReasonsConcat(Items(f), Items(rest));
    ReasonsConcat(Items(noise), Items(f + rest));
  }

  /** Frames separated by SOH-free noise all arrive, in order, with exactly one event per
      noise byte and no other. */
  lemma {:induction false} CleanDelivery(bursts: seq<Burst>)
    requires forall i :: 0 <= i < |bursts| ==> bursts[i].packet.Fits() && NoSoh(bursts[i].noise)
    ensures Rest(Wire(bursts)) == []
    ensures Packets(Items(Wire(bursts))) == Sent(bursts)
    ensures Reasons(Items(Wire(bursts))) == seq(NoiseCount(bursts), _ => PreSohByte)
  {
    hide Head, Frame;
    if bursts != [] {
      CleanDelivery(bursts[1..]);
      NoiseThenFrame(bursts[0].noise, bursts[0].packet, Wire(bursts[1..]));
    }
  }

  /** An unfinished frame starts with SOH and is shorter than the longest packet. */
  lemma {:induction false} RestIsShort(input: seq<byte>)
    ensures |Rest(input)| < MAX_PACKET
    ensures Rest(input) != [] ==> Rest(input)[0] == SOH
    ensures |Rest(input)| <= |input| && Rest(input) == input[|input| - |Rest(input)|..]
    decreases |input|
  {
    hide Decode, FromBigEndian16;
    match Head(input)
    case None =>
    case Some(item) =>
      RestIsShort(input[|item.bytes|..]);
  }

  lemma SohInGarbage(garbage: seq<byte>, quiet: seq<byte>, n: nat)
    requires NoSoh(quiet) && n < |garbage + quiet| && (garbage + quiet)[n] == SOH
    ensures n < |garbage|
  {
  }

  /** Whatever came before, 255 bytes without SOH bring the reassembler back to the start of
      a frame: what follows is read as if nothing had come before it. */
  lemma ResyncAfterQuiet(garbage: seq<byte>, quiet: seq<byte>, later: seq<byte>)
    requires NoSoh(quiet) && |quiet| >= 255
    ensures Items(garbage + quiet + later) == Items(garbage + quiet) + Items(later)
    ensures Rest(garbage + quiet + later) == Rest(later)
  {
    hide Head;
    var before := garbage + quiet;
    RestIsShort(before);
    var n := |before| - |Rest(before)|;
    if n < |before| {
      SohInGarbage(garbage, quiet, n);
    }
    StreamConcat(before, later);
    assert [] + later == later;
  }

  /** In particular every frame after the quiet stretch is delivered. */
  lemma FramesAfterQuiet(garbage: seq<byte>, quiet: seq<byte>, bursts: seq<Burst>)
    requires NoSoh(quiet) && |quiet| >= 255
    requires forall i :: 0 <= i < |bursts| ==> bursts[i].packet.Fits() && NoSoh(bursts[i].noise)
    ensures Packets(Items(garbage + quiet + Wire(bursts))) == Packets(Items(garbage + quiet)) + Sent(bursts)
  {
    hide Head, Frame;
    ResyncAfterQuiet(garbage, quiet, Wire(bursts));
    CleanDelivery(bursts);
    PacketsConcat(Items(garbage + quiet), Items(Wire(bursts)));
  }

  /** 255 cannot be lowered: a lone SOH can swallow 254 quiet bytes and then the SOH of a
      perfectly good frame. */
  lemma QuietBoundIsTight(quiet: seq<byte>, p: Packet)
    requires |quiet| == 254 && NoSoh(quiet) && p.Fits()
    requires FromBigEndian16(quiet[2], quiet[3]) == MAX_PAYLOAD
    ensures Head([SOH] + quiet + Frame(p)) == Some(Dropped([SOH] + quiet + [SOH], BadEtxResync))
  {
    var s := [SOH] + quiet + Frame(p);
    assert s[3] == quiet[2] && s[4] == quiet[3];
    assert s[..MAX_PACKET] == [SOH] + quiet + [SOH];
  }
}
