/** The SPP nibble channel is self-clocking: the sender (firmware/src/lpt/pio_nibble_out.rs)
    toggles the phase line with every nibble, and a receiver that keeps its last phase
    (docs/stage0_design.md:196-216, dos/stage0/lpt_nibble.inc:134-200) recovers the bytes
    however it polls. */
module Nibble {
  import opened Wrappers
  import opened Bytes
  import opened Packet

  const MAX_BATCH_BYTES: nat := 256

  // ------------------------------------------------------------ the sender

  /** The five output pins, from GP23 up: nAck, Busy, PError, Select, nFault. */
  function PackNibble(nibble: bv8, phase: bool): bv8 {
    ((nibble >> 3) & 1)
    | ((if phase then 1 else 0) << 1)
    | (((nibble >> 2) & 1) << 2)
    | (((nibble >> 1) & 1) << 3)
    | ((nibble & 1) << 4)
  }

  function Low(b: byte): bv8 { b & 0x0F }

  function High(b: byte): bv8 { (b >> 4) & 0x0F }

  function PackByte(b: byte): bv32 {
    var lo := PackNibble(Low(b), true) as bv32;
    var hi := PackNibble(High(b), false) as bv32;
    lo | (hi << 5)
  }

  function PackAll(bytes: seq<byte>): (words: seq<bv32>)
    ensures |words| == |bytes|
  {
    seq(|bytes|, i requires 0 <= i < |bytes| => PackByte(bytes[i]))
  }

  /** The words handed to the DMA in one batch. */
  method SendBytes(bytes: seq<byte>) returns (batch: seq<bv32>)
    requires |bytes| <= MAX_BATCH_BYTES
    ensures batch == PackAll(bytes)
  {
    hide PackByte;
    var words := new bv32[MAX_BATCH_BYTES](_ => 0);
    var i := 0;
    while i < |bytes|
      invariant 0 <= i <= |bytes|
      invariant forall k :: 0 <= k < i ==> words[k] == PackByte(bytes[k])
    {
      words[i] := PackByte(bytes[i]);
      i := i + 1;
    }
    return words[..|bytes|];
  }

  function FirstPins(word: bv32): bv8 { (word & 0x1F) as bv8 }

  function ThenPins(word: bv32): bv8 { ((word >> 5) & 0x1F) as bv8 }

  /** The pin patterns of a word, in order: the low five bits, then the next five. */
  function Patterns(words: seq<bv32>): (ps: seq<bv8>)
    ensures |ps| == 2 * |words|
  {
    if words == [] then []
    else [FirstPins(words[0]), ThenPins(words[0])] + Patterns(words[1..])
  }

  // ------------------------------------------------------------ the wire

  /** The status register for a pin pattern: nAck is bit 6, Busy bit 7 (which the port may
      invert), PError bit 5, Select bit 4, nFault bit 3. */
  function Status(pins: bv8, inverted: bool): bv8 {
    (((pins & 1) << 6)
     | (((pins >> 1) & 1) << 7)
     | (((pins >> 2) & 1) << 5)
     | (((pins >> 3) & 1) << 4)
     | (((pins >> 4) & 1) << 3))
    ^ (if inverted then 0x80 else 0)
  }

  /** Each pattern is read `counts[i]` times. */
  function Polled(ps: seq<bv8>, counts: seq<nat>, inverted: bool): seq<bv8>
    requires |ps| == |counts|
  {
    if ps == [] then []
    else seq(counts[0], _ => Status(ps[0], inverted)) + Polled(ps[1..], counts[1..], inverted)
  }

  // ------------------------------------------------------------ the receiver

  predicate Phase(status: bv8) { status & 0x80 != 0 }

  function Payload(status: bv8): bv8 { ((status & 0x78) >> 3) & 0x0F }

  /** Nibbles taken from a sequence of status reads, and the phase kept for the next one:
      each time the phase differs from the one kept, commit it and take the nibble. */
  function Received(last: bool, polls: seq<bv8>): (seq<bv8>, bool)
    decreases |polls|
  {
    if polls == [] then ([], last)
    else if Phase(polls[0]) == last then Received(last, polls[1..])
    else
      var (rest, final) := Received(Phase(polls[0]), polls[1..]);
      ([Payload(polls[0])] + rest, final)
  }

  /** The same with the assembly's debounce: a changed phase must still be there in a second
      read, whose nibble is taken. */
  function Debounced(last: bool, polls: seq<bv8>): (seq<bv8>, bool)
    decreases |polls|
  {
    if polls == [] then ([], last)
    else if Phase(polls[0]) == last then Debounced(last, polls[1..])
    else if |polls| == 1 then ([], last)
    else if Phase(polls[1]) == last then Debounced(last, polls[2..])
    else
      var (rest, final) := Debounced(Phase(polls[1]), polls[2..]);
      ([Payload(polls[1])] + rest, final)
  }

  /** Low nibble first. */
  function Paired(ns: seq<bv8>): seq<byte>
    decreases |ns|
  {
    if |ns| < 2 then [] else [(ns[1] << 4) | ns[0]] + Paired(ns[2..])
  }

  // ------------------------------------------------------------ one pattern

  lemma NibbleReads(n: bv8, phase: bool, inverted: bool)
    requires n <= 0x0F
    ensures PackNibble(n, phase) <= 0x1F
    ensures Payload(Status(PackNibble(n, phase), inverted)) == n
    ensures Phase(Status(PackNibble(n, phase), inverted)) == (phase != inverted)
  {
  }

  lemma ByteNibbles(b: byte)
    ensures Low(b) <= 0x0F && High(b) <= 0x0F
    ensures (High(b) << 4) | Low(b) == b
  {
  }

  lemma WordSplits(lo: bv8, hi: bv8)
    requires lo <= 0x1F && hi <= 0x1F
    ensures var w := (lo as bv32) | ((hi as bv32) << 5); FirstPins(w) == lo && ThenPins(w) == hi
  {
  }

  /** A byte's word puts two patterns on the pins: low nibble with phase high, high nibble
      with phase low. */
  lemma BytePatterns(b: byte)
    ensures FirstPins(PackByte(b)) == PackNibble(Low(b), true)
    ensures ThenPins(PackByte(b)) == PackNibble(High(b), false)
  {
    ByteNibbles(b);
    NibbleReads(Low(b), true, false);
    NibbleReads(High(b), false, false);
    hide PackNibble, Status, Payload, Phase, Low, High, FirstPins, ThenPins;
    WordSplits(PackNibble(Low(b), true), PackNibble(High(b), false));
  }

  function Repeat(status: bv8, n: nat): (r: seq<bv8>)
    ensures |r| == n
  {
    seq(n, _ => status)
  }

  lemma {:induction false} SamePhaseIgnored(last: bool, status: bv8, n: nat, rest: seq<bv8>)
    requires Phase(status) == last
    ensures Received(last, Repeat(status, n) + rest) == Received(last, rest)
    ensures Debounced(last, Repeat(status, n) + rest) == Debounced(last, rest)
  {
    hide Phase, Payload;
    var polls := Repeat(status, n) + rest;
    if n == 0 {
      assert polls == rest;
    } else {
      assert polls[0] == status && polls[1..] == Repeat(status, n - 1) + rest;
      SamePhaseIgnored(last, status, n - 1, rest);
    }
  }

  /** A new phase gives its nibble exactly once, however often it is read. */
  lemma NewPhaseTaken(last: bool, status: bv8, n: nat, rest: seq<bv8>)
    requires Phase(status) != last
    ensures n >= 1 ==>
              Received(last, Repeat(status, n) + rest)
              == ([Payload(status)] + Received(!last, rest).0, Received(!last, rest).1)
    ensures n >= 2 ==>
              Debounced(last, Repeat(status, n) + rest)
              == ([Payload(status)] + Debounced(!last, rest).0, Debounced(!last, rest).1)
  {
    hide Phase, Payload;
    var polls := Repeat(status, n) + rest;
    if n >= 1 {
      assert polls[0] == status && polls[1..] == Repeat(status, n - 1) + rest;
      SamePhaseIgnored(!last, status, n - 1, rest);
    }
    if n >= 2 {
      assert polls[1] == status && polls[2..] == Repeat(status, n - 2) + rest;
      SamePhaseIgnored(!last, status, n - 2, rest);
    }
  }

  // ------------------------------------------------------------ the channel

  ghost predicate AtLeast(counts: seq<nat>, n: nat) {
    forall i :: 0 <= i < |counts| ==> counts[i] >= n
  }

  /** Nibbles of the bytes, low first. */
  function NibblesOf(bytes: seq<byte>): seq<bv8> {
    if bytes == [] then []
    else [Low(bytes[0]), High(bytes[0])] + NibblesOf(bytes[1..])
  }

  lemma PairedByte(b: byte, ns: seq<bv8>)
    ensures Paired([Low(b), High(b)] + ns) == [b] + Paired(ns)
  {
    ByteNibbles(b);
    assert ([Low(b), High(b)] + ns)[2..] == ns;
    hide Low, High;
  }

  lemma {:induction false} PairedNibbles(bytes: seq<byte>)
    ensures Paired(NibblesOf(bytes)) == bytes
    decreases |bytes|
  {
    if bytes != [] {
      hide Paired, Low, High;
      PairedNibbles(bytes[1..]);
      PairedByte(bytes[0], NibblesOf(bytes[1..]));
      assert [bytes[0]] + bytes[1..] == bytes;
    }
  }

  lemma PatternsFirst(b: byte, words: seq<bv32>)
    ensures Patterns([PackByte(b)] + words)
         == [PackNibble(Low(b), true)] + ([PackNibble(High(b), false)] + Patterns(words))
  {
    BytePatterns(b);
    hide PackByte, PackNibble, Low, High, FirstPins, ThenPins;
    assert ([PackByte(b)] + words)[1..] == words;
  }

  lemma PolledFirst(p: bv8, ps: seq<bv8>, counts: seq<nat>, inverted: bool)
    requires |counts| == 1 + |ps|
    ensures Polled([p] + ps, counts, inverted)
         == Repeat(Status(p, inverted), counts[0]) + Polled(ps, counts[1..], inverted)
  {
    hide Status;
    assert ([p] + ps)[1..] == ps;
  }

  /** The reads of the two patterns of one byte, and the rest. */
  lemma PolledByte(b: byte, words: seq<bv32>, counts: seq<nat>, inverted: bool)
    requires |counts| == 2 + 2 * |words|
    ensures var lo, hi := PackNibble(Low(b), true), PackNibble(High(b), false);
            Polled(Patterns([PackByte(b)] + words), counts, inverted)
            == Repeat(Status(lo, inverted), counts[0])
               + (Repeat(Status(hi, inverted), counts[1]) + Polled(Patterns(words), counts[2..], inverted))
  {
    hide *;
    var lo, hi := PackNibble(Low(b), true), PackNibble(High(b), false);
    PatternsFirst(b, words);
    PolledFirst(lo, [hi] + Patterns(words), counts, inverted);
    PolledFirst(hi, Patterns(words), counts[1..], inverted);
    assert counts[1..][1..] == counts[2..];
  }

  /** One byte's reads give its two nibbles and leave the phase where it was. */
  lemma ByteReceived(b: byte, m: nat, n: nat, rest: seq<bv8>, inverted: bool)
    requires m >= 1 && n >= 1
    ensures var lo, hi := Status(PackNibble(Low(b), true), inverted), Status(PackNibble(High(b), false), inverted);
            var polls := Repeat(lo, m) + (Repeat(hi, n) + rest);
            Received(inverted, polls)
            == ([Low(b)] + ([High(b)] + Received(inverted, rest).0), Received(inverted, rest).1)
            && (m >= 2 && n >= 2 ==>
                  Debounced(inverted, polls)
                  == ([Low(b)] + ([High(b)] + Debounced(inverted, rest).0), Debounced(inverted, rest).1))
  {
    hide *;
    ByteNibbles(b);
    NibbleReads(Low(b), true, inverted);
    NibbleReads(High(b), false, inverted);
    var lo, hi := Status(PackNibble(Low(b), true), inverted), Status(PackNibble(High(b), false), inverted);
    NewPhaseTaken(inverted, lo, m, Repeat(hi, n) + rest);
    NewPhaseTaken(!inverted, hi, n, rest);
  }

  lemma FirstNibbles(bytes: seq<byte>)
    requires bytes != []
    ensures NibblesOf(bytes) == [Low(bytes[0])] + ([High(bytes[0])] + NibblesOf(bytes[1..]))
  {
    hide PackByte, Low, High;
  }

  lemma FirstWord(bytes: seq<byte>)
    requires bytes != []
    ensures PackAll(bytes) == [PackByte(bytes[0])] + PackAll(bytes[1..])
  {
    hide PackByte, Low, High;
  }

  lemma NothingPolled(bytes: seq<byte>, counts: seq<nat>, inverted: bool)
    requires bytes == [] && counts == []
    ensures Polled(Patterns(PackAll(bytes)), counts, inverted) == [] && NibblesOf(bytes) == []
    ensures Received(inverted, []) == ([], inverted) && Debounced(inverted, []) == ([], inverted)
  {
  }

  lemma AtLeastRest(counts: seq<nat>, n: nat)
    requires |counts| >= 2
    ensures AtLeast(counts, n) ==> counts[0] >= n && counts[1] >= n && AtLeast(counts[2..], n)
  {
  }

  /** With the phase at rest, every schedule that reads each pattern (twice, for the
      debounced receiver) gives exactly the bytes' nibbles and ends with the phase at rest. */
  lemma {:induction false} NibblesRecovered(bytes: seq<byte>, counts: seq<nat>, inverted: bool)
    requires |counts| == 2 * |bytes| && AtLeast(counts, 1)
    ensures Received(inverted, Polled(Patterns(PackAll(bytes)), counts, inverted)) == (NibblesOf(bytes), inverted)
    ensures AtLeast(counts, 2) ==>
              Debounced(inverted, Polled(Patterns(PackAll(bytes)), counts, inverted)) == (NibblesOf(bytes), inverted)
    decreases |bytes|
  {
    hide *;
    if bytes == [] {
      NothingPolled(bytes, counts, inverted);
    } else {
      var b, rest := bytes[0], bytes[1..];
      AtLeastRest(counts, 1);
      AtLeastRest(counts, 2);
      FirstNibbles(bytes);
      FirstWord(bytes);
      PolledByte(b, PackAll(rest), counts, inverted);
      NibblesRecovered(rest, counts[2..], inverted);
      ByteReceived(b, counts[0], counts[1], Polled(Patterns(PackAll(rest)), counts[2..], inverted), inverted);
    }
  }

  /** Every packet crosses the nibble channel: it fits one batch, and whatever the polling
      schedule, what the host assembles decodes to the packet, with the phase line back where
      it was. */
  lemma PacketCrosses(p: Packet, counts: seq<nat>, inverted: bool)
    requires p.Fits() && |counts| == 2 * |Frame(p)| && AtLeast(counts, 1)
    ensures |Frame(p)| <= MAX_BATCH_BYTES
    ensures var polls := Polled(Patterns(PackAll(Frame(p))), counts, inverted);
            Decode(Paired(Received(inverted, polls).0)) == Ok(p) && Received(inverted, polls).1 == inverted
  {
    hide Frame, PackByte, Decode;
    NibblesRecovered(Frame(p), counts, inverted);
    PairedNibbles(Frame(p));
    DecodeOfFrame(p);
  }

  // ------------------------------------------------------------ the debounce, exactly

  /** A pattern read only once before the line moves on is lost to the debounced receiver,
      and so is the next; the plain receiver takes both. */
  lemma OneReadIsLost(last: bool, lo: bv8, hi: bv8, more: nat, rest: seq<bv8>)
    requires Phase(lo) != last && Phase(hi) == last && more >= 1
    ensures var polls := [lo] + (Repeat(hi, more) + rest);
            Debounced(last, polls) == Debounced(last, rest)
            && Received(last, polls)
               == ([Payload(lo)] + ([Payload(hi)] + Received(last, rest).0), Received(last, rest).1)
  {
    hide Phase, Payload;
    var polls := [lo] + (Repeat(hi, more) + rest);
    assert polls[1..] == Repeat(hi, more) + rest;
    assert polls[1] == hi && polls[2..] == Repeat(hi, more - 1) + rest;
    SamePhaseIgnored(last, hi, more - 1, rest);
    NewPhaseTaken(!last, hi, more, rest);
  }

  /** The phase changes with every pattern, starting away from `last`. */
  ghost predicate Alternates(last: bool, ps: seq<bv8>, inverted: bool)
    decreases |ps|
  {
    ps != [] ==> Phase(Status(ps[0], inverted)) != last && Alternates(!last, ps[1..], inverted)
  }

  lemma AlternatesFirst(last: bool, ps: seq<bv8>, inverted: bool)
    requires Alternates(last, ps, inverted) && ps != []
    ensures Phase(Status(ps[0], inverted)) != last && Alternates(!last, ps[1..], inverted)
  {
  }

  lemma PolledRest(ps: seq<bv8>, counts: seq<nat>, inverted: bool)
    requires |ps| == |counts| > 0
    ensures Polled(ps, counts, inverted)
         == Repeat(Status(ps[0], inverted), counts[0]) + Polled(ps[1..], counts[1..], inverted)
  {
    hide Status;
    assert [ps[0]] + ps[1..] == ps;
    PolledFirst(ps[0], ps[1..], counts, inverted);
  }

  lemma NoPatterns(ps: seq<bv8>, counts: seq<nat>, last: bool, inverted: bool)
    requires ps == [] && counts == []
    ensures Polled(ps, counts, inverted) == [] && Debounced(last, []) == ([], last) && AtLeast(counts, 2)
  {
  }

  lemma LoneRead(last: bool, status: bv8)
    requires Phase(status) != last
    ensures Debounced(last, Repeat(status, 1) + []) == ([], last)
  {
    hide Phase, Payload;
    assert Repeat(status, 1) + [] == [status];
  }

  lemma AtLeastSplit(counts: seq<nat>, n: nat)
    requires counts != []
    ensures AtLeast(counts, n) <==> counts[0] >= n && AtLeast(counts[1..], n)
  {
  }

  /** The debounced receiver never takes more nibbles than there are patterns, and takes fewer
      if any pattern is read only once. */
  lemma {:induction false} DebouncedCount(last: bool, ps: seq<bv8>, counts: seq<nat>, inverted: bool)
    requires |ps| == |counts| && AtLeast(counts, 1) && Alternates(last, ps, inverted)
    ensures |Debounced(last, Polled(ps, counts, inverted)).0| <= |ps|
    ensures !AtLeast(counts, 2) ==> |Debounced(last, Polled(ps, counts, inverted)).0| < |ps|
    decreases |ps|
  {
    hide *;
    if ps == [] {
      NoPatterns(ps, counts, last, inverted);
    } else {
      var rest := Polled(ps[1..], counts[1..], inverted);
      var status := Status(ps[0], inverted);
      PolledRest(ps, counts, inverted);
      AlternatesFirst(last, ps, inverted);
      AtLeastSplit(counts, 1);
      AtLeastSplit(counts, 2);
      if counts[0] >= 2 {
        NewPhaseTaken(last, status, counts[0], rest);
        DebouncedCount(!last, ps[1..], counts[1..], inverted);
      } else if |ps| == 1 {
        NoPatterns(ps[1..], counts[1..], last, inverted);
        LoneRead(last, status);
      } else {
        PolledRest(ps[1..], counts[1..], inverted);
        AlternatesFirst(!last, ps[1..], inverted);
        AtLeastSplit(counts[1..], 1);
        assert ps[1..][1..] == ps[2..] && counts[1..][1..] == counts[2..];
        OnceIsSingle(status);
        OneReadIsLost(last, status, Status(ps[1], inverted), counts[1], Polled(ps[2..], counts[2..], inverted));
        DebouncedCount(last, ps[2..], counts[2..], inverted);
      }
    }
  }

  lemma OnceIsSingle(status: bv8)
    ensures Repeat(status, 1) == [status]
  {
  }

  lemma {:induction false} PatternsAlternate(bytes: seq<byte>, inverted: bool)
    ensures Alternates(inverted, Patterns(PackAll(bytes)), inverted)
    ensures |NibblesOf(bytes)| == 2 * |bytes|
    decreases |bytes|
  {
    hide PackByte, PackNibble, Status, Phase, Payload, Low, High;
    if bytes != [] {
      var b, rest := bytes[0], bytes[1..];
      FirstWord(bytes);
      FirstNibbles(bytes);
      PatternsFirst(b, PackAll(rest));
      PatternsAlternate(rest, inverted);
      ByteNibbles(b);
      NibbleReads(Low(b), true, inverted);
      NibbleReads(High(b), false, inverted);
      hide Patterns, PackAll, NibblesOf;
      var more := [PackNibble(High(b), false)] + Patterns(PackAll(rest));
      assert more[1..] == Patterns(PackAll(rest));
      assert ([PackNibble(Low(b), true)] + more)[1..] == more;
    }
  }

  lemma {:induction false} PairedLength(ns: seq<bv8>)
    ensures |Paired(ns)| == |ns| / 2
    decreases |ns|
  {
    if |ns| >= 2 {
      PairedLength(ns[2..]);
    }
  }

  /** The debounced receiver recovers the bytes if and only if every pattern is read at least
      twice. */
  lemma DebouncedIff(bytes: seq<byte>, counts: seq<nat>, inverted: bool)
    requires |counts| == 2 * |bytes| && AtLeast(counts, 1)
    ensures Paired(Debounced(inverted, Polled(Patterns(PackAll(bytes)), counts, inverted)).0) == bytes
            <==> AtLeast(counts, 2)
  {
    hide *;
    NibblesRecovered(bytes, counts, inverted);
    PairedNibbles(bytes);
    PatternsAlternate(bytes, inverted);
    DebouncedCount(inverted, Patterns(PackAll(bytes)), counts, inverted);
    PairedLength(Debounced(inverted, Polled(Patterns(PackAll(bytes)), counts, inverted)).0);
  }
}
