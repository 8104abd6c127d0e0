/** The DMA rings (firmware/src/ps2/ring_dma.rs, capacity 1024; firmware/src/lpt/ring_dma.rs,
    capacity 256) are FIFOs even though the producer writes between any two steps of the
    consumer. */
module Ring {
  import opened Wrappers

  const WORD_BYTES := 4

  // ------------------------------------------------------------ arithmetic of the wrap

  lemma MultipleAway(k: int, m: int)
    requires m > 0
    ensures k >= 1 ==> k * m >= m
    ensures k <= -1 ==> k * m <= -m
  {
  }

  lemma QuotientIs(x: nat, q: nat, r: nat, m: nat)
    requires r < m && x == q * m + r
    ensures x / m == q && x % m == r
  {
    var q', r' := x / m, x % m;
    assert x == m * q' + r';
    assert (q - q') * m == q * m - q' * m;
    MultipleAway(q - q', m);
  }

  /** Advancing one slot. */
  lemma NextSlot(n: nat, m: nat)
    requires m > 0
    ensures (n % m + 1) % m == (n + 1) % m
  {
    var q, r := n / m, n % m;
    assert n == q * m + r;
    if r + 1 < m {
      QuotientIs(n + 1, q, r + 1, m);
      QuotientIs(r + 1, 0, r + 1, m);
    } else {
      assert (q + 1) * m == q * m + m;
      QuotientIs(n + 1, q + 1, 0, m);
      QuotientIs(r + 1, 1, 0, m);
    }
  }

  lemma Spread(q: int, a: int, b: int, m: int)
    ensures (q - a + b + 1) * m == q * m - a * m + b * m + m
  {
  }

  /** The distance between two slots is the distance between the counts, modulo the ring. */
  lemma SlotDistance(p: nat, c: nat, m: nat)
    requires m > 0 && c <= p
    ensures (p % m + m - c % m) % m == (p - c) % m
  {
    var qp, rp, qc, rc := p / m, p % m, c / m, c % m;
    var q, r := (p - c) / m, (p - c) % m;
    assert p == qp * m + rp && c == qc * m + rc && p - c == q * m + r;
    var d := rp + m - rc;
    var k := q - qp + qc + 1;
    Spread(q, qp, qc, m);
    assert d == k * m + r;
    assert 0 < d < 2 * m;
    MultipleAway(k, m);
    QuotientIs(d, k, r, m);
  }

  /** Counts less than a lap apart use different slots. */
  lemma SlotsDistinct(i: nat, j: nat, m: nat)
    requires m > 0 && i < j < i + m
    ensures i % m != j % m
  {
    SlotDistance(j, i, m);
    QuotientIs(j - i, 0, j - i, m);
    if i % m == j % m {
      QuotientIs(m, 1, 0, m);
    }
  }

  // ------------------------------------------------------------ the producer

  /** One more word written over a ring that holds the last lap leaves it holding the last
      lap. */
  lemma LapAfter(ring: seq<bv32>, produced: seq<bv32>, w: bv32)
    requires |ring| > 1
    requires forall i :: 0 <= i < |produced| <= i + |ring| ==> ring[i % |ring|] == produced[i]
    ensures var after := ring[|produced| % |ring| := w];
            forall i :: 0 <= i <= |produced| < i + |ring| ==> after[i % |ring|] == (produced + [w])[i]
  {
    forall i | 0 <= i < |produced| < i + |ring| ensures i % |ring| != |produced| % |ring| {
      SlotsDistinct(i, |produced|, |ring|);
    }
  }

  lemma SlotAddress(base: nat, slot: nat)
    ensures (base + WORD_BYTES * slot - base) / WORD_BYTES == slot
  {
  }

  /** The DMA channel and the storage it writes; `produced` is every word so far. */
  class Dma {
    const capacity: nat
    const base: nat
    const words: array<bv32>
    var writeAddr: nat
    ghost var produced: seq<bv32>

    ghost predicate Valid()
      reads this, words
    {
      capacity > 1 && words.Length == capacity
      && writeAddr == base + WORD_BYTES * (|produced| % capacity)
      && forall i :: 0 <= i < |produced| <= i + capacity ==> words[i % capacity] == produced[i]
    }

    constructor (capacity: nat, base: nat)
      requires capacity > 1
      ensures Valid() && fresh(words) && this.capacity == capacity && produced == []
    {
      this.capacity, this.base := capacity, base;
      words := new bv32[capacity](_ => 0);
      writeAddr := base;
      produced := [];
    }

    /** One transfer; the write address wraps inside the aligned ring. */
    method Transfer(w: bv32)
      requires Valid()
      modifies this, words
      ensures Valid() && produced == old(produced) + [w]
    {
      SlotAddress(base, |produced| % capacity);
      LapAfter(words[..], produced, w);
      NextSlot(|produced|, capacity);
      var slot := (writeAddr - base) / WORD_BYTES;
      words[slot] := w;
      assert words[..] == old(words[..])[slot := w];
      writeAddr := base + WORD_BYTES * ((slot + 1) % capacity);
      produced := produced + [w];
    }

    /** Whatever arrives between two steps of the consumer. */
    method Arrive(ws: seq<bv32>)
      requires Valid()
      modifies this, words
      ensures Valid() && produced == old(produced) + ws
    {
      var i := 0;
      while i < |ws|
        invariant 0 <= i <= |ws| && Valid()
        invariant produced == old(produced) + ws[..i]
      {
        Transfer(ws[i]);
        assert ws[..i + 1] == ws[..i] + [ws[i]];
        i := i + 1;
      }
      assert ws[..i] == ws;
    }
  }

  // ------------------------------------------------------------ the consumer

  /** Arrivals before each of the next reads never leave more than `limit` words unread. */
  predicate Fits(unread: nat, arrivals: seq<seq<bv32>>, limit: nat)
    decreases |arrivals|
  {
    arrivals != [] ==>
      unread + |arrivals[0]| <= limit
      && (unread + |arrivals[0]| > 0 ==> Fits(unread + |arrivals[0]| - 1, arrivals[1..], limit))
  }

  class RingHandle {
    const dma: Dma
    var lastTail: nat
    /** Position in `dma.produced` of the next word to read. */
    ghost var consumed: nat
    /** Where delivery (re)started, and everything delivered since. */
    ghost var origin: nat
    ghost var delivered: seq<bv32>

    /** Holds whether or not the producer has overrun the consumer. */
    ghost predicate Tracks()
      reads this, dma, dma.words
    {
      dma.Valid() && consumed <= |dma.produced| && lastTail == consumed % dma.capacity
    }

    ghost function Unread(): int
      reads this, dma
    {
      |dma.produced| - consumed
    }

    /** At most capacity - 1 words unread, and everything since `origin` delivered in order. */
    ghost predicate Valid()
      reads this, dma, dma.words
      ensures Valid() ==> Tracks() && consumed <= |dma.produced| && Unread() < dma.capacity
    {
      Tracks() && Unread() < dma.capacity && origin <= consumed
      && delivered == dma.produced[origin..consumed]
    }

    constructor (dma: Dma)
      requires dma.Valid() && dma.produced == []
      ensures Valid() && this.dma == dma && Unread() == 0 && origin == 0
    {
      this.dma := dma;
      lastTail, consumed, origin, delivered := 0, 0, 0, [];
    }

    method Head() returns (h: nat)
      requires Tracks()
      ensures h == |dma.produced| % dma.capacity
    {
      h := ((dma.writeAddr - dma.base) / WORD_BYTES) % dma.capacity;
      QuotientIs(|dma.produced| % dma.capacity, 0, |dma.produced| % dma.capacity, dma.capacity);
    }

    /** Exact unless the producer is a whole lap ahead, which the ring cannot see. */
    method Pending() returns (n: nat)
      requires Tracks()
      ensures n == Unread() % dma.capacity
      ensures n == Unread() <==> Unread() < dma.capacity
    {
      var head := Head();
      n := (head + dma.capacity - lastTail) % dma.capacity;
      SlotDistance(|dma.produced|, consumed, dma.capacity);
      if Unread() < dma.capacity {
        QuotientIs(Unread(), 0, Unread(), dma.capacity);
      }
    }

    /** One word out of the ring: it is the oldest unread word. */
    method Load() returns (w: bv32)
      requires Valid() && Unread() > 0
      modifies this
      ensures Valid() && consumed == old(consumed) + 1 && origin == old(origin)
      ensures w == dma.produced[old(consumed)] && delivered == old(delivered) + [w]
    {
      w := dma.words[lastTail];
      NextSlot(consumed, dma.capacity);
      lastTail := (lastTail + 1) % dma.capacity;
      consumed := consumed + 1;
      delivered := delivered + [w];
    }

    /** One turn of the drain loop, with what the DMA writes before the load. */
    method Turn(arrivals: seq<bv32>) returns (w: bv32)
      requires Valid() && 0 < Unread() && Unread() + |arrivals| < dma.capacity
      modifies this, dma, dma.words
      ensures Valid() && consumed == old(consumed) + 1 && origin == old(origin)
      ensures dma.produced == old(dma.produced) + arrivals
      ensures w == dma.produced[old(consumed)] && delivered == old(delivered) + [w]
    {
      ghost var before := dma.produced;
      dma.Arrive(arrivals);
      assert delivered == before[origin..consumed] == dma.produced[origin..consumed];
      w := Load();
    }

    /** `drain`: the loop count is fixed from one look at the head; `arrivals[i]` is written
        by the DMA before read number `i`. */
    method Drain(max: nat, arrivals: seq<seq<bv32>>) returns (out: seq<bv32>)
      requires Valid() && |arrivals| == max && Fits(Unread(), arrivals, dma.capacity - 1)
      modifies this, dma, dma.words
      ensures Valid() && origin == old(origin)
      ensures |out| == if old(Unread()) < max then old(Unread()) else max
      ensures old(dma.produced) <= dma.produced
      ensures out == dma.produced[old(consumed)..old(consumed) + |out|]
      ensures consumed == old(consumed) + |out|
      ensures delivered == old(delivered) + out
    {
      var pending := Pending();
      var n := if pending < max then pending else max;
      out := [];
      var i := 0;
      while i < n
        invariant 0 <= i <= n && Valid() && origin == old(origin) && |out| == i
        invariant old(dma.produced) <= dma.produced
        invariant consumed == old(consumed) + i && out == dma.produced[old(consumed)..consumed]
        invariant delivered == old(delivered) + out
        invariant Fits(Unread(), arrivals[i..], dma.capacity - 1)
      {
        ghost var rest := arrivals[i..];
        assert rest[0] == arrivals[i] && rest[1..] == arrivals[i + 1..];
        var w := Turn(arrivals[i]);
        out := out + [w];
        i := i + 1;
      }
    }

    /** `try_pop`: nothing exactly when nothing is unread at the look at the head; the DMA
        writes `arrivals` between that look and the load. */
    method TryPop(arrivals: seq<bv32>) returns (w: Option<bv32>)
      requires Valid() && Unread() + |arrivals| < dma.capacity
      modifies this, dma, dma.words
      ensures Valid() && origin == old(origin) && dma.produced == old(dma.produced) + arrivals
      ensures w == None <==> old(Unread()) == 0
      ensures w == None ==> consumed == old(consumed) && delivered == old(delivered)
      ensures w.Some? ==> w.value == old(dma.produced)[old(consumed)] && consumed == old(consumed) + 1
                          && delivered == old(delivered) + [w.value]
    {
      var head := Head();
      if Unread() > 0 {
        SlotsDistinct(consumed, |dma.produced|, dma.capacity);
      }
      var empty := lastTail == head;
      if empty {
        More(arrivals);
        return None;
      }
      var v := Turn(arrivals);
      return Some(v);
    }

    /** DMA writes while the consumer stands still. */
    method More(arrivals: seq<bv32>)
      requires Valid() && Unread() + |arrivals| < dma.capacity
      modifies dma, dma.words
      ensures Valid() && dma.produced == old(dma.produced) + arrivals
    {
      ghost var before := dma.produced;
      dma.Arrive(arrivals);
      assert before[origin..consumed] == dma.produced[origin..consumed];
    }

    /** `resync`: from any state, even after an overrun, back to one unread word.  Before the
        first word there is none to go back to, and the tail is left on a stale slot. */
    method Resync()
      requires Tracks()
      modifies this
      ensures dma.produced != [] ==> Valid() && Unread() == 1 && delivered == [] && origin == consumed
      ensures dma.produced == [] ==> lastTail == dma.capacity - 1
    {
      var head := Head();
      var m, p := dma.capacity, |dma.produced|;
      lastTail := (head + m - 1) % m;
      if dma.produced == [] {
        QuotientIs(m - 1, 0, m - 1, m);
      } else {
        SlotBefore(p, m);
        consumed := p - 1;
        origin := p - 1;
        delivered := [];
      }
    }

    /** Words unread when the drain of a wake-up looks at the head. */
    ghost function AtDrain(a1: seq<bv32>, a2: seq<bv32>): int
      reads this, dma
    {
      (if Unread() == dma.capacity - 1 then 1 else Unread() + |a1|) + |a2|
    }

    /** The first half of a wake-up: look, and resync if the ring looks full.  `a1` arrives
        between that look and the next one (of the resync, if there is one), `a2` after it. */
    method CatchUp(a1: seq<bv32>, a2: seq<bv32>) returns (full: bool)
      requires Valid() && AtDrain(a1, a2) < dma.capacity
      modifies this, dma, dma.words
      ensures Valid() && dma.produced == old(dma.produced) + a1 + a2
      ensures Unread() == old(AtDrain(a1, a2)) && (full <==> old(Unread()) == dma.capacity - 1)
      ensures old(Unread()) < dma.capacity - 1 ==>
                consumed == old(consumed) && delivered == old(delivered) && origin == old(origin)
      ensures old(Unread()) == dma.capacity - 1 ==>
                consumed == |old(dma.produced)| + |a1| - 1 && delivered == []
    {
      var pending := Pending();
      full := pending >= dma.capacity - 1;
      if full {
        dma.Arrive(a1);
        Resync();
      } else {
        More(a1);
      }
      More(a2);
    }

    /** One wake-up of the drain task; the drain looks at the head again, and `arrivals` come
        while it reads.  Below capacity - 1 unread words everything up to the drain's look is
        delivered; at capacity - 1 nothing has been overwritten yet, but all that came before
        the resync is dropped except its last word. */
    method Poll(a1: seq<bv32>, a2: seq<bv32>, arrivals: seq<seq<bv32>>)
      returns (out: seq<bv32>, full: bool)
      requires Valid() && AtDrain(a1, a2) < dma.capacity
      requires |arrivals| == dma.capacity - 1 && Fits(AtDrain(a1, a2), arrivals, dma.capacity - 1)
      modifies this, dma, dma.words
      ensures Valid() && old(dma.produced) + a1 + a2 <= dma.produced && |out| < dma.capacity
      ensures full <==> old(Unread()) == dma.capacity - 1
      ensures old(Unread()) < dma.capacity - 1 ==>
                out == (old(dma.produced) + a1 + a2)[old(consumed)..]
                && delivered == old(delivered) + out && origin == old(origin)
      ensures old(Unread()) == dma.capacity - 1 ==>
                out == (old(dma.produced) + a1 + a2)[|old(dma.produced)| + |a1| - 1..] && delivered == out
    {
      full := CatchUp(a1, a2);
      ghost var start, seen := consumed, dma.produced;
      out := Drain(dma.capacity - 1, arrivals);
      assert dma.produced[start..|seen|] == seen[start..];
    }
  }

  lemma SlotBefore(p: nat, m: nat)
    requires m > 1 && p > 0
    ensures (p % m + m - 1) % m == (p - 1) % m
  {
    SlotDistance(p, 1, m);
    QuotientIs(1, 0, 1, m);
  }
}
