/** The peripheral's side of an IEEE 1284 negotiation (firmware/src/lpt/negotiator.rs;
    section 6.3 of IEEE 1284-2000), against every behaviour of the host's lines and every
    lateness of the timer. */
module Negotiator {
  import opened Wrappers

  const WAIT_US: nat := 100_000
  const POLL_TICK_US: nat := 5

  // ------------------------------------------------------------ modes

  datatype LptMode = SppNibble | ByteMode | Ecp | Epp

  const XRV_DEVICE_ID: bv8 := 0x04

  function XrvToMode(xrv: bv8): Option<LptMode> {
    var base := xrv & !XRV_DEVICE_ID;
    if base == 0x00 then Some(SppNibble)
    else if base == 0x01 then Some(ByteMode)
    else if base == 0x10 then Some(Ecp)
    else if base == 0x30 then Some(Ecp)
    else if base == 0x40 then Some(Epp)
    else None
  }

  /** Which request asks for which mode, with the device-ID flag, bit 2, left aside; no other
      request value is supported. */
  lemma RequestTable(xrv: bv8)
    ensures var base := xrv & 0xFB;
            (XrvToMode(xrv) == Some(SppNibble) <==> base == 0x00)
            && (XrvToMode(xrv) == Some(ByteMode) <==> base == 0x01)
            && (XrvToMode(xrv) == Some(Ecp) <==> base == 0x10 || base == 0x30)
            && (XrvToMode(xrv) == Some(Epp) <==> base == 0x40)
  {
  }

  /** Exactly ten request values are supported, and the device-ID flag never matters. */
  lemma SupportedRequests(xrv: bv8)
    ensures XrvToMode(xrv).Some? <==>
              xrv == 0x00 || xrv == 0x04 || xrv == 0x01 || xrv == 0x05 || xrv == 0x10 || xrv == 0x14
              || xrv == 0x30 || xrv == 0x34 || xrv == 0x40 || xrv == 0x44
    ensures XrvToMode(xrv | XRV_DEVICE_ID) == XrvToMode(xrv)
  {
  }

  datatype NegotiationError = Timeout | UnsupportedXrv(xrv: bv8)

  type Verdict = Result<LptMode, NegotiationError>

  // ------------------------------------------------------------ the wire

  datatype Line = NStrobe | NAutoFd

  /** What the negotiator does on the wire, and when. */
  datatype Entry =
    | Drive(at: nat, nAck: bool, pError: bool, select: bool, nFault: bool)
    | Poll(at: nat, line: Line, level: bool)

  /** Host lines as functions of time, and a clock that the timer moves by at least what was
      asked. */
  class Io {
    const nStrobe: nat -> bool
    const nAutoFd: nat -> bool
    const nSelectIn: nat -> bool
    const nInit: nat -> bool
    const dataBus: nat -> bv8
    var now: nat
    ghost var log: seq<Entry>

    constructor (nStrobe: nat -> bool, nAutoFd: nat -> bool, nSelectIn: nat -> bool, nInit: nat -> bool,
                 dataBus: nat -> bv8, now: nat)
      ensures log == [] && this.now == now && Truthful()
      ensures this.nStrobe == nStrobe && this.nAutoFd == nAutoFd && this.nSelectIn == nSelectIn
      ensures this.nInit == nInit && this.dataBus == dataBus
    {
      this.nStrobe, this.nAutoFd, this.nSelectIn := nStrobe, nAutoFd, nSelectIn;
      this.nInit, this.dataBus := nInit, dataBus;
      this.now := now;
      log := [];
    }

    function Level(line: Line, at: nat): bool {
      if line == NStrobe then nStrobe(at) else nAutoFd(at)
    }

    /** Every level in the log is the level the line had then. */
    ghost predicate Truthful()
      reads `log
    {
      forall i :: 0 <= i < |log| && log[i].Poll? ==> log[i].level == Level(log[i].line, log[i].at)
    }

    /** Time passes between any two things the firmware does. */
    method Elapse()
      modifies `now
      ensures now >= old(now)
    {
      var more: nat :| true;
      now := now + more;
    }

    method Read(line: Line) returns (level: bool)
      modifies `now, `log
      ensures now >= old(now) && level == Level(line, now)
      ensures log == old(log) + [Poll(now, line, level)]
      ensures old(Truthful()) ==> Truthful()
    {
      Elapse();
      level := Level(line, now);
      log := log + [Poll(now, line, level)];
    }

    /** `Instant::now()`. */
    method Instant() returns (at: nat)
      modifies `now
      ensures at == now >= old(now)
    {
      Elapse();
      at := now;
    }

    method DriveStatus(nAck: bool, pError: bool, select: bool, nFault: bool)
      modifies `now, `log
      ensures now >= old(now) && log == old(log) + [Drive(now, nAck, pError, select, nFault)]
      ensures old(Truthful()) ==> Truthful()
    {
      Elapse();
      log := log + [Drive(now, nAck, pError, select, nFault)];
    }

    /** `Timer::after`: late by any amount. */
    method After(us: nat)
      modifies `now
      ensures now >= old(now) + us
    {
      Elapse();
      now := now + us;
    }
  }

  // ------------------------------------------------------------ what a legal wait looks like

  /** One wait: when its deadline was set, its polls, and when it was over. */
  datatype Wait = Wait(start: nat, polls: seq<Entry>, end: nat)

  /** A wait for `line` to reach `level`, begun no earlier than `from`.  Every poll but the last
      missed the level and was still in time when the deadline was looked at afterwards; a wait
      that fails missed it at the last poll too, and only then found itself too late. */
  ghost predicate Waited(w: Wait, line: Line, level: bool, from: nat, ok: bool) {
    var ps := w.polls;
    ps != [] && from <= w.start
    && (forall i :: 0 <= i < |ps| ==> ps[i].Poll? && ps[i].line == line && w.start <= ps[i].at <= w.end)
    && (forall i, j :: 0 <= i && j == i + 1 && j < |ps| ==> ps[i].at + 5 <= ps[j].at)
    && (forall i :: 0 <= i < |ps| - 1 ==> ps[i].level != level && ps[i].at <= w.start + 100_000)
    && (if ok then Last(ps).level == level else Last(ps).level != level && w.end > w.start + 100_000)
  }

  function Last(ps: seq<Entry>): Entry
    requires ps != []
  {
    ps[|ps| - 1]
  }

  /** The polls so far, none of which saw the level. */
  ghost predicate Waiting(ps: seq<Entry>, line: Line, level: bool, start: nat, now: nat) {
    start <= now
    && (forall i :: 0 <= i < |ps| ==> ps[i].Poll? && ps[i].line == line && ps[i].level != level)
    && (forall i, j :: 0 <= i && j == i + 1 && j < |ps| ==> ps[i].at + 5 <= ps[j].at)
    && (forall i :: 0 <= i < |ps| ==>
          start <= ps[i].at <= start + 100_000 && ps[i].at + 5 <= now)
  }

  /** The parts of a handshake: the first status, waiting for strobe low, strobe high, the final
      status, and waiting for nAutoFd high.  The last two are there only if it got that far. */
  datatype Trace =
    | NoLow(ready: nat, low: Wait)
    | NoHigh(ready: nat, low: Wait, high: Wait)
    | Answered(ready: nat, low: Wait, high: Wait, final: nat, release: Wait)

  function Ready(at: nat): Entry { Drive(at, false, true, true, true) }

  function Final(at: nat, xrv: bv8): Entry { Drive(at, true, true, XrvToMode(xrv).Some?, true) }

  /** The log of a handshake. */
  function Entries(xrv: bv8, t: Trace): seq<Entry> {
    match t
    case NoLow(ready, low) => [Ready(ready)] + low.polls
    case NoHigh(ready, low, high) => [Ready(ready)] + low.polls + high.polls
    case Answered(ready, low, high, final, release) =>
      [Ready(ready)] + low.polls + high.polls + [Final(final, xrv)] + release.polls
  }

  function VerdictFor(xrv: bv8): Verdict {
    match XrvToMode(xrv)
    case Some(m) => Ok(m)
    case None => Err(UnsupportedXrv(xrv))
  }

  /** A trace that a handshake begun at `start` may have, with the verdict it must then give. */
  ghost predicate Legal(start: nat, xrv: bv8, t: Trace, r: Verdict) {
    start <= t.ready
    && match t
       case NoLow(ready, low) => Waited(low, NStrobe, false, ready, false) && r == Err(Timeout)
       case NoHigh(ready, low, high) =>
         Waited(low, NStrobe, false, ready, true) && Waited(high, NStrobe, true, low.end, false)
         && r == Err(Timeout)
       case Answered(ready, low, high, final, release) =>
         Waited(low, NStrobe, false, ready, true) && Waited(high, NStrobe, true, low.end, true)
         && high.end <= final
         && (if r == Err(Timeout) then Waited(release, NAutoFd, true, final, false)
             else Waited(release, NAutoFd, true, final, true) && r == VerdictFor(xrv))
  }

  function PulsePolls(low: Wait, high: Option<Wait>): seq<Entry> {
    low.polls + if high.Some? then high.value.polls else []
  }

  /** The trace of a handshake whose strobe pulse did not come. */
  function Broken(ready: nat, low: Wait, high: Option<Wait>): Trace {
    if high.Some? then NoHigh(ready, low, high.value) else NoLow(ready, low)
  }

  lemma BrokenIsLegal(start: nat, xrv: bv8, ready: nat, low: Wait, high: Option<Wait>)
    requires start <= ready && Waited(low, NStrobe, false, ready, high.Some?)
    requires high.Some? ==> Waited(high.value, NStrobe, true, low.end, false)
    ensures Legal(start, xrv, Broken(ready, low, high), Err(Timeout))
    ensures Entries(xrv, Broken(ready, low, high))
         == [Drive(ready, false, true, true, true)] + PulsePolls(low, high)
  {
    hide Waited;
  }

  lemma AnsweredIsLegal(
    start: nat, xrv: bv8, ready: nat, low: Wait, high: Option<Wait>, final: nat, release: Wait, ok: bool)
    requires start <= ready && Waited(low, NStrobe, false, ready, true)
    requires high.Some? && Waited(high.value, NStrobe, true, low.end, true) && high.value.end <= final
    requires Waited(release, NAutoFd, true, final, ok)
    ensures var t := Answered(ready, low, high.value, final, release);
            var mode := XrvToMode(xrv);
            var verdict := if mode.Some? then Ok(mode.value) else Err(UnsupportedXrv(xrv));
            Legal(start, xrv, t, if ok then verdict else Err(Timeout))
            && Entries(xrv, t)
               == [Drive(ready, false, true, true, true)] + PulsePolls(low, high)
                  + [Drive(final, true, true, mode.Some?, true)] + release.polls
  {
    hide Waited, XrvToMode;
  }

  // ------------------------------------------------------------ the negotiator

  class Negotiator {
    const io: Io

    constructor (io: Io)
      ensures this.io == io
    {
      this.io := io;
    }

    /** The request value on the data lines, if the host shows the start pattern; the lines are
        read one after the other. */
    method DetectStart() returns (xrv: Option<bv8>, ghost t1: nat, ghost t2: nat, ghost t3: nat)
      modifies io`now
      ensures old(io.now) <= t1 <= t2 <= t3
      ensures xrv == if io.nSelectIn(t1) && !io.nAutoFd(t2) then Some(io.dataBus(t3)) else None
    {
      io.Elapse();
      t1 := io.now;
      var active := io.nSelectIn(io.now);
      io.Elapse();
      t2 := io.now;
      active := active && !io.nAutoFd(io.now);
      io.Elapse();
      t3 := io.now;
      xrv := if active then Some(io.dataBus(io.now)) else None;
    }

    method DetectTerminate() returns (terminate: bool)
      ensures terminate <==> !io.nInit(io.now)
    {
      return !io.nInit(io.now);
    }

    /** A missed poll that was still in time, the pause, and the next poll. */
    method Pause(line: Line, level: bool, ghost at: nat, ghost start: nat, ghost ps: seq<Entry>)
      returns (seen: bool)
      requires Waiting(ps, line, level, start, at) && at <= io.now <= start + WAIT_US
      modifies io
      ensures io.now >= old(io.now) + POLL_TICK_US
      ensures Waiting(ps + [Poll(at, line, !level)], line, level, start, io.now)
      ensures io.log == old(io.log) + [Poll(io.now, line, seen)] && (old(io.Truthful()) ==> io.Truthful())
    {
      io.After(POLL_TICK_US);
      seen := io.Read(line);
      WaitingMore(ps, line, level, start, at, io.now);
    }

    /** One polling loop of the handshake.  Each turn either ends it or moves the clock at
        least one tick towards the deadline. */
    method Await(line: Line, level: bool) returns (ok: bool, ghost w: Wait)
      modifies io
      ensures io.log == old(io.log) + w.polls && (old(io.Truthful()) ==> io.Truthful())
      ensures Waited(w, line, level, old(io.now), ok) && w.end == io.now
    {
      var start := io.Instant();
      var deadline := start + WAIT_US;
      hide Waited, Waiting, Io.Truthful;
      ghost var ps: seq<Entry> := [];
      var seen := io.Read(line);
      WaitingStarts(line, level, start, io.now);
      while seen != level
        invariant Waiting(ps, line, level, start, io.now)
        invariant io.log == old(io.log) + ps + [Poll(io.now, line, seen)]
        invariant old(io.Truthful()) ==> io.Truthful()
        decreases if io.now <= deadline then deadline - io.now + 1 else 0
      {
        ghost var at := io.now;
        var now := io.Instant();
        if now > deadline {
          WaitingEnds(ps, line, level, old(io.now), start, at, now, seen);
          w := Wait(start, ps + [Poll(at, line, seen)], now);
          return false, w;
        }
        ghost var more := ps + [Poll(at, line, seen)];
        seen := Pause(line, level, at, start, ps);
        ps := more;
      }
      WaitingEnds(ps, line, level, old(io.now), start, io.now, io.now, seen);
      w := Wait(start, ps + [Poll(io.now, line, seen)], io.now);
      return true, w;
    }

    /** The strobe pulse: low, then high again. */
    method AwaitPulse() returns (ok: bool, ghost low: Wait, ghost high: Option<Wait>)
      modifies io
      ensures Waited(low, NStrobe, false, old(io.now), high.Some?)
      ensures high.Some? ==> Waited(high.value, NStrobe, true, low.end, ok) && high.value.end == io.now
      ensures ok ==> high.Some?
      ensures io.log == old(io.log) + PulsePolls(low, high)
      ensures old(io.Truthful()) ==> io.Truthful()
    {
      hide Waited, Io.Truthful;
      ok, low := Await(NStrobe, false);
      if !ok {
        return false, low, None;
      }
      ghost var w;
      ok, w := Await(NStrobe, true);
      return ok, low, Some(w);
    }

    method Handshake(xrv: bv8) returns (r: Verdict, ghost t: Trace)
      modifies io
      ensures Legal(old(io.now), xrv, t, r)
      ensures io.log == old(io.log) + Entries(xrv, t) && (old(io.Truthful()) ==> io.Truthful())
    {
      hide *;
      ghost var from := io.now;
      io.DriveStatus(false, true, true, true);
      ghost var ready := io.now;
      var target := XrvToMode(xrv);
      var supported := target.Some?;
      var ok;
      ghost var low, high, release;
      ok, low, high := AwaitPulse();
      if !ok {
        BrokenIsLegal(from, xrv, ready, low, high);
        return Err(Timeout), Broken(ready, low, high);
      }
      io.DriveStatus(true, true, supported, true);
      ghost var final := io.now;
      ok, release := Await(NAutoFd, true);
      t := Answered(ready, low, high.value, final, release);
      AnsweredIsLegal(from, xrv, ready, low, high, final, release, ok);
      if !ok {
        return Err(Timeout), t;
      }
      r := if target.Some? then Ok(target.value) else Err(UnsupportedXrv(xrv));
    }

    /** Acknowledge a termination request. */
    method HandleTerminate()
      modifies io
      ensures exists at1, at2 :: old(io.now) <= at1 && at1 + 2000 <= at2
                && io.log == old(io.log) + [Drive(at1, true, true, true, false), Drive(at2, true, true, true, true)]
    {
      io.DriveStatus(true, true, true, false);
      ghost var at1 := io.now;
      io.After(2000);
      io.DriveStatus(true, true, true, true);
      assert io.log == old(io.log) + [Drive(at1, true, true, true, false), Drive(io.now, true, true, true, true)];
    }
  }

  lemma WaitingStarts(line: Line, level: bool, start: nat, now: nat)
    requires start <= now
    ensures Waiting([], line, level, start, now)
  {
  }

  lemma WaitingMore(ps: seq<Entry>, line: Line, level: bool, start: nat, at: nat, later: nat)
    requires Waiting(ps, line, level, start, at) && at <= start + WAIT_US && at + POLL_TICK_US <= later
    ensures Waiting(ps + [Poll(at, line, !level)], line, level, start, later)
  {
  }

  lemma WaitingEnds(
    ps: seq<Entry>, line: Line, level: bool, from: nat, start: nat, at: nat, end: nat, seen: bool)
    requires Waiting(ps, line, level, start, at) && from <= start && at <= end
    requires seen == level || end > start + WAIT_US
    ensures Waited(Wait(start, ps + [Poll(at, line, seen)], end), line, level, from, seen == level)
  {
  }

  lemma WaitedSome(w: Wait, line: Line, level: bool, from: nat, ok: bool)
    requires Waited(w, line, level, from, ok)
    ensures w.polls != [] && forall i :: 0 <= i < |w.polls| ==> w.polls[i].Poll?
    ensures Last(w.polls).line == line && (Last(w.polls).level == level <==> ok)
  {
  }

  // ------------------------------------------------------------ what the verdict means

  ghost predicate SawAt(log: seq<Entry>, i: nat, line: Line, level: bool) {
    i < |log| && log[i].Poll? && log[i].line == line && log[i].level == level
  }

  /** The handshake ran to the end: strobe low, then strobe high, then the final status, then
      nAutoFd high. */
  ghost predicate Completed(log: seq<Entry>, i: nat, j: nat, k: nat, l: nat) {
    0 < i < j < k < l == |log| - 1
    && log[0] == Drive(log[0].at, false, true, true, true)
    && SawAt(log, i, NStrobe, false) && SawAt(log, j, NStrobe, true)
    && log[k].Drive? && log[k].nAck && log[k].pError && log[k].nFault
    && SawAt(log, l, NAutoFd, true)
    && forall n :: 0 <= n < |log| && log[n].Drive? ==> n == 0 || n == k
  }

  /** A handshake that does not time out completed, its verdict is the mode that the request
      value asks for, if there is one, and whether there is one is what Select told the host. */
  lemma VerdictMeansCompleted(start: nat, xrv: bv8, t: Trace, r: Verdict) returns (i: nat, j: nat, k: nat, l: nat)
    requires Legal(start, xrv, t, r) && r != Err(Timeout)
    ensures var log := Entries(xrv, t);
            Completed(log, i, j, k, l)
            && (r.Ok? <==> log[k].select) && (r.Err? ==> r == Err(UnsupportedXrv(xrv)))
    ensures var base := xrv & 0xFB;
            (r == Ok(SppNibble) <==> base == 0x00) && (r == Ok(ByteMode) <==> base == 0x01)
            && (r == Ok(Ecp) <==> base == 0x10 || base == 0x30) && (r == Ok(Epp) <==> base == 0x40)
  {
    hide XrvToMode, Waited;
    RequestTable(xrv);
    WaitedSome(t.low, NStrobe, false, t.ready, true);
    WaitedSome(t.high, NStrobe, true, t.low.end, true);
    WaitedSome(t.release, NAutoFd, true, t.final, true);
    i, j := |t.low.polls|, |t.low.polls| + |t.high.polls|;
    k, l := j + 1, j + 1 + |t.release.polls|;
    var log := Entries(xrv, t);
    assert log[i] == Last(t.low.polls) && log[j] == Last(t.high.polls) && log[l] == Last(t.release.polls);
    assert log[k] == Final(t.final, xrv);
  }

  /** The verdict is a timeout unless the last thing seen on the wire is nAutoFd high. */
  lemma TimeoutIff(start: nat, xrv: bv8, t: Trace, r: Verdict)
    requires Legal(start, xrv, t, r)
    ensures var log := Entries(xrv, t); r != Err(Timeout) <==> SawAt(log, |log| - 1, NAutoFd, true)
  {
    var log := Entries(xrv, t);
    hide XrvToMode, Waited;
    match t {
      case NoLow(ready, low) =>
        WaitedSome(low, NStrobe, false, ready, false);
        assert log[|log| - 1] == Last(low.polls);
      case NoHigh(_, low, high) =>
        WaitedSome(high, NStrobe, true, low.end, false);
        assert log[|log| - 1] == Last(high.polls);
      case Answered(_, _, _, final, release) =>
        WaitedSome(release, NAutoFd, true, final, r != Err(Timeout));
        assert log[|log| - 1] == Last(release.polls);
    }
  }

  /** The wait that a handshake ended in. */
  function FinalWait(t: Trace): Wait {
    match t
    case NoLow(_, low) => low
    case NoHigh(_, _, high) => high
    case Answered(_, _, _, _, release) => release
  }

  /** A timeout means that the wait the handshake ended in saw only the wrong level, from its
      beginning until more than 100 ms after it. */
  lemma TimeoutMeansStalled(start: nat, xrv: bv8, t: Trace)
    requires Legal(start, xrv, t, Err(Timeout))
    ensures var w := FinalWait(t);
            w.polls != [] && w.end > w.start + 100_000
            && forall i :: 0 <= i < |w.polls| ==>
                 w.polls[i].Poll? && w.polls[i].line == (if t.Answered? then NAutoFd else NStrobe)
                 && w.polls[i].level == t.NoLow?
  {
    var w := FinalWait(t);
    assert Last(w.polls) == w.polls[|w.polls| - 1];
  }
}
