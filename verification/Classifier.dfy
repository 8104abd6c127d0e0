/** The XT / AT / PS-2 host classifier (crates/ps2-framer/src/classifier.rs) is a function of
    the history it was fed, stated over that history and not over the state machine. */
module Classifier {
  import opened Wrappers
  import opened Framer

  const CONFIDENCE_THRESHOLD := 3

  datatype MachineClass = XtClass | AtClass | Ps2Class

  datatype Belief = Unknown | XtCandidate(streak: nat) | AtCandidate(streak: nat) | Confirmed(class_: MachineClass)

  datatype Event = Detected(class_: MachineClass) | Reset

  /** What the classifier is told: a keyboard frame, or traffic on the AUX channel. */
  datatype Input = Kbd(frame: Ps2Frame) | Aux

  type Outcome = (Belief, Option<Event>)

  predicate Usable(f: Ps2Frame) {
    f.framingOk && f.parityOk && f.kind != Invalid
  }

  // ------------------------------------------------------------ the object

  function ObserveAt(s: Belief): Outcome {
    match s
    case Unknown => (AtCandidate(1), None)
    case AtCandidate(streak) =>
      if streak + 1 >= CONFIDENCE_THRESHOLD then (Confirmed(AtClass), Some(Detected(AtClass)))
      else (AtCandidate(streak + 1), None)
    case XtCandidate(_) => (AtCandidate(1), None)
    case Confirmed(XtClass) => (AtCandidate(1), Some(Reset))
    case Confirmed(_) => (s, None)
  }

  function ObserveXt(s: Belief): Outcome {
    match s
    case Unknown => (XtCandidate(1), None)
    case XtCandidate(streak) =>
      if streak + 1 >= CONFIDENCE_THRESHOLD then (Confirmed(XtClass), Some(Detected(XtClass)))
      else (XtCandidate(streak + 1), None)
    case AtCandidate(_) => (XtCandidate(1), None)
    case Confirmed(XtClass) => (s, None)
    case Confirmed(_) => (XtCandidate(1), Some(Reset))
  }

  function Observe(s: Belief, x: Input): Outcome {
    match x
    case Aux => if s == Confirmed(AtClass) then (Confirmed(Ps2Class), Some(Detected(Ps2Class))) else (s, None)
    case Kbd(f) => if !Usable(f) then (s, None) else if f.kind == At then ObserveAt(s) else ObserveXt(s)
  }

  class Classifier {
    var state: Belief
    /** Everything the classifier has been told since it was made. */
    ghost var told: seq<Input>

    ghost predicate Valid()
      reads this
    {
      state == After(told)
    }

    constructor ()
      ensures Valid() && told == []
    {
      state := Unknown;
      told := [];
    }

    method IngestKbdFrame(frame: Ps2Frame) returns (event: Option<Event>)
      requires Valid()
      modifies this
      ensures Valid() && told == old(told) + [Kbd(frame)]
      ensures event == EventAt(told, |told| - 1)
    {
      told := told + [Kbd(frame)];
      assert told[..|told|] == told && told[..|told| - 1] == old(told);
      var usable := frame.framingOk && frame.parityOk && frame.kind != Invalid;
      if !usable {
        return None;
      }
      match frame.kind {
        case At => event := SeeAt();
        case Xt => event := SeeXt();
      }
    }

    method IngestAuxActivity() returns (event: Option<Event>)
      requires Valid()
      modifies this
      ensures Valid() && told == old(told) + [Aux]
      ensures event == EventAt(told, |told| - 1)
    {
      told := told + [Aux];
      assert told[..|told|] == told && told[..|told| - 1] == old(told);
      if state == Confirmed(AtClass) {
        state := Confirmed(Ps2Class);
        return Some(Detected(Ps2Class));
      }
      return None;
    }

    method SeeAt() returns (event: Option<Event>)
      modifies `state
      ensures (state, event) == ObserveAt(old(state))
    {
      match state {
        case Unknown =>
          state := AtCandidate(1);
          return None;
        case AtCandidate(streak) =>
          var longer := streak + 1;
          if longer >= CONFIDENCE_THRESHOLD {
            state := Confirmed(AtClass);
            return Some(Detected(AtClass));
          }
          state := AtCandidate(longer);
          return None;
        case XtCandidate(_) =>
          state := AtCandidate(1);
          return None;
        case Confirmed(XtClass) =>
          state := AtCandidate(1);
          return Some(Reset);
        case Confirmed(_) =>
          return None;
      }
    }

    method SeeXt() returns (event: Option<Event>)
      modifies `state
      ensures (state, event) == ObserveXt(old(state))
    {
      match state {
        case Unknown =>
          state := XtCandidate(1);
          return None;
        case XtCandidate(streak) =>
          var longer := streak + 1;
          if longer >= CONFIDENCE_THRESHOLD {
            state := Confirmed(XtClass);
            return Some(Detected(XtClass));
          }
          state := XtCandidate(longer);
          return None;
        case AtCandidate(_) =>
          state := XtCandidate(1);
          return None;
        case Confirmed(XtClass) =>
          return None;
        case Confirmed(_) =>
          state := XtCandidate(1);
          return Some(Reset);
      }
    }
  }

  // ------------------------------------------------------------ runs

  function After(h: seq<Input>): Belief {
    if h == [] then Unknown else Observe(After(h[..|h| - 1]), h[|h| - 1]).0
  }

  /** The event answered to input number `i`. */
  function EventAt(h: seq<Input>, i: nat): Option<Event>
    requires i < |h|
  {
    Observe(After(h[..i]), h[i]).1
  }

  lemma AfterSnoc(h: seq<Input>, x: Input)
    ensures After(h + [x]) == Observe(After(h), x).0
    ensures EventAt(h + [x], |h|) == Observe(After(h), x).1
  {
    assert (h + [x])[..|h|] == h;
  }

  // ------------------------------------------------------------ the history

  /** Kinds of the usable frames, in order. */
  function Kinds(h: seq<Input>): (ks: seq<FrameKind>)
    ensures Invalid !in ks
  {
    if h == [] then []
    else
      var x := h[|h| - 1];
      Kinds(h[..|h| - 1]) + if x.Kbd? && Usable(x.frame) then [x.frame.kind] else []
  }

  /** The usable frames end in exactly `r` frames of kind `k`. */
  ghost predicate EndsIn(ks: seq<FrameKind>, k: FrameKind, r: nat) {
    1 <= r <= |ks| && (forall i :: |ks| - r <= i < |ks| ==> ks[i] == k)
    && (r < |ks| ==> ks[|ks| - r - 1] != k)
  }

  /** AUX activity was reported after usable frame number `n`. */
  ghost predicate AuxAfter(h: seq<Input>, n: int) {
    exists i :: AuxAt(h, i, n)
  }

  predicate AuxAt(h: seq<Input>, i: int, n: int) {
    0 <= i < |h| && h[i] == Aux && |Kinds(h[..i])| >= n
  }

  /** What a trailing run of `r` frames of kind `k` says, given whether AUX activity followed
      its third frame. */
  predicate RunSays(s: Belief, k: FrameKind, r: nat, aux: bool) {
    if r < CONFIDENCE_THRESHOLD then s == (if k == At then AtCandidate(r) else XtCandidate(r))
    else if k == Xt then s == Confirmed(XtClass)
    else s == Confirmed(if aux then Ps2Class else AtClass)
  }

  /** What the history says: `r` is the length of the trailing run of kind `k`. */
  ghost predicate Says(s: Belief, h: seq<Input>, k: FrameKind, r: nat) {
    RunSays(s, k, r, AuxAfter(h, |Kinds(h)| - r + CONFIDENCE_THRESHOLD))
  }

  lemma AuxAtSnoc(h: seq<Input>, x: Input, i: int, n: int)
    ensures AuxAt(h + [x], i, n) <==> AuxAt(h, i, n) || (i == |h| && x == Aux && |Kinds(h)| >= n)
  {
    hide Kinds;
    var g := h + [x];
    if 0 <= i <= |h| {
      assert g[..i] == h[..i] && h[..|h|] == h;
    }
  }

  lemma AuxAfterSnoc(h: seq<Input>, x: Input, n: int)
    ensures AuxAfter(h + [x], n) <==> AuxAfter(h, n) || (x == Aux && |Kinds(h)| >= n)
  {
    hide Kinds, AuxAt;
    var g := h + [x];
    forall i: int ensures AuxAt(g, i, n) <==> AuxAt(h, i, n) || (i == |h| && x == Aux && |Kinds(h)| >= n) {
      AuxAtSnoc(h, x, i, n);
    }
    assert x == Aux && |Kinds(h)| >= n ==> AuxAt(g, |h|, n);
  }

  lemma {:induction false} NoAuxBeyond(h: seq<Input>, n: int)
    requires n > |Kinds(h)|
    ensures !AuxAfter(h, n)
    decreases |h|
  {
    if h != [] {
      var g, x := h[..|h| - 1], h[|h| - 1];
      assert g + [x] == h;
      NoAuxBeyond(g, n);
      AuxAfterSnoc(g, x, n);
    }
  }

  /** There is exactly one trailing run once there is a usable frame. */
  lemma {:induction false} TrailingRun(ks: seq<FrameKind>) returns (k: FrameKind, r: nat)
    requires ks != []
    ensures EndsIn(ks, k, r)
    ensures forall k', r' :: EndsIn(ks, k', r') ==> k' == k && r' == r
    decreases |ks|
  {
    var init, last := ks[..|ks| - 1], ks[|ks| - 1];
    if init == [] || init[|init| - 1] != last {
      k, r := last, 1;
    } else {
      k, r := TrailingRun(init);
      r := r + 1;
      assert forall i :: 0 <= i < |init| ==> init[i] == ks[i];
      forall k', r': nat | EndsIn(ks, k', r') ensures k' == k && r' == r {
        assert ks[|ks| - 1] == k';
        assert r' != 1;
        assert EndsIn(init, k', r' - 1);
      }
    }
  }

  lemma RunGrows(ks: seq<FrameKind>, k: FrameKind, k0: FrameKind, r0: nat)
    requires EndsIn(ks, k0, r0)
    ensures k == k0 ==> EndsIn(ks + [k], k, r0 + 1)
    ensures k != k0 ==> EndsIn(ks + [k], k, 1)
  {
  }

  lemma RunIsUnique(ks: seq<FrameKind>, k: FrameKind, r: nat, k': FrameKind, r': nat)
    requires EndsIn(ks, k, r) && EndsIn(ks, k', r')
    ensures k == k' && r == r'
  {
    assert ks[|ks| - 1] == k && ks[|ks| - 1] == k';
  }

  lemma UnusedInput(h: seq<Input>, x: Input, k: FrameKind, r: nat)
    requires EndsIn(Kinds(h), k, r) && Says(After(h), h, k, r)
    requires x.Kbd? ==> !Usable(x.frame)
    requires k != Invalid
    ensures Kinds(h + [x]) == Kinds(h) && Says(After(h + [x]), h + [x], k, r)
  {
    AfterSnoc(h, x);
    assert (h + [x])[..|h|] == h;
    AuxAfterSnoc(h, x, |Kinds(h)| - r + CONFIDENCE_THRESHOLD);
  }

  lemma KindsSnoc(h: seq<Input>, x: Input)
    ensures Kinds(h + [x]) == Kinds(h) + if x.Kbd? && Usable(x.frame) then [x.frame.kind] else []
    ensures x.Kbd? && Usable(x.frame) <==>
              x.Kbd? && x.frame.framingOk && x.frame.parityOk && (x.frame.kind == At || x.frame.kind == Xt)
  {
    assert (h + [x])[..|h|] == h;
  }

  lemma RunGoesOn(s: Belief, f: Ps2Frame, r: nat, aux: bool)
    requires Usable(f) && RunSays(s, f.kind, r, aux) && r >= 1
    requires r < CONFIDENCE_THRESHOLD ==> !aux
    ensures RunSays(Observe(s, Kbd(f)).0, f.kind, r + 1, aux)
  {
  }

  /** The other kind starts a new run; it is announced only if the old one was confirmed. */
  lemma RunBreaks(s: Belief, k: FrameKind, r: nat, aux: bool, f: Ps2Frame)
    requires Usable(f) && RunSays(s, k, r, aux) && r >= 1 && k != Invalid && f.kind != k
    ensures Observe(s, Kbd(f)).0 == (if f.kind == At then AtCandidate(1) else XtCandidate(1))
    ensures Observe(s, Kbd(f)).1 == (if r >= CONFIDENCE_THRESHOLD then Some(Reset) else None)
  {
  }

  lemma EndsInMeans(ks: seq<FrameKind>, k: FrameKind, r: nat)
    requires EndsIn(ks, k, r)
    ensures 1 <= r <= |ks| && ks[|ks| - 1] == k
  {
  }

  /** Another frame of the same kind. */
  lemma SameKind(h: seq<Input>, f: Ps2Frame, r: nat)
    requires EndsIn(Kinds(h), f.kind, r) && Says(After(h), h, f.kind, r) && Usable(f)
    ensures Says(After(h + [Kbd(f)]), h + [Kbd(f)], f.kind, r + 1)
  {
    hide After, Kinds, EventAt, AuxAfter, EndsIn, RunSays, Observe, Usable;
    var n := |Kinds(h)| - r + CONFIDENCE_THRESHOLD;
    EndsInMeans(Kinds(h), f.kind, r);
    AfterSnoc(h, Kbd(f));
    KindsSnoc(h, Kbd(f));
    AuxAfterSnoc(h, Kbd(f), n);
    if n > |Kinds(h)| {
      NoAuxBeyond(h, n);
    }
    RunGoesOn(After(h), f, r, AuxAfter(h, n));
  }

  /** A frame of the other kind. */
  lemma OtherKind(h: seq<Input>, f: Ps2Frame, k: FrameKind, r: nat)
    requires EndsIn(Kinds(h), k, r) && Says(After(h), h, k, r) && k != Invalid
    requires Usable(f) && f.kind != k
    ensures Says(After(h + [Kbd(f)]), h + [Kbd(f)], f.kind, 1)
  {
    hide After, Kinds, EventAt, AuxAfter, EndsIn, Observe, Usable;
    EndsInMeans(Kinds(h), k, r);
    AfterSnoc(h, Kbd(f));
    RunBreaks(After(h), k, r, AuxAfter(h, |Kinds(h)| - r + CONFIDENCE_THRESHOLD), f);
  }

  lemma UsedInput(h: seq<Input>, x: Input, k0: FrameKind, r0: nat)
    requires EndsIn(Kinds(h), k0, r0) && Says(After(h), h, k0, r0) && k0 != Invalid
    requires x.Kbd? && Usable(x.frame)
    ensures Kinds(h + [x]) == Kinds(h) + [x.frame.kind]
    ensures var k := x.frame.kind; Says(After(h + [x]), h + [x], k, if k == k0 then r0 + 1 else 1)
  {
    KindsSnoc(h, x);
    if x.frame.kind == k0 {
      SameKind(h, x.frame, r0);
    } else {
      OtherKind(h, x.frame, k0, r0);
    }
    hide *;
  }

  /** For every history: unknown until a usable frame, then whatever the trailing run of
      usable frames of one kind (and AUX traffic since its third frame) says. */
  lemma {:induction false} StateIsHistory(h: seq<Input>, k: FrameKind, r: nat)
    ensures After(h) == Unknown <==> Kinds(h) == []
    ensures EndsIn(Kinds(h), k, r) ==> Says(After(h), h, k, r)
    decreases |h|
  {
    if h != [] {
      var g, x := h[..|h| - 1], h[|h| - 1];
      assert g + [x] == h;
      var used := x.Kbd? && Usable(x.frame);
      var ks := Kinds(g);
      if ks == [] {
        StateIsHistory(g, k, r);
        FirstUsable(g, x, k, r);
      } else {
        var k0, r0 := TrailingRun(ks);
        StateIsHistory(g, k0, r0);
        assert k0 != Invalid by { assert ks[|ks| - 1] == k0; }
        if used {
          UsedInput(g, x, k0, r0);
          RunGrows(ks, x.frame.kind, k0, r0);
          if EndsIn(Kinds(h), k, r) {
            RunIsUnique(Kinds(h), k, r, x.frame.kind, if x.frame.kind == k0 then r0 + 1 else 1);
          }
        } else {
          UnusedInput(g, x, k0, r0);
          if EndsIn(Kinds(h), k, r) {
            RunIsUnique(ks, k, r, k0, r0);
          }
        }
      }
    }
  }

  lemma FirstUsable(g: seq<Input>, x: Input, k: FrameKind, r: nat)
    requires Kinds(g) == [] && After(g) == Unknown
    ensures After(g + [x]) == Unknown <==> Kinds(g + [x]) == []
    ensures EndsIn(Kinds(g + [x]), k, r) ==> Says(After(g + [x]), g + [x], k, r)
  {
    AfterSnoc(g, x);
    assert (g + [x])[..|g|] == g;
    if x.Kbd? && Usable(x.frame) {
      var ks := Kinds(g + [x]);
      assert ks == [x.frame.kind];
      assert EndsIn(ks, k, r) ==> ks[0] == k && r == 1;
    }
  }

  // ------------------------------------------------------------ events

  /** Detections of XT or AT less resets, over a whole history. */
  function Balance(h: seq<Input>): int {
    if h == [] then 0
    else
      var e := EventAt(h, |h| - 1);
      Balance(h[..|h| - 1])
      + (if e == Some(Detected(XtClass)) || e == Some(Detected(AtClass)) then 1
         else if e == Some(Reset) then -1 else 0)
  }

  /** Detections and resets alternate, and the balance is 1 exactly while confirmed. */
  lemma {:induction false} DetectionsBalanceResets(h: seq<Input>)
    ensures Balance(h) == if After(h).Confirmed? then 1 else 0
    decreases |h|
  {
    if h != [] {
      var g := h[..|h| - 1];
      DetectionsBalanceResets(g);
    }
  }

  /** What an input is answered after a trailing run of `r` frames of kind `k`, where `aux` says
      whether AUX activity followed its third frame. */
  function AnswerTo(x: Input, k: FrameKind, r: nat, aux: bool): Option<Event> {
    match x
    case Aux => if k == At && r >= 3 && !aux then Some(Detected(Ps2Class)) else None
    case Kbd(f) =>
      if !Usable(f) then None
      else if f.kind != k then (if r >= 3 then Some(Reset) else None)
      else if r != 2 then None
      else Some(Detected(if k == At then AtClass else XtClass))
  }

  lemma RunAnswers(s: Belief, k: FrameKind, r: nat, aux: bool, x: Input)
    requires RunSays(s, k, r, aux) && r >= 1 && k != Invalid
    ensures Observe(s, x).1 == AnswerTo(x, k, r, aux)
  {
  }

  /** Every event, from the history alone: a class is announced by the third frame of a run of
      its kind, PS/2 by the first AUX activity after that of an AT run, and a reset by the first
      usable frame of another kind after a run of at least three; before any usable frame, and
      to anything else, there is none. */
  lemma EventIsHistory(h: seq<Input>, x: Input, k: FrameKind, r: nat)
    ensures Kinds(h) == [] ==> EventAt(h + [x], |h|) == None
    ensures EndsIn(Kinds(h), k, r) ==>
              EventAt(h + [x], |h|) == AnswerTo(x, k, r, AuxAfter(h, |Kinds(h)| - r + 3))
  {
    hide After, Kinds, EventAt, AuxAfter, EndsIn, Observe, Usable, RunSays, AnswerTo;
    StateIsHistory(h, k, r);
    AfterSnoc(h, x);
    if Kinds(h) == [] {
      UnknownIsSilent(x);
    }
    if EndsIn(Kinds(h), k, r) {
      EndsInMeans(Kinds(h), k, r);
      RunAnswers(After(h), k, r, AuxAfter(h, |Kinds(h)| - r + CONFIDENCE_THRESHOLD), x);
    }
  }

  lemma UnknownIsSilent(x: Input)
    ensures Observe(Unknown, x).1 == None
  {
  }

  /** Events tell every change of the confirmed class, and nothing else: a class is announced
      exactly when it becomes the confirmed one, and a reset exactly when there no longer is
      one. */
  lemma EventsTellChanges(h: seq<Input>, c: MachineClass)
    requires h != []
    ensures var was, now, event := After(h[..|h| - 1]), After(h), EventAt(h, |h| - 1);
            (event == Some(Detected(c)) <==> now == Confirmed(c) && was != Confirmed(c))
            && (event == Some(Reset) <==> was.Confirmed? && !now.Confirmed?)
  {
    hide After;
    var g, x := h[..|h| - 1], h[|h| - 1];
    assert g + [x] == h;
    AfterSnoc(g, x);
  }

  /** After any history whose usable frames end in `r` frames of kind `k`, a usable frame of
      the other kind makes the classifier start over with that frame as its first candidate.
      It never goes back to unknown, and says so only if the run had been confirmed. */
  lemma ContradictionRestarts(h: seq<Input>, k: FrameKind, r: nat, f: Ps2Frame)
    requires EndsIn(Kinds(h), k, r) && Usable(f) && f.kind != k
    ensures After(h + [Kbd(f)]) == (if f.kind == At then AtCandidate(1) else XtCandidate(1))
    ensures EventAt(h + [Kbd(f)], |h|) == (if r >= CONFIDENCE_THRESHOLD then Some(Reset) else None)
  {
    hide After, Kinds, EventAt, AuxAfter, EndsIn, Observe, Usable;
    StateIsHistory(h, k, r);
    AfterSnoc(h, Kbd(f));
    EndsInMeans(Kinds(h), k, r);
    RunBreaks(After(h), k, r, AuxAfter(h, |Kinds(h)| - r + CONFIDENCE_THRESHOLD), f);
  }
}
