/** Bit strings as polynomials over GF(2), and the shift register every CRC of the
    repository is an instance of.

    A bit string lists coefficients from the highest exponent down, so `p[|p| - 1]` is the
    constant term.  A generator of degree `w` is given by its low `w` coefficients `g`; the
    leading `x^w` is implicit, as in the constants of the source. */
module Gf2 {

  type Bits = seq<bool>

  function Zeros(n: nat): (z: Bits)
    ensures |z| == n
  {
    seq(n, _ => false)
  }

  function Xor(a: Bits, b: Bits): (c: Bits)
    requires |a| == |b|
    ensures |c| == |a|
  {
    seq(|a|, i requires 0 <= i < |a| => a[i] != b[i])
  }

  /** True iff an odd number of bits is set. */
  function Parity(a: Bits): bool {
    if a == [] then false else a[0] != Parity(a[1..])
  }

  predicate IsZero(a: Bits) {
    forall i :: 0 <= i < |a| ==> !a[i]
  }

  lemma XorConcat(a: Bits, b: Bits, c: Bits, d: Bits)
    requires |a| == |b| && |c| == |d|
    ensures Xor(a + c, b + d) == Xor(a, b) + Xor(c, d)
  {
  }

  lemma {:induction false} ParityXor(a: Bits, b: Bits)
    requires |a| == |b|
    ensures Parity(Xor(a, b)) == (Parity(a) != Parity(b))
  {
    if a != [] {
      ParityXor(a[1..], b[1..]);
      assert Xor(a, b)[1..] == Xor(a[1..], b[1..]);
    }
  }

  lemma {:induction false} ParityConcat(a: Bits, b: Bits)
    ensures Parity(a + b) == (Parity(a) != Parity(b))
  {
    if a == [] {
      assert a + b == b;
    } else {
      ParityConcat(a[1..], b);
      assert (a + b)[1..] == a[1..] + b;
    }
  }

  lemma {:induction false} ParityOfZero(a: Bits)
    requires IsZero(a)
    ensures !Parity(a)
  {
    if a != [] {
      ParityOfZero(a[1..]);
    }
  }

  // ---------------------------------------------------------------- the register

  /** One clock of the register: shift left, and subtract the generator when the bit
      shifted out differs from the incoming message bit. */
  function Step(g: Bits, r: Bits, b: bool): (r': Bits)
    requires |r| == |g| > 0
    ensures |r'| == |g|
  {
    var shifted := r[1..] + [false];
    if r[0] != b then Xor(shifted, g) else shifted
  }

  function Run(g: Bits, r: Bits, m: Bits): (r': Bits)
    requires |r| == |g| > 0
    ensures |r'| == |g|
    decreases |m|
  {
    if m == [] then r else Run(g, Step(g, r, m[0]), m[1..])
  }

  lemma {:induction false} RunConcat(g: Bits, r: Bits, m: Bits, n: Bits)
    requires |r| == |g| > 0
    ensures Run(g, r, m + n) == Run(g, Run(g, r, m), n)
    decreases |m|
  {
    if m == [] {
      assert m + n == n;
    } else {
      assert (m + n)[0] == m[0] && (m + n)[1..] == m[1..] + n;
      RunConcat(g, Step(g, r, m[0]), m[1..], n);
    }
  }

  lemma RunSnoc(g: Bits, r: Bits, m: Bits, b: bool)
    requires |r| == |g| > 0
    ensures Run(g, r, m + [b]) == Step(g, Run(g, r, m), b)
  {
    RunConcat(g, r, m, [b]);
    var s := Run(g, r, m);
    assert Run(g, s, [b]) == Run(g, Step(g, s, b), []);
  }

  /** The register is linear in its state and its input. */
  lemma StepLinear(g: Bits, r: Bits, s: Bits, b: bool, c: bool)
    requires |r| == |s| == |g| > 0
    ensures Step(g, Xor(r, s), b != c) == Xor(Step(g, r, b), Step(g, s, c))
  {
  }

  lemma {:induction false} RunLinear(g: Bits, r: Bits, s: Bits, m: Bits, n: Bits)
    requires |r| == |s| == |g| > 0 && |m| == |n|
    ensures Run(g, Xor(r, s), Xor(m, n)) == Xor(Run(g, r, m), Run(g, s, n))
    decreases |m|
  {
    if m != [] {
      StepLinear(g, r, s, m[0], n[0]);
      assert Xor(m, n)[1..] == Xor(m[1..], n[1..]);
      RunLinear(g, Step(g, r, m[0]), Step(g, s, n[0]), m[1..], n[1..]);
    }
  }

  /** Feeding the register its own leading bits shifts zeros in behind them. */
  lemma {:induction false} RunOwnPrefix(g: Bits, r: Bits, k: nat)
    requires |r| == |g| > 0 && k <= |r|
    ensures Run(g, r, r[..k]) == r[k..] + Zeros(k)
    decreases k
  {
    if k == 0 {
      assert r[0..] + Zeros(0) == r;
    } else {
      RunOwnPrefix(g, r, k - 1);
      RunSnoc(g, r, r[..k - 1], r[k - 1]);
      assert r[..k - 1] + [r[k - 1]] == r[..k];
      assert (r[k - 1..] + Zeros(k - 1))[1..] + [false] == r[k..] + Zeros(k);
    }
  }

  /** The parity of the register tracks the parity of what it was fed when the generator
      has an even number of terms (its implicit leading term included). */
  lemma {:induction false} RunParity(g: Bits, r: Bits, m: Bits)
    requires |r| == |g| > 0 && Parity(g)
    ensures Parity(Run(g, r, m)) == (Parity(r) != Parity(m))
    decreases |m|
  {
    if m != [] {
      var shifted := r[1..] + [false];
      ParityConcat(r[1..], [false]);
      ParityXor(shifted, g);
      RunParity(g, Step(g, r, m[0]), m[1..]);
    }
  }

  /** With a constant term in the generator, clocking zeros never clears a register. */
  lemma {:induction false} ZerosKeepNonzero(g: Bits, r: Bits, n: nat)
    requires |r| == |g| > 0 && g[|g| - 1]
    requires !IsZero(r)
    ensures !IsZero(Run(g, r, Zeros(n)))
    decreases n
  {
    if n > 0 {
      var r' := Step(g, r, false);
      if r[0] {
        assert r'[|g| - 1];
      } else {
        var i :| 0 <= i < |r| && r[i];
        assert r'[i - 1];
      }
      assert Zeros(n)[1..] == Zeros(n - 1);
      ZerosKeepNonzero(g, r', n - 1);
    }
  }

  lemma {:induction false} ZerosKeepZero(g: Bits, n: nat)
    requires |g| > 0
    ensures Run(g, Zeros(|g|), Zeros(n)) == Zeros(|g|)
    decreases n
  {
    if n > 0 {
      assert Step(g, Zeros(|g|), false) == Zeros(|g|);
      assert Zeros(n)[1..] == Zeros(n - 1);
      ZerosKeepZero(g, n - 1);
    }
  }

  lemma XorZero(a: Bits, b: Bits)
    requires |a| == |b| && Xor(a, b) == Zeros(|a|)
    ensures a == b
  {
    forall i | 0 <= i < |a| ensures a[i] == b[i] {
      assert !Xor(a, b)[i];
    }
  }

  lemma XorWithZeros(w: Bits)
    ensures Xor(Zeros(|w|), w) == w && Xor(w, Zeros(|w|)) == w
  {
  }

  lemma RunOwnValue(g: Bits, w: Bits)
    requires |w| == |g| > 0
    ensures Run(g, w, w) == Zeros(|g|)
  {
    RunOwnPrefix(g, w, |w|);
    assert w[..|w|] == w;
    assert w[|w|..] == [];
    assert [] + Zeros(|w|) == Zeros(|g|);
  }

  /** A message followed by its own remainder leaves the register clear. */
  lemma Residue(g: Bits, r: Bits, m: Bits)
    requires |r| == |g| > 0
    ensures Run(g, r, m + Run(g, r, m)) == Zeros(|g|)
  {
    RunConcat(g, r, m, Run(g, r, m));
    RunOwnValue(g, Run(g, r, m));
  }

  /** Adding a word to the top of the register and then clocking zeros is the same as
      feeding the word bit by bit: the byte-at-a-time form of the source. */
  lemma PreloadIsFeed(g: Bits, r: Bits, b: Bits)
    requires |r| == |g| > 0 && |b| <= |g|
    ensures Run(g, Xor(r, b + Zeros(|g| - |b|)), Zeros(|b|)) == Run(g, r, b)
  {
    var top := b + Zeros(|g| - |b|);
    RunLinear(g, r, top, b, b);
    RunOwnPrefix(g, top, |b|);
    PreloadAlgebra(top, b, Run(g, r, b));
  }

  lemma PreloadAlgebra(top: Bits, b: Bits, r: Bits)
    requires |b| <= |top| == |r| && top == b + Zeros(|top| - |b|)
    ensures top[..|b|] == b
    ensures Xor(b, b) == Zeros(|b|)
    ensures Xor(r, top[|b|..] + Zeros(|b|)) == r
  {
  }

  lemma FeedPlusLoad(g: Bits, w: Bits, z: Bits)
    requires |w| == |g| > 0 && z == Zeros(|g|)
    ensures Xor(Run(g, z, w), Run(g, w, z)) == z
  {
    RunLinear(g, z, w, w, z);
    XorWithZeros(w);
    RunOwnValue(g, w);
  }

  /** Feeding a word into a clear register is loading the word and clocking zeros. */
  lemma FeedIsLoad(g: Bits, w: Bits)
    requires |w| == |g| > 0
    ensures Run(g, Zeros(|g|), w) == Run(g, w, Zeros(|g|))
  {
    FeedPlusLoad(g, w, Zeros(|g|));
    XorZero(Run(g, Zeros(|g|), w), Run(g, w, Zeros(|g|)));
  }

  lemma PaddedWindow(g: Bits, k: nat, w: Bits, n: nat)
    requires |w| == |g| > 0
    ensures Run(g, Zeros(|g|), Zeros(k) + w + Zeros(n))
         == Run(g, Run(g, w, Zeros(|g|)), Zeros(n))
  {
    RunConcat(g, Zeros(|g|), Zeros(k) + w, Zeros(n));
    RunConcat(g, Zeros(|g|), Zeros(k), w);
    ZerosKeepZero(g, k);
    FeedIsLoad(g, w);
  }

  /** An error pattern whose set bits lie in one window as wide as the register never
      cancels. */
  lemma BurstDetected(g: Bits, e: Bits, k: nat)
    requires |g| > 0 && g[|g| - 1] && k + |g| <= |e|
    requires forall i :: 0 <= i < |e| && e[i] ==> k <= i < k + |g|
    requires !IsZero(e)
    ensures !IsZero(Run(g, Zeros(|g|), e))
  {
    var w, n := e[k..k + |g|], |e| - k - |g|;
    WindowSplit(e, k, |g|);
    PaddedWindow(g, k, w, n);
    ZerosKeepNonzero(g, w, |g|);
    ZerosKeepNonzero(g, Run(g, w, Zeros(|g|)), n);
  }

  lemma WindowSplit(e: Bits, k: nat, w: nat)
    requires k + w <= |e| && !IsZero(e)
    requires forall i :: 0 <= i < |e| && e[i] ==> k <= i < k + w
    ensures !IsZero(e[k..k + w])
    ensures e == Zeros(k) + e[k..k + w] + Zeros(|e| - k - w)
  {
    var i :| 0 <= i < |e| && e[i];
    assert e[k..k + w][i - k];
  }

  // ------------------------------------------------------- polynomial division

  /** Coefficient of `x^e`; zero outside the string. */
  function Coef(p: Bits, e: int): bool {
    0 <= e < |p| && p[|p| - 1 - e]
  }

  /** Coefficient of `x^e` in the product `q * p`, by Horner's rule on `q`. */
  function MulCoef(q: Bits, p: Bits, e: int): bool
    decreases |q|
  {
    if q == [] then false
    else MulCoef(q[..|q| - 1], p, e - 1) != (q[|q| - 1] && Coef(p, e))
  }

  /** The bits at which the register subtracts the generator. */
  function Quotient(g: Bits, r: Bits, m: Bits): (q: Bits)
    requires |r| == |g| > 0
    ensures |q| == |m|
    decreases |m|
  {
    if m == [] then []
    else
      var m' := m[..|m| - 1];
      Quotient(g, r, m') + [Run(g, r, m')[0] != m[|m| - 1]]
  }

  /** `q * (x^w + g) + rem` is the polynomial `m * x^w + r * x^|m|`. */
  ghost predicate Divides(g: Bits, r: Bits, m: Bits, q: Bits, rem: Bits) {
    forall e: int {:trigger Coef(rem, e)} ::
      (Coef(m, e - |g|) != Coef(r, e - |m|)) == (MulCoef(q, [true] + g, e) != Coef(rem, e))
  }

  /** What the register holds is the remainder: `m * x^w + r * x^|m|` reduced by the
      generator. */
  lemma {:induction false} RunDivides(g: Bits, r: Bits, m: Bits)
    requires |r| == |g| > 0
    ensures Divides(g, r, m, Quotient(g, r, m), Run(g, r, m))
    decreases |m|
  {
    if m != [] {
      var m', b := m[..|m| - 1], m[|m| - 1];
      RunDivides(g, r, m');
      DividesSnoc(g, r, m', Quotient(g, r, m'), Run(g, r, m'), b);
      RunSnoc(g, r, m', b);
      assert m' + [b] == m;
    }
  }

  lemma DividesSnoc(g: Bits, r: Bits, m: Bits, q: Bits, s: Bits, b: bool)
    requires |r| == |s| == |g| > 0
    requires Divides(g, r, m, q, s)
    ensures Divides(g, r, m + [b], q + [s[0] != b], Step(g, s, b))
  {
    hide MulCoef, Coef, Step;
    forall e: int
      ensures (Coef(m + [b], e - |g|) != Coef(r, e - |m| - 1))
           == (MulCoef(q + [s[0] != b], [true] + g, e) != Coef(Step(g, s, b), e))
    {
      DivisionStep(g, r, m, q, s, b, e);
    }
  }

  lemma DivisionStep(g: Bits, r: Bits, m: Bits, q: Bits, s: Bits, b: bool, e: int)
    requires |r| == |s| == |g| > 0
    requires Divides(g, r, m, q, s)
    ensures (Coef(m + [b], e - |g|) != Coef(r, e - |m| - 1))
         == (MulCoef(q + [s[0] != b], [true] + g, e) != Coef(Step(g, s, b), e))
  {
    var c, w, full := s[0] != b, |g|, [true] + g;
    assert (q + [c])[..|q|] == q;
    assert MulCoef(q + [c], full, e) == (MulCoef(q, full, e - 1) != (c && Coef(full, e)));
    assert Coef(s, e - 1) == Coef(s, e - 1);
    assert (Coef(m, e - 1 - w) != Coef(r, e - 1 - |m|)) == (MulCoef(q, full, e - 1) != Coef(s, e - 1));
    assert Coef(m + [b], e - w) == if e == w then b else Coef(m, e - 1 - w);
    assert Coef(full, e) == if e == w then true else Coef(g, e);
    if 0 <= e < w {
      assert Step(g, s, b)[w - 1 - e] == ((if e == 0 then false else s[w - e]) != (c && g[w - 1 - e]));
    }
  }

  /** The product of a nonzero quotient with the generator has degree at least `w`. */
  lemma {:induction false} ProductIsLong(g: Bits, q: Bits, d: nat)
    requires Coef(q, d) && forall e :: e > d ==> !Coef(q, e)
    ensures MulCoef(q, [true] + g, d + |g|)
    decreases |q|
  {
    var q', c := q[..|q| - 1], q[|q| - 1];
    var full := [true] + g;
    assert forall e :: Coef(q', e) == (e >= 0 && Coef(q, e + 1));
    if d > 0 {
      assert forall e :: e > d - 1 ==> !Coef(q', e) by {
        forall e | e > d - 1 ensures !Coef(q', e) { assert !Coef(q, e + 1); }
      }
      ProductIsLong(g, q', d - 1);
      assert !Coef(full, d + |g|);
    } else {
      assert IsZero(q') by {
        forall i | 0 <= i < |q'| ensures !q'[i] {
          assert !Coef(q, |q| - 1 - i);
        }
      }
      MulZero(q', full, |g| - 1);
      assert Coef(full, |g|);
    }
  }

  lemma {:induction false} MulZero(q: Bits, p: Bits, e: int)
    requires IsZero(q)
    ensures !MulCoef(q, p, e)
    decreases |q|
  {
    if q != [] {
      MulZero(q[..|q| - 1], p, e - 1);
    }
  }

  lemma {:induction false} MulXor(q1: Bits, q2: Bits, p: Bits, e: int)
    requires |q1| == |q2|
    ensures MulCoef(Xor(q1, q2), p, e) == (MulCoef(q1, p, e) != MulCoef(q2, p, e))
    decreases |q1|
  {
    if q1 != [] {
      var n := |q1| - 1;
      MulXor(q1[..n], q2[..n], p, e - 1);
      assert Xor(q1, q2)[..n] == Xor(q1[..n], q2[..n]);
    }
  }

  /** Division with remainder is unique: any other quotient of the same length with a
      remainder of degree below `w` has the same remainder, hence the register holds
      *the* remainder. */
  lemma RemainderUnique(g: Bits, r: Bits, m: Bits, q1: Bits, q2: Bits, s1: Bits, s2: Bits)
    requires |r| == |s1| == |s2| == |g| > 0 && |q1| == |q2|
    requires Divides(g, r, m, q1, s1) && Divides(g, r, m, q2, s2)
    ensures s1 == s2
  {
    var full, q, w := [true] + g, Xor(q1, q2), |g|;
    forall e: int
      ensures MulCoef(q, full, e) == (Coef(s1, e) != Coef(s2, e))
    {
      MulXor(q1, q2, full, e);
    }
    if IsZero(q) {
      forall i | 0 <= i < w ensures s1[i] == s2[i] {
        MulZero(q, full, w - 1 - i);
        assert Coef(s1, w - 1 - i) == s1[i] && Coef(s2, w - 1 - i) == s2[i];
      }
    } else {
      var d := Degree(q);
      NoHighCoef(g, q, s1, s2, d + w);
      ProductIsLong(g, q, d);
    }
  }

  lemma NoHighCoef(g: Bits, q: Bits, s1: Bits, s2: Bits, e: nat)
    requires |s1| <= e && |s2| <= e
    requires MulCoef(q, [true] + g, e) == (Coef(s1, e) != Coef(s2, e))
    ensures !MulCoef(q, [true] + g, e)
  {
  }

  ghost function Degree(q: Bits): (d: nat)
    requires !IsZero(q)
    ensures Coef(q, d) && forall e :: e > d ==> !Coef(q, e)
    decreases |q|
  {
    if q[0] then
      |q| - 1
    else
      assert !IsZero(q[1..]) by {
        var i :| 0 <= i < |q| && q[i];
        assert q[1..][i - 1];
      }
      assert forall e :: e != |q| - 1 ==> Coef(q[1..], e) == Coef(q, e);
      Degree(q[1..])
  }
}
