/** Shamir sharing as the parties do it: a value is hidden as the constant term
    of a polynomial whose other coefficients are random, party x receives the
    polynomial's value at x reduced mod p, and any d >= degree + 1 consecutive
    shares 1..d are recombined with the integer Lagrange weights at zero. */
module Shamir {
  import opened Binomial
  import opened ModPrime
  import opened Interpolation

  /** Sum of coefs[i] * x^(i+1), accumulated left to right as the split loop
      accumulates it. */
  function Masking(coefs: seq<int>, x: int): int
  {
    if coefs == [] then 0
    else Masking(coefs[..|coefs| - 1], x) + coefs[|coefs| - 1] * Pow(x, |coefs|)
  }

  /** The secret polynomial: value as constant term, then the coefficients. */
  function SecretPoly(value: int, coefs: seq<int>): seq<int>
  {
    [value] + coefs
  }

  /** The share party x receives. */
  function Share(p: Modulus, value: int, coefs: seq<int>, x: int): (r: int)
    ensures 0 <= r < p
    ensures r == Mod(p, Eval(SecretPoly(value, coefs), x))
  {
    MaskingIsEval(coefs, x);
    assert SecretPoly(value, coefs)[1..] == coefs;
    Mod(p, value + Masking(coefs, x))
  }

  /** Coefficients as drawn by the split: DEGREE of them, each in [0, p - 1). */
  predicate ValidCoefs(p: Modulus, degree: nat, coefs: seq<int>)
  {
    |coefs| == degree && forall c :: c in coefs ==> 0 <= c < p - 1
  }

  /** One coefficient as the split draws it, int(u * (p - 1)) for a uniform
      draw u in [0, 1); the draw itself is a parameter. */
  function DrawCoef(p: Modulus, u: real): (c: int)
    requires 0.0 <= u < 1.0
    ensures 0 <= c < p - 1
  {
    var q := (p - 1) as real;
    assert u * q < q by {
      assert q - u * q == (1.0 - u) * q;
    }
    (u * q).Floor
  }

  /** The DEGREE coefficients of one split, from DEGREE draws. */
  function DrawCoefs(p: Modulus, us: seq<real>): (coefs: seq<int>)
    requires forall j :: 0 <= j < |us| ==> 0.0 <= us[j] < 1.0
    ensures ValidCoefs(p, |us|, coefs)
  {
    if us == [] then [] else DrawCoefs(p, us[..|us| - 1]) + [DrawCoef(p, us[|us| - 1])]
  }

  lemma {:induction false} EvalSnoc(cs: seq<int>, c: int, x: int)
    ensures Eval(cs + [c], x) == Eval(cs, x) + c * Pow(x, |cs|)
    decreases |cs|
  {
    if cs != [] {
      assert (cs + [c])[1..] == cs[1..] + [c];
      EvalSnoc(cs[1..], c, x);
      var e, q := Eval(cs[1..], x), Pow(x, |cs| - 1);
      assert x * (e + c * q) == x * e + c * (x * q);
    }
  }

  lemma {:induction false} MaskingIsEval(coefs: seq<int>, x: int)
    ensures Masking(coefs, x) == x * Eval(coefs, x)
    decreases |coefs|
  {
    if coefs != [] {
      var init, last := coefs[..|coefs| - 1], coefs[|coefs| - 1];
      assert coefs == init + [last];
      MaskingIsEval(init, x);
      EvalSnoc(init, last, x);
      var e, q := Eval(init, x), Pow(x, |init|);
      assert Pow(x, |coefs|) == x * q;
      MaskingArith(x, e, last, q);
    }
  }

  lemma MaskingArith(x: int, e: int, c: int, q: int)
    ensures x * e + c * (x * q) == x * (e + c * q)
  {
    assert c * (x * q) == x * (c * q);
    assert x * (e + c * q) == x * e + x * (c * q);
  }

  /** The shares of all parties 1..n, keyed by party number. */
  function ShareMap(p: Modulus, value: int, coefs: seq<int>, n: nat): (m: map<int, int>)
    ensures forall i :: i in m <==> 1 <= i <= n
  {
    map i | 1 <= i <= n :: Share(p, value, coefs, i)
  }

  // ---------------------------------------------------------------------------
  // Reconstruction.

  function Min(a: nat, b: nat): nat
  {
    if a < b then a else b
  }

  predicate HasParties(shares: map<int, int>, m: nat)
  {
    forall i :: 1 <= i <= m ==> i in shares
  }

  /** Sum of Weight(d, i) * shares[i] for i in 1..m. */
  function Combine(d: nat, shares: map<int, int>, m: nat): int
    requires HasParties(shares, m)
  {
    if m == 0 then 0 else Combine(d, shares, m - 1) + Weight(d, m) * shares[m]
  }

  /** The secret recombined from the shares of parties 1..d (only those of
      them that exist among 1..n), reduced mod p. */
  function Reconstruct(p: Modulus, shares: map<int, int>, d: nat, n: nat): (r: int)
    requires HasParties(shares, Min(d, n))
    ensures 0 <= r < p
  {
    Mod(p, Combine(d, shares, Min(d, n)))
  }

  /** Only the shares of parties 1..min(d, n) matter. */
  lemma {:induction false} CombineReadsPrefix(d: nat, a: map<int, int>, b: map<int, int>, m: nat)
    requires HasParties(a, m) && HasParties(b, m)
    requires forall i :: 1 <= i <= m ==> a[i] == b[i]
    ensures Combine(d, a, m) == Combine(d, b, m)
  {
    if m > 0 {
      CombineReadsPrefix(d, a, b, m - 1);
    }
  }

  lemma ReconstructReadsPrefix(p: Modulus, a: map<int, int>, b: map<int, int>, d: nat, n: nat)
    requires HasParties(a, Min(d, n)) && HasParties(b, Min(d, n))
    requires forall i :: 1 <= i <= Min(d, n) ==> a[i] == b[i]
    ensures Reconstruct(p, a, d, n) == Reconstruct(p, b, d, n)
  {
    CombineReadsPrefix(d, a, b, Min(d, n));
  }

  /** Combining is linear up to multiples of p: the combination of the
      pointwise field sums is the sum of the combinations, mod p. */
  lemma {:induction false} CombineAdd(p: Modulus, d: nat, a: map<int, int>, b: map<int, int>, m: nat)
    requires HasParties(a, m) && HasParties(b, m)
    ensures HasParties(AddShares(p, a, b), m)
    ensures (Combine(d, AddShares(p, a, b), m) - Combine(d, a, m) - Combine(d, b, m)) % p == 0
  {
    if m > 0 {
      CombineAdd(p, d, a, b, m - 1);
      var s := AddShares(p, a, b);
      var x, y, z := s[m], a[m], b[m];
      assert x == Add(p, y, z);
      ModNegZero(y + z - x, p);
      assert -(y + z - x) == x - y - z;
      CongruentStep(p, d, s, a, b, m);
    }
  }

  lemma CongruentStep(p: Modulus, d: nat, s: map<int, int>, a: map<int, int>, b: map<int, int>, m: nat)
    requires m > 0 && HasParties(s, m) && HasParties(a, m) && HasParties(b, m)
    requires (s[m] - a[m] - b[m]) % p == 0
    requires (Combine(d, s, m - 1) - Combine(d, a, m - 1) - Combine(d, b, m - 1)) % p == 0
    ensures (Combine(d, s, m) - Combine(d, a, m) - Combine(d, b, m)) % p == 0
  {
    var w := Weight(d, m);
    var cs, ca, cb := Combine(d, s, m - 1), Combine(d, a, m - 1), Combine(d, b, m - 1);
    StepCongruent(cs, ca, cb, w, s[m], a[m], b[m], p);
    assert Combine(d, s, m) == cs + w * s[m];
    assert Combine(d, a, m) == ca + w * a[m];
    assert Combine(d, b, m) == cb + w * b[m];
  }

  lemma StepCongruent(cs: int, ca: int, cb: int, w: int, x: int, y: int, z: int, p: int)
    requires p > 0 && (cs - ca - cb) % p == 0 && (x - y - z) % p == 0
    ensures (cs + w * x - (ca + w * y) - (cb + w * z)) % p == 0
  {
    var prev := cs - ca - cb;
    assert cs + w * x - (ca + w * y) - (cb + w * z) == prev + w * x - w * y - w * z;
    assert x - (y + z) == x - y - z;
    ModScaleDiff(w, x, y + z, p);
    assert w * (y + z) == w * y + w * z;
    ModSumZero(prev, w * x - w * (y + z), p);
    assert prev + (w * x - w * (y + z)) == prev + w * x - w * y - w * z;
  }

  lemma {:induction false} CombineEval(p: Modulus, d: nat, s: map<int, int>, cs: seq<int>, m: nat)
    requires HasParties(s, m)
    requires forall i :: 1 <= i <= m ==> (s[i] - Eval(cs, i)) % p == 0
    ensures (Combine(d, s, m) - Interp(d, cs, m)) % p == 0
  {
    if m > 0 {
      CombineEval(p, d, s, cs, m - 1);
      var w := Weight(d, m);
      var prev := Combine(d, s, m - 1) - Interp(d, cs, m - 1);
      var x, y := s[m], Eval(cs, m);
      ModScaleDiff(w, x, y, p);
      ModSumZero(prev, w * x - w * y, p);
    }
  }

  /** Shares that agree mod p with a polynomial having at most d coefficients
      recombine to its constant term. */
  lemma Recover(p: Modulus, s: map<int, int>, cs: seq<int>, d: nat, n: nat)
    requires |cs| <= d <= n
    requires HasParties(s, d)
    requires forall i :: 1 <= i <= d ==> (s[i] - Eval(cs, i)) % p == 0
    ensures Reconstruct(p, s, d, n) == Mod(p, Eval(cs, 0))
  {
    CombineEval(p, d, s, cs, d);
    Interpolate(d, cs);
    ModDiffEq(Combine(d, s, d), Eval(cs, 0), p);
  }

  /** Round trip: the shares of value under a polynomial of degree
      |coefs| recombine, from any d in |coefs| + 1 .. n, to value mod p. */
  lemma RoundTrip(p: Modulus, value: int, coefs: seq<int>, d: nat, n: nat)
    requires |coefs| + 1 <= d <= n
    ensures Reconstruct(p, ShareMap(p, value, coefs, n), d, n) == Mod(p, value)
  {
    var s, cs := ShareMap(p, value, coefs, n), SecretPoly(value, coefs);
    forall i | 1 <= i <= d
      ensures (s[i] - Eval(cs, i)) % p == 0
    {
      var e := Eval(cs, i);
      assert s[i] == Mod(p, e);
      ModNegZero(e - s[i], p);
      assert -(e - s[i]) == s[i] - e;
    }
    Recover(p, s, cs, d, n);
    EvalZero(cs);
  }

  /** Pointwise field sum of two share vectors. */
  function AddShares(p: Modulus, a: map<int, int>, b: map<int, int>): (s: map<int, int>)
    ensures forall i :: i in s <==> i in a && i in b
  {
    map i | i in a && i in b :: Add(p, a[i], b[i])
  }

  /** Linearity: recombining the sum of two share vectors gives the field sum
      of their recombinations. */
  lemma ReconstructAdd(p: Modulus, a: map<int, int>, b: map<int, int>, d: nat, n: nat)
    requires HasParties(a, Min(d, n)) && HasParties(b, Min(d, n))
    ensures Reconstruct(p, AddShares(p, a, b), d, n)
         == Add(p, Reconstruct(p, a, d, n), Reconstruct(p, b, d, n))
  {
    var m := Min(d, n);
    var s := AddShares(p, a, b);
    CombineAdd(p, d, a, b, m);
    var cs, ca, cb := Combine(d, s, m), Combine(d, a, m), Combine(d, b, m);
    ModDiffEq(cs, ca + cb, p);
    ModAdd(ca, cb, p);
  }
}
