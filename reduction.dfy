/** Why the MUL gate is correct. Every party multiplies its shares of the two
    operands; the products are shares of a polynomial of twice the degree,
    which still reconstruct to the product. Every party then re-shares its
    product at the original degree and recombines, at degree N_PARTIES, the
    shares it receives from all parties: the results are shares of a
    polynomial of the original degree whose constant term is the
    recombination of the products. */
module Reduction {
  import opened ModPrime
  import opened Interpolation
  import opened Shamir

  /** The local step of a MUL gate, for every party at once: the field
      product of the party's two shares. */
  function MulShares(p: Modulus, a: map<int, int>, b: map<int, int>): (s: map<int, int>)
    ensures forall i :: i in s <==> i in a && i in b
  {
    map i | i in a && i in b :: Mul(p, a[i], b[i])
  }

  /** The shares of x's polynomial, multiplied pointwise, agree mod p with
      the product polynomial. */
  lemma ProductShare(p: Modulus, a: int, ca: seq<int>, b: int, cb: seq<int>, i: int)
    ensures var cs := MulP(SecretPoly(a, ca), SecretPoly(b, cb));
      (Mul(p, Share(p, a, ca, i), Share(p, b, cb, i)) - Eval(cs, i)) % p == 0
  {
    var pa, pb := SecretPoly(a, ca), SecretPoly(b, cb);
    var ea, eb := Eval(pa, i), Eval(pb, i);
    MulOfResidues(p, ea, eb);
    EvalMulP(pa, pb, i);
    var r := Mul(p, ea, eb);
    ModNegZero(ea * eb - r, p);
    assert -(ea * eb - r) == r - ea * eb;
  }

  /** Before degree reduction: the pointwise products of two sharings at
      degrees |ca| and |cb| reconstruct, from any d >= |ca| + |cb| + 1
      parties, to the product of the two secrets. */
  lemma {:induction false} ProductRecover(p: Modulus, a: int, ca: seq<int>, b: int, cb: seq<int>, d: nat, n: nat)
    requires |ca| + |cb| + 1 <= d <= n
    ensures Reconstruct(p, MulShares(p, ShareMap(p, a, ca, n), ShareMap(p, b, cb, n)), d, n) == Mod(p, a * b)
  {
    var pa, pb := SecretPoly(a, ca), SecretPoly(b, cb);
    var cs := MulP(pa, pb);
    var s := MulShares(p, ShareMap(p, a, ca, n), ShareMap(p, b, cb, n));
    forall i | 1 <= i <= d
      ensures (s[i] - Eval(cs, i)) % p == 0
    {
      ProductShare(p, a, ca, b, cb, i);
    }
    Recover(p, s, cs, d, n);
    EvalMulP(pa, pb, 0);
    EvalZero(pa);
    EvalZero(pb);
  }

  // ---------------------------------------------------------------------------
  // Degree reduction.

  /** What party j receives for the gate: from every party i the share, at
      j, of i's product h[i] under i's coefficients qs(i). */
  function Received(p: Modulus, h: map<int, int>, qs: int -> seq<int>, j: int, n: nat): (r: map<int, int>)
    requires HasParties(h, n)
    ensures forall i :: i in r <==> 1 <= i <= n
  {
    map i | 1 <= i <= n :: Share(p, h[i], qs(i), j)
  }

  /** Party j's output of the MUL gate: the recombination, at degree n, of
      the shares it received. */
  function Output(p: Modulus, h: map<int, int>, qs: int -> seq<int>, j: int, n: nat): int
    requires HasParties(h, n)
  {
    Reconstruct(p, Received(p, h, qs, j, n), n, n)
  }

  /** Every party's output of the MUL gate. */
  function Reduced(p: Modulus, h: map<int, int>, qs: int -> seq<int>, n: nat): (r: map<int, int>)
    requires HasParties(h, n)
    ensures forall j :: j in r <==> 1 <= j <= n
  {
    map j | 1 <= j <= n :: Output(p, h, qs, j, n)
  }

  /** The polynomial of party i's re-sharing. */
  function Resharing(h: map<int, int>, qs: int -> seq<int>, i: int): seq<int>
    requires i in h
  {
    SecretPoly(h[i], qs(i))
  }

  /** The sum over i in 1..m of Weight(n, i) times party i's re-sharing
      polynomial. */
  function Mix(h: map<int, int>, qs: int -> seq<int>, n: nat, m: nat): seq<int>
    requires HasParties(h, m)
  {
    if m == 0 then [] else AddP(Mix(h, qs, n, m - 1), ScaleP(Weight(n, m), Resharing(h, qs, m)))
  }

  /** Every party's re-sharing polynomial evaluated at x. */
  function EvalAll(h: map<int, int>, qs: int -> seq<int>, x: int, n: nat): (r: map<int, int>)
    requires HasParties(h, n)
    ensures HasParties(r, n)
  {
    map i | 1 <= i <= n :: Eval(Resharing(h, qs, i), x)
  }

  /** The mixed polynomial has at most t + 1 coefficients when every
      re-sharing does. */
  lemma {:induction false} MixLength(h: map<int, int>, qs: int -> seq<int>, t: nat, n: nat, m: nat)
    requires HasParties(h, m)
    requires forall i :: 1 <= i <= m ==> |qs(i)| <= t
    ensures |Mix(h, qs, n, m)| <= t + 1
  {
    if m > 0 {
      MixLength(h, qs, t, n, m - 1);
    }
  }

  /** The mixed polynomial evaluates to the recombination of the
      re-sharings' values. */
  lemma {:induction false} MixEval(h: map<int, int>, qs: int -> seq<int>, n: nat, m: nat, x: int)
    requires m <= n && HasParties(h, n)
    ensures Eval(Mix(h, qs, n, m), x) == Combine(n, EvalAll(h, qs, x, n), m)
  {
    if m > 0 {
      MixEval(h, qs, n, m - 1, x);
      var e := EvalAll(h, qs, x, n);
      var w, q := Weight(n, m), Resharing(h, qs, m);
      MixStep(Mix(h, qs, n, m), Mix(h, qs, n, m - 1), Combine(n, e, m), Combine(n, e, m - 1), w, q, e[m], x);
    }
  }

  /** One step of the mix: adding w times a polynomial adds w times its
      value. */
  lemma MixStep(mix: seq<int>, before: seq<int>, c: int, cBefore: int, w: int, q: seq<int>, v: int, x: int)
    requires mix == AddP(before, ScaleP(w, q)) && c == cBefore + w * v
    requires v == Eval(q, x) && Eval(before, x) == cBefore
    ensures Eval(mix, x) == c
  {
    EvalAddP(before, ScaleP(w, q), x);
    EvalScaleP(w, q, x);
  }

  /** At zero the mixed polynomial is the recombination of the products. */
  lemma {:induction false} MixAtZero(h: map<int, int>, qs: int -> seq<int>, n: nat)
    requires HasParties(h, n)
    ensures Eval(Mix(h, qs, n, n), 0) == Combine(n, h, n)
  {
    MixEval(h, qs, n, n, 0);
    var at0 := EvalAll(h, qs, 0, n);
    forall i | 1 <= i <= n
      ensures at0[i] == h[i]
    {
      EvalZero(Resharing(h, qs, i));
    }
    CombineReadsPrefix(n, at0, h, n);
  }

  /** Recombination respects congruence mod p, share by share. */
  lemma {:induction false} CombineCongruent(p: Modulus, d: nat, a: map<int, int>, b: map<int, int>, m: nat)
    requires HasParties(a, m) && HasParties(b, m)
    requires forall i :: 1 <= i <= m ==> (a[i] - b[i]) % p == 0
    ensures (Combine(d, a, m) - Combine(d, b, m)) % p == 0
  {
    if m > 0 {
      CombineCongruent(p, d, a, b, m - 1);
      var w := Weight(d, m);
      var prev := Combine(d, a, m - 1) - Combine(d, b, m - 1);
      ModScaleDiff(w, a[m], b[m], p);
      ModSumZero(prev, w * a[m] - w * b[m], p);
    }
  }

  /** A residue of c is congruent to whatever c is congruent to. */
  lemma ModNear(p: Modulus, r: int, c: int, e: int)
    requires r == Mod(p, c) && (c - e) % p == 0
    ensures (r - e) % p == 0
  {
    ModNegZero(c - r, p);
    assert -(c - r) == r - c;
    ModSumZero(r - c, c - e, p);
  }

  /** Congruence mod p carries over to equal operands. */
  lemma ModSame(p: Modulus, a: int, b: int, e: int, f: int)
    requires a == b && e == f && (b - f) % p == 0
    ensures (a - e) % p == 0
  {
  }

  /** Each sub-share party j receives is its sender's re-sharing at j, mod p. */
  lemma {:induction false} ReceivedNear(p: Modulus, h: map<int, int>, qs: int -> seq<int>, j: int, n: nat)
    requires HasParties(h, n)
    ensures forall i :: 1 <= i <= n ==>
      (Received(p, h, qs, j, n)[i] - EvalAll(h, qs, j, n)[i]) % p == 0
  {
    var got, exact := Received(p, h, qs, j, n), EvalAll(h, qs, j, n);
    forall i | 1 <= i <= n
      ensures (got[i] - exact[i]) % p == 0
    {
      ModNear(p, got[i], exact[i], exact[i]);
    }
  }

  /** A recombination of shares congruent, one by one, to exact values is
      congruent to the recombination of the exact values. */
  lemma {:induction false} RecombineNear(p: Modulus, r: int, got: map<int, int>, exact: map<int, int>, n: nat, e: int)
    requires HasParties(got, n) && HasParties(exact, n)
    requires forall i :: 1 <= i <= n ==> (got[i] - exact[i]) % p == 0
    requires r == Reconstruct(p, got, n, n) && e == Combine(n, exact, n)
    ensures (r - e) % p == 0
  {
    CombineCongruent(p, n, got, exact, n);
    ModNear(p, r, Combine(n, got, n), e);
  }

  /** Party j's output agrees mod p with the recombination, at degree n, of
      every party's re-sharing polynomial evaluated at j. */
  lemma {:induction false} ReducedShare(p: Modulus, h: map<int, int>, qs: int -> seq<int>, n: nat, j: int)
    requires HasParties(h, n) && 1 <= j <= n
    ensures (Output(p, h, qs, j, n) - Combine(n, EvalAll(h, qs, j, n), n)) % p == 0
  {
    ReceivedNear(p, h, qs, j, n);
    RecombineNear(p, Output(p, h, qs, j, n), Received(p, h, qs, j, n), EvalAll(h, qs, j, n), n, Combine(n, EvalAll(h, qs, j, n), n));
  }

  /** Party j's output agrees mod p with the mixed polynomial at j: the
      outputs are shares of the mixed polynomial. */
  lemma {:induction false} ReducedOnMix(p: Modulus, h: map<int, int>, qs: int -> seq<int>, n: nat, j: int, v: int, cs: seq<int>)
    requires HasParties(h, n) && 1 <= j <= n
    requires v == Output(p, h, qs, j, n) && cs == Mix(h, qs, n, n)
    ensures (v - Eval(cs, j)) % p == 0
  {
    ReducedShare(p, h, qs, n, j);
    MixEval(h, qs, n, n, j);
    ModSame(p, v, Output(p, h, qs, j, n), Eval(cs, j), Combine(n, EvalAll(h, qs, j, n), n));
  }

  /** Looking up party j in the map of outputs gives party j's output. */
  lemma ReducedAt(p: Modulus, h: map<int, int>, qs: int -> seq<int>, n: nat, j: int)
    requires HasParties(h, n) && 1 <= j <= n
    ensures j in Reduced(p, h, qs, n) && Reduced(p, h, qs, n)[j] == Output(p, h, qs, j, n)
  {
  }

  /** Any t + 1 outputs of the MUL gate are the values of one polynomial with
      at most t + 1 coefficients whose constant term is the recombination, at
      degree n, of the products. */
  lemma {:induction false} OutputPoly(p: Modulus, h: map<int, int>, qs: int -> seq<int>, t: nat, n: nat, r: map<int, int>)
    returns (cs: seq<int>)
    requires HasParties(h, n) && t + 1 <= n
    requires forall i :: 1 <= i <= n ==> |qs(i)| <= t
    requires HasParties(r, t + 1)
    requires forall j :: 1 <= j <= t + 1 ==> r[j] == Output(p, h, qs, j, n)
    ensures |cs| <= t + 1
    ensures Eval(cs, 0) == Combine(n, h, n)
    ensures forall j :: 1 <= j <= t + 1 ==> (r[j] - Eval(cs, j)) % p == 0
  {
    cs := Mix(h, qs, n, n);
    MixLength(h, qs, t, n, n);
    MixAtZero(h, qs, n);
    OutputsOnMix(p, h, qs, t, n, r, cs);
  }

  /** The outputs of parties 1..t + 1 are shares of the mixed polynomial. */
  lemma OutputsOnMix(p: Modulus, h: map<int, int>, qs: int -> seq<int>, t: nat, n: nat, r: map<int, int>, cs: seq<int>)
    requires HasParties(h, n) && t + 1 <= n && cs == Mix(h, qs, n, n)
    requires HasParties(r, t + 1)
    requires forall j :: 1 <= j <= t + 1 ==> r[j] == Output(p, h, qs, j, n)
    ensures forall j :: 1 <= j <= t + 1 ==> (r[j] - Eval(cs, j)) % p == 0
  {
    forall j | 1 <= j <= t + 1
      ensures (r[j] - Eval(cs, j)) % p == 0
    {
      ReducedOnMix(p, h, qs, n, j, r[j], cs);
    }
  }

  /** Degree reduction: whatever coefficients (at most t of them) each party
      re-shares its product with, the outputs of the MUL gate are shares of
      degree t of the recombination of the products, so the outputs of
      parties 1..t + 1 reconstruct it. */
  lemma {:induction false} DegreeReduction(p: Modulus, h: map<int, int>, qs: int -> seq<int>, t: nat, n: nat, r: map<int, int>)
    requires HasParties(h, n) && t + 1 <= n
    requires forall i :: 1 <= i <= n ==> |qs(i)| <= t
    requires HasParties(r, t + 1)
    requires forall j :: 1 <= j <= t + 1 ==> r[j] == Output(p, h, qs, j, n)
    ensures Reconstruct(p, r, t + 1, n) == Reconstruct(p, h, n, n)
  {
    assert Reconstruct(p, h, n, n) == Mod(p, Combine(n, h, n));
    var cs := OutputPoly(p, h, qs, t, n, r);
    Recover(p, r, cs, t + 1, n);
  }

  /** The MUL gate end to end: with 2t < n, multiplying two degree-t
      sharings pointwise, re-sharing every product at degree t and
      recombining at degree n gives a degree-t sharing of the product of
      the secrets, which t + 1 parties reconstruct. */
  lemma {:induction false} MulGateCorrect(p: Modulus, a: int, ca: seq<int>, b: int, cb: seq<int>, qs: int -> seq<int>, t: nat, n: nat)
    requires |ca| == t && |cb| == t && 2 * t < n
    requires forall i :: 1 <= i <= n ==> |qs(i)| == t
    ensures var h := MulShares(p, ShareMap(p, a, ca, n), ShareMap(p, b, cb, n));
      HasParties(h, n) && Reconstruct(p, Reduced(p, h, qs, n), t + 1, n) == Mod(p, a * b)
  {
    var h := MulShares(p, ShareMap(p, a, ca, n), ShareMap(p, b, cb, n));
    var r := Reduced(p, h, qs, n);
    forall j | 1 <= j <= t + 1
      ensures j in r && r[j] == Output(p, h, qs, j, n)
    {
      ReducedAt(p, h, qs, n, j);
    }
    DegreeReduction(p, h, qs, t, n, r);
    ProductRecover(p, a, ca, b, cb, n, n);
  }
}
