/** The Lagrange basis at zero as party.py computes it, a product of
    fractions j / (j - i), taken over exact reals; and the reconstruction sum
    built from it. Both are proved to agree with the integer weights of
    module Interpolation, so reconstruction is Shamir's. */
module Lagrange {
  import opened Binomial
  import opened ModPrime
  import opened Interpolation
  import opened Shamir

  /** The product of j over j in 1..m, j != i. */
  function Num(i: int, m: nat): int
  {
    if m == 0 then 1 else if m == i then Num(i, m - 1) else Num(i, m - 1) * m
  }

  /** The product of j - i over j in 1..m, j != i; never zero. */
  function Den(i: int, m: nat): (r: int)
    ensures r != 0
  {
    if m == 0 then 1 else if m == i then Den(i, m - 1) else Den(i, m - 1) * (m - i)
  }

  /** The product of the fractions j / (j - i) over j in 1..m, j != i. */
  function Basis(i: int, m: nat): real
  {
    (Num(i, m) as real) / (Den(i, m) as real)
  }

  /** The basis value is built one fraction at a time, skipping j == i, as
      the loop of get_lagrange builds it. */
  lemma BasisStep(i: int, m: nat)
    requires m >= 1
    ensures m == i ==> Basis(i, m) == Basis(i, m - 1)
    ensures m != i ==> Basis(i, m) == Basis(i, m - 1) * ((m as real) / ((m - i) as real))
  {
    if m != i {
      FracMul(Num(i, m - 1), Den(i, m - 1), m, m - i);
    }
  }

  /** a/b * c/d = (a c)/(b d). */
  lemma FracMul(a: int, b: int, c: int, d: int)
    requires b != 0 && d != 0
    ensures ((a as real) / (b as real)) * ((c as real) / (d as real)) == ((a * c) as real) / ((b * d) as real)
  {
    var ar, br, cr, dr := a as real, b as real, c as real, d as real;
    assert (a * c) as real == ar * cr;
    assert (b * d) as real == br * dr;
    var x, y := ar / br, cr / dr;
    assert x * br == ar && y * dr == cr;
    assert (x * y) * (br * dr) == (x * br) * (y * dr);
  }

  lemma SignStep(m: nat)
    requires m >= 1
    ensures Sign(m) == -Sign(m - 1)
  {
  }

  lemma ArithBelow(n0: int, d0: int, c0: int, c1: int, s0: int, m: int, k: int)
    requires n0 * c0 == s0 * d0 && m * c1 == -k * c0
    ensures (n0 * m) * c1 == (-s0) * (d0 * k)
  {
    assert (n0 * m) * c1 == n0 * (m * c1);
    assert n0 * (-k * c0) == -k * (n0 * c0);
    assert (-s0) * (d0 * k) == -k * (s0 * d0);
  }

  /** Below the point itself the product is (-1)^m / C(i-1, m). */
  lemma {:induction false} BasisBelow(i: nat, m: nat)
    requires m < i
    ensures Num(i, m) * Binom(i - 1, m) == Sign(m) * Den(i, m)
  {
    if m > 0 {
      BasisBelow(i, m - 1);
      Absorb(i - 1, m - 1);
      SignStep(m);
      ArithBelow(Num(i, m - 1), Den(i, m - 1), Binom(i - 1, m - 1), Binom(i - 1, m), Sign(m - 1), m, m - i);
    }
  }

  lemma ArithAbove(n0: int, d0: int, b0: int, b1: int, s: int, m: int, k: int)
    requires n0 == s * b0 * d0 && k * b1 == m * b0
    ensures n0 * m == s * b1 * (d0 * k)
  {
    assert n0 * m == s * d0 * (m * b0);
    assert s * b1 * (d0 * k) == s * d0 * (k * b1);
  }

  /** From the point itself on, the product is (-1)^(i-1) C(m, i), an
      integer. */
  lemma {:induction false} BasisAbove(i: nat, m: nat)
    requires 1 <= i <= m
    ensures Num(i, m) == Sign(i - 1) * Binom(m, i) * Den(i, m)
  {
    if m == i {
      BasisBelow(i, i - 1);
      BinomDiagonal(i - 1);
      BinomDiagonal(i);
    } else {
      BasisAbove(i, m - 1);
      AbsorbUp(m - 1, i);
      ArithAbove(Num(i, m - 1), Den(i, m - 1), Binom(m - 1, i), Binom(m, i), Sign(i - 1), m, m - i);
    }
  }

  /** For 1 <= i <= d the basis value is the integer Lagrange weight of
      Shamir reconstruction. */
  lemma BasisIsWeight(d: nat, i: nat)
    requires 1 <= i <= d
    ensures Basis(i, d) == Weight(d, i) as real
  {
    BasisAbove(i, d);
    assert Weight(d, i) == Sign(i - 1) * Binom(d, i);
    DivExact(Num(i, d), Weight(d, i), Den(i, d));
  }

  lemma DivExact(a: int, w: int, b: int)
    requires b != 0 && a == w * b
    ensures (a as real) / (b as real) == w as real
  {
    assert (w * b) as real == (w as real) * (b as real);
  }

  /** The accumulation of get_secret: the sum of basis[i] * shares[i] over
      i in 1..m, in reals. */
  function SecretSum(basis: map<int, real>, shares: map<int, int>, m: nat): real
    requires forall i :: 1 <= i <= m ==> i in basis && i in shares
  {
    if m == 0 then 0.0 else SecretSum(basis, shares, m - 1) + basis[m] * (shares[m] as real)
  }

  /** With the integer weights as basis, the real sum is the integer
      combination of Shamir reconstruction. */
  lemma {:induction false} SecretSumIsCombine(d: nat, basis: map<int, real>, shares: map<int, int>, m: nat)
    requires HasParties(shares, m) && m <= d
    requires forall i :: 1 <= i <= m ==> i in basis && basis[i] == Weight(d, i) as real
    ensures SecretSum(basis, shares, m) == Combine(d, shares, m) as real
  {
    if m > 0 {
      SecretSumIsCombine(d, basis, shares, m - 1);
      var w := Weight(d, m);
      RealStep(SecretSum(basis, shares, m - 1), basis[m], w, shares[m], Combine(d, shares, m - 1));
    }
  }

  lemma RealStep(racc: real, b: real, w: int, x: int, acc: int)
    requires racc == acc as real && b == w as real
    ensures racc + b * (x as real) == (acc + w * x) as real
  {
    assert (w * x) as real == (w as real) * (x as real);
  }

  /** The basis values of the points 1..d, as get_lagrange returns them,
      sum to one. */
  lemma BasisSumsToOne(basis: map<int, real>, d: nat)
    requires d >= 1
    requires forall i :: 1 <= i <= d ==> i in basis && basis[i] == Basis(i, d)
    ensures SecretSum(basis, Ones(d), d) == 1.0
  {
    forall i | 1 <= i <= d
      ensures basis[i] == Weight(d, i) as real
    {
      BasisIsWeight(d, i);
    }
    SecretSumIsCombine(d, basis, Ones(d), d);
    OnesCombine(d, d);
    WeightsSumToOne(d);
  }

  /** The share vector with a 1 for every party 1..d. */
  function Ones(d: nat): (s: map<int, int>)
    ensures HasParties(s, d)
    ensures forall i :: 1 <= i <= d ==> s[i] == 1
  {
    if d == 0 then map[] else Ones(d - 1)[d := 1]
  }

  lemma {:induction false} OnesCombine(d: nat, m: nat)
    requires m <= d
    ensures Combine(d, Ones(d), m) == Interp(d, [1], m)
  {
    if m > 0 {
      OnesCombine(d, m - 1);
      assert Eval([1], m) == 1;
    }
  }

  /** Summing the shares against the basis get_lagrange computes, and
      reducing the floor of the sum, is Shamir reconstruction. */
  lemma BasisReconstructs(p: Modulus, basis: map<int, real>, shares: map<int, int>, d: nat, n: nat)
    requires forall i :: 1 <= i <= n ==> i in basis && basis[i] == Basis(i, d)
    requires HasParties(shares, Min(d, n))
    ensures Mod(p, SecretSum(basis, shares, Min(d, n)).Floor) == Reconstruct(p, shares, d, n)
  {
    var m := Min(d, n);
    forall k | 1 <= k <= m
      ensures basis[k] == Weight(d, k) as real
    {
      BasisIsWeight(d, k);
    }
    SecretSumIsCombine(d, basis, shares, m);
  }
}
