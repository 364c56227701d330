/** Integer powers, signs and binomial coefficients: the combinatorial facts
    behind Fermat's inverse (modprime.py) and the Lagrange basis at zero
    (party.py). */
module Binomial {

  /** x^n over the integers (Python's `**` on int). */
  function Pow(x: int, n: nat): int
  {
    if n == 0 then 1 else x * Pow(x, n - 1)
  }

  /** (-1)^k. */
  function Sign(k: nat): (s: int)
    ensures s == 1 || s == -1
  {
    if k % 2 == 0 then 1 else -1
  }

  /** The binomial coefficient C(n, k), by Pascal's rule. */
  function Binom(n: nat, k: nat): nat
  {
    if k == 0 then 1
    else if n == 0 then 0
    else Binom(n - 1, k - 1) + Binom(n - 1, k)
  }

  lemma {:induction false} BinomAbove(n: nat, k: nat)
    requires k > n
    ensures Binom(n, k) == 0
  {
    if n > 0 {
      BinomAbove(n - 1, k - 1);
      BinomAbove(n - 1, k);
    }
  }

  lemma {:induction false} BinomDiagonal(n: nat)
    ensures Binom(n, n) == 1
  {
    if n > 0 {
      BinomDiagonal(n - 1);
      BinomAbove(n - 1, n);
    }
  }

  lemma Distrib(x: int, y: int, z: int)
    ensures x * (y + z) == x * y + x * z
    ensures (x + y) * z == x * z + y * z
  {
  }

  /** (k+1) C(n, k+1) = (n-k) C(n, k). */
  lemma {:induction false} Absorb(n: nat, k: nat)
    ensures (k + 1) * Binom(n, k + 1) == (n - k) * Binom(n, k)
  {
    if n == 0 {
      if k > 0 { BinomAbove(0, k); }
      BinomAbove(0, k + 1);
    } else {
      Absorb(n - 1, k);
      var a, b := Binom(n - 1, k), Binom(n - 1, k + 1);
      assert Binom(n, k + 1) == a + b;
      assert (k + 1) * b == (n - 1 - k) * a;
      Distrib(k + 1, a, b);
      Distrib(k + 1, n - 1 - k, a);
      assert (k + 1) * Binom(n, k + 1) == n * a;
      if k > 0 {
        Absorb(n - 1, k - 1);
        var c := Binom(n - 1, k - 1);
        assert k * a == (n - k) * c;
        assert Binom(n, k) == c + a;
        Distrib(n - k, c, a);
        Distrib(k, n - k, a);
      }
    }
  }

  /** (n+1-k) C(n+1, k) = (n+1) C(n, k). */
  lemma AbsorbUp(n: nat, k: nat)
    ensures (n + 1 - k) * Binom(n + 1, k) == (n + 1) * Binom(n, k)
  {
    if k > 0 {
      Absorb(n, k - 1);
      var c, a := Binom(n, k - 1), Binom(n, k);
      assert Binom(n + 1, k) == c + a;
      assert k * a == (n + 1 - k) * c;
      Distrib(n + 1 - k, c, a);
      Distrib(k, n + 1 - k, a);
    }
  }
}
