/** Arithmetic modulo the configured prime (modprime.py). Every operation is an
    ordinary integer operation followed by Python's `%`, whose result for a
    positive modulus is never negative, exactly like Dafny's `%`. */
module ModPrime {
  import opened Binomial

  /** PRIME: the configuration guarantees PRIME > N_PARTIES >= 1. */
  type Modulus = p: int | 2 <= p witness 2

  predicate Divides(k: int, n: int)
  {
    k != 0 && n % k == 0
  }

  /** Primality of PRIME is assumed by the program, never checked. */
  predicate IsPrime(p: int)
  {
    p >= 2 && forall k :: 2 <= k < p ==> !Divides(k, p)
  }

  // ---------------------------------------------------------------------------
  // Facts about Dafny's `%` used throughout.

  lemma ModUnique(a: int, p: int, q: int, r: int)
    requires p > 0 && 0 <= r < p && a == p * q + r
    ensures a % p == r && a / p == q
  {
    var q0, r0 := a / p, a % p;
    assert a == p * q0 + r0;
    if q > q0 {
      assert p * q == p * (q - q0) + p * q0;
      MulAtLeast(p, q - q0);
      assert false;
    } else if q < q0 {
      assert p * q0 == p * (q0 - q) + p * q;
      MulAtLeast(p, q0 - q);
      assert false;
    }
  }

  lemma MulAtLeast(p: int, t: int)
    requires p > 0 && t >= 1
    ensures p * t >= p
  {
    assert p * t == p * (t - 1) + p;
  }

  lemma ModAddMultiple(a: int, k: int, p: int)
    requires p > 0
    ensures (a + k * p) % p == a % p
  {
    assert a + k * p == p * (a / p + k) + a % p;
    ModUnique(a + k * p, p, a / p + k, a % p);
  }

  lemma ModMultiple(k: int, p: int)
    requires p > 0
    ensures (k * p) % p == 0
  {
    ModAddMultiple(0, k, p);
  }

  lemma ModOfMod(a: int, p: int)
    requires p > 0
    ensures (a % p) % p == a % p
  {
    ModUnique(a % p, p, 0, a % p);
  }

  /** Two integers with the same remainder differ by a multiple of p. */
  lemma ModEqDiff(a: int, b: int, p: int)
    requires p > 0 && a % p == b % p
    ensures (a - b) % p == 0
  {
    assert a - b == p * (a / p - b / p);
    ModUnique(a - b, p, a / p - b / p, 0);
  }

  lemma ModDiffEq(a: int, b: int, p: int)
    requires p > 0 && (a - b) % p == 0
    ensures a % p == b % p
  {
    var k := (a - b) / p;
    assert a - b == p * k;
    ModAddMultiple(b, k, p);
    assert a == b + k * p;
  }

  lemma ModAdd(a: int, b: int, p: int)
    requires p > 0
    ensures (a + b) % p == (a % p + b % p) % p
  {
    assert a + b == (a % p + b % p) + (a / p + b / p) * p;
    ModAddMultiple(a % p + b % p, a / p + b / p, p);
  }

  lemma ModMul(a: int, b: int, p: int)
    requires p > 0
    ensures (a * b) % p == ((a % p) * (b % p)) % p
  {
    var qa, ra, qb, rb := a / p, a % p, b / p, b % p;
    assert a == qa * p + ra;
    assert b == qb * p + rb;
    assert a * b == ra * rb + (qa * b + ra * qb) * p by {
      Distrib(qa * p, ra, b);
      assert a * b == qa * p * b + ra * b;
      assert ra * b == ra * (qb * p) + ra * rb;
    }
    ModAddMultiple(ra * rb, qa * b + ra * qb, p);
  }

  lemma ShiftedMultiple(x: int, y: int, z: int, p: int)
    requires p > 0 && x == y + z && (y - 1) % p == 0
    ensures (x - z - 1) % p == 0
  {
  }

  /** Reducing the left operand first does not change the result. */
  lemma ModAddLeft(a: int, b: int, p: int)
    requires p > 0
    ensures (a % p + b) % p == (a + b) % p
  {
    assert a + b == (a % p + b) + (a / p) * p;
    ModAddMultiple(a % p + b, a / p, p);
  }

  lemma ModMulLeft(a: int, b: int, p: int)
    requires p > 0
    ensures ((a % p) * b) % p == (a * b) % p
  {
    var q, r := a / p, a % p;
    assert a * b == r * b + (q * b) * p by {
      assert a == q * p + r;
      Distrib(q * p, r, b);
    }
    ModAddMultiple(r * b, q * b, p);
  }

  lemma ModSumZero(a: int, b: int, p: int)
    requires p > 0 && a % p == 0 && b % p == 0
    ensures (a + b) % p == 0
  {
    ModAdd(a, b, p);
  }

  lemma ModProductZero(a: int, b: int, p: int)
    requires p > 0 && a % p == 0
    ensures (a * b) % p == 0
  {
    ModMul(a, b, p);
  }

  lemma ModNegZero(a: int, p: int)
    requires p > 0 && a % p == 0
    ensures (-a) % p == 0
  {
    var q := a / p;
    assert a == p * q;
    ModUnique(-a, p, -q, 0);
  }

  /** Scaling preserves congruence. */
  lemma ModScaleDiff(w: int, x: int, y: int, p: int)
    requires p > 0 && (x - y) % p == 0
    ensures (w * x - w * y) % p == 0
  {
    assert w * x - w * y == (x - y) * w;
    ModProductZero(x - y, w, p);
  }

  // ---------------------------------------------------------------------------
  // modprime.py

  /** mod(a) = a % PRIME */
  function Mod(p: Modulus, a: int): (r: int)
    ensures 0 <= r < p
    ensures (a - r) % p == 0
  {
    ModEqDiff(a, a % p, p);
    ModOfMod(a, p);
    a % p
  }

  /** add(a, b) = (a + b) % PRIME: the residue of the sum. */
  function Add(p: Modulus, a: int, b: int): (r: int)
    ensures 0 <= r < p
    ensures (a + b - r) % p == 0
  {
    Mod(p, a + b)
  }

  /** sub(a, b) = (a - b) % PRIME: the residue of the difference. */
  function Sub(p: Modulus, a: int, b: int): (r: int)
    ensures 0 <= r < p
    ensures (a - b - r) % p == 0
  {
    Mod(p, a - b)
  }

  /** mul(a, b) = (a * b) % PRIME: the residue of the product. */
  function Mul(p: Modulus, a: int, b: int): (r: int)
    ensures 0 <= r < p
    ensures (a * b - r) % p == 0
  {
    Mod(p, a * b)
  }

  /** inv(a) = pow(a, PRIME-2, PRIME): Fermat's inverse, never failing. */
  function Inv(p: Modulus, a: int): (r: int)
    ensures 0 <= r < p
  {
    Pow(a, p - 2) % p
  }

  /** div(a, b) = mul(a, inv(b)) */
  function Div(p: Modulus, a: int, b: int): (r: int)
    ensures 0 <= r < p
  {
    Mul(p, a, Inv(p, b))
  }

  /** functools.reduce(add, list): the first element is the initial value and is
      returned unreduced when it is alone; an empty list is an error (None). */
  function Summation(p: Modulus, xs: seq<int>): (r: Option<int>)
  {
    if xs == [] then None else Some(FoldAdd(p, xs[0], xs[1..]))
  }

  function FoldAdd(p: Modulus, acc: int, xs: seq<int>): int
    decreases |xs|
  {
    if xs == [] then acc else FoldAdd(p, Add(p, acc, xs[0]), xs[1..])
  }

  /** functools.reduce(mul, list), with the same conventions as Summation. */
  function Product(p: Modulus, xs: seq<int>): (r: Option<int>)
  {
    if xs == [] then None else Some(FoldMul(p, xs[0], xs[1..]))
  }

  function FoldMul(p: Modulus, acc: int, xs: seq<int>): int
    decreases |xs|
  {
    if xs == [] then acc else FoldMul(p, Mul(p, acc, xs[0]), xs[1..])
  }

  datatype Option<T> = None | Some(value: T)

  /** Plain integer sum and product of a list. */
  function Sum(xs: seq<int>): int
  {
    if xs == [] then 0 else xs[0] + Sum(xs[1..])
  }

  function Prod(xs: seq<int>): int
  {
    if xs == [] then 1 else xs[0] * Prod(xs[1..])
  }

  // ---------------------------------------------------------------------------
  // Properties of the field operations.

  lemma ModIdempotent(p: Modulus, a: int)
    ensures Mod(p, Mod(p, a)) == Mod(p, a)
  {
    ModOfMod(a, p);
  }

  lemma AddCommutes(p: Modulus, a: int, b: int)
    ensures Add(p, a, b) == Add(p, b, a)
  {
  }

  lemma MulCommutes(p: Modulus, a: int, b: int)
    ensures Mul(p, a, b) == Mul(p, b, a)
  {
  }

  /** add(a, b) == mod(mod(a) + mod(b)) */
  lemma AddOfResidues(p: Modulus, a: int, b: int)
    ensures Add(p, a, b) == Mod(p, Mod(p, a) + Mod(p, b))
    ensures Add(p, Mod(p, a), Mod(p, b)) == Add(p, a, b)
  {
    ModAdd(a, b, p);
  }

  /** mul(a, b) == mod(mod(a) * mod(b)) */
  lemma MulOfResidues(p: Modulus, a: int, b: int)
    ensures Mul(p, a, b) == Mod(p, Mod(p, a) * Mod(p, b))
    ensures Mul(p, Mod(p, a), Mod(p, b)) == Mul(p, a, b)
  {
    ModMul(a, b, p);
  }

  /** sub undoes add: add(sub(a, b), b) == mod(a). */
  lemma SubThenAdd(p: Modulus, a: int, b: int)
    ensures Add(p, Sub(p, a, b), b) == Mod(p, a)
  {
    var s := Sub(p, a, b);
    calc {
      Add(p, s, b);
      (s + b) % p;
      ((a - b) % p + b) % p;
      { ModAddLeft(a - b, b, p); }
      (a - b + b) % p;
      { assert a - b + b == a; }
      a % p;
    }
  }

  /** For a reduced a, inv(0) is 0 except for the degenerate modulus 2, where
      pow(0, 0, 2) is 1. */
  lemma InvZero(p: Modulus)
    ensures Inv(p, 0) == if p == 2 then 1 else 0
  {
    if p > 2 {
      assert Pow(0, p - 2) == 0 * Pow(0, p - 3);
    } else {
      ModUnique(1, 2, 0, 1);
    }
  }

  lemma {:induction false} FoldAddIsSum(p: Modulus, acc: int, xs: seq<int>)
    requires xs != []
    ensures FoldAdd(p, acc, xs) == (acc + Sum(xs)) % p
    decreases |xs|
  {
    var x, rest := xs[0], xs[1..];
    var a := Add(p, acc, x);
    assert a == (acc + x) % p;
    if rest == [] {
      assert Sum(xs) == x;
    } else {
      var s, t := Sum(rest), acc + x;
      calc {
        FoldAdd(p, acc, xs);
        FoldAdd(p, a, rest);
        { FoldAddIsSum(p, a, rest); }
        (a + s) % p;
        (t % p + s) % p;
        { ModAddLeft(t, s, p); }
        (t + s) % p;
        { assert t + s == acc + Sum(xs); }
        (acc + Sum(xs)) % p;
      }
    }
  }

  /** summation of two or more values is their sum reduced mod PRIME; a single
      value comes back as it is; an empty list has no result. */
  lemma SummationIsSum(p: Modulus, xs: seq<int>)
    ensures xs == [] ==> Summation(p, xs) == None
    ensures |xs| == 1 ==> Summation(p, xs) == Some(xs[0])
    ensures |xs| >= 2 ==> Summation(p, xs) == Some(Sum(xs) % p)
  {
    if |xs| >= 2 {
      FoldAddIsSum(p, xs[0], xs[1..]);
    }
  }

  lemma {:induction false} FoldMulIsProd(p: Modulus, acc: int, xs: seq<int>)
    requires xs != []
    ensures FoldMul(p, acc, xs) == (acc * Prod(xs)) % p
    decreases |xs|
  {
    var x, rest := xs[0], xs[1..];
    var a := Mul(p, acc, x);
    assert a == (acc * x) % p;
    if rest == [] {
      assert Prod(xs) == x * 1;
    } else {
      FoldMulIsProd(p, a, rest);
      var s := Prod(rest);
      ModMulLeft(acc * x, s, p);
      assert (acc * x) * s == acc * (x * s);
      assert Prod(xs) == x * s;
    }
  }

  /** product of two or more values is their product reduced mod PRIME, with
      the same conventions as summation. */
  lemma ProductIsProd(p: Modulus, xs: seq<int>)
    ensures xs == [] ==> Product(p, xs) == None
    ensures |xs| == 1 ==> Product(p, xs) == Some(xs[0])
    ensures |xs| >= 2 ==> Product(p, xs) == Some(Prod(xs) % p)
  {
    if |xs| >= 2 {
      FoldMulIsProd(p, xs[0], xs[1..]);
    }
  }

  /** Euclid's lemma: a prime dividing a product of a unit and b divides b. */
  lemma {:induction false} Euclid(p: int, a: int, b: int)
    requires IsPrime(p) && 0 < a < p && (a * b) % p == 0
    ensures b % p == 0
    decreases a
  {
    if a > 1 {
      assert !Divides(a, p);
      var r := EuclidStep(p, a, b);
      Euclid(p, r, b);
    }
  }

  /** One step of Euclid's algorithm on (p, a): the remainder r = p mod a is
      a smaller unit, and p still divides r b. */
  lemma EuclidStep(p: int, a: int, b: int) returns (r: int)
    requires 1 < a < p && !Divides(a, p) && (a * b) % p == 0
    ensures r == p % a && 0 < r < a && (r * b) % p == 0
  {
    var q := p / a;
    r := p % a;
    assert p == a * q + r;
    var m := (a * b) / p;
    assert a * b == p * m;
    RemainderProduct(p, a, b, q, r, m);
    ModUnique(r * b, p, b - q * m, 0);
  }

  lemma RemainderProduct(p: int, a: int, b: int, q: int, r: int, m: int)
    requires p == a * q + r && a * b == p * m
    ensures r * b == p * (b - q * m)
  {
    Distrib(a * q, r, b);
    assert p * b == a * q * b + r * b;
    assert a * q * b == q * (a * b);
  }

  /** A prime p divides C(p, k) for 0 < k < p. */
  lemma PrimeDividesBinom(p: int, k: nat)
    requires IsPrime(p) && 0 < k < p
    ensures Binom(p, k) % p == 0
  {
    AbsorbUp(p - 1, k);
    assert (p - k) * Binom(p, k) == p * Binom(p - 1, k);
    ModMultiple(Binom(p - 1, k), p);
    Euclid(p, p - k, Binom(p, k));
  }

  /** Partial binomial expansion: sum of C(n, j) a^j for j in 0..m. */
  function BinSum(n: nat, a: int, m: nat): int
  {
    if m == 0 then 1 else BinSum(n, a, m - 1) + Binom(n, m) * Pow(a, m)
  }

  lemma {:induction false} BinSumStep(n: nat, a: int, m: nat)
    ensures BinSum(n + 1, a, m + 1) == BinSum(n, a, m + 1) + a * BinSum(n, a, m)
  {
    if m == 0 {
      assert Binom(n + 1, 1) == Binom(n, 0) + Binom(n, 1);
      assert Pow(a, 1) == a;
      Distrib(1, Binom(n, 1), a);
    } else {
      BinSumStep(n, a, m - 1);
      var c1, c2 := Binom(n, m), Binom(n, m + 1);
      assert Binom(n + 1, m + 1) == c1 + c2;
      var y := Pow(a, m);
      var x := Pow(a, m + 1);
      assert x == a * y;
      BinSumStepArith(a, c1, c2, x, y, BinSum(n, a, m - 1));
    }
  }

  lemma BinSumStepArith(a: int, c1: int, c2: int, x: int, y: int, t: int)
    requires x == a * y
    ensures (c1 + c2) * x == c2 * x + a * (c1 * y)
    ensures a * t + a * (c1 * y) == a * (t + c1 * y)
  {
    Distrib(c1, c2, x);
    assert c1 * x == a * (c1 * y);
    Distrib(a, t, c1 * y);
  }

  lemma BinSumAbove(n: nat, a: int)
    ensures BinSum(n, a, n + 1) == BinSum(n, a, n)
  {
    BinomAbove(n, n + 1);
  }

  /** The binomial theorem: (a+1)^n = sum of C(n, j) a^j. */
  lemma {:induction false} BinomialTheorem(n: nat, a: int)
    ensures Pow(a + 1, n) == BinSum(n, a, n)
  {
    if n > 0 {
      BinomialTheorem(n - 1, a);
      BinSumStep(n - 1, a, n - 1);
      BinSumAbove(n - 1, a);
      Distrib(a, 1, BinSum(n - 1, a, n - 1));
    }
  }

  lemma {:induction false} MiddleTerms(p: nat, a: int, m: nat)
    requires IsPrime(p) && m < p
    ensures (BinSum(p, a, m) - 1) % p == 0
  {
    if m == 0 {
      ModMultiple(0, p);
    } else {
      MiddleTerms(p, a, m - 1);
      var s0, c, x := BinSum(p, a, m - 1), Binom(p, m), Pow(a, m);
      assert BinSum(p, a, m) - 1 == (s0 - 1) + c * x;
      PrimeDividesBinom(p, m);
      ModProductZero(c, x, p);
      ModSumZero(s0 - 1, c * x, p);
    }
  }

  /** (a+1)^p = a^p + 1 (mod p). */
  lemma ExpandTop(p: nat, a: int)
    requires p >= 1
    ensures Pow(a + 1, p) == BinSum(p, a, p - 1) + Pow(a, p)
  {
    BinomialTheorem(p, a);
    BinomDiagonal(p);
    assert BinSum(p, a, p) == BinSum(p, a, p - 1) + Binom(p, p) * Pow(a, p);
  }

  lemma FreshmansDream(p: nat, a: int)
    requires IsPrime(p)
    ensures (Pow(a + 1, p) - Pow(a, p) - 1) % p == 0
  {
    var m: nat := p - 1;
    ExpandTop(p, a);
    MiddleTerms(p, a, m);
    ShiftedMultiple(Pow(a + 1, p), BinSum(p, a, m), Pow(a, p), p);
  }

  /** Fermat's little theorem: a^p = a (mod p). */
  lemma {:induction false} FermatLittle(p: nat, a: nat)
    requires IsPrime(p)
    ensures (Pow(a, p) - a) % p == 0
  {
    if a == 0 {
      var m: nat := p - 1;
      assert Pow(0, p) == 0 * Pow(0, m);
      ModMultiple(0, p);
    } else {
      var b: nat := a - 1;
      var x, y := Pow(a, p), Pow(b, p);
      assert (y - b) % p == 0 by { FermatLittle(p, b); }
      assert (x - y - 1) % p == 0 by { FreshmansDream(p, b); }
      ModSumZero(x - y - 1, y - b, p);
    }
  }

  lemma {:induction false} PowMod(a: int, n: nat, p: int)
    requires p > 0
    ensures Pow(a, n) % p == Pow(a % p, n) % p
  {
    if n > 0 {
      PowMod(a, n - 1, p);
      ModMul(a, Pow(a, n - 1), p);
      ModMul(a % p, Pow(a % p, n - 1), p);
      ModOfMod(a, p);
    }
  }

  /** For a prime modulus and a not divisible by it, inv(a) is a's
      multiplicative inverse. */
  lemma FermatInverse(p: Modulus, a: int)
    requires IsPrime(p) && a % p != 0
    ensures Mul(p, a, Inv(p, a)) == 1
  {
    var r := a % p;
    FermatLittle(p, r);
    var e := Pow(r, p - 2);
    assert Pow(r, p) == r * (r * e);
    assert (r * (r * e - 1)) % p == 0 by {
      Distrib(r, r * e, -1);
    }
    Euclid(p, r, r * e - 1);
    ModDiffEq(r * e, 1, p);
    ModUnique(1, p, 0, 1);
    PowMod(a, p - 2, p);
    ModMul(a, e % p, p);
    ModOfMod(e, p);
    ModMul(r, e, p);
    ModOfMod(a, p);
  }

  /** div(a, b) * b == mod(a) for b not divisible by the prime. */
  lemma DivThenMul(p: Modulus, a: int, b: int)
    requires IsPrime(p) && b % p != 0
    ensures Mul(p, Div(p, a, b), b) == Mod(p, a)
  {
    var i := Inv(p, b);
    FermatInverse(p, b);
    CancelInverse(p, a, b, i);
  }

  lemma CancelInverse(p: int, a: int, b: int, i: int)
    requires p > 0 && (b * i) % p == 1
    ensures (((a * i) % p) * b) % p == a % p
  {
    var x, y := a * i, b * i;
    var d := x % p;
    assert x * b == a * y;
    assert (d * b) % p == (x * b) % p by {
      ModMul(x, b, p);
      ModMul(d, b, p);
      ModOfMod(x, p);
    }
    assert (a * y) % p == ((a % p) * 1) % p by {
      ModMul(a, y, p);
    }
    assert ((a % p) * 1) % p == a % p by {
      ModOfMod(a, p);
    }
  }
}
