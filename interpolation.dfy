/** Polynomials with integer coefficients (lowest degree first) and Lagrange
    interpolation at zero over the evaluation points 1..d.  The proof uses
    forward differences: the k-th difference of a polynomial with fewer than
    k coefficients vanishes, and the alternating binomial sum of order d is the
    d-th difference at zero, so the integer weights (-1)^(i-1) C(d, i) recover
    the constant term from the values at 1..d. */
module Interpolation {
  import opened Binomial

  function Eval(cs: seq<int>, x: int): int
  {
    if cs == [] then 0 else cs[0] + x * Eval(cs[1..], x)
  }

  /** Coefficient-wise sum. */
  function AddP(a: seq<int>, b: seq<int>): (r: seq<int>)
    ensures |r| == if |a| < |b| then |b| else |a|
  {
    if a == [] then b
    else if b == [] then a
    else [a[0] + b[0]] + AddP(a[1..], b[1..])
  }

  function ScaleP(c: int, a: seq<int>): (r: seq<int>)
    ensures |r| == |a|
  {
    if a == [] then [] else [c * a[0]] + ScaleP(c, a[1..])
  }

  /** Product of polynomials, by the schoolbook method. */
  function MulP(a: seq<int>, b: seq<int>): (r: seq<int>)
    ensures a != [] && b != [] ==> |r| == |a| + |b| - 1
    ensures a == [] ==> r == []
  {
    if a == [] then []
    else AddP(ScaleP(a[0], b), [0] + MulP(a[1..], b))
  }

  lemma {:induction false} EvalAddP(a: seq<int>, b: seq<int>, x: int)
    ensures Eval(AddP(a, b), x) == Eval(a, x) + Eval(b, x)
  {
    if a != [] && b != [] {
      var r := AddP(a, b);
      assert r[1..] == AddP(a[1..], b[1..]);
      EvalAddP(a[1..], b[1..], x);
      var ea, eb := Eval(a[1..], x), Eval(b[1..], x);
      assert x * (ea + eb) == x * ea + x * eb;
    }
  }

  lemma {:induction false} EvalScaleP(c: int, a: seq<int>, x: int)
    ensures Eval(ScaleP(c, a), x) == c * Eval(a, x)
  {
    if a != [] {
      var r := ScaleP(c, a);
      assert r[1..] == ScaleP(c, a[1..]);
      EvalScaleP(c, a[1..], x);
      var e := Eval(a[1..], x);
      assert x * (c * e) == c * (x * e);
      assert c * (a[0] + x * e) == c * a[0] + c * (x * e);
    }
  }

  lemma EvalShiftUp(a: seq<int>, x: int)
    ensures Eval([0] + a, x) == x * Eval(a, x)
  {
    assert ([0] + a)[1..] == a;
  }

  lemma {:induction false} EvalMulP(a: seq<int>, b: seq<int>, x: int)
    ensures Eval(MulP(a, b), x) == Eval(a, x) * Eval(b, x)
  {
    if a != [] {
      var rest := MulP(a[1..], b);
      EvalAddP(ScaleP(a[0], b), [0] + rest, x);
      EvalScaleP(a[0], b, x);
      EvalShiftUp(rest, x);
      EvalMulP(a[1..], b, x);
      MulArith(a[0], x, Eval(a[1..], x), Eval(b, x));
    }
  }

  lemma MulArith(c: int, x: int, ea: int, eb: int)
    ensures c * eb + x * (ea * eb) == (c + x * ea) * eb
  {
    assert x * (ea * eb) == (x * ea) * eb;
    assert (c + x * ea) * eb == c * eb + (x * ea) * eb;
  }

  lemma EvalZero(cs: seq<int>)
    ensures Eval(cs, 0) == if cs == [] then 0 else cs[0]
  {
  }

  // ---------------------------------------------------------------------------
  // Forward differences.

  /** The k-th forward difference of the polynomial cs at x. */
  function Delta(cs: seq<int>, k: nat, x: int): int
  {
    if k == 0 then Eval(cs, x) else Delta(cs, k - 1, x + 1) - Delta(cs, k - 1, x)
  }

  lemma {:induction false} DeltaNil(k: nat, x: int)
    ensures Delta([], k, x) == 0
  {
    if k > 0 {
      DeltaNil(k - 1, x);
      DeltaNil(k - 1, x + 1);
    }
  }

  /** Difference of c + x * r(x) in terms of the differences of r. */
  lemma {:induction false} DeltaCons(cs: seq<int>, k: nat, x: int)
    requires cs != [] && k >= 1
    ensures Delta(cs, k, x) == x * Delta(cs[1..], k, x) + k * Delta(cs[1..], k - 1, x + 1)
  {
    var r := cs[1..];
    if k == 1 {
      var e0, e1 := Eval(r, x), Eval(r, x + 1);
      assert Delta(cs, 1, x) == (x + 1) * e1 - x * e0;
      assert (x + 1) * e1 == x * e1 + e1;
      assert x * (e1 - e0) == x * e1 - x * e0;
    } else {
      DeltaCons(cs, k - 1, x);
      DeltaCons(cs, k - 1, x + 1);
      var a0, a1 := Delta(r, k - 1, x), Delta(r, k - 1, x + 1);
      var b1, b2 := Delta(r, k - 2, x + 1), Delta(r, k - 2, x + 2);
      DeltaConsArith(x, k - 1, a0, a1, b1, b2);
    }
  }

  lemma DeltaConsArith(x: int, j: int, a0: int, a1: int, b1: int, b2: int)
    requires a1 == b2 - b1
    ensures ((x + 1) * a1 + j * b2) - (x * a0 + j * b1) == x * (a1 - a0) + (j + 1) * a1
  {
    assert (x + 1) * a1 == x * a1 + a1;
    assert x * (a1 - a0) == x * a1 - x * a0;
    assert j * (b2 - b1) == j * b2 - j * b1;
    assert (j + 1) * a1 == j * a1 + a1;
  }

  /** Differences of order at least the number of coefficients vanish. */
  lemma {:induction false} DeltaVanishes(cs: seq<int>, k: nat, x: int)
    requires |cs| <= k
    ensures Delta(cs, k, x) == 0
    decreases |cs|
  {
    if cs == [] {
      DeltaNil(k, x);
    } else {
      DeltaCons(cs, k, x);
      DeltaVanishes(cs[1..], k, x);
      DeltaVanishes(cs[1..], k - 1, x + 1);
    }
  }

  // ---------------------------------------------------------------------------
  // Alternating binomial sums of differences.

  /** The i-th summand (-1)^i C(d, i) Delta(cs, k, i + o). */
  function Term(d: nat, cs: seq<int>, k: nat, o: int, i: nat): int
  {
    Sign(i) * Binom(d, i) * Delta(cs, k, i + o)
  }

  /** Sum of Term(d, cs, k, o, i) for i in 0..m. */
  function AltSum(d: nat, cs: seq<int>, k: nat, o: int, m: nat): int
  {
    if m == 0 then Term(d, cs, k, o, 0) else AltSum(d, cs, k, o, m - 1) + Term(d, cs, k, o, m)
  }

  lemma TermPascal(d: nat, cs: seq<int>, k: nat, o: int, m: nat)
    ensures Term(d + 1, cs, k, o, m + 1) == Term(d, cs, k, o, m + 1) - Term(d, cs, k, o + 1, m)
  {
    var s := Sign(m + 1);
    assert Sign(m) == -s;
    var c0, c1 := Binom(d, m), Binom(d, m + 1);
    assert Binom(d + 1, m + 1) == c0 + c1;
    var y := Delta(cs, k, m + 1 + o);
    assert Delta(cs, k, m + (o + 1)) == y;
    PascalArith(s, c0, c1, y);
  }

  lemma PascalArith(s: int, c0: int, c1: int, y: int)
    ensures s * (c0 + c1) * y == s * c1 * y - (-s) * c0 * y
  {
    assert s * (c0 + c1) * y == s * c0 * y + s * c1 * y;
    assert (-s) * c0 * y == -(s * c0 * y);
  }

  lemma {:induction false} AltSumPascal(d: nat, cs: seq<int>, k: nat, o: int, m: nat)
    ensures AltSum(d + 1, cs, k, o, m + 1) == AltSum(d, cs, k, o, m + 1) - AltSum(d, cs, k, o + 1, m)
  {
    TermPascal(d, cs, k, o, m);
    if m > 0 {
      AltSumPascal(d, cs, k, o, m - 1);
    } else {
      assert Binom(d + 1, 0) == 1 && Binom(d, 0) == 1;
      assert Term(d + 1, cs, k, o, 0) == Term(d, cs, k, o, 0);
    }
  }

  lemma {:induction false} AltSumDelta(d: nat, cs: seq<int>, k: nat, o: int, m: nat)
    ensures AltSum(d, cs, k + 1, o, m) == AltSum(d, cs, k, o + 1, m) - AltSum(d, cs, k, o, m)
  {
    var w := Sign(m) * Binom(d, m);
    var y1, y0 := Delta(cs, k, m + o + 1), Delta(cs, k, m + o);
    assert Delta(cs, k, m + (o + 1)) == y1;
    assert Delta(cs, k + 1, m + o) == y1 - y0;
    assert w * (y1 - y0) == w * y1 - w * y0;
    assert Term(d, cs, k + 1, o, m) == Term(d, cs, k, o + 1, m) - Term(d, cs, k, o, m);
    if m > 0 {
      AltSumDelta(d, cs, k, o, m - 1);
    }
  }

  lemma AltSumStep(d: nat, cs: seq<int>, k: nat)
    ensures AltSum(d + 1, cs, k, 0, d + 1) == -AltSum(d, cs, k + 1, 0, d)
  {
    AltSumPascal(d, cs, k, 0, d);
    BinomAbove(d, d + 1);
    assert AltSum(d, cs, k, 0, d + 1) == AltSum(d, cs, k, 0, d);
    AltSumDelta(d, cs, k, 0, d);
  }

  /** The alternating sum of order j over the (k - j)-th differences vanishes
      when the k-th differences do. */
  lemma {:induction false} AltSumVanishes(cs: seq<int>, k: nat, j: nat)
    requires |cs| <= k && j <= k
    ensures AltSum(j, cs, k - j, 0, j) == 0
  {
    if j == 0 {
      DeltaVanishes(cs, k, 0);
    } else {
      AltSumVanishes(cs, k, j - 1);
      AltSumStep(j - 1, cs, k - j);
    }
  }

  // ---------------------------------------------------------------------------
  // Lagrange weights at zero over the points 1..d.

  /** The Lagrange basis value at 0 of the point i among 1..d, as an integer. */
  function Weight(d: nat, i: nat): int
  {
    if i == 0 then 0 else Sign(i - 1) * Binom(d, i)
  }

  /** Sum of Weight(d, i) * cs(i) for i in 1..m. */
  function Interp(d: nat, cs: seq<int>, m: nat): int
  {
    if m == 0 then 0 else Interp(d, cs, m - 1) + Weight(d, m) * Eval(cs, m)
  }

  lemma {:induction false} InterpAltSum(d: nat, cs: seq<int>, m: nat)
    ensures Interp(d, cs, m) == Eval(cs, 0) - AltSum(d, cs, 0, 0, m)
  {
    if m == 0 {
      assert Sign(0) * Binom(d, 0) == 1;
      assert Delta(cs, 0, 0) == Eval(cs, 0);
      assert Term(d, cs, 0, 0, 0) == Eval(cs, 0);
    } else {
      InterpAltSum(d, cs, m - 1);
      var s, c, y := Sign(m), Binom(d, m), Eval(cs, m);
      assert Sign(m - 1) == -s;
      assert Delta(cs, 0, m + 0) == y;
      assert Term(d, cs, 0, 0, m) == s * c * y;
      assert Weight(d, m) * y == -(s * c * y);
    }
  }

  /** Lagrange interpolation at zero: a polynomial with at most d coefficients
      is recovered at 0 from its values at 1..d. */
  lemma Interpolate(d: nat, cs: seq<int>)
    requires |cs| <= d
    ensures Interp(d, cs, d) == Eval(cs, 0)
  {
    InterpAltSum(d, cs, d);
    AltSumVanishes(cs, d, d);
  }

  /** In particular the weights of 1..d sum to one. */
  lemma WeightsSumToOne(d: nat)
    requires d >= 1
    ensures Interp(d, [1], d) == 1
  {
    Interpolate(d, [1]);
  }
}
