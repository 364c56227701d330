/** The configurations whose gate table is generated (circuits 2, 6, 7 and
    8): prime, degree, private values, FUNCTION_RESULT, and the fact that
    each one passes the load-time checks with the table its generator
    builds. */
module Configs {
  import opened ModPrime
  import opened Circuit
  import opened Generators
  import Circuits

  // ---------------------------------------------------------------------------
  // CIRCUIT 2: the product of 2^3 inputs over a binary tree.

  /** The dictionary {k: f(k) for k in 1..n} the configurations write their
      private values as. */
  function Dict(n: nat, f: int -> int): (x: map<int, int>)
    ensures forall k :: k in x <==> 1 <= k <= n
    ensures forall k :: k in x ==> x[k] == f(k)
  {
    map k | 1 <= k <= n :: f(k)
  }

  const Prime2: Modulus := 100003
  const Degree2: nat := 2

  /** {k: k for k in 1..INPUTS}, INPUTS = 2 ** 3 */
  function Values2(): (x: map<int, int>)
    ensures HasInputs(x, 8)
    ensures forall k :: k in x <==> 1 <= k <= 8
    ensures forall k :: k in x ==> x[k] == k
  {
    Dict(8, k => k)
  }

  /** FUNCTION_RESULT is 8! mod PRIME, and the configuration with the table
      tree(1, 8) builds loads. */
  lemma Result2()
    ensures Mod(Prime2, ProdTo(Values2(), 8)) == 40320
    ensures Load(Prime2, Degree2, Values2(), TreeSpec(map[], 1, 8), 40320).Some?
  {
    MapSize(Values2(), 8);
    assert ProdTo(Values2(), 8) == 40320 by {
      assert ProdTo(Values2(), 4) == 24;
    }
  }

  // ---------------------------------------------------------------------------
  // CIRCUIT 6: the sum of 1..20 over an ADD chain.

  const Prime6: Modulus := 101
  const Degree6: nat := 1

  /** {k: k for k in 1..INPUT}, INPUT = 20 */
  function Values6(): (x: map<int, int>)
    ensures HasInputs(x, 20)
    ensures forall k :: k in x <==> 1 <= k <= 20
    ensures forall k :: k in x ==> x[k] == k
  {
    Dict(20, k => k)
  }

  lemma {:induction false} SumOfIds(k: nat)
    requires k <= 20
    ensures 2 * SumTo(Values6(), k) == k * (k + 1)
  {
    if k > 0 {
      SumOfIds(k - 1);
      Triangle(k, SumTo(Values6(), k - 1));
    }
  }

  lemma Triangle(k: int, s: int)
    requires 2 * s == (k - 1) * k
    ensures 2 * (s + k) == k * (k + 1)
  {
  }

  /** FUNCTION_RESULT is 210 mod 101, and the configuration with the table
      make_gates builds loads. */
  lemma Result6()
    ensures Mod(Prime6, SumTo(Values6(), 20)) == 8
    ensures Load(Prime6, Degree6, Values6(), ChainTable(20, ADD), 8).Some?
  {
    MapSize(Values6(), 20);
    SumOfIds(20);
  }

  // ---------------------------------------------------------------------------
  // CIRCUIT 7: BASE ** EXP over a MUL chain, BASE = 3, EXP = 4.

  const Prime7: Modulus := 101
  const Degree7: nat := 1

  /** {k: BASE for k in 1..EXP} */
  function Values7(): (x: map<int, int>)
    ensures HasInputs(x, 4)
    ensures forall k :: k in x <==> 1 <= k <= 4
    ensures forall k :: k in x ==> x[k] == 3
  {
    Dict(4, k => 3)
  }

  /** FUNCTION_RESULT is 3^4 = 81, and the configuration with the table
      make_gates builds loads. */
  lemma Result7()
    ensures Mod(Prime7, ProdTo(Values7(), 4)) == 81
    ensures Load(Prime7, Degree7, Values7(), ChainTable(4, MUL), 81).Some?
  {
    MapSize(Values7(), 4);
  }

  // ---------------------------------------------------------------------------
  // CIRCUIT 8: squared error of the estimate 3x + 9 on the target 2x + 1 at
  // the points x = 1, 2.

  const Prime8: Modulus := 100003
  const Degree8: nat := 2

  /** For every point i: target at 3i - 2, estimate at 3i - 1, and -1 at
      3i. */
  function Values8(): (x: map<int, int>)
    ensures forall k :: k in x <==> 1 <= k <= 6
    ensures forall i :: 1 <= i <= 2 ==>
      x[3 * i - 2] == 2 * i + 1 && x[3 * i - 1] == 3 * i + 9 && x[3 * i] == -1
  {
    map[1 := 3, 2 := 12, 3 := -1, 4 := 5, 5 := 15, 6 := -1]
  }

  /** FUNCTION_RESULT is (3 - 12)^2 + (5 - 15)^2 = 181, and the
      configuration with the table make_circuit builds loads. */
  lemma Result8()
    ensures LossTo(Values8(), 6) == Some(181)
    ensures Load(Prime8, Degree8, Values8(), CircuitTable(6), 181).Some?
  {
    MapSize(Values8(), 6);
    LossIsPointLoss(Values8(), 2);
  }

  /** The table make_circuit builds for six private values, entry by
      entry: three input gates per point, a block of five gates per point
      squaring target - estimate, and one summing gate. */
  ghost predicate Entries8(t: Table)
  {
    && Dense(t) && |t| == 17
    && t[1] == Fanout(INP, [Wire(8, 1), Wire(10, 1)]) && t[2] == Fanout(INP, [Wire(7, 1), Wire(9, 1)])
    && t[3] == Fanout(INP, [Wire(7, 1), Wire(9, 1)]) && t[4] == Fanout(INP, [Wire(13, 1), Wire(15, 1)])
    && t[5] == Fanout(INP, [Wire(12, 1), Wire(14, 1)]) && t[6] == Fanout(INP, [Wire(12, 1), Wire(14, 1)])
    && t[7] == Single(MUL, 8, 1) && t[8] == Single(ADD, 11, 1) && t[9] == Single(MUL, 10, 1)
    && t[10] == Single(ADD, 11, 1) && t[11] == Single(MUL, 17, 1)
    && t[12] == Single(MUL, 13, 1) && t[13] == Single(ADD, 16, 1) && t[14] == Single(MUL, 15, 1)
    && t[15] == Single(ADD, 16, 1) && t[16] == Single(MUL, 17, 1) && t[17] == Single(ADD, 18, 1)
  }

  lemma Built8()
    ensures Entries8(CircuitTable(6))
  {
    assert CircuitTop(6) == 17;
    DenseRange(CircuitTable(6), 17);
    Inputs8Built();
    Blocks8Built();
  }

  lemma Inputs8Built()
    ensures InputGate(6, 1) == Fanout(INP, [Wire(8, 1), Wire(10, 1)])
    ensures InputGate(6, 2) == Fanout(INP, [Wire(7, 1), Wire(9, 1)])
    ensures InputGate(6, 3) == Fanout(INP, [Wire(7, 1), Wire(9, 1)])
    ensures InputGate(6, 4) == Fanout(INP, [Wire(13, 1), Wire(15, 1)])
    ensures InputGate(6, 5) == Fanout(INP, [Wire(12, 1), Wire(14, 1)])
    ensures InputGate(6, 6) == Fanout(INP, [Wire(12, 1), Wire(14, 1)])
  {
  }

  lemma Blocks8Built()
    ensures BlockGate(6, 16, 7) == Single(MUL, 8, 1) && BlockGate(6, 16, 8) == Single(ADD, 11, 1)
    ensures BlockGate(6, 16, 9) == Single(MUL, 10, 1) && BlockGate(6, 16, 10) == Single(ADD, 11, 1)
    ensures BlockGate(6, 16, 11) == Single(MUL, 17, 1)
    ensures BlockGate(6, 16, 12) == Single(MUL, 13, 1) && BlockGate(6, 16, 13) == Single(ADD, 16, 1)
    ensures BlockGate(6, 16, 14) == Single(MUL, 15, 1) && BlockGate(6, 16, 15) == Single(ADD, 16, 1)
    ensures BlockGate(6, 16, 16) == Single(MUL, 17, 1)
  {
  }

  /** The two sources of gate g in 7..17 of circuit 8's table. */
  function Feeds8(g: int): (int, int)
  {
    if g == 7 then (2, 3) else if g == 8 then (1, 7) else if g == 9 then (2, 3)
    else if g == 10 then (1, 9) else if g == 11 then (8, 10) else if g == 12 then (5, 6)
    else if g == 13 then (4, 12) else if g == 14 then (5, 6) else if g == 15 then (4, 14)
    else if g == 16 then (13, 15) else (11, 16)
  }

  /** The wires into gate g of circuit 8's table come from its two sources
      and nowhere else. */
  lemma Hits8(t: Table, i: int, g: int)
    requires Entries8(t) && 1 <= i <= 17 && 7 <= g <= 17
    ensures Hits(Wires(t[i]), g) == if i == Feeds8(g).0 || i == Feeds8(g).1 then 1 else 0
  {
    if i <= 6 {
      Hits8Inputs(t, i, g);
    } else {
      Hits8Gates(t, i, g);
    }
  }

  lemma Hits8Inputs(t: Table, i: int, g: int)
    requires Entries8(t) && 1 <= i <= 6 && 7 <= g <= 17
    ensures Hits(Wires(t[i]), g) == if i == Feeds8(g).0 || i == Feeds8(g).1 then 1 else 0
  {
    var ws := Wires(t[i]);
    HitsTwo(ws[0].dest, ws[1].dest, g);
    assert ws == [Wire(ws[0].dest, 1), Wire(ws[1].dest, 1)];
    if i <= 3 {
      assert i == 1 || i == 2 || i == 3;
    } else {
      assert i == 4 || i == 5 || i == 6;
    }
  }

  lemma HitsTwo(a: int, b: int, g: int)
    ensures Hits([Wire(a, 1), Wire(b, 1)], g) == (if a == g then 1 else 0) + (if b == g then 1 else 0)
  {
    assert [Wire(a, 1), Wire(b, 1)][1..] == [Wire(b, 1)];
    assert [Wire(b, 1)][1..] == [];
    assert Hits([Wire(b, 1)], g) == if b == g then 1 else 0;
  }

  lemma Hits8Gates(t: Table, i: int, g: int)
    requires Entries8(t) && 7 <= i <= 17 && 7 <= g <= 17
    ensures Hits(Wires(t[i]), g) == if i == Feeds8(g).0 || i == Feeds8(g).1 then 1 else 0
  {
    assert i == 7 || i == 8 || i == 9 || i == 10 || i == 11 || i == 12 || i == 13 || i == 14 || i == 15
        || i == 16 || i == 17;
  }

  lemma Sources8(t: Table, g: int)
    requires Entries8(t) && 7 <= g <= 17
    ensures Sources(t, g) == [Feeds8(g).0, Feeds8(g).1]
  {
    var (a, b) := Feeds8(g);
    forall i | 1 <= i <= 17
      ensures Hits(Wires(t[i]), g) == if i == a || i == b then 1 else 0
    {
      Hits8(t, i, g);
    }
    SourcesPair(t, g, 17, a, b);
  }

  lemma Inputs8Ok(t: Table)
    requires Entries8(t)
    ensures GatesOk(t, 6, 17, 6)
  {
    assert GatesOk(t, 6, 17, 1);
    assert GatesOk(t, 6, 17, 2);
    assert GatesOk(t, 6, 17, 3);
    assert GatesOk(t, 6, 17, 4);
    assert GatesOk(t, 6, 17, 5);
  }

  lemma Gates8Ok(t: Table)
    requires Entries8(t)
    ensures GatesOk(t, 6, 17, 17)
  {
    Inputs8Ok(t);
    assert GatesOk(t, 6, 17, 7);
    assert GatesOk(t, 6, 17, 8);
    assert GatesOk(t, 6, 17, 9);
    assert GatesOk(t, 6, 17, 10);
    assert GatesOk(t, 6, 17, 11);
    assert GatesOk(t, 6, 17, 12);
    assert GatesOk(t, 6, 17, 13);
    assert GatesOk(t, 6, 17, 14);
    assert GatesOk(t, 6, 17, 15);
    assert GatesOk(t, 6, 17, 16);
  }

  /** Circuit 8's table is well formed: every ADD/MUL gate has two earlier
      sources and only gate 17 carries the output wire. */
  lemma Table8WellFormed(t: Table)
    requires Entries8(t)
    ensures WellFormed(t, 6)
  {
    Gates8Ok(t);
    forall g | 7 <= g <= 17
      ensures |Sources(t, g)| == 2
    {
      Sources8(t, g);
    }
    assert PairsUpTo(t, 6, 6);
    assert PairsUpTo(t, 6, 7);
    assert PairsUpTo(t, 6, 8);
    assert PairsUpTo(t, 6, 9);
    assert PairsUpTo(t, 6, 10);
    assert PairsUpTo(t, 6, 11);
    assert PairsUpTo(t, 6, 12);
    assert PairsUpTo(t, 6, 13);
    assert PairsUpTo(t, 6, 14);
    assert PairsUpTo(t, 6, 15);
    assert PairsUpTo(t, 6, 16);
    assert PairsUpTo(t, 6, 17);
    WellFormedByChecks(t, 6);
  }

  /** The block of one point: target a, estimate b, constant c, and the
      five gates from `first` on carry b*c, a + b*c, b*c, a + b*c and
      (a + b*c)^2. */
  lemma Block8(t: Table, x: map<int, int>, first: int, a: int, b: int, c: int, u: int)
    requires Entries8(t) && WellFormed(t, 6) && HasInputs(x, 6)
    requires (first, a, b, c) == (7, 1, 2, 3) || (first, a, b, c) == (12, 4, 5, 6)
    requires u == x[a] + x[b] * x[c]
    ensures Value(t, 6, Prime8, x, first + 4) == Mod(Prime8, u * u)
  {
    Term8(t, x, first, a, b, c);
    Term8(t, x, first + 2, a, b, c);
    Sources8(t, first + 4);
    Circuits.MulGate(t, 6, Prime8, x, first + 4, first + 1, first + 3, u, u);
  }

  /** A MUL gate of x[b] and x[c] followed by an ADD of x[a] carries
      x[a] + x[b] * x[c]. */
  lemma Term8(t: Table, x: map<int, int>, g: int, a: int, b: int, c: int)
    requires Entries8(t) && WellFormed(t, 6) && HasInputs(x, 6)
    requires (g, a, b, c) in {(7, 1, 2, 3), (9, 1, 2, 3), (12, 4, 5, 6), (14, 4, 5, 6)}
    ensures Value(t, 6, Prime8, x, g + 1) == Mod(Prime8, x[a] + x[b] * x[c])
  {
    var p := Prime8;
    InputValue(t, 6, p, x, a);
    InputValue(t, 6, p, x, b);
    InputValue(t, 6, p, x, c);
    var bc := x[b] * x[c];
    Sources8(t, g);
    Sources8(t, g + 1);
    Circuits.MulGate(t, 6, p, x, g, b, c, x[b], x[c]);
    Circuits.AddGate(t, 6, p, x, g + 1, a, g, x[a], bc);
  }

  /** Circuit 8's table computes the sum of (x1 + x2*x3)^2 and
      (x4 + x5*x6)^2. */
  lemma Table8Computes(t: Table, x: map<int, int>)
    requires Entries8(t) && HasInputs(x, 6)
    ensures WellFormed(t, 6)
    ensures var u, v := x[1] + x[2] * x[3], x[4] + x[5] * x[6];
      Output(t, 6, Prime8, x) == Mod(Prime8, u * u + v * v)
  {
    Table8WellFormed(t);
    var u, v := x[1] + x[2] * x[3], x[4] + x[5] * x[6];
    Block8(t, x, 7, 1, 2, 3, u);
    Block8(t, x, 12, 4, 5, 6, v);
    Sum8(t, x, u * u, v * v);
  }

  /** The last gate adds the two block ends. */
  lemma Sum8(t: Table, x: map<int, int>, a: int, b: int)
    requires Entries8(t) && WellFormed(t, 6) && HasInputs(x, 6)
    requires Value(t, 6, Prime8, x, 11) == Mod(Prime8, a)
    requires Value(t, 6, Prime8, x, 16) == Mod(Prime8, b)
    ensures Output(t, 6, Prime8, x) == Mod(Prime8, a + b)
  {
    Sources8(t, 17);
    Circuits.AddGate(t, 6, Prime8, x, 17, 11, 16, a, b);
  }

  /** With the constant -1 as third value, a block squares target minus
      estimate. */
  lemma NegSquare(a: int, b: int, c: int)
    requires c == -1
    ensures (a + b * c) * (a + b * c) == (a - b) * (a - b)
  {
  }

  /** Circuit 8's table computes the loss as long as the third value of
      every point is -1. */
  lemma Table8Loss(t: Table, x: map<int, int>)
    requires Entries8(t) && HasInputs(x, 6) && x[3] == -1 && x[6] == -1
    ensures WellFormed(t, 6)
    ensures LossTo(x, 6).Some? && Output(t, 6, Prime8, x) == Mod(Prime8, LossTo(x, 6).value)
  {
    Table8Computes(t, x);
    LossIsPointLoss(x, 2);
    var d1, d2 := (x[1] - x[2]) * (x[1] - x[2]), (x[4] - x[5]) * (x[4] - x[5]);
    assert PointLoss(x, 1) == d1;
    assert PointLoss(x, 2) == d1 + d2;
    NegSquare(x[1], x[2], x[3]);
    NegSquare(x[4], x[5], x[6]);
  }

  /** The table make_circuit builds computes the reference function of
      circuit 8 for every choice of targets and estimates, as long as the
      third value of every point is -1, as PRIVATE_VALUES makes it. */
  lemma Circuit8Computes(x: map<int, int>)
    requires HasInputs(x, 6) && x[3] == -1 && x[6] == -1
    ensures WellFormed(CircuitTable(6), 6)
    ensures LossTo(x, 6).Some? && Output(CircuitTable(6), 6, Prime8, x) == Mod(Prime8, LossTo(x, 6).value)
  {
    Built8();
    Table8Loss(CircuitTable(6), x);
  }
}
