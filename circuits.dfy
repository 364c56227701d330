/** The fixed circuit configurations with literal gate tables (circuits 1, 3,
    4 and 5): prime, degree, private values, the reference function, the
    table, and proofs that each table is well formed and computes its
    reference function for every choice of private values. */
module Circuits {
  import opened ModPrime
  import opened Circuit

  /** An ADD gate over gates a and b that carry the residues of va and vb
      carries the residue of va + vb. */
  lemma AddGate(t: Table, n: nat, p: Modulus, x: map<int, int>, g: int, a: int, b: int, va: int, vb: int)
    requires WellFormed(t, n) && n < g <= |t| && HasInputs(x, n)
    requires t[g].kind == ADD && Sources(t, g) == [a, b] && 1 <= a < g && 1 <= b < g
    requires Value(t, n, p, x, a) == Mod(p, va) && Value(t, n, p, x, b) == Mod(p, vb)
    ensures Value(t, n, p, x, g) == Mod(p, va + vb)
  {
    GateValue(t, n, p, x, g);
    AddOfResidues(p, va, vb);
  }

  /** A MUL gate over gates a and b that carry the residues of va and vb
      carries the residue of va * vb. */
  lemma MulGate(t: Table, n: nat, p: Modulus, x: map<int, int>, g: int, a: int, b: int, va: int, vb: int)
    requires WellFormed(t, n) && n < g <= |t| && HasInputs(x, n)
    requires t[g].kind == MUL && Sources(t, g) == [a, b] && 1 <= a < g && 1 <= b < g
    requires Value(t, n, p, x, a) == Mod(p, va) && Value(t, n, p, x, b) == Mod(p, vb)
    ensures Value(t, n, p, x, g) == Mod(p, va * vb)
  {
    GateValue(t, n, p, x, g);
    MulOfResidues(p, va, vb);
  }

  // ---------------------------------------------------------------------------
  // CIRCUIT 1: x1*x2 + x3*x4 + x5*x6 (the textbook example).

  const Prime1: Modulus := 101
  const Degree1: nat := 2

  function Values1(): map<int, int>
  {
    map[1 := 20, 2 := 40, 3 := 21, 4 := 31, 5 := 1, 6 := 71]
  }

  function Function1(x: map<int, int>): (r: int)
    requires HasInputs(x, 6)
    ensures 0 <= r < Prime1
  {
    (x[1] * x[2] + x[3] * x[4] + x[5] * x[6]) % Prime1
  }

  function Gates1(): Table
  {
    map[1 := Single(INP, 7, 1), 2 := Single(INP, 7, 2), 3 := Single(INP, 8, 1),
        4 := Single(INP, 8, 2), 5 := Single(INP, 9, 1), 6 := Single(INP, 9, 2),
        7 := Single(MUL, 10, 1), 8 := Single(MUL, 10, 2), 9 := Single(MUL, 11, 1),
        10 := Single(ADD, 11, 2), 11 := Single(ADD, 12, 1)]
  }

  lemma Gates1Dense()
    ensures |Gates1()| == 11 && Dense(Gates1())
  {
    DenseRange(Gates1(), 11);
  }

  lemma Gates1Sources7()
    ensures SourcesUpTo(Gates1(), 7, 11) == [1, 2]
  {
  }

  lemma Gates1Sources8()
    ensures SourcesUpTo(Gates1(), 8, 11) == [3, 4]
  {
  }

  lemma Gates1Sources9()
    ensures SourcesUpTo(Gates1(), 9, 11) == [5, 6]
  {
  }

  lemma Gates1Sources10()
    ensures SourcesUpTo(Gates1(), 10, 11) == [7, 8]
  {
  }

  lemma Gates1Sources11()
    ensures SourcesUpTo(Gates1(), 11, 11) == [9, 10]
  {
  }

  lemma Gates1Ok()
    ensures GatesOk(Gates1(), 6, 11, 11)
  {
    Gates1InputsOk();
    var t := Gates1();
    assert GatesOk(t, 6, 11, 7);
    assert GatesOk(t, 6, 11, 8);
    assert GatesOk(t, 6, 11, 9);
    assert GatesOk(t, 6, 11, 10);
  }

  lemma Gates1InputsOk()
    ensures GatesOk(Gates1(), 6, 11, 6)
  {
    var t := Gates1();
    assert GatesOk(t, 6, 11, 1);
    assert GatesOk(t, 6, 11, 2);
    assert GatesOk(t, 6, 11, 3);
    assert GatesOk(t, 6, 11, 4);
    assert GatesOk(t, 6, 11, 5);
  }

  lemma Gates1WellFormed()
    ensures WellFormed(Gates1(), 6)
  {
    Gates1Dense();
    Gates1Ok();
    Gates1Sources7();
    Gates1Sources8();
    Gates1Sources9();
    Gates1Sources10();
    Gates1Sources11();
    assert Gates1()[11].Single?;
    Table1Checks(Gates1());
  }

  /** A dense table of eleven gates with circuit 1's checks and sources is
      well formed. */
  lemma Table1Checks(t: Table)
    requires Dense(t) && |t| == 11 && t[11].Single? && GatesOk(t, 6, 11, 11)
    requires SourcesUpTo(t, 7, 11) == [1, 2] && SourcesUpTo(t, 8, 11) == [3, 4]
    requires SourcesUpTo(t, 9, 11) == [5, 6] && SourcesUpTo(t, 10, 11) == [7, 8]
    requires SourcesUpTo(t, 11, 11) == [9, 10]
    ensures WellFormed(t, 6)
  {
    assert PairsUpTo(t, 6, 6);
    assert PairsUpTo(t, 6, 7);
    assert PairsUpTo(t, 6, 8);
    assert PairsUpTo(t, 6, 9);
    assert PairsUpTo(t, 6, 10);
    assert PairsUpTo(t, 6, 11);
    WellFormedByChecks(t, 6);
  }

  /** The facts about circuit 1's table that its evaluation depends on. */
  ghost predicate Shape1(t: Table)
  {
    && WellFormed(t, 6) && |t| == 11
    && t[7].kind == MUL && t[8].kind == MUL && t[9].kind == MUL
    && t[10].kind == ADD && t[11].kind == ADD
    && SourcesUpTo(t, 7, 11) == [1, 2] && SourcesUpTo(t, 8, 11) == [3, 4]
    && SourcesUpTo(t, 9, 11) == [5, 6] && SourcesUpTo(t, 10, 11) == [7, 8]
    && SourcesUpTo(t, 11, 11) == [9, 10]
  }

  lemma Gates1Kinds()
    ensures Gates1()[7].kind == MUL && Gates1()[8].kind == MUL && Gates1()[9].kind == MUL
    ensures Gates1()[10].kind == ADD && Gates1()[11].kind == ADD
  {
  }

  lemma Gates1HasShape1()
    ensures Shape1(Gates1())
  {
    Gates1WellFormed();
    Gates1Kinds();
    Gates1Dense();
    Gates1Sources7();
    Gates1Sources8();
    Gates1Sources9();
    Gates1Sources10();
    Gates1Sources11();
  }

  lemma Shape1Computes(t: Table, x: map<int, int>)
    requires Shape1(t) && HasInputs(x, 6)
    ensures Output(t, 6, Prime1, x) == Function1(x)
  {
    var p := Prime1;
    InputValue(t, 6, p, x, 1);
    InputValue(t, 6, p, x, 2);
    InputValue(t, 6, p, x, 3);
    InputValue(t, 6, p, x, 4);
    InputValue(t, 6, p, x, 5);
    InputValue(t, 6, p, x, 6);
    var a, b, c := x[1] * x[2], x[3] * x[4], x[5] * x[6];
    MulGate(t, 6, p, x, 7, 1, 2, x[1], x[2]);
    MulGate(t, 6, p, x, 8, 3, 4, x[3], x[4]);
    MulGate(t, 6, p, x, 9, 5, 6, x[5], x[6]);
    AddGate(t, 6, p, x, 10, 7, 8, a, b);
    AddGate(t, 6, p, x, 11, 9, 10, c, a + b);
    assert c + (a + b) == a + b + c;
  }

  /** The table computes the reference function for every choice of inputs. */
  lemma Gates1Computes(x: map<int, int>)
    requires HasInputs(x, 6)
    ensures WellFormed(Gates1(), 6) && Output(Gates1(), 6, Prime1, x) == Function1(x)
  {
    Gates1HasShape1();
    Shape1Computes(Gates1(), x);
  }

  /** FUNCTION_RESULT for circuit 1, and the configuration loads. */
  lemma Result1()
    ensures Function1(Values1()) == 7
    ensures Load(Prime1, Degree1, Values1(), Gates1(), Function1(Values1())).Some?
  {
    MapSize(Values1(), 6);
  }

  // ---------------------------------------------------------------------------
  // CIRCUIT 3: x1 + x2 + x3 + x4 + x5.

  const Prime3: Modulus := 101
  const Degree3: nat := 2

  function Values3(): map<int, int>
  {
    map[1 := 99, 2 := 50, 3 := 55, 4 := 10, 5 := 13]
  }

  function Function3(x: map<int, int>): (r: int)
    requires HasInputs(x, 5)
    ensures 0 <= r < Prime3
  {
    (x[1] + x[2] + x[3] + x[4] + x[5]) % Prime3
  }

  function Gates3(): Table
  {
    map[1 := Single(INP, 6, 1), 2 := Single(INP, 6, 2), 3 := Single(INP, 7, 1),
        4 := Single(INP, 7, 2), 5 := Single(INP, 9, 1), 6 := Single(ADD, 8, 1),
        7 := Single(ADD, 8, 2), 8 := Single(ADD, 9, 2), 9 := Single(ADD, 10, 1)]
  }

  lemma Gates3Dense()
    ensures |Gates3()| == 9 && Dense(Gates3())
  {
    DenseRange(Gates3(), 9);
  }

  lemma Gates3Sources6()
    ensures SourcesUpTo(Gates3(), 6, 9) == [1, 2]
  {
  }

  lemma Gates3Sources7()
    ensures SourcesUpTo(Gates3(), 7, 9) == [3, 4]
  {
  }

  lemma Gates3Sources8()
    ensures SourcesUpTo(Gates3(), 8, 9) == [6, 7]
  {
  }

  lemma Gates3Sources9()
    ensures SourcesUpTo(Gates3(), 9, 9) == [5, 8]
  {
  }

  lemma Gates3Ok()
    ensures GatesOk(Gates3(), 5, 9, 9)
  {
    Gates3InputsOk();
    var t := Gates3();
    assert GatesOk(t, 5, 9, 6);
    assert GatesOk(t, 5, 9, 7);
    assert GatesOk(t, 5, 9, 8);
  }

  lemma Gates3InputsOk()
    ensures GatesOk(Gates3(), 5, 9, 5)
  {
    var t := Gates3();
    assert GatesOk(t, 5, 9, 1);
    assert GatesOk(t, 5, 9, 2);
    assert GatesOk(t, 5, 9, 3);
    assert GatesOk(t, 5, 9, 4);
  }

  lemma Gates3WellFormed()
    ensures WellFormed(Gates3(), 5)
  {
    Gates3Dense();
    Gates3Ok();
    Gates3Sources6();
    Gates3Sources7();
    Gates3Sources8();
    Gates3Sources9();
    assert Gates3()[9].Single?;
    Table3Checks(Gates3());
  }

  /** A dense table of nine gates with circuit 3's checks and sources is
      well formed. */
  lemma Table3Checks(t: Table)
    requires Dense(t) && |t| == 9 && t[9].Single? && GatesOk(t, 5, 9, 9)
    requires SourcesUpTo(t, 6, 9) == [1, 2] && SourcesUpTo(t, 7, 9) == [3, 4]
    requires SourcesUpTo(t, 8, 9) == [6, 7] && SourcesUpTo(t, 9, 9) == [5, 8]
    ensures WellFormed(t, 5)
  {
    assert PairsUpTo(t, 5, 5);
    assert PairsUpTo(t, 5, 6);
    assert PairsUpTo(t, 5, 7);
    assert PairsUpTo(t, 5, 8);
    assert PairsUpTo(t, 5, 9);
    WellFormedByChecks(t, 5);
  }

  /** The facts about circuit 3's table that its evaluation depends on. */
  ghost predicate Shape3(t: Table)
  {
    && WellFormed(t, 5) && |t| == 9
    && t[6].kind == ADD && t[7].kind == ADD && t[8].kind == ADD && t[9].kind == ADD
    && SourcesUpTo(t, 6, 9) == [1, 2] && SourcesUpTo(t, 7, 9) == [3, 4]
    && SourcesUpTo(t, 8, 9) == [6, 7] && SourcesUpTo(t, 9, 9) == [5, 8]
  }

  lemma Gates3HasShape3()
    ensures Shape3(Gates3())
  {
    Gates3WellFormed();
    Gates3Dense();
    assert Gates3()[6].kind == ADD && Gates3()[7].kind == ADD;
    assert Gates3()[8].kind == ADD && Gates3()[9].kind == ADD;
    Gates3Sources6();
    Gates3Sources7();
    Gates3Sources8();
    Gates3Sources9();
  }

  lemma Shape3Computes(t: Table, x: map<int, int>)
    requires Shape3(t) && HasInputs(x, 5)
    ensures Output(t, 5, Prime3, x) == Function3(x)
  {
    var p := Prime3;
    InputValue(t, 5, p, x, 1);
    InputValue(t, 5, p, x, 2);
    InputValue(t, 5, p, x, 3);
    InputValue(t, 5, p, x, 4);
    InputValue(t, 5, p, x, 5);
    var a, b := x[1] + x[2], x[3] + x[4];
    AddGate(t, 5, p, x, 6, 1, 2, x[1], x[2]);
    AddGate(t, 5, p, x, 7, 3, 4, x[3], x[4]);
    AddGate(t, 5, p, x, 8, 6, 7, a, b);
    AddGate(t, 5, p, x, 9, 5, 8, x[5], a + b);
  }

  /** The table computes the reference function for every choice of inputs. */
  lemma Gates3Computes(x: map<int, int>)
    requires HasInputs(x, 5)
    ensures WellFormed(Gates3(), 5) && Output(Gates3(), 5, Prime3, x) == Function3(x)
  {
    Gates3HasShape3();
    Shape3Computes(Gates3(), x);
  }

  /** FUNCTION_RESULT for circuit 3, and the configuration loads. */
  lemma Result3()
    ensures Function3(Values3()) == 25
    ensures Load(Prime3, Degree3, Values3(), Gates3(), Function3(Values3())).Some?
  {
    MapSize(Values3(), 5);
  }

  // ---------------------------------------------------------------------------
  // CIRCUITS 4 and 5: x1 * x2 * x3 and (x1 + x2) * x3 share one wiring and
  // differ in the kind of gate 4.

  const Prime4: Modulus := 101
  const Degree4: nat := 1

  /** The private values of circuits 4 and 5. */
  function Values4(): map<int, int>
  {
    map[1 := 3, 2 := 4, 3 := 5]
  }

  function Function4(x: map<int, int>): (r: int)
    requires HasInputs(x, 3)
    ensures 0 <= r < Prime4
  {
    (x[1] * x[2] * x[3]) % Prime4
  }

  function Function5(x: map<int, int>): (r: int)
    requires HasInputs(x, 3)
    ensures 0 <= r < Prime4
  {
    ((x[1] + x[2]) * x[3]) % Prime4
  }

  /** Circuit 4 with kind MUL at gate 4, circuit 5 with kind ADD. */
  function Gates4(k: Kind): Table
  {
    map[1 := Single(INP, 4, 1), 2 := Single(INP, 4, 2), 3 := Single(INP, 5, 1),
        4 := Single(k, 5, 2), 5 := Single(MUL, 6, 1)]
  }

  lemma Gates4Ok(k: Kind)
    requires k != INP
    ensures GatesOk(Gates4(k), 3, 5, 5)
  {
  }

  lemma Gates4Sources(k: Kind)
    ensures SourcesUpTo(Gates4(k), 4, 5) == [1, 2]
    ensures SourcesUpTo(Gates4(k), 5, 5) == [3, 4]
  {
  }

  lemma Gates4WellFormed(k: Kind)
    requires k != INP
    ensures WellFormed(Gates4(k), 3)
    ensures SourcesUpTo(Gates4(k), 4, 5) == [1, 2] && SourcesUpTo(Gates4(k), 5, 5) == [3, 4]
  {
    DenseRange(Gates4(k), 5);
    Gates4Ok(k);
    Gates4Sources(k);
    WellFormedByChecks(Gates4(k), 3);
  }

  lemma Shape4Computes(t: Table, x: map<int, int>)
    requires WellFormed(t, 3) && |t| == 5 && t[4].kind != INP && t[5].kind == MUL
    requires SourcesUpTo(t, 4, 5) == [1, 2] && SourcesUpTo(t, 5, 5) == [3, 4]
    requires HasInputs(x, 3)
    ensures t[4].kind == MUL ==> Output(t, 3, Prime4, x) == Function4(x)
    ensures t[4].kind == ADD ==> Output(t, 3, Prime4, x) == Function5(x)
  {
    var p := Prime4;
    assert GateOk(t, 3, 5, 1) && GateOk(t, 3, 5, 2) && GateOk(t, 3, 5, 3);
    var a := if t[4].kind == MUL then x[1] * x[2] else x[1] + x[2];
    assert Value(t, 3, p, x, 4) == Mod(p, a) by {
      MulOfResidues(p, x[1], x[2]);
      AddOfResidues(p, x[1], x[2]);
    }
    assert Output(t, 3, p, x) == Mod(p, x[3] * a) by {
      MulOfResidues(p, x[3], a);
    }
    assert x[3] * a == a * x[3];
  }

  /** Both tables compute their reference functions for every choice of
      inputs. */
  lemma Gates4Computes(x: map<int, int>)
    requires HasInputs(x, 3)
    ensures WellFormed(Gates4(MUL), 3) && Output(Gates4(MUL), 3, Prime4, x) == Function4(x)
    ensures WellFormed(Gates4(ADD), 3) && Output(Gates4(ADD), 3, Prime4, x) == Function5(x)
  {
    Gates4WellFormed(MUL);
    Gates4WellFormed(ADD);
    assert Gates4(MUL)[4].kind == MUL && Gates4(MUL)[5].kind == MUL;
    assert Gates4(ADD)[4].kind == ADD && Gates4(ADD)[5].kind == MUL;
    Shape4Computes(Gates4(MUL), x);
    Shape4Computes(Gates4(ADD), x);
  }

  /** FUNCTION_RESULT for circuits 4 and 5, and both configurations load. */
  lemma Result4()
    ensures Function4(Values4()) == 60 && Function5(Values4()) == 35
    ensures Load(Prime4, Degree4, Values4(), Gates4(MUL), Function4(Values4())).Some?
    ensures Load(Prime4, Degree4, Values4(), Gates4(ADD), Function5(Values4())).Some?
  {
    MapSize(Values4(), 3);
  }
}
