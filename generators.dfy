/** The generated circuit configurations: the chain built by make_gates (the
    sum circuit 6 and the power circuit 7), the binary product tree of
    circuit 2, and the squared-error circuit 8, together with their
    reference functions. Each generator is a method with the loops of the
    original, proved to build a table given in closed form; the closed forms
    are then proved well formed, and the chain is proved to compute the sum
    or product of the inputs. */
module Generators {
  import opened ModPrime
  import opened Circuit

  // ---------------------------------------------------------------------------
  // Reference sums and products over the private values 1..k.

  /** x[1] + ... + x[k], added left to right. */
  function SumTo(x: map<int, int>, k: nat): int
    requires forall i :: 1 <= i <= k ==> i in x
  {
    if k == 0 then 0 else SumTo(x, k - 1) + x[k]
  }

  /** x[1] * ... * x[k], multiplied left to right. */
  function ProdTo(x: map<int, int>, k: nat): int
    requires forall i :: 1 <= i <= k ==> i in x
  {
    if k == 0 then 1 else ProdTo(x, k - 1) * x[k]
  }

  lemma Unfold(x: map<int, int>, k: nat)
    requires 1 <= k && forall i :: 1 <= i <= k ==> i in x
    ensures SumTo(x, k) == SumTo(x, k - 1) + x[k]
    ensures ProdTo(x, k) == ProdTo(x, k - 1) * x[k]
  {
  }

  /** The reference function of circuit 6: the exact sum of the private
      values, reduced once at the end. */
  method RangeSum(p: Modulus, x: map<int, int>, n: nat) returns (r: int)
    requires HasInputs(x, n)
    ensures r == Mod(p, SumTo(x, n))
  {
    var rsum := 0;
    for i := 1 to n + 1
      invariant rsum == SumTo(x, i - 1)
    {
      rsum := rsum + x[i];
    }
    r := rsum % p;
  }

  /** The reference function of circuit 7: the exact product of the private
      values, reduced once at the end. */
  method RangeProduct(p: Modulus, x: map<int, int>, n: nat) returns (r: int)
    requires HasInputs(x, n)
    ensures r == Mod(p, ProdTo(x, n))
  {
    var product := 1;
    for i := 1 to n + 1
      invariant product == ProdTo(x, i - 1)
    {
      product := product * x[i];
    }
    r := product % p;
  }

  /** The reference function of circuit 2: the product reduced after every
      step, which agrees with the exact product reduced once. */
  method RunningProduct(p: Modulus, x: map<int, int>, n: nat) returns (r: int)
    requires HasInputs(x, n)
    ensures r == Mod(p, ProdTo(x, n))
  {
    var product := 1 % p;
    for i := 1 to n + 1
      invariant product == Mod(p, ProdTo(x, i - 1))
    {
      ModMulLeft(ProdTo(x, i - 1), x[i], p);
      product := (product * x[i]) % p;
    }
    r := product;
  }

  // ---------------------------------------------------------------------------
  // make_gates: inputs 1 and 2 feed gate size+1, input i >= 3 feeds gate
  // size+i-1, and gate i above size feeds gate i+1, all on slot 1.

  function Max(a: int, b: int): int
  {
    if a < b then b else a
  }

  function ChainGate(size: int, kind: Kind, i: int): Gate
  {
    if i <= 2 then Single(INP, size + 1, 1)
    else if i <= size then Single(INP, size + i - 1, 1)
    else Single(kind, i + 1, 1)
  }

  /** The table make_gates returns: ids 1..max(2, 2*size-1). */
  function ChainTable(size: int, kind: Kind): Table
  {
    map i | 1 <= i <= Max(2, 2 * size - 1) :: ChainGate(size, kind, i)
  }

  /** make_gates, for the sum (kind ADD) and the product (kind MUL) variant. */
  method MakeGates(size: int, kind: Kind) returns (gates: Table)
    ensures gates == ChainTable(size, kind)
  {
    gates := map[];
    gates := gates[1 := Single(INP, size + 1, 1)];
    gates := gates[2 := Single(INP, size + 1, 1)];
    var i := 3;
    while i < size + 1
      invariant 3 <= i <= Max(3, size + 1)
      invariant forall j :: j in gates <==> 1 <= j < Max(3, i)
      invariant forall j :: j in gates ==> gates[j] == ChainGate(size, kind, j)
    {
      gates := gates[i := Single(INP, size + i - 1, 1)];
      i := i + 1;
    }
    i := size + 1;
    while i < 2 * size
      invariant forall j :: j in gates <==> 1 <= j < Max(3, i)
      invariant forall j :: j in gates ==> gates[j] == ChainGate(size, kind, j)
      invariant size + 1 <= i <= Max(size + 1, 2 * size)
    {
      gates := gates[i := Single(kind, i + 1, 1)];
      i := i + 1;
    }
  }

  lemma ChainDense(size: int, kind: Kind)
    requires size >= 2
    ensures |ChainTable(size, kind)| == 2 * size - 1 && Dense(ChainTable(size, kind))
  {
    assert Max(2, 2 * size - 1) == 2 * size - 1;
    DenseRange(ChainTable(size, kind), 2 * size - 1);
  }

  /** Gate size+1 adds or multiplies inputs 1 and 2; gate size+j for j >= 2
      combines input j+1 with gate size+j-1, in that order. */
  lemma ChainSources(size: int, kind: Kind, g: int)
    requires size >= 2 && size < g <= 2 * size - 1
    ensures Dense(ChainTable(size, kind))
    ensures Sources(ChainTable(size, kind), g) == if g == size + 1 then [1, 2] else [g - size + 1, g - 1]
  {
    var t := ChainTable(size, kind);
    ChainDense(size, kind);
    var a, b := if g == size + 1 then 1 else g - size + 1, if g == size + 1 then 2 else g - 1;
    forall i | 1 <= i <= |t|
      ensures Hits(Wires(t[i]), g) == if i == a || i == b then 1 else 0
    {
      assert Wires(t[i]) == [Wire(t[i].dest, 1)];
    }
    SourcesPair(t, g, |t|, a, b);
  }

  /** For at least two inputs and kind ADD or MUL, make_gates builds a well
      formed table: INP gates 1..size, internal gates size+1..2*size-1 with
      two sources each, and only gate 2*size-1 pointing past N_GATES. */
  lemma ChainWellFormed(size: int, kind: Kind)
    requires size >= 2 && kind != INP
    ensures WellFormed(ChainTable(size, kind), size)
  {
    var t := ChainTable(size, kind);
    ChainDense(size, kind);
    forall i | 1 <= i <= |t|
      ensures GateOk(t, size, |t|, i)
    {
      assert Wires(t[i]) == [Wire(t[i].dest, 1)];
    }
    forall g | size < g <= |t|
      ensures |Sources(t, g)| == 2
    {
      ChainSources(size, kind, g);
    }
  }

  /** What evaluating a chain depends on: its internal gates all have the
      one kind, and their sources are as ChainSources states. */
  ghost predicate ChainShape(t: Table, size: int, kind: Kind)
  {
    && size >= 2 && WellFormed(t, size) && |t| == 2 * size - 1
    && (forall g :: size < g < 2 * size ==> t[g].kind == kind)
    && (forall g :: size < g < 2 * size ==>
          Sources(t, g) == if g == size + 1 then [1, 2] else [g - size + 1, g - 1])
  }

  lemma ChainHasShape(size: int, kind: Kind)
    requires size >= 2 && kind != INP
    ensures ChainShape(ChainTable(size, kind), size, kind)
  {
    ChainWellFormed(size, kind);
    ChainDense(size, kind);
    forall g | size < g < 2 * size
      ensures Sources(ChainTable(size, kind), g) == if g == size + 1 then [1, 2] else [g - size + 1, g - 1]
    {
      ChainSources(size, kind, g);
    }
  }

  /** Gate size+1 of a chain combines inputs 1 and 2. */
  lemma ChainFirst(t: Table, size: int, kind: Kind, p: Modulus, x: map<int, int>)
    requires ChainShape(t, size, kind) && kind != INP && HasInputs(x, size)
    ensures Value(t, size, p, x, size + 1) == Mod(p, if kind == ADD then SumTo(x, 2) else ProdTo(x, 2))
  {
    GateValue(t, size, p, x, size + 1);
    assert t[size + 1].kind == kind && Sources(t, size + 1) == [1, 2];
    InputValue(t, size, p, x, 1);
    InputValue(t, size, p, x, 2);
    Unfold(x, 1);
    Unfold(x, 2);
    AddOfResidues(p, x[1], x[2]);
    MulOfResidues(p, x[1], x[2]);
  }

  /** Gate size+j of a chain carries the sum (kind ADD) or product (kind
      MUL) of inputs 1..j+1. */
  lemma {:induction false} ChainValue(t: Table, size: int, kind: Kind, p: Modulus, x: map<int, int>, j: int)
    requires ChainShape(t, size, kind) && kind != INP && HasInputs(x, size) && 1 <= j < size
    ensures Value(t, size, p, x, size + j) == Mod(p, if kind == ADD then SumTo(x, j + 1) else ProdTo(x, j + 1))
    decreases j
  {
    if j == 1 {
      ChainFirst(t, size, kind, p, x);
    } else {
      ChainLink(t, size, kind, p, x, j);
      ChainValue(t, size, kind, p, x, j - 1);
      Unfold(x, j + 1);
      if kind == ADD {
        AddAppends(p, x[j + 1], SumTo(x, j));
      } else {
        MulAppends(p, x[j + 1], ProdTo(x, j));
      }
    }
  }

  /** Gate size+j, for j >= 2, combines input j+1 with gate size+j-1. */
  lemma ChainLink(t: Table, size: int, kind: Kind, p: Modulus, x: map<int, int>, j: int)
    requires ChainShape(t, size, kind) && kind != INP && HasInputs(x, size) && 2 <= j < size
    ensures var u, v := Mod(p, x[j + 1]), Value(t, size, p, x, size + (j - 1));
      Value(t, size, p, x, size + j) == if kind == ADD then Add(p, u, v) else Mul(p, u, v)
  {
    var g := size + j;
    GateValue(t, size, p, x, g);
    assert t[g].kind == kind && Sources(t, g) == [j + 1, g - 1];
    InputValue(t, size, p, x, j + 1);
  }

  /** Adding the residue of a to that of the running sum s gives the
      residue of s + a. */
  lemma AddAppends(p: Modulus, a: int, s: int)
    ensures Add(p, Mod(p, a), Mod(p, s)) == Mod(p, s + a)
  {
    AddOfResidues(p, a, s);
  }

  /** Multiplying the residue of a by that of the running product q gives
      the residue of q * a. */
  lemma MulAppends(p: Modulus, a: int, q: int)
    ensures Mul(p, Mod(p, a), Mod(p, q)) == Mod(p, q * a)
  {
    MulOfResidues(p, a, q);
    assert a * q == q * a;
  }

  /** The sum chain (circuit 6) outputs the sum of the inputs and the
      product chain (circuit 7) their product, mod p. */
  lemma ChainComputes(size: int, kind: Kind, p: Modulus, x: map<int, int>)
    requires size >= 2 && kind != INP && HasInputs(x, size)
    ensures WellFormed(ChainTable(size, kind), size)
    ensures Output(ChainTable(size, kind), size, p, x) ==
      Mod(p, if kind == ADD then SumTo(x, size) else ProdTo(x, size))
  {
    ChainHasShape(size, kind);
    ChainValue(ChainTable(size, kind), size, kind, p, x, size - 1);
  }

  // ---------------------------------------------------------------------------
  // tree(next, n): gates next..next+n-1 are paired up, pair k feeding slots
  // 1 and 2 of gate next+n+k, and the next level of n/2 gates starts at
  // next+n. The first level (next == 1) is the INP level.

  /** The entry tree(next, n) writes for gate g of its level: the first pair
      feeds slots 1 and 2 of gate next+n, and each later pair the gate after
      the one the pair before it feeds. */
  function LevelGate(next: int, n: int, g: int): Gate
    decreases g - next
  {
    if g < next + 2 then Single(if next == 1 then INP else MUL, next + n, if g == next then 1 else 2)
    else var before := LevelGate(next, n, g - 2); Single(before.kind, before.dest + 1, before.slot)
  }

  /** The entries one level writes before recursing. */
  function Level(next: int, n: int): Table
  {
    map g | next <= g < next + n :: LevelGate(next, n, g)
  }

  /** The global table after tree(next, n) runs on gates. */
  function TreeSpec(gates: Table, next: int, n: int): Table
    decreases n
  {
    if n >= 1 then TreeSpec(gates + Level(next, n), next + n, n / 2) else gates
  }

  /** Pair k of a level: its two gates share the destination next+n+k. */
  lemma {:induction false} LevelPair(next: int, n: int, k: nat)
    ensures LevelGate(next, n, next + 2 * k) == Single(if next == 1 then INP else MUL, next + n + k, 1)
    ensures LevelGate(next, n, next + 2 * k + 1) == Single(if next == 1 then INP else MUL, next + n + k, 2)
  {
    if k > 0 {
      LevelPair(next, n, k - 1);
      assert next + 2 * k - 2 == next + 2 * (k - 1);
    }
  }

  /** The loop of tree(next, n): one level written into the table. */
  method FillLevel(gates: Table, next: int, n: int) returns (r: Table)
    requires n >= 1
    ensures r == gates + Level(next, n)
  {
    r := gates;
    var kind := if next == 1 then INP else MUL;
    var output := next + n;
    var last := output - 1;
    var g := next;
    ghost var k := 0;
    while g < next + n
      invariant g == next + 2 * k && 0 <= k && 2 * k <= n + 1
      invariant output == next + n + k
      invariant forall j :: j in r <==> j in gates || (next <= j < g && j < next + n)
      invariant forall j {:trigger r[j]} :: j in r ==> r[j] == if next <= j < g && j < next + n then LevelGate(next, n, j) else gates[j]
    {
      LevelPair(next, n, k);
      r := r[g := Single(kind, output, 1)];
      if g < last {
        r := r[g + 1 := Single(kind, output, 2)];
      }
      output := output + 1;
      g := g + 2;
      k := k + 1;
    }
  }

  /** tree, with the global table passed in and returned. */
  method Tree(gates: Table, next: int, n: int) returns (r: Table)
    ensures r == TreeSpec(gates, next, n)
    decreases n
  {
    r := gates;
    if n >= 1 {
      r := FillLevel(r, next, n);
      r := Tree(r, next + n, n / 2);
      LevelThenRest(gates, next, n);
    }
  }

  /** n is a power of two. */
  predicate IsPow2(n: int)
    decreases n
  {
    n == 1 || (n >= 2 && n % 2 == 0 && IsPow2(n / 2))
  }

  /** The tree over n inputs in closed form: gate g feeds slot 1 (g odd) or
      2 (g even) of gate n+1+(g-1)/2; gates 1..n are INP, the rest MUL. */
  function TreeGate(n: int, g: int): Gate
  {
    Single(if g <= n then INP else MUL, n + 1 + (g - 1) / 2, if g % 2 == 1 then 1 else 2)
  }

  function TreePrefix(n: int, k: int): Table
  {
    map g | 1 <= g <= k :: TreeGate(n, g)
  }

  function TreeTable(n: int): Table
  {
    TreePrefix(n, 2 * n - 1)
  }

  /** Halving shifts by an even amount. */
  lemma HalfShift(q: int, d: int)
    ensures (q - 2 * d) / 2 == q / 2 - d
    ensures (q - 2 * d) % 2 == q % 2
  {
    var a, r := q / 2, q % 2;
    assert q - 2 * d == 2 * (a - d) + r;
  }

  /** On the level of m gates that starts at 2n-2m+1, the entries tree
      writes are those of the closed form. */
  lemma LevelMatches(n: int, m: int, g: int)
    requires 1 <= m <= n && (m == n || 2 * m <= n)
    requires 2 * n - 2 * m + 1 <= g < 2 * n - m + 1
    ensures LevelGate(2 * n - 2 * m + 1, m, g) == TreeGate(n, g)
  {
    var next := 2 * n - 2 * m + 1;
    var k := (g - next) / 2;
    LevelPair(next, m, k);
    HalfShift(g - 1, n - m);
    assert g - next == (g - 1) - 2 * (n - m);
    assert g == next + 2 * k || g == next + 2 * k + 1;
  }

  /** t holds exactly gates 1..k of the closed-form tree. */
  ghost predicate IsTreePrefix(t: Table, n: int, k: int)
  {
    && (forall g :: g in t <==> 1 <= g <= k)
    && (forall g {:trigger t[g]} :: g in t ==> t[g] == TreeGate(n, g))
  }

  /** One level extends a closed-form prefix of 2n-2m gates to 2n-m gates. */
  lemma LevelExtends(n: int, m: int, t: Table, next: int)
    requires 1 <= m <= n && (m == n || 2 * m <= n) && next == 2 * n - 2 * m + 1
    requires IsTreePrefix(t, n, next - 1)
    ensures IsTreePrefix(t + Level(next, m), n, next + m - 1)
  {
    var u := t + Level(next, m);
    forall g | g in u
      ensures u[g] == TreeGate(n, g)
    {
      if next <= g < next + m {
        LevelMatches(n, m, g);
      }
    }
  }

  /** tree(next, n) with n >= 1 writes its level and goes on with the next. */
  lemma LevelThenRest(before: Table, next: int, n: int)
    requires n >= 1
    ensures TreeSpec(before, next, n) == TreeSpec(before + Level(next, n), next + n, n / 2)
  {
  }

  /** From the level of m gates on, starting at gate next = 2n-2m+1, tree
      completes the closed-form table: the table r it leaves holds exactly
      gates 1..2n-1 of the closed form. */
  lemma {:induction false} TreeLevels(n: int, m: int, t: Table, next: int) returns (r: Table)
    requires LevelAt(n, m, next) && IsTreePrefix(t, n, next - 1)
    ensures r == TreeSpec(t, next, m) && IsTreePrefix(r, n, 2 * n - 1)
    decreases m, 1
  {
    if m == 1 {
      r := TreeRoot(n, t, next);
    } else {
      r := TreeLevelsFrom(n, m, t, next);
    }
  }

  /** The level of m gates of a tree over n leaves starts at gate
      2n - 2m + 1; m is a power of two, n itself or at most n/2. */
  ghost predicate LevelAt(n: int, m: int, next: int)
  {
    IsPow2(m) && m <= n && (m == n || 2 * m <= n) && next == 2 * n - 2 * m + 1
  }

  /** The last level is the root alone. */
  lemma TreeRoot(n: int, t: Table, next: int) returns (r: Table)
    requires n >= 1 && next == 2 * n - 1 && IsTreePrefix(t, n, next - 1)
    ensures r == TreeSpec(t, next, 1) && IsTreePrefix(r, n, 2 * n - 1)
  {
    LevelExtends(n, 1, t, next);
    LevelThenRest(t, next, 1);
    r := t + Level(next, 1);
    assert TreeSpec(r, next + 1, 0) == r;
  }

  /** A level of m >= 2 gates, then the levels above it. */
  lemma {:induction false} TreeLevelsFrom(n: int, m: int, t: Table, next: int) returns (r: Table)
    requires LevelAt(n, m, next) && m >= 2 && IsTreePrefix(t, n, next - 1)
    ensures r == TreeSpec(t, next, m) && IsTreePrefix(r, n, 2 * n - 1)
    decreases m, 0
  {
    LevelExtends(n, m, t, next);
    NextLevel(n, m, next);
    r := TreeLevels(n, m / 2, t + Level(next, m), next + m);
    LevelThenRest(t, next, m);
  }

  lemma NextLevel(n: int, m: int, next: int)
    requires LevelAt(n, m, next) && m >= 2
    ensures LevelAt(n, m / 2, next + m)
  {
    Pow2Half(m);
  }

  lemma Pow2Half(m: int)
    requires IsPow2(m) && m >= 2
    ensures IsPow2(m / 2) && 2 * (m / 2) == m
  {
  }

  /** A table holding exactly the closed-form gates 1..k is the prefix. */
  lemma PrefixIs(t: Table, n: int, k: int)
    requires IsTreePrefix(t, n, k)
    ensures t == TreePrefix(n, k)
  {
  }

  /** For n a power of two, tree(1, n) builds the closed-form table. */
  lemma TreeBuilds(n: int)
    requires IsPow2(n)
    ensures TreeSpec(map[], 1, n) == TreeTable(n)
  {
    var r := TreeLevels(n, n, map[], 1);
    PrefixIs(r, n, 2 * n - 1);
  }

  /** Gate i of the tree feeds a later gate, past 2n-1 only for the root. */
  lemma TreeDest(n: int, i: int)
    requires 1 <= i <= 2 * n - 1
    ensures n + 1 + (i - 1) / 2 > i
    ensures n + 1 + (i - 1) / 2 > 2 * n - 1 <==> i == 2 * n - 1
  {
    var q, r := (i - 1) / 2, (i - 1) % 2;
    assert i - 1 == 2 * q + r;
  }

  /** The children of gate h are the two gates whose halved index is h-n-1. */
  lemma TreeParent(n: int, i: int, h: int)
    ensures n + 1 + (i - 1) / 2 == h <==> i == 2 * (h - n) - 1 || i == 2 * (h - n)
  {
    var q, r := (i - 1) / 2, (i - 1) % 2;
    assert i - 1 == 2 * q + r;
  }

  lemma TreeDense(n: int)
    requires n >= 2
    ensures |TreeTable(n)| == 2 * n - 1 && Dense(TreeTable(n))
  {
    DenseRange(TreeTable(n), 2 * n - 1);
  }

  /** Gate h above n multiplies gates 2(h-n)-1 and 2(h-n). */
  lemma TreeSources(n: int, h: int)
    requires n >= 2 && n < h <= 2 * n - 1
    ensures Dense(TreeTable(n))
    ensures Sources(TreeTable(n), h) == [2 * (h - n) - 1, 2 * (h - n)]
  {
    var t := TreeTable(n);
    TreeDense(n);
    var a, b := 2 * (h - n) - 1, 2 * (h - n);
    forall i | 1 <= i <= |t|
      ensures Hits(Wires(t[i]), h) == if i == a || i == b then 1 else 0
    {
      TreeParent(n, i, h);
      assert Wires(t[i]) == [Wire(n + 1 + (i - 1) / 2, t[i].slot)];
    }
    SourcesPair(t, h, |t|, a, b);
  }

  /** For at least two inputs the closed-form tree is well formed: INP
      gates 1..n, each MUL gate with two sources, only gate 2n-1 pointing
      past N_GATES. */
  lemma TreeWellFormed(n: int)
    requires n >= 2
    ensures WellFormed(TreeTable(n), n)
  {
    var t := TreeTable(n);
    TreeDense(n);
    forall i | 1 <= i <= |t|
      ensures GateOk(t, n, |t|, i)
    {
      TreeDest(n, i);
      assert Wires(t[i]) == [Wire(n + 1 + (i - 1) / 2, t[i].slot)];
    }
    forall h | n < h <= |t|
      ensures |Sources(t, h)| == 2
    {
      TreeSources(n, h);
    }
  }

  // ---------------------------------------------------------------------------
  // make_circuit: for every point k (0-based) the inputs 3k+1 (target),
  // 3k+2 (estimate) and 3k+3 (the constant -1) feed a block of five gates
  // starting at psize+5k+1 that squares target - estimate; the block ends
  // are then summed by a chain of ADD gates starting at 8*size+1.

  /** The destinations of input gate i (the list form). */
  function InputGate(psize: int, i: int): Gate
  {
    if i % 3 == 1 then Fanout(INP, [Wire(psize + 2 + (i / 3) * 5, 1), Wire(psize + 4 + (i / 3) * 5, 1)])
    else if i % 3 == 2 then Fanout(INP, [Wire(psize + 1 + (i / 3) * 5, 1), Wire(psize + 3 + (i / 3) * 5, 1)])
    else Fanout(INP, [Wire(psize + 1 + (i / 3 - 1) * 5, 1), Wire(psize + 3 + (i / 3 - 1) * 5, 1)])
  }

  /** Gate i of a block; the block end that is the c-th to be written feeds
      the first summing gate when c is 1 or 2, and summing gate c-1 after. */
  function BlockGate(psize: int, adders: int, i: int): Gate
  {
    var r := (i - psize) % 5;
    if r == 1 then Single(MUL, i + 1, 1)
    else if r == 2 then Single(ADD, i + 3, 1)
    else if r == 3 then Single(MUL, i + 1, 1)
    else if r == 4 then Single(ADD, i + 1, 1)
    else
      var c := (i - psize) / 5;
      Single(MUL, if c == 1 || c == 2 then adders + 1 else adders + c - 1, 1)
  }

  /** The number of blocks make_circuit writes for psize inputs. */
  function Blocks(psize: nat): nat
  {
    if (psize / 3) * 8 >= psize then ((psize / 3) * 8 - psize) / 5 else 0
  }

  function CircuitGate(psize: nat, i: int): Gate
  {
    var adders := (psize / 3) * 8;
    if i <= psize then InputGate(psize, i)
    else if i <= adders then BlockGate(psize, adders, i)
    else Single(ADD, i + 1, 1)
  }

  /** The last id make_circuit writes: the inputs, the blocks up to
      8*size, and the summing gates below 8*size + Blocks(psize). */
  function CircuitTop(psize: nat): int
  {
    var adders := (psize / 3) * 8;
    Max(Max(psize, adders), adders + Blocks(psize) - 1)
  }

  /** The table make_circuit returns for psize private values. */
  function CircuitTable(psize: nat): Table
  {
    map i | 1 <= i <= CircuitTop(psize) :: CircuitGate(psize, i)
  }

  /** Stepping i by one advances i/5 exactly when 5 divides i. */
  lemma DivStep(q: int)
    requires q >= 1
    ensures q / 5 == (q - 1) / 5 + (if q % 5 == 0 then 1 else 0)
  {
    var a, r := (q - 1) / 5, (q - 1) % 5;
    assert q == 5 * a + r + 1;
    if r == 4 {
      assert q == 5 * (a + 1);
    } else {
      assert q == 5 * a + (r + 1);
    }
  }

  /** The first loop of make_circuit: the input gates 1..psize. */
  method InputGates(psize: nat) returns (gates: Table)
    ensures forall j :: j in gates <==> 1 <= j <= psize
    ensures forall j :: j in gates ==> gates[j] == CircuitGate(psize, j)
  {
    gates := map[];
    var i := 1;
    while i < psize + 1
      invariant 1 <= i <= psize + 1
      invariant forall j :: j in gates <==> 1 <= j < i
      invariant forall j {:trigger gates[j]} :: j in gates ==> gates[j] == CircuitGate(psize, j)
    {
      if i % 3 == 1 {
        gates := gates[i := Fanout(INP, [Wire(psize + 2 + (i / 3) * 5, 1), Wire(psize + 4 + (i / 3) * 5, 1)])];
      }
      if i % 3 == 2 {
        gates := gates[i := Fanout(INP, [Wire(psize + 1 + (i / 3) * 5, 1), Wire(psize + 3 + (i / 3) * 5, 1)])];
      }
      if i % 3 == 0 {
        gates := gates[i := Fanout(INP, [Wire(psize + 1 + (i / 3 - 1) * 5, 1), Wire(psize + 3 + (i / 3 - 1) * 5, 1)])];
      }
      i := i + 1;
    }
  }

  /** The second loop of make_circuit: the blocks psize+1..8*size, counting
      the block ends in endCounter. */
  method BlockGates(gates0: Table, psize: nat) returns (gates: Table, endCounter: int)
    requires forall j :: j in gates0 <==> 1 <= j <= psize
    requires forall j :: j in gates0 ==> gates0[j] == CircuitGate(psize, j)
    ensures forall j :: j in gates <==> 1 <= j <= Max(psize, (psize / 3) * 8)
    ensures forall j :: j in gates ==> gates[j] == CircuitGate(psize, j)
    ensures endCounter == Blocks(psize)
  {
    gates := gates0;
    var size := psize / 3;
    var adders := size * 8;
    endCounter := 0;
    var i := psize + 1;
    while i < size * 8 + 1
      invariant psize + 1 <= i && (i <= adders + 1 || i == psize + 1)
      invariant endCounter == (i - 1 - psize) / 5
      invariant forall j :: j in gates <==> 1 <= j < i
      invariant forall j {:trigger gates[j]} :: j in gates ==> gates[j] == CircuitGate(psize, j)
    {
      var gate;
      gate, endCounter := BlockEntry(psize, adders, i, endCounter);
      gates := gates[i := gate];
      i := i + 1;
    }
  }

  /** One pass of the second loop of make_circuit: the entry for gate i, and
      endCounter advanced when i ends a block. */
  method BlockEntry(psize: nat, adders: int, i: int, endCounter: int) returns (gate: Gate, ends: int)
    requires psize < i <= adders && adders == (psize / 3) * 8 && endCounter == (i - 1 - psize) / 5
    ensures gate == CircuitGate(psize, i) && ends == (i - psize) / 5
  {
    DivStep(i - psize);
    ends := endCounter;
    if (i - psize) % 5 == 1 {
      gate := Single(MUL, i + 1, 1);
    } else if (i - psize) % 5 == 2 {
      gate := Single(ADD, i + 3, 1);
    } else if (i - psize) % 5 == 3 {
      gate := Single(MUL, i + 1, 1);
    } else if (i - psize) % 5 == 4 {
      gate := Single(ADD, i + 1, 1);
    } else {
      ends := ends + 1;
      if ends == 1 || ends == 2 {
        gate := Single(MUL, adders + 1, 1);
      } else {
        gate := Single(MUL, adders + ends - 1, 1);
      }
    }
  }

  /** make_circuit; only the number of private values matters. */
  method MakeCircuit(psize: nat) returns (gates: Table)
    ensures gates == CircuitTable(psize)
  {
    var adders := (psize / 3) * 8;
    var endCounter;
    gates := InputGates(psize);
    gates, endCounter := BlockGates(gates, psize);
    var x := adders + 1;
    while x < adders + endCounter
      invariant adders + 1 <= x && (x <= adders + endCounter || x == adders + 1)
      invariant forall j :: j in gates <==> 1 <= j <= Max(x - 1, Max(psize, adders))
      invariant forall j {:trigger gates[j]} :: j in gates ==> gates[j] == CircuitGate(psize, j)
    {
      gates := gates[x := Single(ADD, x + 1, 1)];
      x := x + 1;
    }
    assert forall j :: j in gates <==> 1 <= j <= CircuitTop(psize);
  }

  /** Every input gate of make_circuit's table has two wires into slot 1 of
      later gates, and every other gate a single wire into a later gate. */
  lemma CircuitForward(psize: nat, i: int)
    requires 1 <= i <= CircuitTop(psize)
    ensures var g := CircuitTable(psize)[i];
      && (i <= psize ==> g.Fanout? && g.kind == INP && |g.wires| == 2
                         && g.wires[0].slot == 1 && g.wires[1].slot == 1
                         && g.wires[0].dest > i && g.wires[1].dest > i)
      && (i > psize ==> g.Single? && g.kind != INP && g.dest > i)
  {
    var adders := (psize / 3) * 8;
    if i <= psize {
      InputForward(psize, i);
    } else if i <= adders {
      BlockForward(psize, adders, i);
    }
  }

  lemma InputForward(psize: nat, i: int)
    requires 1 <= i <= psize
    ensures var g := InputGate(psize, i);
      && g.Fanout? && g.kind == INP && |g.wires| == 2
      && g.wires[0].slot == 1 && g.wires[1].slot == 1
      && g.wires[0].dest > i && g.wires[1].dest > i
  {
    var q := i / 3;
    assert q >= 0;
    if i % 3 == 0 {
      assert q >= 1;
    }
  }

  lemma BlockForward(psize: nat, adders: int, i: int)
    requires psize < i <= adders
    ensures var g := BlockGate(psize, adders, i);
      g.Single? && g.kind != INP && g.dest > i
  {
    var c := (i - psize) / 5;
    assert c >= 0;
  }

  /** For size points (3 * size private values) the table has 9 * size - 1
      gates, and the last one, and only it, wires past N_GATES, to
      N_GATES + 1. */
  lemma CircuitOutput(size: nat, i: int)
    requires size >= 1 && 1 <= i <= 9 * size - 1
    ensures CircuitTop(3 * size) == 9 * size - 1
    ensures |CircuitTable(3 * size)| == 9 * size - 1
    ensures var g := CircuitTable(3 * size)[i];
      && (i == 9 * size - 1 ==> g.Single? && g.dest == 9 * size)
      && (i < 9 * size - 1 ==> forall j :: 0 <= j < |Wires(g)| ==> Wires(g)[j].dest <= 9 * size - 1)
  {
    CircuitSize(size);
    assert CircuitTable(3 * size)[i] == CircuitGate(3 * size, i);
    GateWithin(size, i);
  }

  lemma CircuitSize(size: nat)
    requires size >= 1
    ensures Blocks(3 * size) == size
    ensures CircuitTop(3 * size) == 9 * size - 1
    ensures |CircuitTable(3 * size)| == 9 * size - 1
  {
    var psize := 3 * size;
    assert psize / 3 == size;
    assert Blocks(psize) == size;
    assert CircuitTop(psize) == 9 * size - 1;
    MapSize(CircuitTable(psize), 9 * size - 1);
  }

  lemma GateWithin(size: nat, i: int)
    requires size >= 1 && 1 <= i <= 9 * size - 1
    ensures var g := CircuitGate(3 * size, i);
      && (i == 9 * size - 1 ==> g.Single? && g.dest == 9 * size)
      && (i < 9 * size - 1 ==> forall j :: 0 <= j < |Wires(g)| ==> Wires(g)[j].dest <= 9 * size - 1)
  {
    assert (3 * size) / 3 == size;
    if i <= 3 * size {
      InputWithin(size, i);
    } else if i <= 8 * size {
      BlockWithin(size, i);
    }
  }

  lemma InputWithin(size: nat, i: int)
    requires 1 <= i <= 3 * size
    ensures var g := InputGate(3 * size, i);
      g.Fanout? && forall j :: 0 <= j < |g.wires| ==> g.wires[j].dest <= 8 * size
  {
    var k := i / 3;
    assert i == 3 * k + i % 3;
    if i % 3 == 0 {
      assert 1 <= k <= size;
      assert (k - 1) * 5 <= (size - 1) * 5;
    } else {
      assert k <= size - 1;
      assert k * 5 <= (size - 1) * 5;
    }
  }

  lemma BlockWithin(size: nat, i: int)
    requires 3 * size < i <= 8 * size
    ensures var g := BlockGate(3 * size, 8 * size, i);
      && g.Single?
      && (i < 9 * size - 1 ==> g.dest <= 9 * size - 1)
      && (i == 9 * size - 1 ==> g.dest == 9 * size)
  {
    var c, r := (i - 3 * size) / 5, (i - 3 * size) % 5;
    assert i == 3 * size + 5 * c + r;
    if r == 0 {
      assert 1 <= c <= size;
      assert c == 1 && i < 9 * size - 1 ==> size >= 2;
      assert i == 9 * size - 1 ==> size == 1 && c == 1;
    } else {
      assert c <= size - 1;
    }
  }

  // ---------------------------------------------------------------------------
  // The reference function of circuit 8.

  /** The loss over ids 1..k: the square of x[i] - x[i+1] summed over the ids
      i = 1 (mod 3); None when some x[i+1] is missing (a key error). */
  function LossTo(x: map<int, int>, k: nat): Option<int>
    requires HasInputs(x, k)
  {
    if k == 0 then Some(0)
    else
      var prev := LossTo(x, k - 1);
      if prev.None? || k % 3 != 1 then prev
      else if k + 1 !in x then None
      else Some(prev.value + (x[k] - x[k + 1]) * (x[k] - x[k + 1]))
  }

  /** The reference function of circuit 8, with its loop. */
  method SquaredError(p: Modulus, x: map<int, int>, n: nat) returns (r: Option<int>)
    requires HasInputs(x, n)
    ensures r.Some? <==> LossTo(x, n).Some?
    ensures r.Some? ==> r.value == Mod(p, LossTo(x, n).value)
  {
    var lossSum := 0;
    for i := 1 to n + 1
      invariant LossTo(x, i - 1) == Some(lossSum)
    {
      if i % 3 == 1 {
        if i + 1 !in x {
          LossStuck(x, i, n);
          return None;
        }
        lossSum := lossSum + (x[i] - x[i + 1]) * (x[i] - x[i + 1]);
      }
    }
    r := Some(lossSum % p);
  }

  /** Once a key is missing the loss stays undefined. */
  lemma {:induction false} LossStuck(x: map<int, int>, i: nat, n: nat)
    requires HasInputs(x, n) && 1 <= i <= n && LossTo(x, i).None?
    ensures LossTo(x, n).None?
    decreases n - i
  {
    if i < n {
      LossStuck(x, i + 1, n);
    }
  }

  /** With the private values grouped in threes, no key is missing: every
      estimate x[i+1] follows its target. */
  lemma {:induction false} LossDefined(x: map<int, int>, m: nat)
    requires HasInputs(x, 3 * m)
    ensures LossTo(x, 3 * m).Some?
  {
    if m > 0 {
      LossDefined(x, m - 1);
      assert LossTo(x, 3 * m - 2).Some?;
      assert LossTo(x, 3 * m - 1).Some?;
    }
  }

  /** The loss over m points is the sum of the squared differences between
      the target x[3k+1] and the estimate x[3k+2] of every point k < m. */
  function PointLoss(x: map<int, int>, m: nat): int
    requires HasInputs(x, 3 * m)
  {
    if m == 0 then 0 else PointLoss(x, m - 1) + (x[3 * m - 2] - x[3 * m - 1]) * (x[3 * m - 2] - x[3 * m - 1])
  }

  lemma {:induction false} LossIsPointLoss(x: map<int, int>, m: nat)
    requires HasInputs(x, 3 * m)
    ensures LossTo(x, 3 * m) == Some(PointLoss(x, m))
  {
    if m > 0 {
      LossIsPointLoss(x, m - 1);
      assert LossTo(x, 3 * m - 2) == Some(PointLoss(x, m));
    }
  }
}
