/** The circuit description every party loads: a gate table mapping each gate
    id to its kind and the wires leaving it, the derived constants, the
    configuration checks, and the plaintext meaning of the table (what the
    output wire carries when every gate is evaluated in the clear mod p). */
module Circuit {
  import opened ModPrime

  /** INP, ADD, MUL = (0, 1, 2) */
  datatype Kind = INP | ADD | MUL

  /** A wire into slot `slot` of gate `dest`. */
  datatype Wire = Wire(dest: int, slot: int)

  /** A table entry: the tuple form (kind, dest, slot) or the list form
      (kind, [(dest, slot), ...]) used for fan-out. */
  datatype Gate =
    | Single(kind: Kind, dest: int, slot: int)
    | Fanout(kind: Kind, wires: seq<Wire>)

  function Wires(g: Gate): seq<Wire>
  {
    match g
    case Single(_, d, s) => [Wire(d, s)]
    case Fanout(_, ws) => ws
  }

  type Table = map<int, Gate>

  /** Gate ids are exactly 1..|t|. Every table is written (or generated) with
      ascending ids, so dictionary order is ascending id order. */
  ghost predicate Dense(t: Table)
  {
    forall i :: i in t <==> 1 <= i <= |t|
  }

  /** Number of wires in ws that go to gate g. */
  function Hits(ws: seq<Wire>, g: int): nat
  {
    if ws == [] then 0
    else (if ws[0].dest == g then 1 else 0) + Hits(ws[1..], g)
  }

  function Copies(x: int, c: nat): seq<int>
  {
    if c == 0 then [] else Copies(x, c - 1) + [x]
  }

  /** The sources of gate g among ids 1..k, in table order, one entry per
      wire into g: the order in which the inputs of g are collected. */
  function SourcesUpTo(t: Table, g: int, k: nat): seq<int>
    requires forall i :: 1 <= i <= k ==> i in t
  {
    if k == 0 then [] else SourcesUpTo(t, g, k - 1) + Copies(k, Hits(Wires(t[k]), g))
  }

  function Sources(t: Table, g: int): seq<int>
    requires Dense(t)
  {
    SourcesUpTo(t, g, |t|)
  }

  /** Every wire of ws leaves gate i for a larger id. */
  predicate After(ws: seq<Wire>, i: int)
  {
    ws == [] || (ws[0].dest > i && After(ws[1..], i))
  }

  /** Whether some wire of ws goes past gate id b. */
  predicate Beyond(ws: seq<Wire>, b: int)
  {
    ws != [] && (ws[0].dest > b || Beyond(ws[1..], b))
  }

  lemma {:induction false} HitsMeans(ws: seq<Wire>, g: int)
    ensures Hits(ws, g) <= |ws|
    ensures Hits(ws, g) > 0 <==> exists w :: w in ws && w.dest == g
  {
    if ws != [] {
      HitsMeans(ws[1..], g);
      assert forall w :: w in ws <==> w == ws[0] || w in ws[1..];
    }
  }

  /** Counting the wires of a list one more at a time, as get_inputs walks
      them. */
  lemma {:induction false} HitsSnoc(ws: seq<Wire>, w: Wire, g: int)
    ensures Hits(ws + [w], g) == Hits(ws, g) + (if w.dest == g then 1 else 0)
  {
    if ws != [] {
      assert (ws + [w])[1..] == ws[1..] + [w];
      HitsSnoc(ws[1..], w, g);
    }
  }

  lemma {:induction false} HitsPrefix(ws: seq<Wire>, k: nat, g: int)
    requires k <= |ws|
    ensures Hits(ws[..k], g) <= Hits(ws, g)
  {
    if k > 0 {
      assert ws[..k][1..] == ws[1..][..k - 1];
      HitsPrefix(ws[1..], k - 1, g);
    }
  }

  lemma {:induction false} AfterMeans(ws: seq<Wire>, i: int)
    ensures After(ws, i) <==> forall w :: w in ws ==> w.dest > i
  {
    if ws != [] {
      AfterMeans(ws[1..], i);
      assert forall w :: w in ws <==> w == ws[0] || w in ws[1..];
    }
  }

  lemma {:induction false} BeyondMeans(ws: seq<Wire>, b: int)
    ensures Beyond(ws, b) <==> exists w :: w in ws && w.dest > b
  {
    if ws != [] {
      BeyondMeans(ws[1..], b);
      assert forall w :: w in ws <==> w == ws[0] || w in ws[1..];
    }
  }

  /** A gate receives a wire only from a gate with a smaller id. */
  lemma HitsAfter(ws: seq<Wire>, i: int, g: int)
    requires After(ws, i) && Hits(ws, g) > 0
    ensures i < g
  {
    HitsMeans(ws, g);
    AfterMeans(ws, i);
  }

  lemma {:induction false} CopiesMeans(x: int, c: nat)
    ensures |Copies(x, c)| == c && forall j :: 0 <= j < c ==> Copies(x, c)[j] == x
  {
    if c > 0 {
      CopiesMeans(x, c - 1);
    }
  }

  /** The sources of g among 1..k are exactly the ids with a wire into g. */
  lemma {:induction false} SourcesUpToMeans(t: Table, g: int, k: nat)
    requires forall i :: 1 <= i <= k ==> i in t
    ensures forall j :: 0 <= j < |SourcesUpTo(t, g, k)| ==>
      1 <= SourcesUpTo(t, g, k)[j] <= k && Hits(Wires(t[SourcesUpTo(t, g, k)[j]]), g) > 0
    ensures forall i :: 1 <= i <= k && Hits(Wires(t[i]), g) > 0 ==> i in SourcesUpTo(t, g, k)
  {
    if k > 0 {
      SourcesUpToMeans(t, g, k - 1);
      CopiesMeans(k, Hits(Wires(t[k]), g));
      var prev, c := SourcesUpTo(t, g, k - 1), Copies(k, Hits(Wires(t[k]), g));
      assert SourcesUpTo(t, g, k) == prev + c;
      forall i | 1 <= i <= k && Hits(Wires(t[i]), g) > 0
        ensures i in SourcesUpTo(t, g, k)
      {
        if i == k {
          assert c[0] == k;
          assert (prev + c)[|prev|] == k;
        } else {
          assert i in prev;
        }
      }
    }
  }

  /** When exactly the ids a < b among 1..k have one wire each into g, the
      sources of g are [a, b] (as far as k reaches). */
  lemma {:induction false} SourcesPair(t: Table, g: int, k: nat, a: int, b: int)
    requires forall i :: 1 <= i <= k ==> i in t
    requires 1 <= a < b
    requires forall i :: 1 <= i <= k ==> Hits(Wires(t[i]), g) == (if i == a || i == b then 1 else 0)
    ensures SourcesUpTo(t, g, k) == (if a <= k then [a] else []) + (if b <= k then [b] else [])
  {
    if k > 0 {
      SourcesPair(t, g, k - 1, a, b);
      assert Copies(k, 0) == [] && Copies(k, 1) == [k];
    }
  }

  /** The ids 1..n. */
  function Ids(n: nat): set<int>
  {
    if n == 0 then {} else Ids(n - 1) + {n}
  }

  lemma {:induction false} IdsMeans(n: nat)
    ensures |Ids(n)| == n
    ensures forall i :: i in Ids(n) <==> 1 <= i <= n
  {
    if n > 0 {
      IdsMeans(n - 1);
    }
  }

  /** A map whose keys are 1..n has n entries. */
  lemma MapSize<V>(m: map<int, V>, n: nat)
    requires forall i :: i in m <==> 1 <= i <= n
    ensures |m| == n
  {
    IdsMeans(n);
    forall i
      ensures i in m.Keys <==> i in Ids(n)
    {
    }
    assert m.Keys == Ids(n);
  }

  /** A table whose keys are 1..n has n entries and is dense. */
  lemma DenseRange(t: Table, n: nat)
    requires forall i :: i in t <==> 1 <= i <= n
    ensures |t| == n && Dense(t)
  {
    MapSize(t, n);
  }

  /** The local conditions on gate i of a table over n parties: it is an INP
      gate exactly when it is a party's own id, its wires go forward, and it
      points past N_GATES exactly when it is the last gate. */
  predicate GateOk(t: Table, n: nat, m: nat, i: int)
    requires i in t
  {
    && (t[i].kind == INP <==> i <= n)
    && After(Wires(t[i]), i)
    && (Beyond(Wires(t[i]), m) <==> i == m)
  }

  /** GateOk for the ids 1..k, in a table of m gates. */
  predicate GatesOk(t: Table, n: nat, m: nat, k: nat)
    requires forall i :: 1 <= i <= k ==> i in t
  {
    k == 0 || (GateOk(t, n, m, k) && GatesOk(t, n, m, k - 1))
  }

  lemma {:induction false} GatesOkMeans(t: Table, n: nat, m: nat, k: nat)
    requires forall i :: 1 <= i <= k ==> i in t
    requires GatesOk(t, n, m, k)
    ensures forall i :: 1 <= i <= k ==> GateOk(t, n, m, i)
  {
    if k > 0 {
      GatesOkMeans(t, n, m, k - 1);
    }
  }

  /** The structure the gate engine relies on, for a table over n parties:
      ids 1..N_GATES, the INP gates are the parties' ids 1..n, wires go
      forward, only the last gate (in tuple form) carries the output wire
      past N_GATES, and every ADD/MUL gate has exactly two sources. */
  ghost predicate WellFormed(t: Table, n: nat)
  {
    && Dense(t)
    && 1 <= n < |t|
    && (forall i :: 1 <= i <= |t| ==> GateOk(t, n, |t|, i))
    && t[|t|].Single?
    && (forall g :: n < g <= |t| ==> |Sources(t, g)| == 2)
  }

  /** Every gate among n+1..k has exactly two sources. */
  ghost predicate PairsUpTo(t: Table, n: nat, k: nat)
    requires Dense(t)
  {
    k <= n || (|Sources(t, k)| == 2 && PairsUpTo(t, n, k - 1))
  }

  /** WellFormed from its checkable parts. */
  lemma {:induction false} WellFormedByChecks(t: Table, n: nat)
    requires Dense(t) && 1 <= n < |t| && t[|t|].Single?
    requires GatesOk(t, n, |t|, |t|) && PairsUpTo(t, n, |t|)
    ensures WellFormed(t, n)
  {
    GatesOkMeans(t, n, |t|, |t|);
    PairsUpToMeans(t, n, |t|);
  }

  lemma {:induction false} PairsUpToMeans(t: Table, n: nat, k: nat)
    requires Dense(t) && PairsUpTo(t, n, k)
    ensures forall g :: n < g <= k ==> |Sources(t, g)| == 2
  {
    if k > n {
      PairsUpToMeans(t, n, k - 1);
    }
  }

  /** The two sources of an ADD/MUL gate come before it. */
  lemma SourcesBelow(t: Table, n: nat, g: int)
    requires WellFormed(t, n) && n < g <= |t|
    ensures |Sources(t, g)| == 2
    ensures forall j :: 0 <= j < 2 ==> 1 <= Sources(t, g)[j] < g
  {
    SourcesUpToMeans(t, g, |t|);
    forall j | 0 <= j < 2
      ensures Sources(t, g)[j] < g
    {
      var i := Sources(t, g)[j];
      assert GateOk(t, n, |t|, i);
      HitsAfter(Wires(t[i]), i, g);
    }
  }

  /** The private values {k: v(k) for k in 1..n} hold a value for every
      input gate. */
  predicate HasInputs(x: map<int, int>, n: nat)
  {
    forall i :: 1 <= i <= n ==> i in x
  }

  /** The plaintext value on the wires leaving gate g: INP gates carry the
      owner's private value, ADD and MUL gates the field sum and product of
      their two sources (first source first). */
  function Value(t: Table, n: nat, p: Modulus, x: map<int, int>, g: int): (r: int)
    requires WellFormed(t, n) && 1 <= g <= |t|
    requires HasInputs(x, n)
    ensures 0 <= r < p
    decreases g
  {
    assert GateOk(t, n, |t|, g);
    if t[g].kind == INP then Mod(p, x[g])
    else
      SourcesBelow(t, n, g);
      var s := Sources(t, g);
      var a, b := Value(t, n, p, x, s[0]), Value(t, n, p, x, s[1]);
      if t[g].kind == ADD then Add(p, a, b) else Mul(p, a, b)
  }

  /** An INP gate carries its owner's private value, reduced. */
  lemma InputValue(t: Table, n: nat, p: Modulus, x: map<int, int>, g: int)
    requires WellFormed(t, n) && 1 <= g <= n
    requires HasInputs(x, n)
    ensures Value(t, n, p, x, g) == Mod(p, x[g])
  {
    assert GateOk(t, n, |t|, g);
  }

  /** An ADD or MUL gate combines the values of its two sources. */
  lemma GateValue(t: Table, n: nat, p: Modulus, x: map<int, int>, g: int)
    requires WellFormed(t, n) && n < g <= |t|
    requires HasInputs(x, n)
    ensures |Sources(t, g)| == 2 && 1 <= Sources(t, g)[0] < g && 1 <= Sources(t, g)[1] < g
    ensures t[g].kind != INP
    ensures var u, v := Value(t, n, p, x, Sources(t, g)[0]), Value(t, n, p, x, Sources(t, g)[1]);
      Value(t, n, p, x, g) == if t[g].kind == ADD then Add(p, u, v) else Mul(p, u, v)
  {
    assert GateOk(t, n, |t|, g);
    SourcesBelow(t, n, g);
  }

  /** What the circuit computes: the value of its last gate. */
  function Output(t: Table, n: nat, p: Modulus, x: map<int, int>): (r: int)
    requires WellFormed(t, n)
    requires HasInputs(x, n)
    ensures 0 <= r < p
  {
    Value(t, n, p, x, |t|)
  }

  // ---------------------------------------------------------------------------
  // Derived constants and the load-time checks.

  datatype Config = Config(
    prime: Modulus,
    degree: nat,
    privateValues: map<int, int>,
    gates: Table,
    functionResult: int)
  {
    /** N_GATES */
    function NGates(): nat
    {
      |gates|
    }

    /** N_PARTIES */
    function NParties(): nat
    {
      |privateValues|
    }

    /** ALL_PARTIES = range(1, N_PARTIES + 1) */
    function AllParties(): (r: seq<int>)
      ensures |r| == NParties()
      ensures forall j :: 0 <= j < |r| ==> r[j] == j + 1
    {
      Range(1, NParties() + 1)
    }

    /** ALL_DEGREES = range(1, DEGREE + 1) */
    function AllDegrees(): (r: seq<int>)
      ensures |r| == degree
      ensures forall j :: 0 <= j < |r| ==> r[j] == j + 1
    {
      Range(1, degree + 1)
    }
  }

  function Range(lo: int, hi: int): (r: seq<int>)
    ensures |r| == if lo <= hi then hi - lo else 0
    ensures forall j :: 0 <= j < |r| ==> r[j] == lo + j
    decreases hi - lo
  {
    if lo >= hi then [] else [lo] + Range(lo + 1, hi)
  }

  /** Loading the circuit module: the derived constants are computed and the
      two asserts must hold, or loading fails. */
  function Load(prime: Modulus, degree: nat, privateValues: map<int, int>, gates: Table, functionResult: int): (r: Option<Config>)
    ensures r.Some? <==> prime > |privateValues| && 2 * degree < |privateValues|
    ensures r.Some? ==> r.value.NParties() == |privateValues| && r.value.NGates() == |gates|
  {
    var c := Config(prime, degree, privateValues, gates, functionResult);
    if prime > c.NParties() && 2 * degree < c.NParties() then Some(c) else None
  }
}
