# BGW secure multi-party computation, modelled in Dafny

This project models the semi-honest BGW protocol. N parties jointly evaluate
an arithmetic circuit of INP, ADD and MUL gates over the integers modulo a
prime PRIME. No party learns another party's private value.

- **Input gates.** Each party Shamir-shares its private value at its own input
  gate. The value becomes the constant term of a random polynomial of degree
  DEGREE, and party x receives the polynomial's value at x.
- **ADD gates.** Each party adds its two input shares locally.
- **MUL gates.** Each party multiplies its two input shares. It then re-shares
  the product at degree DEGREE and recombines, at degree N_PARTIES, the shares
  it receives back from every party (degree reduction).
- **The last gate.** Every party broadcasts its share of the last gate's
  output. Each party then reconstructs the result with Lagrange weights at zero
  and compares it with FUNCTION_RESULT.

The model follows the four modelled files (modprime.py, circuit.py, party.py,
network.py):

- **`modprime.py`** (module `ModPrime`) — arithmetic modulo PRIME.
  - `Mod`, `Add`, `Sub`, `Mul`, `Inv` and `Div`.
  - `Summation` and `Product` as folds that fail on an empty list.
  - Fermat's little theorem, proved, for `Inv`.
- **`circuit.py`** (modules `Circuit`, `Circuits`, `Generators`, `Configs`) —
  the circuits.
  - Gate tables, as maps from gate number to a gate. A gate is either a single
    `(kind, dest, slot)` wire or an input gate with a list of wires.
  - A reference evaluation of a well-formed table.
  - The derived constants and load-time asserts (`Config`, `Load`).
  - The eight example circuits, with their reference functions and private
    values.
  - The three table generators as methods with loops: `tree`, `make_gates`
    and `make_circuit`.
- **`network.py`** (modules `Mailbox`, `Network`) — the party's receiving side.
  - Classes `Subscriber` and `Network`, whose methods are proved to follow pure
    functions over an explicit state. The state is:
    - the per-sender queues;
    - the packets still to arrive on the socket;
    - the share buffer keyed by (source party, source gate);
    - an outbox of everything published.
- **`party.py`** (modules `Engine`, `Party`) — class `BgwProtocol`.
  - Its methods are proved to follow the functions of module `Engine` gate by
    gate. The split randomness is a parameter.
  - The mathematics behind it is in modules `Shamir`, `Lagrange`, `Reduction`
    and `Interpolation`.
  - Proved: the round trip of sharing and reconstruction, the linearity behind
    ADD, and the correctness of the MUL gate's degree reduction.

Python integers are unbounded, so the model's `int` needs no wrap-around. `%`
with a positive modulus is non-negative both in Python and in Dafny.

## Behaviour of the code worth knowing

The model follows the code in each of these cases:

- **Lagrange weights.** `get_lagrange` (party.py:129-139) computes the weights
  in floating point, as products of fractions, not by division modulo PRIME.
  The model computes the same products exactly, as reals, and proves each one
  equal to the integer (-1)^(i-1)·C(d, i). `get_secret` then reduces the exact
  sum.
- **Split coefficients.** They are drawn as `int(random() * (PRIME - 1))`
  (party.py:105-107). Each one therefore lies in [0, PRIME - 1): it may be 0 and
  is never PRIME - 1.
- **Empty lists.** `summation` and `product` are `functools.reduce` without an
  initial value (modprime.py:35-39). On an empty list they fail instead of
  giving 0 or 1, and the model returns `None`. On a one-element list they
  return the element unreduced.
- **Load-time checks.** Only PRIME > N_PARTIES and 2·DEGREE < N_PARTIES are
  checked (circuit.py:339-340). Nothing checks that the gate table is
  well-formed or that PRIME is prime. The model states these as separate
  predicates and preconditions.
- **`get_secret` default degree.** It is DEGREE + 1 (party.py:141). Only the
  shares of parties 1..min(degree, N) are read, because of the `break` at
  party.py:145-146.

## Model

| member | source | states |
|---|---|---|
| ModPrime.Mod | modprime.py:13-14 | the result is the unique residue in [0, p) congruent to a |
| ModPrime.Add | modprime.py:16-17 | the result is a residue in [0, p) congruent to a + b |
| ModPrime.Sub | modprime.py:19-20 | the result is a residue in [0, p) congruent to a - b, so it is never negative |
| ModPrime.Mul | modprime.py:22-23 | the result is a residue in [0, p) congruent to a · b |
| ModPrime.Inv | modprime.py:25-27 | the result is a residue in [0, p); FermatInverse gives its meaning |
| ModPrime.Div | modprime.py:29-30 | the result is a residue in [0, p); DivThenMul gives its meaning |
| ModPrime.Summation | modprime.py:35-36 | reduce(add, list) with no initial value; its meaning, no result for the empty list, a single element unchanged and the sum mod p otherwise, is ModPrime.SummationIsSum |
| ModPrime.Product | modprime.py:38-39 | reduce(mul, list) with no initial value; its meaning, no result for the empty list, a single element unchanged and the product mod p otherwise, is ModPrime.ProductIsProd |
| ModPrime.SummationIsSum | modprime.py:35-36 | reducing a list with add fails on the empty list, returns a single element unchanged, and otherwise yields the integer sum mod p |
| ModPrime.ProductIsProd | modprime.py:38-39 | reducing a list with mul fails on the empty list, returns a single element unchanged, and otherwise yields the integer product mod p |
| ModPrime.ModIdempotent | modprime.py:13-14 | reducing an already reduced value changes nothing |
| ModPrime.AddCommutes | modprime.py:16-17 | field addition is commutative |
| ModPrime.MulCommutes | modprime.py:22-23 | field multiplication is commutative |
| ModPrime.AddOfResidues | modprime.py:13-17 | adding residues gives the same result as adding the original integers |
| ModPrime.MulOfResidues | modprime.py:13-23 | multiplying residues gives the same result as multiplying the original integers |
| ModPrime.SubThenAdd | modprime.py:16-20 | subtracting b and adding it back gives a mod p: add is the inverse of sub |
| ModPrime.InvZero | modprime.py:25-27 | pow(0, p - 2, p) is 0 for every p > 2: zero has no inverse, and inv silently returns 0 |
| ModPrime.FermatLittle | modprime.py:25-27 | a^p ≡ a mod p for every prime p |
| ModPrime.FermatInverse | modprime.py:25-27 | for a prime p and a not divisible by p, a · inv(a) ≡ 1: inv really is the inverse |
| ModPrime.DivThenMul | modprime.py:29-30 | for a prime p and b not divisible by p, div(a, b) · b gives back a mod p |
| Interpolation.EvalAddP | party.py:38-45 | the value of a polynomial sum at x is the sum of the values |
| Interpolation.EvalScaleP | party.py:143-147 | the value of a scaled polynomial is the scaled value |
| Interpolation.EvalMulP | party.py:52-57 | the value of a polynomial product at x is the product of the values, so the products of shares lie on a polynomial of twice the degree |
| Interpolation.Interpolate | party.py:129-151 | with d points, the Lagrange weights at zero recover the constant term of every polynomial with at most d coefficients |
| Interpolation.WeightsSumToOne | party.py:129-139 | the Lagrange weights for points 1..d sum to 1 |
| Lagrange.Basis | party.py:129-139 | get_lagrange's product for party i over j = 1..d, j ≠ i, of j / (j - i); Lagrange.BasisIsWeight proves it is the integer weight (-1)^(i-1) · C(d, i) |
| Lagrange.SecretSum | party.py:141-148 | get_secret's sum of weight × share over parties 1..m; Lagrange.SecretSumIsCombine proves it equals the integer combination Shamir.Combine |
| Lagrange.BasisStep | party.py:133-138 | one step of the inner loop of get_lagrange: j = i is skipped, and any other j multiplies the product by j / (j - i) |
| Lagrange.BasisIsWeight | party.py:129-139 | for 1 ≤ i ≤ d, get_lagrange's exact product for party i equals the integer (-1)^(i-1) · C(d, i) |
| Lagrange.SecretSumIsCombine | party.py:143-147 | get_secret's real-valued sum of weight × share equals the integer Lagrange combination of the shares |
| Lagrange.BasisSumsToOne | party.py:129-147 | get_secret's sum over all-one shares is exactly 1 |
| Lagrange.BasisReconstructs | party.py:141-151 | get_secret's floored, reduced real sum equals the integer reconstruction Reconstruct(p, shares, d, N) |
| Shamir.Share | party.py:119-124 | a party's share is the sharing polynomial's value at the party number, reduced mod p |
| Shamir.DrawCoef | party.py:105-107 | int(u · (p - 1)) lies in [0, p - 1) for every draw u in [0, 1) |
| Shamir.DrawCoefs | party.py:105-107 | DEGREE draws give DEGREE coefficients, each in [0, p - 1) |
| Shamir.MaskingIsEval | party.py:120-122 | the loop's sum of c_i · x^(i+1) is x times the coefficient polynomial at x |
| Shamir.ShareMap | party.py:119-126 | the split's shares are keyed by exactly the parties 1..N |
| Shamir.Reconstruct | party.py:141-151 | the recombined secret is a residue in [0, p) |
| Shamir.Combine | party.py:141-148 | the weighted sum of the shares of parties 1..m with the integer Lagrange weights at zero; Shamir.CombineEval proves it recovers a polynomial's constant term mod p, Shamir.CombineAdd that it is linear |
| Shamir.CombineReadsPrefix | party.py:144-146 | the combination reads only the shares of parties 1..m |
| Shamir.ReconstructReadsPrefix | party.py:144-146 | two share maps that agree on parties 1..min(d, N) reconstruct to the same secret |
| Shamir.CombineAdd | party.py:38-45 | the combination of pointwise field sums is congruent to the sum of the combinations |
| Shamir.CombineEval | party.py:141-148 | shares congruent to a polynomial's values combine to a value congruent to its interpolation |
| Shamir.Recover | party.py:141-151 | shares congruent mod p to a polynomial with at most d coefficients reconstruct, from d ≤ N, to its constant term mod p |
| Shamir.RoundTrip | party.py:104-151 | the shares of a value under a polynomial with k coefficients reconstruct to the value mod p from any d with k + 1 ≤ d ≤ N |
| Shamir.AddShares | party.py:38-45 | the pointwise sum of two share vectors is defined exactly on the parties common to both |
| Shamir.ReconstructAdd | party.py:38-50 | linearity of the ADD gate: reconstructing the pointwise sums gives the field sum of the two reconstructions |
| Reduction.MulShares | party.py:52-57 | the local MUL step is defined exactly on the parties holding both operand shares |
| Reduction.ProductShare | party.py:52-57 | each local product is congruent to the product polynomial's value at the party number |
| Reduction.ProductRecover | party.py:52-57 | the products of degree-T shares of a and b still reconstruct to a · b mod p from any d ≥ 2T + 1 points: the degree blow-up |
| Reduction.Received | party.py:61-67 | party j receives one share from each party 1..N |
| Reduction.Reduced | party.py:61-70 | every party 1..N holds a degree-reduced output |
| Reduction.EvalAll | party.py:119-124 | the re-shared polynomials are evaluated at one point for all parties 1..N |
| Reduction.MixLength | party.py:104-107 | any combination of degree-T re-sharing polynomials has degree at most T |
| Reduction.MixEval | party.py:61-70 | the weighted mix of the re-sharing polynomials evaluates at x to the combination of their values at x |
| Reduction.MixAtZero | party.py:61-70 | at zero, the mix is the Lagrange combination of the local products |
| Reduction.CombineCongruent | party.py:141-148 | share maps that agree mod p combine to congruent values |
| Reduction.ReducedShare | party.py:61-70 | party j's degree-reduced output is congruent to the combination of the re-sharing polynomials' values at j |
| Reduction.ReducedOnMix | party.py:61-70 | party j's degree-reduced output is congruent to the mix polynomial's value at j |
| Reduction.OutputPoly | party.py:52-73 | the reduced outputs of parties 1..T+1 lie on one polynomial of degree at most T, whose constant term is the combination of the local products |
| Reduction.OutputsOnMix | party.py:52-73 | the reduced outputs of parties 1..T+1 agree mod p with the mix polynomial |
| Reduction.DegreeReduction | party.py:52-73 | reconstructing the reduced outputs at degree T + 1 gives the same secret as reconstructing the raw products at degree N |
| Reduction.MulGateCorrect | party.py:52-73 | with 2T < N, multiply, re-share, recombine and then reconstruct at T + 1 yields a · b mod p: the MUL gate computes the product |
| Circuit.HitsMeans | party.py:156-164 | a gate's wires reach g at least once exactly when some wire has destination g, and at most once per wire |
| Circuit.AfterMeans | circuit.py:13-15 | "every wire leaves forward" means every destination is past the gate |
| Circuit.BeyondMeans | party.py:81 | "some wire leaves the table" means some destination is beyond the last gate |
| Circuit.SourcesUpToMeans | party.py:153-166 | get_inputs collects from exactly the gates among 1..k that wire into g |
| Circuit.SourcesPair | party.py:153-166 | when exactly gates a < b feed g, the collected sources are [a, b], in that order |
| Circuit.IdsMeans | circuit.py:334-336 | the party numbers 1..n form a set of size n |
| Circuit.DenseRange | circuit.py:334 | a table keyed by exactly 1..n has N_GATES = n |
| Circuit.GatesOkMeans | circuit.py:13-15 | the recursive per-gate check certifies every gate |
| Circuit.WellFormedByChecks | circuit.py:13-15 | the executable checks imply well-formedness: inputs first, forward wires, two sources per ADD/MUL gate, and only the last gate's wire leaves the table |
| Circuit.PairsUpToMeans | party.py:153-166 | in a checked table, every ADD/MUL gate has exactly two sources |
| Circuit.SourcesBelow | circuit.py:13-15 | in a well-formed table, the two sources of an ADD/MUL gate precede it |
| Circuit.Value | circuit.py:13-15 | the plaintext value of each wire is a residue |
| Circuit.InputValue | circuit.py:13-15 | the value of input gate i is party i's private value mod p |
| Circuit.GateValue | circuit.py:13-15 | an ADD/MUL gate's value is the field sum or product of its two sources' values |
| Circuit.Output | circuit.py:15 | the circuit's result, the value on the final wire, is a residue |
| Circuit.Config.AllParties | circuit.py:336 | ALL_PARTIES is 1, 2, …, N_PARTIES in order |
| Circuit.Config.AllDegrees | circuit.py:337 | ALL_DEGREES is 1, 2, …, DEGREE in order |
| Circuit.Range | circuit.py:336-337 | range(lo, hi) has hi - lo elements, lo + j at position j |
| Circuit.Load | circuit.py:332-340 | loading succeeds exactly when PRIME > N_PARTIES and 2·DEGREE < N_PARTIES; N_PARTIES and N_GATES are the sizes of the value and gate maps |
| Circuits.Function1 | circuit.py:26-27 | the reference result of circuit 1 is a residue mod 101 |
| Circuits.Gates1WellFormed | circuit.py:29-41 | circuit 1's table is well-formed over 6 inputs |
| Circuits.Gates1Computes | circuit.py:26-41 | circuit 1's gates compute x1·x2 + x3·x4 + x5·x6 mod 101 for every input |
| Circuits.Result1 | circuit.py:24-27 | FUNCTION_RESULT of circuit 1 is 7, and the load-time asserts pass |
| Circuits.Function3 | circuit.py:88-89 | the reference result of circuit 3 is a residue mod 101 |
| Circuits.Gates3WellFormed | circuit.py:91-101 | circuit 3's table is well-formed over 5 inputs |
| Circuits.Gates3Computes | circuit.py:88-101 | circuit 3's gates compute x1 + … + x5 mod 101 for every input |
| Circuits.Result3 | circuit.py:86-89 | FUNCTION_RESULT of circuit 3 is 25, and the asserts pass |
| Circuits.Function4 | circuit.py:113-114 | the reference result of circuit 4 is a residue mod 101 |
| Circuits.Function5 | circuit.py:134-135 | the reference result of circuit 5 is a residue mod 101 |
| Circuits.Gates4WellFormed | circuit.py:116-122 | the shared table layout of circuits 4 and 5 is well-formed, with sources [1, 2] and [3, 4] |
| Circuits.Shape4Computes | circuit.py:113-143 | that layout computes (x1·x2)·x3 with a MUL middle gate, and (x1 + x2)·x3 with an ADD middle gate |
| Circuits.Gates4Computes | circuit.py:113-143 | circuits 4 and 5 compute their reference functions for every input |
| Circuits.Result4 | circuit.py:111-143 | FUNCTION_RESULT is 60 for circuit 4 and 35 for circuit 5, and the asserts pass |
| Generators.RangeSum | circuit.py:156-161 | circuit 6's loop returns the sum of x[1..n] mod p |
| Generators.RangeProduct | circuit.py:191-196 | circuit 7's loop returns the product of x[1..n] mod p |
| Generators.RunningProduct | circuit.py:56-59 | reducing after every step gives the same product mod p |
| Generators.ChainTable | circuit.py:163-213 | the closed form of make_gates' table; Generators.MakeGates proves the loops build it and Generators.ChainComputes that it outputs the sum or product of the inputs |
| Generators.MakeGates | circuit.py:163-176 | make_gates builds exactly the chain table: inputs 1 and 2 feed gate n + 1, input i feeds gate n + i - 1, and each chain gate feeds the next |
| Generators.ChainDense | circuit.py:163-176 | the chain table has exactly the gates 1..2n - 1 |
| Generators.ChainSources | circuit.py:163-176 | gate n + 1 reads inputs 1 and 2; chain gate g > n + 1 reads input g - n + 1 and gate g - 1 |
| Generators.ChainWellFormed | circuit.py:163-213 | for n ≥ 2 the chain table is well-formed |
| Generators.ChainValue | circuit.py:163-213 | chain gate n + j carries the sum (or product) of x1..x(j+1) mod p |
| Generators.ChainComputes | circuit.py:156-213 | circuits 6 and 7 output the sum, respectively the product, of all inputs mod p |
| Generators.FillLevel | circuit.py:69-73 | one level of tree pairs consecutive gates into the next output gates, on slots 1 and 2 |
| Generators.TreeSpec | circuit.py:63-76 | the table after tree(next, n): one level of n gates, then the tree of n // 2 above it; Generators.Tree proves the recursive builder produces it |
| Generators.Tree | circuit.py:63-74 | the recursive tree builder adds exactly the levels of TreeSpec |
| Generators.TreeBuilds | circuit.py:63-76 | for a power of two n, tree(1, n) builds the closed-form table in which gate i feeds gate n + 1 + (i - 1) // 2 |
| Generators.TreeParent | circuit.py:67-73 | gate h is fed by exactly gates 2(h - n) - 1 and 2(h - n) |
| Generators.TreeDest | circuit.py:67-73 | every wire goes forward, and only the last gate's wire leaves the table |
| Generators.TreeDense | circuit.py:63-76 | the tree table has exactly the gates 1..2n - 1 |
| Generators.TreeSources | circuit.py:63-76 | tree gate h reads gates 2(h - n) - 1 and 2(h - n) |
| Generators.TreeWellFormed | circuit.py:63-76 | for n ≥ 2 the tree table is well-formed |
| Generators.InputGates | circuit.py:288-296 | make_circuit's first loop builds the input gates 1..psize, each as in the closed form |
| Generators.BlockGates | circuit.py:299-318 | make_circuit's second loop adds the block gates up to size·8 and counts one end per five gates |
| Generators.BlockEntry | circuit.py:301-318 | one block gate: MUL, ADD (+3), MUL, ADD, then MUL to the summing gates |
| Generators.CircuitTable | circuit.py:251-324 | the closed form of make_circuit's table; Generators.MakeCircuit proves the loops build it |
| Generators.MakeCircuit | circuit.py:251-324 | make_circuit builds exactly the closed-form table, summing loop included |
| Generators.CircuitForward | circuit.py:288-318 | every input gate fans out on slot 1 to two later gates, and every later gate is a single forward ADD/MUL wire |
| Generators.CircuitSize | circuit.py:275-322 | with 3·size inputs there are size blocks and 9·size - 1 gates |
| Generators.CircuitOutput | circuit.py:251-324 | only the last gate's wire leaves the table; all others stay inside it |
| Generators.LossTo | circuit.py:243-249 | the squared-error loss over ids 1..k, None on a missing x[i + 1]; Generators.SquaredError proves the loop computes it |
| Generators.SquaredError | circuit.py:243-249 | the loss loop fails exactly when some x[i + 1] is missing; otherwise it returns the squared-error sum mod p |
| Generators.LossStuck | circuit.py:245-247 | once a prefix of the loop fails, the whole loop fails |
| Generators.LossDefined | circuit.py:245-247 | with 3m inputs the loss loop never fails |
| Generators.LossIsPointLoss | circuit.py:243-249 | with 3m inputs the loss is Σ (target - estimate)² over the m points |
| Configs.Values2 | circuit.py:53-54 | circuit 2's private values map k to k for k in 1..8 |
| Configs.Result2 | circuit.py:56-59 | FUNCTION_RESULT of circuit 2 is 8! mod 100003 = 40320, and the asserts pass |
| Configs.Values6 | circuit.py:153-154 | circuit 6's private values map k to k for k in 1..20 |
| Configs.SumOfIds | circuit.py:154-161 | the sum of the first k values is k(k + 1)/2 |
| Configs.Result6 | circuit.py:156-178 | FUNCTION_RESULT of circuit 6 is 210 mod 101 = 8, and the asserts pass |
| Configs.Values7 | circuit.py:186-189 | circuit 7's private values are EXP = 4 copies of BASE = 3 |
| Configs.Result7 | circuit.py:191-215 | FUNCTION_RESULT of circuit 7 is 3^4 mod 101 = 81, and the asserts pass |
| Configs.Values8 | circuit.py:229-240 | circuit 8's private values are, for points i = 1, 2, the target 2i + 1 at 3i - 2, the estimate 3i + 9 at 3i - 1, and -1 at 3i |
| Configs.Result8 | circuit.py:243-249 | FUNCTION_RESULT of circuit 8 is (3-12)² + (5-15)² = 181, and the asserts pass |
| Configs.Built8 | circuit.py:251-324 | make_circuit on six values builds the 17 listed gates |
| Configs.Inputs8Built | circuit.py:288-296 | the six input gates fan out to gates 7..15 as listed |
| Configs.Blocks8Built | circuit.py:299-318 | the ten block gates of the two points are wired as listed |
| Configs.Sources8 | party.py:153-166 | each gate 7..17 of circuit 8 reads exactly its two listed sources |
| Configs.Table8WellFormed | circuit.py:251-324 | circuit 8's table is well-formed over six inputs |
| Configs.Block8 | circuit.py:299-318 | each block computes (a + b·c)² mod p |
| Configs.Table8Computes | circuit.py:251-324 | circuit 8's gates compute (x1 + x2·x3)² + (x4 + x5·x6)² mod p |
| Configs.Table8Loss | circuit.py:243-324 | when the third value of each point is -1, circuit 8's output equals the reference loss |
| Configs.Circuit8Computes | circuit.py:243-326 | when the third value of each point is -1, the table make_circuit builds is well-formed and computes the reference loss function |
| Mailbox.Scan | network.py:42-48 | the read loop consumes packets, returns a message only when it read at least one, keeps the queue set, and never touches the awaited sender's queue |
| Mailbox.ScanFifo | network.py:42-48 | the read loop returns the awaited sender's first unread packet, and the other senders' pending messages are unchanged |
| Mailbox.ScanSkip | network.py:46-48 | moving another sender's packet into its queue leaves the awaited sender's unread messages and every other sender's pending messages unchanged |
| Mailbox.ScanHit | network.py:46-47 | a packet from the awaited sender is returned at once, with the queues untouched and the rest of the stream left unread; every other sender's unread messages are unchanged |
| Mailbox.Receive | network.py:37-48 | Subscriber.receive as a function of the inbox; Mailbox.ReceiveFifo, Mailbox.ReceiveQueued and Mailbox.ReceiveShrinks state what it delivers and what it keeps |
| Mailbox.ReceiveFifo | network.py:37-48 | receive delivers each sender's messages in arrival order, one per call, and leaves the other senders' pending messages unchanged; it blocks when none is left |
| Mailbox.ReceiveQueued | network.py:40-41 | a queued message is popped from the front without reading the socket |
| Mailbox.ReceiveShrinks | network.py:37-48 | receive keeps the set of queues, and a delivered message shortens what is left for that sender |
| Mailbox.EmptyBuffer | network.py:65-66 | the share buffer has a row for every party 1..N, each with slots 1..N_GATES + 1, all None |
| Mailbox.EmptyRow | network.py:65 | one row of the buffer has slots 1..size, all None |
| Mailbox.StoreSnoc | network.py:83-84 | the last stored message overwrites its slot |
| Mailbox.StoreFrame | network.py:84 | a slot changes only when a message for that gate arrives, and is then set |
| Mailbox.Pull | network.py:82-90 | the pulling loop of receive_share; Mailbox.PullMeans and Mailbox.PullFrame state what it stores, returns and leaves alone |
| Mailbox.ReceiveShare | network.py:72-90 | receive_share as a function of the buffer and inbox; Mailbox.ShareHit, Mailbox.ShareFrame, Mailbox.ShareIdempotent and Mailbox.ShareCleared state its behaviour |
| Mailbox.PullFrame | network.py:82-90 | the pull loop changes only the requested party's buffer row, and the other senders' pending messages are unchanged |
| Mailbox.PullMeans | network.py:82-90 | the pull loop stores the sender's messages up to the first for the requested gate, returns that share (clearing the slot when asked), and blocks if none comes |
| Mailbox.ShareHit | network.py:75-80 | a buffered share is returned without reading, and cleared exactly when clear is set |
| Mailbox.ShareFrame | network.py:72-90 | receive_share changes only the requested party's buffer row and its messages |
| Mailbox.ShareIdempotent | network.py:72-90 | without clear, asking twice for the same share returns it again and changes nothing |
| Mailbox.ShareCleared | network.py:77-89 | with clear, a returned share leaves its slot empty |
| Network.EmptyQueues | network.py:33 | the subscriber starts with an empty queue for every party 1..N |
| Network.Subscriber.constructor | network.py:29-35 | a new subscriber has empty queues for all parties |
| Network.Subscriber.Receive | network.py:37-48 | the method's result and new state are those of the receive function |
| Network.Network.constructor | network.py:55-66 | a new network has an empty share buffer and nothing published |
| Network.Network.SendShare | network.py:68-70 | send_share appends (dest, (src_gate, share)) to the outbox and nothing else |
| Network.Network.ReceiveShare | network.py:72-90 | the method's result, buffer and subscriber state are those of the receive_share function; nothing is published |
| Engine.Sends | party.py:119-126 | the split sends one message per party |
| Engine.SendsMeans | party.py:119-126 | the j-th message goes to party j + 1, tagged with the gate, carrying that party's share |
| Engine.SplitRoundTrip | party.py:104-151 | the shares sent by a split, received by parties 1..d, reconstruct to the value mod p |
| Engine.Plan | party.py:153-166 | the reads get_inputs(g) makes; Engine.PlanUpToMeans and Engine.PlanWellFormed state which shares they are |
| Engine.ReadAll | party.py:168-177 | process_inputs' reads in order: when none blocks, one value per read |
| Engine.PlanUpToMeans | party.py:153-166 | get_inputs reads one share per wire into the gate, in table order |
| Engine.PlanWellFormed | party.py:153-177 | in a well-formed table an ADD/MUL gate reads two shares: the owner's input share (party s, gate s) for an input source, and this party's own relay otherwise |
| Engine.ReadAllStuck | party.py:168-176 | once a read blocks, no later read happens |
| Engine.ReadAllBuffered | network.py:75-80 | shares already in the buffer are returned as they are, and nothing changes |
| Engine.AllFromMeans | party.py:65-67 | the MUL and final loops ask parties 1..N in order for the gate's share |
| Engine.BroadcastMeans | party.py:87-88 | the final broadcast sends the output to parties 1..N in order |
| Engine.AsShares | party.py:64-67 | the collected shares are keyed by the parties 1..N in order |
| Engine.LastGateOnly | party.py:81 | in a well-formed table, only the last gate takes the reveal branch |
| Engine.Run | party.py:29-77 | process_gates over gates 1..k in table order; Engine.RunKeeps proves it only appends to the outbox, never unblocks and keeps every verdict consistent with FUNCTION_RESULT, Engine.RunHalted that a blocked party does nothing more |
| Engine.GateStep | party.py:29-77 | the body of process_gates for one gate; Engine.InpStep, Engine.AddStep and Engine.MulStep state what each gate kind reads and sends, Engine.StepKeeps what it preserves |
| Engine.Operands | party.py:41-45 | get_inputs(g) and the first two values; the party halts when a read blocks or fewer than two values come back (Engine.AddStep, Engine.MulStep) |
| Engine.SendOutput | party.py:79-102 | send_output(output, g); Engine.SendOutputRelay and Engine.SendOutputFinal state the relay and the reveal branch |
| Engine.Reduce | party.py:57-74 | the degree reduction of a MUL gate; Engine.MulStep states what it sends and reads, Engine.ReduceKeeps what it preserves |
| Engine.RunHalted | party.py:29-77 | a party blocked for good processes nothing further |
| Engine.RunAfterHalt | party.py:29-77 | once blocked, the run's state is final |
| Engine.InpStep | party.py:31-36 | an input gate sends the party's own shares to everyone if the gate is its own, and does nothing otherwise |
| Engine.SendOutputRelay | party.py:81-83 | a non-final gate's output is sent to this party itself |
| Engine.SendOutputFinal | party.py:86-102 | the final gate broadcasts the output, reads every party's share, reconstructs at degree DEGREE + 1, and reports SUCCESS exactly when the result equals FUNCTION_RESULT |
| Engine.AddStep | party.py:38-50 | an ADD gate reads its two input shares and relays their field sum, or blocks |
| Engine.MulStep | party.py:52-74 | a MUL gate reads its two input shares, re-shares their field product, collects all N re-shares with clearing, and relays their degree-N reconstruction |
| Engine.RunKeeps | party.py:29-77 | processing the gates only appends to the outbox, never unblocks, and any verdict made says SUCCESS exactly when the revealed value equals FUNCTION_RESULT |
| Engine.StepKeeps | party.py:29-77 | one gate only appends to the outbox, never unblocks, and keeps every verdict consistent with FUNCTION_RESULT |
| Engine.SendOutputKeeps | party.py:79-102 | send_output only appends to the outbox, never unblocks, and keeps every verdict consistent with FUNCTION_RESULT |
| Engine.ReduceKeeps | party.py:60-73 | degree reduction only appends to the outbox, never unblocks, and keeps every verdict consistent with FUNCTION_RESULT |
| Engine.ReportOnlyAtLast | party.py:79-102 | no gate before the last one reports a verdict |
| Party.BgwProtocol.constructor | party.py:19-27 | constructing a party processes all gates from the network's initial state |
| Party.BgwProtocol.ProcessGates | party.py:29-77 | the gate loop leaves the state of running every gate in table order |
| Party.BgwProtocol.ProcessGate | party.py:30-74 | one iteration performs exactly one gate step |
| Party.BgwProtocol.SendOutput | party.py:79-102 | send_output follows its specification: relay, or broadcast and reveal |
| Party.BgwProtocol.RevealOutput | party.py:86-102 | the last gate's branch follows the specification |
| Party.BgwProtocol.Gather | party.py:87-92 | broadcast the output, then read every party's share of it |
| Party.BgwProtocol.Conclude | party.py:95-102 | the verdict is recorded as the specification says |
| Party.BgwProtocol.BroadcastOutput | party.py:87-88 | the output is sent to every party in order |
| Party.BgwProtocol.CollectShares | party.py:64-67 | shares are read from parties 1..N in order, with the given clearing |
| Party.BgwProtocol.ReadNext | party.py:67 | one more party's share is read |
| Party.BgwProtocol.SplitAndSendShares | party.py:104-126 | the split publishes exactly the shares of the value for parties 1..N, and changes nothing else |
| Party.BgwProtocol.ShareFor | party.py:120-124 | the inner loop computes the Shamir share for party x |
| Party.BgwProtocol.GetLagrange | party.py:129-139 | get_lagrange returns a weight for every party 1..N, equal to the Lagrange basis product at zero over points 1..degree |
| Party.BgwProtocol.GetSecret | party.py:141-151 | get_secret returns the reconstruction Reconstruct(p, shares, degree, N) |
| Party.BgwProtocol.SumShares | party.py:143-147 | the summing loop stops at the break and returns the weighted sum over parties 1..min(degree, N) |
| Party.BgwProtocol.GetInputs | party.py:153-166 | get_inputs reads the shares of all wires into the gate, in table order |
| Party.BgwProtocol.InputsFrom | party.py:156-164 | the wires of one gate are scanned in order |
| Party.BgwProtocol.WireInput | party.py:159-164 | one wire is considered |
| Party.BgwProtocol.ProcessInputs | party.py:168-177 | a wire into the gate reads one share, from the owner for an input gate and from this party otherwise; any other wire changes nothing |

## Left out

- **Sockets and timing.** The ZeroMQ publisher and subscriber sockets, topic
  filtering, ports and the `time.sleep` delays (network.py:1-35, 57-63) are
  replaced. Arrivals become an explicit packet sequence, and publishing becomes
  an outbox sequence.
- **Everything outside modprime.py, circuit.py, party.py and network.py.** Process start-up and the
  per-party processes (mpc.py), config.py and logging (log.py) are not part of
  this model. The log calls are dropped, and the SUCCESS/FAIL lines become a
  verdict value.
- **Randomness.** `random.random()` draws become parameters. `DrawCoef` takes
  the draw, and a party's split coefficients are a function from gate number to
  coefficient list. Seeding is not modelled. `Party.BgwProtocol` accepts any
  coefficient lists. `Shamir.DrawCoefs` is what gives the code's range:
  DEGREE coefficients, each in [0, PRIME - 1).
- **`randint`** (modprime.py:32-33) is not modelled: nothing in the four
  modelled files calls it.
- **Floating point.** The Lagrange products of `get_lagrange` and the sum in
  `get_secret` are exact reals. Float rounding, which could matter for large
  primes or many parties, is not captured.
- **Blocking.** A read that can never complete becomes `None`, and the party
  then halts. This covers a socket read once no packets remain, a key error
  on an unknown sender or a missing buffer slot, and an ADD or MUL gate that
  gets fewer than two operands back from `get_inputs`: the code then raises
  IndexError at `inputs[0], inputs[1]` (party.py:45, party.py:57), and the
  model halts the party instead (Engine.Operands).
- **Slot numbers.** The slot (leg) number in a wire is kept in the tables but
  never read, as in the code: inputs are collected in table order.
- **Dict order.** Tables are iterated in ascending key order, because every
  table in circuit.py inserts its keys in ascending order. The model requires
  the keys to be exactly 1..N_GATES.
- **Circuit selection.** The CIRCUIT switch (circuit.py:8) is not modelled.
  Each configuration is a separate set of constants.
- **The primes list.** The commented primes (circuit.py:342-350) are not
  modelled. Primality is a precondition only where Fermat's theorem needs it.
- **The Smart-book coefficients** (party.py:108-116) are inside a string
  literal and are not code.
- **Joint execution.** The lock-step run of all N parties exchanging messages
  is not modelled. Each party is modelled on its own inbound packet stream.
  The correctness of sharing, ADD and MUL across all parties is stated on
  values instead (Shamir.RoundTrip, Shamir.ReconstructAdd,
  Reduction.MulGateCorrect).
- **Generators.TreeTable:** that the tree circuit (circuit 2) computes the
  product of its inputs is not proved. Its construction, parent formula and
  well-formedness are proved for every power of two.
- **Generators.CircuitTable:** the evaluation of make_circuit's table is proved
  only for the six-input table of circuit 8. For all sizes, only gate layout,
  forward wiring and the output wire are proved.
- **Generators.ChainTable:** for fewer than two inputs, make_gates still writes
  gates 1 and 2. Nothing is proved about that case.
- **ModPrime.Inv:** the contract states only the range. The inverse property
  for prime moduli is ModPrime.FermatInverse.
- **ModPrime.Div:** the contract states only the range. Its meaning for prime
  moduli is ModPrime.DivThenMul.
- **Shamir.Reconstruct:** the contract states only the range. What it recovers
  is Shamir.Recover and Shamir.RoundTrip.
- **Circuits.Function1:** the contract states only the range. Its relation to
  the circuit is Circuits.Gates1Computes.
- **Circuits.Function3:** the contract states only the range. Its relation to
  the circuit is Circuits.Gates3Computes.
- **Circuits.Function4:** the contract states only the range. Its relation to
  the circuit is Circuits.Gates4Computes.
- **Circuits.Function5:** the contract states only the range. Its relation to
  the circuit is Circuits.Gates4Computes.
- **Circuit.Value:** the contract states only the range. Its meaning is given
  by Circuit.InputValue and Circuit.GateValue.
- **Circuit.Output:** the contract states only the range. Its meaning is given
  by Circuit.InputValue and Circuit.GateValue.
