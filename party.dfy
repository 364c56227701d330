/** The protocol object one party runs (class BgwProtocol of party.py). Its
    network is a Network.Network whose socket is the sequence of packets that
    will arrive and whose publisher is the outbox; the random coefficients of
    every split are given up front, keyed by gate id. Every method is proved
    to do what the functions of module Engine say, and GetLagrange and
    GetSecret to compute the Lagrange basis and the Shamir reconstruction. */
module Party {
  import opened Binomial
  import opened ModPrime
  import opened Interpolation
  import opened Circuit
  import opened Shamir
  import opened Lagrange
  import opened Mailbox
  import Network
  import opened Engine

  class BgwProtocol {
    const cfg: Config
    const partyNo: int
    /** The party's private value. */
    const secret: int
    /** The coefficients split_and_send_shares draws when sharing a value for
        gate g (a party shares at most one value per gate). */
    const coins: int -> seq<int>
    const network: Network.Network
    /** The verdict of the final check, once made. */
    var report: Option<Report>
    /** Set when a read can never complete: the party then waits for ever. */
    var halted: bool

    ghost function State(): EState
      reads this, network, network.subscriber
    {
      EState(network.shares, network.Inbound(), network.outbox, report, halted)
    }

    /** A read's result with the receiving state after it. */
    ghost function After<T>(r: T): (T, Buffer, Inbox)
      reads network, network.subscriber
    {
      (r, network.shares, network.Inbound())
    }

    /** __init__: remember the configuration and process every gate. */
    constructor(cfg: Config, partyNo: int, privateValue: int, coins: int -> seq<int>, network: Network.Network)
      requires Dense(cfg.gates)
      modifies network, network.subscriber
      ensures this.cfg == cfg && this.partyNo == partyNo && this.secret == privateValue
      ensures this.coins == coins && this.network == network
      ensures State() == Run(cfg, partyNo, privateValue, coins,
        EState(old(network.shares), old(network.Inbound()), old(network.outbox), None, false), |cfg.gates|)
    {
      this.cfg := cfg;
      this.partyNo := partyNo;
      this.secret := privateValue;
      this.coins := coins;
      this.network := network;
      report := None;
      halted := false;
      new;
      ProcessGates();
    }

    /** process_gates: every gate in table order. */
    method ProcessGates()
      requires Dense(cfg.gates)
      modifies this, network, network.subscriber
      ensures State() == Run(cfg, partyNo, secret, coins, old(State()), |cfg.gates|)
    {
      ghost var st0 := State();
      for gate := 1 to |cfg.gates| + 1
        invariant State() == Run(cfg, partyNo, secret, coins, st0, gate - 1)
      {
        if halted {
          RunAfterHalt(cfg, partyNo, secret, coins, st0, gate - 1, |cfg.gates|);
          return;
        }
        ProcessGate(gate);
      }
    }

    /** The body of process_gates for one gate. */
    method ProcessGate(gate: int)
      requires Dense(cfg.gates) && gate in cfg.gates && !halted
      modifies this, network, network.subscriber
      ensures State() == GateStep(cfg, partyNo, secret, coins, old(State()), gate)
    {
      var kind := cfg.gates[gate].kind;
      if kind == INP && gate == partyNo {
        SplitAndSendShares(secret, gate);
      }
      if kind == ADD {
        var inputs := GetInputs(gate);
        if inputs.None? || |inputs.value| < 2 {
          halted := true;
          return;
        }
        var output := Add(cfg.prime, inputs.value[0], inputs.value[1]);
        SendOutput(output, gate);
      }
      if kind == MUL {
        var inputs := GetInputs(gate);
        if inputs.None? || |inputs.value| < 2 {
          halted := true;
          return;
        }
        var output := Mul(cfg.prime, inputs.value[0], inputs.value[1]);
        SplitAndSendShares(output, gate);
        var partyShares, _ := CollectShares(gate, true);
        if partyShares.None? {
          halted := true;
          return;
        }
        output := GetSecret(partyShares.value, cfg.NParties());
        SendOutput(output, gate);
      }
    }

    /** send_output: relay the output of an internal gate to this party; for
        the output gate, broadcast it, reveal the result and check it. */
    method SendOutput(output: int, gate: int)
      requires gate in cfg.gates && !halted
      modifies this, network, network.subscriber
      ensures State() == Engine.SendOutput(cfg, partyNo, old(State()), output, gate)
    {
      if cfg.gates[gate].Fanout? || cfg.gates[gate].dest <= |cfg.gates| {
        network.SendShare(output, gate, partyNo);
        return;
      }
      RevealOutput(output, gate);
    }

    /** The output-gate branch of send_output: broadcast, read every party's
        share, reconstruct and compare with FUNCTION_RESULT. */
    method RevealOutput(output: int, gate: int)
      requires gate in cfg.gates && IsLast(cfg.gates, gate) && !halted
      modifies this, network, network.subscriber
      ensures State() == Engine.SendOutput(cfg, partyNo, old(State()), output, gate)
    {
      ghost var vs;
      var partyShares;
      partyShares, vs := Gather(output, gate);
      Conclude(partyShares, vs);
    }

    /** Broadcast the output, then read every party's share of it. */
    method Gather(output: int, gate: int) returns (partyShares: Option<map<int, int>>, ghost vs: Option<seq<int>>)
      modifies network, network.subscriber
      ensures After(vs)
        == ReadAll(old(network.shares), old(network.Inbound()), AllFrom(gate, cfg.NParties()), false)
      ensures partyShares == if vs.None? then None else Some(AsShares(vs.value))
      ensures network.outbox == old(network.outbox) + Broadcast(gate, output, cfg.NParties())
    {
      BroadcastOutput(output, gate);
      partyShares, vs := CollectShares(gate, false);
    }

    /** Reveal the secret from every party's share and check it, or wait
        for ever when a read blocked. */
    method Conclude(partyShares: Option<map<int, int>>, ghost vs: Option<seq<int>>)
      requires vs.Some? ==> |vs.value| == cfg.NParties()
      requires partyShares == if vs.None? then None else Some(AsShares(vs.value))
      modifies this
      ensures State() == Reveal(cfg, old(State()), vs)
    {
      if partyShares.None? {
        halted := true;
        return;
      }
      var s := GetSecret(partyShares.value, cfg.degree + 1);
      report := Some(Report(s, s == cfg.functionResult));
    }

    /** The output of the last gate, published to every party 1..N_PARTIES. */
    method BroadcastOutput(output: int, gate: int)
      modifies network
      ensures network.outbox == old(network.outbox) + Broadcast(gate, output, cfg.NParties())
      ensures network.shares == old(network.shares)
    {
      for party := 1 to cfg.NParties() + 1
        invariant network.outbox == old(network.outbox) + Broadcast(gate, output, party - 1)
        invariant network.shares == old(network.shares)
      {
        network.SendShare(output, gate, party);
      }
    }

    /** The share of gate `gate` from every party 1..N_PARTIES, in order, as
        process_gates and send_output collect them; None when one of the
        reads can never complete. */
    method CollectShares(gate: int, clear: bool) returns (partyShares: Option<map<int, int>>, ghost vs: Option<seq<int>>)
      modifies network, network.subscriber
      ensures After(vs)
        == ReadAll(old(network.shares), old(network.Inbound()), AllFrom(gate, cfg.NParties()), clear)
      ensures partyShares == if vs.None? then None else Some(AsShares(vs.value))
      ensures network.outbox == old(network.outbox)
    {
      var n := cfg.NParties();
      ghost var sh0, ib0 := network.shares, network.Inbound();
      var m: map<int, int> := map[];
      ghost var vals: seq<int> := [];
      for party := 1 to n + 1
        invariant After(Some(vals)) == ReadAll(sh0, ib0, AllFrom(gate, party - 1), clear)
        invariant m == AsShares(vals)
        invariant network.outbox == old(network.outbox)
      {
        var v := ReadNext(gate, party, clear, sh0, ib0, vals);
        if v.None? {
          AllFromStuck(sh0, ib0, gate, party, n, clear);
          return None, None;
        }
        vals := vals + [v.value];
        m := m[party := v.value];
      }
      return Some(m), Some(vals);
    }

    /** One round of the collecting loop: the share of `gate` from `party`. */
    method ReadNext(gate: int, party: nat, clear: bool, ghost sh0: Buffer, ghost ib0: Inbox, ghost vals: seq<int>) returns (v: Option<int>)
      requires party >= 1
      requires After(Some(vals)) == ReadAll(sh0, ib0, AllFrom(gate, party - 1), clear)
      modifies network, network.subscriber
      ensures After(if v.None? then None else Some(vals + [v.value]))
        == ReadAll(sh0, ib0, AllFrom(gate, party), clear)
      ensures network.outbox == old(network.outbox)
    {
      ReadAllSnoc(sh0, ib0, AllFrom(gate, party - 1), Req(party, gate), clear);
      v := network.ReceiveShare(party, gate, clear);
    }

    /** split_and_send_shares: share `value` among all parties, the share of
        party x being value + sum of c_i x^(i+1), reduced. */
    method SplitAndSendShares(value: int, srcGate: int)
      modifies network
      ensures network.outbox == old(network.outbox) + Sends(cfg.prime, value, srcGate, coins(srcGate), cfg.NParties())
      ensures network.shares == old(network.shares)
    {
      var coefs := coins(srcGate);
      for party := 1 to cfg.NParties() + 1
        invariant network.outbox == old(network.outbox) + Sends(cfg.prime, value, srcGate, coefs, party - 1)
        invariant network.shares == old(network.shares)
      {
        var share := ShareFor(value, coefs, party);
        network.SendShare(share, srcGate, party);
      }
    }

    /** The inner loop of split_and_send_shares: the share of party x,
        value + sum of coefs[i] * x^(i+1), reduced. */
    method ShareFor(value: int, coefs: seq<int>, x: int) returns (share: int)
      ensures share == Share(cfg.prime, value, coefs, x)
    {
      share := value;
      for i := 0 to |coefs|
        invariant share == value + Masking(coefs[..i], x)
      {
        assert coefs[..i + 1][..i] == coefs[..i];
        share := share + coefs[i] * Pow(x, i + 1);
      }
      assert coefs[..|coefs|] == coefs;
      share := Mod(cfg.prime, share);
    }

    /** get_lagrange: for every party i, the product of j / (j - i) over
        j in 1..degree, j != i. */
    static method GetLagrange(nParties: nat, degree: nat) returns (basis: map<int, real>)
      ensures forall i :: i in basis <==> 1 <= i <= nParties
      ensures forall i :: 1 <= i <= nParties ==> basis[i] == Basis(i, degree)
    {
      basis := map[];
      for i := 1 to nParties + 1
        invariant forall k :: k in basis <==> 1 <= k < i
        invariant forall k :: 1 <= k < i ==> basis[k] == Basis(k, degree)
      {
        var product := 1.0;
        for j := 1 to degree + 1
          invariant product == Basis(i, j - 1)
        {
          BasisStep(i, j);
          if i == j {
            continue;
          }
          product := product * ((j as real) / ((j - i) as real));
        }
        basis := basis[i := product];
      }
    }

    /** get_secret: the sum of basis[i] * shares[i] over the parties
        i <= degree, reduced mod p; exactly Shamir reconstruction. */
    method GetSecret(partyShares: map<int, int>, degree: nat) returns (r: int)
      requires HasParties(partyShares, Min(degree, cfg.NParties()))
      ensures r == Reconstruct(cfg.prime, partyShares, degree, cfg.NParties())
    {
      var n := cfg.NParties();
      var basis := GetLagrange(n, degree);
      var sum := SumShares(basis, partyShares, n, degree);
      BasisReconstructs(cfg.prime, basis, partyShares, degree, n);
      r := Mod(cfg.prime, sum.Floor);
    }

    /** The loop of get_secret: basis[i] * shares[i] summed over the parties
        i in 1..N_PARTIES, stopping after i = degree. */
    static method SumShares(basis: map<int, real>, partyShares: map<int, int>, n: nat, degree: nat) returns (sum: real)
      requires forall i :: 1 <= i <= n ==> i in basis
      requires HasParties(partyShares, Min(degree, n))
      ensures sum == SecretSum(basis, partyShares, Min(degree, n))
    {
      sum := 0.0;
      var i := 1;
      while i <= n
        invariant 1 <= i <= n + 1 && i - 1 <= degree
        invariant sum == SecretSum(basis, partyShares, i - 1)
      {
        if i > degree {
          break;
        }
        sum := sum + basis[i] * (partyShares[i] as real);
        i := i + 1;
      }
      assert i - 1 == Min(degree, n);
    }

    /** get_inputs: one operand per wire into `gate`, walking the table in id
        order and each entry's wires in order; None when a read can never
        complete. */
    method GetInputs(gate: int) returns (inputs: Option<seq<int>>)
      requires Dense(cfg.gates)
      modifies network, network.subscriber
      ensures After(inputs)
        == ReadAll(old(network.shares), old(network.Inbound()), Plan(cfg.gates, partyNo, gate), false)
      ensures network.outbox == old(network.outbox)
    {
      ghost var sh0, ib0, ob0 := network.shares, network.Inbound(), network.outbox;
      var acc: seq<int> := [];
      for id := 1 to |cfg.gates| + 1
        invariant After(Some(acc)) == ReadAll(sh0, ib0, PlanUpTo(cfg.gates, partyNo, gate, id - 1), false)
        invariant network.outbox == ob0
      {
        var r := InputsFrom(gate, id, acc, sh0, ib0);
        if r.None? {
          PlanStuck(sh0, ib0, cfg.gates, partyNo, gate, id);
          return None;
        }
        acc := r.value;
      }
      return Some(acc);
    }

    /** The inner loop of get_inputs: the operands carried by the wires of
        table entry `id`, appended to those collected so far. */
    method InputsFrom(gate: int, id: int, acc: seq<int>, ghost sh0: Buffer, ghost ib0: Inbox) returns (r: Option<seq<int>>)
      requires Dense(cfg.gates) && 1 <= id <= |cfg.gates|
      requires After(Some(acc)) == ReadAll(sh0, ib0, PlanUpTo(cfg.gates, partyNo, gate, id - 1), false)
      modifies network, network.subscriber
      ensures After(r) == ReadAll(sh0, ib0, PlanUpTo(cfg.gates, partyNo, gate, id), false)
      ensures network.outbox == old(network.outbox)
    {
      var t := cfg.gates;
      var ws := Wires(t[id]);
      ghost var before := PlanUpTo(t, partyNo, gate, id - 1);
      ghost var q := Origin(t, partyNo, id);
      assert ws[..0] == [] && before + [] == before;
      var cur := acc;
      for w := 0 to |ws|
        invariant After(Some(cur))
          == ReadAll(sh0, ib0, before + ReqCopies(q, Hits(ws[..w], gate)), false)
        invariant network.outbox == old(network.outbox)
      {
        var next := WireInput(gate, id, w, cur, sh0, ib0);
        if next.None? {
          WiresStuck(sh0, ib0, t, partyNo, gate, id, w + 1);
          return None;
        }
        cur := next.value;
      }
      assert ws[..|ws|] == ws;
      return Some(cur);
    }

    /** One round of the inner loop of get_inputs: wire w of entry `id`. */
    method WireInput(gate: int, id: int, w: nat, cur: seq<int>, ghost sh0: Buffer, ghost ib0: Inbox) returns (r: Option<seq<int>>)
      requires Dense(cfg.gates) && 1 <= id <= |cfg.gates| && w < |Wires(cfg.gates[id])|
      requires var q, ws := Origin(cfg.gates, partyNo, id), Wires(cfg.gates[id]);
        After(Some(cur))
          == ReadAll(sh0, ib0, PlanUpTo(cfg.gates, partyNo, gate, id - 1) + ReqCopies(q, Hits(ws[..w], gate)), false)
      modifies network, network.subscriber
      ensures var q, ws := Origin(cfg.gates, partyNo, id), Wires(cfg.gates[id]);
        After(r)
          == ReadAll(sh0, ib0, PlanUpTo(cfg.gates, partyNo, gate, id - 1) + ReqCopies(q, Hits(ws[..w + 1], gate)), false)
      ensures network.outbox == old(network.outbox)
    {
      var t := cfg.gates;
      var ws := Wires(t[id]);
      ghost var before := PlanUpTo(t, partyNo, gate, id - 1);
      ghost var q := Origin(t, partyNo, id);
      ghost var done := before + ReqCopies(q, Hits(ws[..w], gate));
      PlanStep(before, q, ws, w, gate);
      ReadAllSnoc(sh0, ib0, done, q, false);
      r := ProcessInputs(cur, gate, id, t[id].kind, ws[w].dest);
    }

    /** process_inputs: when the wire from gate gateId goes to `gate`, read
        its share (from the owner for an INP gate, from this party otherwise)
        and append it. */
    method ProcessInputs(inputs: seq<int>, gate: int, gateId: int, kind: Kind, destGate: int) returns (r: Option<seq<int>>)
      modifies network, network.subscriber
      ensures network.outbox == old(network.outbox)
      ensures destGate != gate ==>
        r == Some(inputs) && network.shares == old(network.shares) && network.Inbound() == old(network.Inbound())
      ensures destGate == gate ==>
        var q := if kind == INP then Req(gateId, gateId) else Req(partyNo, gateId);
        var (v, shares, ib) := Mailbox.ReceiveShare(old(network.shares), old(network.Inbound()), q.party, q.gate, false);
        && network.shares == shares && network.Inbound() == ib
        && r == if v.None? then None else Some(inputs + [v.value])
    {
      if destGate != gate {
        return Some(inputs);
      }
      var v;
      if kind == INP {
        v := network.ReceiveShare(gateId, gateId, false);
      } else {
        v := network.ReceiveShare(partyNo, gateId, false);
      }
      if v.None? {
        return None;
      }
      return Some(inputs + [v.value]);
    }
  }
}
