/** One party's gate engine (process_gates and the helpers it calls) as
    functions over an explicit state: the share buffer and subscriber of the
    party's network, everything it has published, the verdict of the final
    check, and whether a read has blocked for good. Class Party.BgwProtocol
    is proved to follow these functions step by step. */
module Engine {
  import opened ModPrime
  import opened Circuit
  import opened Shamir
  import opened Mailbox

  /** A share to read: the one that party `party` sent for gate `gate`. */
  datatype Req = Req(party: int, gate: int)

  /** The outcome of the final check: the revealed value and whether it
      equals FUNCTION_RESULT (SUCCESS or FAIL in the log). */
  datatype Report = Report(secret: int, success: bool)

  /** The engine's state. `halted` is set once a read can never complete (the
      share never arrives, or the gate table names a slot the buffer lacks):
      the party then waits forever and processes no further gate. */
  datatype EState = EState(
    shares: Buffer,
    inbox: Inbox,
    outbox: seq<Outgoing>,
    report: Option<Report>,
    halted: bool)

  // ---------------------------------------------------------------------------
  // split_and_send_shares

  /** The shares of `value` for parties 1..k, in ascending order, each
      addressed to its party and tagged with the gate. */
  function Sends(p: Modulus, value: int, gate: int, coefs: seq<int>, k: nat): (r: seq<Outgoing>)
    ensures |r| == k
  {
    if k == 0 then [] else Sends(p, value, gate, coefs, k - 1) + [Outgoing(k, Msg(gate, Share(p, value, coefs, k)))]
  }

  /** Exactly one send per party, in ascending order; party j receives the
      secret polynomial's value at j, reduced. */
  lemma {:induction false} SendsMeans(p: Modulus, value: int, gate: int, coefs: seq<int>, k: nat)
    ensures forall j :: 0 <= j < k ==>
      Sends(p, value, gate, coefs, k)[j] == Outgoing(j + 1, Msg(gate, Share(p, value, coefs, j + 1)))
  {
    if k > 0 {
      SendsMeans(p, value, gate, coefs, k - 1);
    }
  }

  /** The split is undone by reconstruction: shares of parties 1..d taken
      from the sends of a split over n parties recombine to the value, for
      any DEGREE + 1 <= d <= n. */
  lemma SplitRoundTrip(p: Modulus, value: int, gate: int, coefs: seq<int>, d: nat, n: nat, received: map<int, int>)
    requires |coefs| + 1 <= d <= n
    requires HasParties(received, d)
    requires forall i :: 1 <= i <= d ==> received[i] == Sends(p, value, gate, coefs, n)[i - 1].msg.share
    ensures Reconstruct(p, received, d, n) == Mod(p, value)
  {
    SendsMeans(p, value, gate, coefs, n);
    var all := ShareMap(p, value, coefs, n);
    forall i | 1 <= i <= Min(d, n)
      ensures received[i] == all[i]
    {
      assert Sends(p, value, gate, coefs, n)[i - 1].msg.share == Share(p, value, coefs, i);
    }
    ReconstructReadsPrefix(p, received, all, d, n);
    RoundTrip(p, value, coefs, d, n);
  }

  function Split(st: EState, p: Modulus, value: int, gate: int, coefs: seq<int>, n: nat): EState
  {
    st.(outbox := st.outbox + Sends(p, value, gate, coefs, n))
  }

  // ---------------------------------------------------------------------------
  // get_inputs / process_inputs

  /** The read process_inputs makes for a wire leaving gate src: the share of
      an INP gate comes from the party that owns it (its party number is the
      gate id); the share of any other gate is one this party sent itself. */
  function Origin(t: Table, me: int, src: int): Req
    requires src in t
  {
    if t[src].kind == INP then Req(src, src) else Req(me, src)
  }

  function ReqCopies(q: Req, c: nat): seq<Req>
  {
    if c == 0 then [] else ReqCopies(q, c - 1) + [q]
  }

  /** The reads get_inputs makes for gate g while walking ids 1..k, one per
      wire into g (the slot number is not looked at). */
  function PlanUpTo(t: Table, me: int, g: int, k: nat): seq<Req>
    requires forall i :: 1 <= i <= k ==> i in t
  {
    if k == 0 then [] else PlanUpTo(t, me, g, k - 1) + ReqCopies(Origin(t, me, k), Hits(Wires(t[k]), g))
  }

  /** get_inputs(g): the reads for every wire into g, in table order. */
  function Plan(t: Table, me: int, g: int): seq<Req>
    requires Dense(t)
  {
    PlanUpTo(t, me, g, |t|)
  }

  lemma {:induction false} ReqCopiesMeans(q: Req, c: nat)
    ensures |ReqCopies(q, c)| == c && forall j :: 0 <= j < c ==> ReqCopies(q, c)[j] == q
  {
    if c > 0 {
      ReqCopiesMeans(q, c - 1);
    }
  }

  /** One read per source of g, in the same order, each from the origin of
      its source. */
  lemma {:induction false} PlanUpToMeans(t: Table, me: int, g: int, k: nat)
    requires forall i :: 1 <= i <= k ==> i in t
    ensures |PlanUpTo(t, me, g, k)| == |SourcesUpTo(t, g, k)|
    ensures forall j :: 0 <= j < |SourcesUpTo(t, g, k)| ==>
      SourcesUpTo(t, g, k)[j] in t && PlanUpTo(t, me, g, k)[j] == Origin(t, me, SourcesUpTo(t, g, k)[j])
  {
    SourcesUpToMeans(t, g, k);
    if k > 0 {
      PlanUpToMeans(t, me, g, k - 1);
      var c := Hits(Wires(t[k]), g);
      ReqCopiesMeans(Origin(t, me, k), c);
      CopiesMeans(k, c);
      var ps, ss := PlanUpTo(t, me, g, k - 1), SourcesUpTo(t, g, k - 1);
      var pc, sc := ReqCopies(Origin(t, me, k), c), Copies(k, c);
      assert PlanUpTo(t, me, g, k) == ps + pc;
      assert SourcesUpTo(t, g, k) == ss + sc;
      forall j | 0 <= j < |ss + sc|
        ensures (ps + pc)[j] == Origin(t, me, (ss + sc)[j])
      {
        if j >= |ss| {
          assert (ps + pc)[j] == pc[j - |ss|];
          assert (ss + sc)[j] == sc[j - |ss|];
        }
      }
    }
  }

  lemma {:induction false} ReqCopiesPrefix(q: Req, c: nat, d: nat)
    requires c <= d
    ensures ReqCopies(q, c) <= ReqCopies(q, d)
  {
    if c < d {
      ReqCopiesPrefix(q, c, d - 1);
    }
  }

  /** Looking at one more wire of a gate adds its read exactly when the wire
      goes to g. */
  lemma PlanStep(before: seq<Req>, q: Req, ws: seq<Wire>, w: nat, g: int)
    requires w < |ws|
    ensures before + ReqCopies(q, Hits(ws[..w + 1], g))
      == if ws[w].dest == g then before + ReqCopies(q, Hits(ws[..w], g)) + [q]
         else before + ReqCopies(q, Hits(ws[..w], g))
  {
    assert ws[..w + 1] == ws[..w] + [ws[w]];
    HitsSnoc(ws[..w], ws[w], g);
  }

  lemma {:induction false} PlanUpToPrefix(t: Table, me: int, g: int, j: nat, k: nat)
    requires j <= k && forall i :: 1 <= i <= k ==> i in t
    ensures PlanUpTo(t, me, g, j) <= PlanUpTo(t, me, g, k)
  {
    if j < k {
      PlanUpToPrefix(t, me, g, j, k - 1);
    }
  }

  /** The reads get_inputs has made part-way through the wires of gate id
      are a prefix of all its reads. */
  lemma PlanPrefix(t: Table, me: int, g: int, id: int, c: nat, k: nat)
    requires 1 <= id <= k && forall i :: 1 <= i <= k ==> i in t
    requires c <= Hits(Wires(t[id]), g)
    ensures PlanUpTo(t, me, g, id - 1) + ReqCopies(Origin(t, me, id), c) <= PlanUpTo(t, me, g, k)
  {
    ReqCopiesPrefix(Origin(t, me, id), c, Hits(Wires(t[id]), g));
    PlanUpToPrefix(t, me, g, id, k);
  }
  /** Once a read for the wires of the entries up to id blocks, the rest of
      the reads of get_inputs never happen. */
  lemma PlanStuck(shares: Buffer, ib: Inbox, t: Table, me: int, g: int, id: nat)
    requires Dense(t) && id <= |t| && ReadAll(shares, ib, PlanUpTo(t, me, g, id), false).0.None?
    ensures ReadAll(shares, ib, PlanUpTo(t, me, g, |t|), false) == ReadAll(shares, ib, PlanUpTo(t, me, g, id), false)
  {
    PlanUpToPrefix(t, me, g, id, |t|);
    ReadAllStuckPrefix(shares, ib, PlanUpTo(t, me, g, id), PlanUpTo(t, me, g, |t|), false);
  }

  /** Once a read for one of the first c wires of entry id blocks, the reads
      for the rest of the entries up to id never happen. */
  lemma WiresStuck(shares: Buffer, ib: Inbox, t: Table, me: int, g: int, id: int, c: nat)
    requires Dense(t) && 1 <= id <= |t| && c <= |Wires(t[id])|
    requires ReadAll(shares, ib, PlanUpTo(t, me, g, id - 1) + ReqCopies(Origin(t, me, id), Hits(Wires(t[id])[..c], g)), false).0.None?
    ensures ReadAll(shares, ib, PlanUpTo(t, me, g, id), false)
      == ReadAll(shares, ib, PlanUpTo(t, me, g, id - 1) + ReqCopies(Origin(t, me, id), Hits(Wires(t[id])[..c], g)), false)
  {
    var ws := Wires(t[id]);
    HitsPrefix(ws, c, g);
    PlanPrefix(t, me, g, id, Hits(ws[..c], g), id);
    ReadAllStuckPrefix(shares, ib, PlanUpTo(t, me, g, id - 1) + ReqCopies(Origin(t, me, id), Hits(ws[..c], g)), PlanUpTo(t, me, g, id), false);
  }


  /** In a well-formed table an ADD or MUL gate g has two reads: the shares
      of its two sources, both below g, from the source's owner for an input
      gate and from this party otherwise. */
  lemma PlanWellFormed(t: Table, n: nat, me: int, g: int)
    requires WellFormed(t, n) && n < g <= |t|
    ensures |Plan(t, me, g)| == 2
    ensures forall j :: 0 <= j < 2 ==>
      var s := Sources(t, g)[j];
      1 <= s < g && Plan(t, me, g)[j] == if s <= n then Req(s, s) else Req(me, s)
  {
    SourcesBelow(t, n, g);
    PlanUpToMeans(t, me, g, |t|);
    forall j | 0 <= j < 2
      ensures var s := Sources(t, g)[j]; Plan(t, me, g)[j] == if s <= n then Req(s, s) else Req(me, s)
    {
      assert GateOk(t, n, |t|, Sources(t, g)[j]);
    }
  }

  // ---------------------------------------------------------------------------
  // Reading a list of shares

  /** The reads of `reqs` made in order through receive_share; None as soon
      as one of them can never complete, with the state at that point. */
  function ReadAll(shares: Buffer, ib: Inbox, reqs: seq<Req>, clear: bool): (r: (Option<seq<int>>, Buffer, Inbox))
    ensures r.0.Some? ==> |r.0.value| == |reqs|
    decreases |reqs|
  {
    if reqs == [] then (Some([]), shares, ib)
    else
      var (vs, shares1, ib1) := ReadAll(shares, ib, reqs[..|reqs| - 1], clear);
      if vs.None? then (None, shares1, ib1)
      else
        var q := reqs[|reqs| - 1];
        var (v, shares2, ib2) := ReceiveShare(shares1, ib1, q.party, q.gate, clear);
        if v.None? then (None, shares2, ib2) else (Some(vs.value + [v.value]), shares2, ib2)
  }

  /** One more read after the first ones. */
  lemma ReadAllSnoc(shares: Buffer, ib: Inbox, reqs: seq<Req>, q: Req, clear: bool)
    ensures var (vs, shares1, ib1) := ReadAll(shares, ib, reqs, clear);
      var (v, shares2, ib2) := ReceiveShare(shares1, ib1, q.party, q.gate, clear);
      ReadAll(shares, ib, reqs + [q], clear)
        == if vs.None? then (None, shares1, ib1)
           else if v.None? then (None, shares2, ib2)
           else (Some(vs.value + [v.value]), shares2, ib2)
  {
    assert (reqs + [q])[..|reqs|] == reqs;
  }

  /** Once a read blocks, the reads after it never happen. */
  lemma {:induction false} ReadAllStuck(shares: Buffer, ib: Inbox, reqs: seq<Req>, more: seq<Req>, clear: bool)
    requires ReadAll(shares, ib, reqs, clear).0.None?
    ensures ReadAll(shares, ib, reqs + more, clear) == ReadAll(shares, ib, reqs, clear)
    decreases |more|
  {
    if more != [] {
      var init := more[..|more| - 1];
      ReadAllStuck(shares, ib, reqs, init, clear);
      var all := reqs + more;
      assert all[..|all| - 1] == reqs + init;
      var r := ReadAll(shares, ib, reqs + init, clear);
      assert r == (r.0, r.1, r.2);
      assert ReadAll(shares, ib, all, clear) == (None, r.1, r.2);
    } else {
      assert reqs + more == reqs;
    }
  }

  /** The same for any list of reads that starts with the blocked ones. */
  lemma ReadAllStuckPrefix(shares: Buffer, ib: Inbox, reqs: seq<Req>, all: seq<Req>, clear: bool)
    requires ReadAll(shares, ib, reqs, clear).0.None? && reqs <= all
    ensures ReadAll(shares, ib, all, clear) == ReadAll(shares, ib, reqs, clear)
  {
    assert all == reqs + all[|reqs|..];
    ReadAllStuck(shares, ib, reqs, all[|reqs|..], clear);
  }

  /** Reading shares that are all in the buffer already, without clearing,
      is a plain lookup: the buffered values come back and nothing changes. */
  lemma {:induction false} ReadAllBuffered(shares: Buffer, ib: Inbox, reqs: seq<Req>)
    requires forall j :: 0 <= j < |reqs| ==>
      reqs[j].party in shares && reqs[j].gate in shares[reqs[j].party] && shares[reqs[j].party][reqs[j].gate].Some?
    ensures var (vs, shares2, ib2) := ReadAll(shares, ib, reqs, false);
      && vs.Some? && shares2 == shares && ib2 == ib
      && forall j :: 0 <= j < |reqs| ==> vs.value[j] == shares[reqs[j].party][reqs[j].gate].value
    decreases |reqs|
  {
    if reqs != [] {
      var init, q := reqs[..|reqs| - 1], reqs[|reqs| - 1];
      ReadAllBuffered(shares, ib, init);
      ShareHit(shares, ib, q.party, q.gate, false);
    }
  }

  // ---------------------------------------------------------------------------
  // send_output

  /** Every party 1..k, for gate `gate`. */
  function AllFrom(gate: int, k: nat): (r: seq<Req>)
    ensures |r| == k
  {
    if k == 0 then [] else AllFrom(gate, k - 1) + [Req(k, gate)]
  }

  /** Read j + 1 is the one from party j + 1. */
  lemma {:induction false} AllFromMeans(gate: int, k: nat)
    ensures forall j :: 0 <= j < k ==> AllFrom(gate, k)[j] == Req(j + 1, gate)
  {
    if k > 0 {
      AllFromMeans(gate, k - 1);
    }
  }

  lemma {:induction false} AllFromPrefix(gate: int, j: nat, k: nat)
    requires j <= k
    ensures AllFrom(gate, j) <= AllFrom(gate, k)
  {
    if j < k {
      AllFromPrefix(gate, j, k - 1);
    }
  }

  /** Once the read from party j blocks, reading from every party up to n
      ends in the same place. */
  lemma AllFromStuck(shares: Buffer, ib: Inbox, gate: int, j: nat, n: nat, clear: bool)
    requires j <= n && ReadAll(shares, ib, AllFrom(gate, j), clear).0.None?
    ensures ReadAll(shares, ib, AllFrom(gate, n), clear) == ReadAll(shares, ib, AllFrom(gate, j), clear)
  {
    AllFromPrefix(gate, j, n);
    ReadAllStuckPrefix(shares, ib, AllFrom(gate, j), AllFrom(gate, n), clear);
  }

  /** `v` for gate `gate` to every party 1..k. */
  function Broadcast(gate: int, v: int, k: nat): (r: seq<Outgoing>)
    ensures |r| == k
  {
    if k == 0 then [] else Broadcast(gate, v, k - 1) + [Outgoing(k, Msg(gate, v))]
  }

  /** Party j + 1 gets message j + 1, and it carries the value. */
  lemma {:induction false} BroadcastMeans(gate: int, v: int, k: nat)
    ensures forall j :: 0 <= j < k ==> Broadcast(gate, v, k)[j] == Outgoing(j + 1, Msg(gate, v))
  {
    if k > 0 {
      BroadcastMeans(gate, v, k - 1);
    }
  }

  /** The values read from parties 1..|vs|, keyed by party number. */
  function AsShares(vs: seq<int>): (m: map<int, int>)
    ensures forall i :: i in m <==> 1 <= i <= |vs|
    ensures forall i :: 1 <= i <= |vs| ==> m[i] == vs[i - 1]
  {
    if vs == [] then map[] else AsShares(vs[..|vs| - 1])[|vs| := vs[|vs| - 1]]
  }

  /** The gate carrying the circuit's output: a tuple entry whose destination
      is past the last gate id. */
  predicate IsLast(t: Table, g: int)
    requires g in t
  {
    t[g].Single? && t[g].dest > |t|
  }

  /** In a well-formed table exactly the last gate carries the output. */
  lemma LastGateOnly(t: Table, n: nat, g: int)
    requires WellFormed(t, n) && 1 <= g <= |t|
    ensures IsLast(t, g) <==> g == |t|
  {
    assert GateOk(t, n, |t|, g);
    if t[g].Single? {
      assert Beyond(Wires(t[g]), |t|) <==> t[g].dest > |t|;
    }
  }

  /** send_output(output, g): relay to this party itself, or for the output
      gate broadcast, read every party's share (without clearing), reveal at
      DEGREE + 1 and report whether the value is FUNCTION_RESULT. */
  function SendOutput(cfg: Config, me: int, st: EState, output: int, g: int): EState
    requires g in cfg.gates
  {
    var n := cfg.NParties();
    if !IsLast(cfg.gates, g) then st.(outbox := st.outbox + [Outgoing(me, Msg(g, output))])
    else
      var (vs, shares, ib) := ReadAll(st.shares, st.inbox, AllFrom(g, n), false);
      Reveal(cfg, st.(shares := shares, inbox := ib, outbox := st.outbox + Broadcast(g, output, n)), vs)
  }

  /** The end of send_output for the output gate, once every share has been
      read (vs) or a read has blocked (None). */
  function Reveal(cfg: Config, st: EState, vs: Option<seq<int>>): EState
    requires vs.Some? ==> |vs.value| == cfg.NParties()
  {
    if vs.None? then st.(halted := true)
    else
      var s := Reconstruct(cfg.prime, AsShares(vs.value), cfg.degree + 1, cfg.NParties());
      st.(report := Some(Report(s, s == cfg.functionResult)))
  }

  // ---------------------------------------------------------------------------
  // process_gates

  /** The state after the reads of get_inputs(g), with the operands, or
      halted when a read blocks or fewer than two operands come back. */
  function Operands(cfg: Config, me: int, st: EState, g: int): (r: (Option<(int, int)>, EState))
    requires Dense(cfg.gates)
  {
    var (ins, shares, ib) := ReadAll(st.shares, st.inbox, Plan(cfg.gates, me, g), false);
    var st1 := st.(shares := shares, inbox := ib);
    if ins.None? || |ins.value| < 2 then (None, st1.(halted := true))
    else (Some((ins.value[0], ins.value[1])), st1)
  }

  /** The body of process_gates for gate g. */
  function GateStep(cfg: Config, me: int, secret: int, coins: int -> seq<int>, st: EState, g: int): EState
    requires Dense(cfg.gates) && g in cfg.gates
  {
    var p, n := cfg.prime, cfg.NParties();
    if st.halted then st
    else match cfg.gates[g].kind
      case INP => if g == me then Split(st, p, secret, g, coins(g), n) else st
      case ADD =>
        var (ab, st1) := Operands(cfg, me, st, g);
        if ab.None? then st1 else SendOutput(cfg, me, st1, Add(p, ab.value.0, ab.value.1), g)
      case MUL =>
        var (ab, st1) := Operands(cfg, me, st, g);
        if ab.None? then st1 else Reduce(cfg, me, st1, Mul(p, ab.value.0, ab.value.1), coins(g), g)
  }

  /** The degree reduction of a MUL gate: share the local product h with
      every party, read every party's share for the gate (clearing each),
      recombine them at degree N_PARTIES and pass the result on. */
  function Reduce(cfg: Config, me: int, st: EState, h: int, coefs: seq<int>, g: int): EState
    requires g in cfg.gates
  {
    var p, n := cfg.prime, cfg.NParties();
    var st1 := Split(st, p, h, g, coefs, n);
    var (vs, shares, ib) := ReadAll(st1.shares, st1.inbox, AllFrom(g, n), true);
    var st2 := st1.(shares := shares, inbox := ib);
    if vs.None? then st2.(halted := true)
    else SendOutput(cfg, me, st2, Reconstruct(p, AsShares(vs.value), n, n), g)
  }

  /** process_gates over gates 1..k, in table order. */
  function Run(cfg: Config, me: int, secret: int, coins: int -> seq<int>, st: EState, k: nat): EState
    requires Dense(cfg.gates) && k <= |cfg.gates|
  {
    if k == 0 then st else GateStep(cfg, me, secret, coins, Run(cfg, me, secret, coins, st, k - 1), k)
  }

  // ---------------------------------------------------------------------------
  // Properties of the engine

  /** A halted party does nothing more. */
  lemma {:induction false} RunHalted(cfg: Config, me: int, secret: int, coins: int -> seq<int>, st: EState, k: nat)
    requires Dense(cfg.gates) && k <= |cfg.gates| && st.halted
    ensures Run(cfg, me, secret, coins, st, k) == st
  {
    if k > 0 {
      RunHalted(cfg, me, secret, coins, st, k - 1);
      HaltedStays(cfg, me, secret, coins, st, k);
    }
  }

  /** After a party halts, the remaining gates change nothing. */
  lemma {:induction false} RunAfterHalt(cfg: Config, me: int, secret: int, coins: int -> seq<int>, st: EState, j: nat, k: nat)
    requires Dense(cfg.gates) && j <= k <= |cfg.gates| && Run(cfg, me, secret, coins, st, j).halted
    ensures Run(cfg, me, secret, coins, st, k) == Run(cfg, me, secret, coins, st, j)
  {
    if j < k {
      RunAfterHalt(cfg, me, secret, coins, st, j, k - 1);
      HaltedStays(cfg, me, secret, coins, Run(cfg, me, secret, coins, st, k - 1), k);
    }
  }

  lemma HaltedStays(cfg: Config, me: int, secret: int, coins: int -> seq<int>, st: EState, g: int)
    requires Dense(cfg.gates) && g in cfg.gates && st.halted
    ensures GateStep(cfg, me, secret, coins, st, g) == st
  {
  }

  /** An INP gate makes its owner, and only its owner, send one share of its
      private value to every party; nothing else changes. */
  lemma InpStep(cfg: Config, me: int, secret: int, coins: int -> seq<int>, st: EState, g: int)
    requires Dense(cfg.gates) && g in cfg.gates && cfg.gates[g].kind == INP && !st.halted
    ensures var st2 := GateStep(cfg, me, secret, coins, st, g);
      && st2.shares == st.shares && st2.inbox == st.inbox && st2.report == st.report && !st2.halted
      && (g != me ==> st2.outbox == st.outbox)
      && (g == me ==>
            && |st2.outbox| == |st.outbox| + cfg.NParties()
            && st2.outbox[..|st.outbox|] == st.outbox
            && var sent := st2.outbox[|st.outbox|..];
               forall j :: 0 <= j < cfg.NParties() ==>
                 sent[j] == Outgoing(j + 1, Msg(g, Share(cfg.prime, secret, coins(g), j + 1))))
  {
    SendsMeans(cfg.prime, secret, g, coins(g), cfg.NParties());
  }

  /** An internal gate relays its output to this party only. */
  lemma SendOutputRelay(cfg: Config, me: int, st: EState, output: int, g: int)
    requires g in cfg.gates && !IsLast(cfg.gates, g)
    ensures SendOutput(cfg, me, st, output, g) == st.(outbox := st.outbox + [Outgoing(me, Msg(g, output))])
  {
  }

  /** The output gate sends the output to every party, reads every party's
      share of it without clearing, and reports the revealed value together
      with SUCCESS exactly when it is FUNCTION_RESULT. */
  lemma SendOutputFinal(cfg: Config, me: int, st: EState, output: int, g: int)
    requires g in cfg.gates && IsLast(cfg.gates, g)
    ensures var st2 := SendOutput(cfg, me, st, output, g);
      var (vs, shares, ib) := ReadAll(st.shares, st.inbox, AllFrom(g, cfg.NParties()), false);
      && st2.outbox == st.outbox + Broadcast(g, output, cfg.NParties())
      && st2.shares == shares && st2.inbox == ib
      && (vs.None? ==> st2.halted && st2.report == st.report)
      && (vs.Some? ==>
            && !st2.halted == !st.halted
            && st2.report.Some?
            && st2.report.value.secret == Reconstruct(cfg.prime, AsShares(vs.value), cfg.degree + 1, cfg.NParties())
            && (st2.report.value.success <==> st2.report.value.secret == cfg.functionResult))
  {
    var n := cfg.NParties();
    var r := ReadAll(st.shares, st.inbox, AllFrom(g, n), false);
    RevealMeans(cfg, st.(shares := r.1, inbox := r.2, outbox := st.outbox + Broadcast(g, output, n)), r.0);
  }

  /** Reveal changes only the halted flag (when a read blocked) or the
      report (otherwise), and the report holds the reconstruction. */
  lemma RevealMeans(cfg: Config, st: EState, vs: Option<seq<int>>)
    requires vs.Some? ==> |vs.value| == cfg.NParties()
    ensures var st2 := Reveal(cfg, st, vs);
      && st2.outbox == st.outbox && st2.shares == st.shares && st2.inbox == st.inbox
      && (vs.None? ==> st2.halted && st2.report == st.report)
      && (vs.Some? ==>
            && st2.halted == st.halted
            && st2.report.Some?
            && st2.report.value.secret == Reconstruct(cfg.prime, AsShares(vs.value), cfg.degree + 1, cfg.NParties())
            && (st2.report.value.success <==> st2.report.value.secret == cfg.functionResult))
  {
  }

  /** In a well-formed table an ADD gate below the output gate reads the
      shares of its two sources and sends their sum to this party itself. */
  lemma AddStep(cfg: Config, me: int, secret: int, coins: int -> seq<int>, st: EState, g: int)
    requires WellFormed(cfg.gates, cfg.NParties()) && cfg.NParties() < g < |cfg.gates|
    requires cfg.gates[g].kind == ADD && !st.halted
    ensures var (ins, shares, ib) := ReadAll(st.shares, st.inbox, Plan(cfg.gates, me, g), false);
      var st2 := GateStep(cfg, me, secret, coins, st, g);
      && st2.shares == shares && st2.inbox == ib && st2.report == st.report
      && (ins.None? <==> st2.halted)
      && (ins.None? ==> st2.outbox == st.outbox)
      && (ins.Some? ==> st2.outbox == st.outbox + [Outgoing(me, Msg(g, Add(cfg.prime, ins.value[0], ins.value[1])))])
  {
    PlanWellFormed(cfg.gates, cfg.NParties(), me, g);
    LastGateOnly(cfg.gates, cfg.NParties(), g);
  }

  /** In a well-formed table a MUL gate below the output gate re-shares the
      product of its operands to every party, then reads every party's share
      for the gate, clearing each, and sends their recombination at degree
      N_PARTIES to this party itself. */
  lemma MulStep(cfg: Config, me: int, secret: int, coins: int -> seq<int>, st: EState, g: int)
    requires WellFormed(cfg.gates, cfg.NParties()) && cfg.NParties() < g < |cfg.gates|
    requires cfg.gates[g].kind == MUL && !st.halted
    ensures var p, n := cfg.prime, cfg.NParties();
      var (ins, shares, ib) := ReadAll(st.shares, st.inbox, Plan(cfg.gates, me, g), false);
      var st2 := GateStep(cfg, me, secret, coins, st, g);
      && st2.report == st.report
      && (ins.None? ==> st2.halted && st2.outbox == st.outbox && st2.shares == shares && st2.inbox == ib)
      && |Plan(cfg.gates, me, g)| == 2
      && (ins.Some? ==>
            var h := Mul(p, ins.value[0], ins.value[1]);
            var (vs, shares2, ib2) := ReadAll(shares, ib, AllFrom(g, n), true);
            && st2.shares == shares2 && st2.inbox == ib2
            && (vs.None? <==> st2.halted)
            && (vs.None? ==> st2.outbox == st.outbox + Sends(p, h, g, coins(g), n))
            && (vs.Some? ==> st2.outbox == st.outbox + Sends(p, h, g, coins(g), n)
                              + [Outgoing(me, Msg(g, Reconstruct(p, AsShares(vs.value), n, n)))]))
  {
    PlanWellFormed(cfg.gates, cfg.NParties(), me, g);
    LastGateOnly(cfg.gates, cfg.NParties(), g);
  }

  /** A report, once made, is SUCCESS exactly when the revealed value is
      FUNCTION_RESULT. */
  predicate Honest(cfg: Config, st: EState)
  {
    st.report.Some? ==> (st.report.value.success <==> st.report.value.secret == cfg.functionResult)
  }

  lemma {:induction false} RunKeeps(cfg: Config, me: int, secret: int, coins: int -> seq<int>, st: EState, k: nat)
    requires Dense(cfg.gates) && k <= |cfg.gates| && Honest(cfg, st)
    ensures var st2 := Run(cfg, me, secret, coins, st, k);
      && Honest(cfg, st2)
      && |st.outbox| <= |st2.outbox| && st2.outbox[..|st.outbox|] == st.outbox
      && (st.halted ==> st2.halted)
  {
    if k > 0 {
      RunKeeps(cfg, me, secret, coins, st, k - 1);
      var mid := Run(cfg, me, secret, coins, st, k - 1);
      StepKeeps(cfg, me, secret, coins, mid, k);
      Extends(st.outbox, mid.outbox, GateStep(cfg, me, secret, coins, mid, k).outbox);
    }
  }

  lemma Extends(a: seq<Outgoing>, b: seq<Outgoing>, c: seq<Outgoing>)
    requires |a| <= |b| && b[..|a|] == a && |b| <= |c| && c[..|b|] == b
    ensures |a| <= |c| && c[..|a|] == a
  {
    assert c[..|a|] == c[..|b|][..|a|];
  }

  lemma StepKeeps(cfg: Config, me: int, secret: int, coins: int -> seq<int>, st: EState, g: int)
    requires Dense(cfg.gates) && g in cfg.gates && Honest(cfg, st)
    ensures var st2 := GateStep(cfg, me, secret, coins, st, g);
      && Honest(cfg, st2)
      && |st.outbox| <= |st2.outbox| && st2.outbox[..|st.outbox|] == st.outbox
      && (st.halted ==> st2.halted)
  {
    if !st.halted && cfg.gates[g].kind != INP {
      var (ab, st1) := Operands(cfg, me, st, g);
      if ab.Some? {
        var p := cfg.prime;
        if cfg.gates[g].kind == ADD {
          SendOutputKeeps(cfg, me, st1, Add(p, ab.value.0, ab.value.1), g);
        } else {
          ReduceKeeps(cfg, me, st1, Mul(p, ab.value.0, ab.value.1), coins(g), g);
        }
      }
    }
  }

  lemma SendOutputKeeps(cfg: Config, me: int, st: EState, output: int, g: int)
    requires g in cfg.gates && Honest(cfg, st)
    ensures var st2 := SendOutput(cfg, me, st, output, g);
      && Honest(cfg, st2)
      && |st.outbox| <= |st2.outbox| && st2.outbox[..|st.outbox|] == st.outbox
      && (st.halted ==> st2.halted)
  {
  }

  lemma ReduceKeeps(cfg: Config, me: int, st: EState, h: int, coefs: seq<int>, g: int)
    requires g in cfg.gates && Honest(cfg, st)
    ensures var st2 := Reduce(cfg, me, st, h, coefs, g);
      && Honest(cfg, st2)
      && |st.outbox| <= |st2.outbox| && st2.outbox[..|st.outbox|] == st.outbox
      && (st.halted ==> st2.halted)
  {
    var p, n := cfg.prime, cfg.NParties();
    var st1 := Split(st, p, h, g, coefs, n);
    var (vs, shares, ib) := ReadAll(st1.shares, st1.inbox, AllFrom(g, n), true);
    var st2 := st1.(shares := shares, inbox := ib);
    if vs.Some? {
      SendOutputKeeps(cfg, me, st2, Reconstruct(p, AsShares(vs.value), n, n), g);
      var st3 := SendOutput(cfg, me, st2, Reconstruct(p, AsShares(vs.value), n, n), g);
      assert st3.outbox[..|st.outbox|] == st3.outbox[..|st2.outbox|][..|st.outbox|];
    }
  }

  /** In a well-formed table only the output gate can make a report. */
  lemma ReportOnlyAtLast(cfg: Config, me: int, secret: int, coins: int -> seq<int>, st: EState, g: int)
    requires WellFormed(cfg.gates, cfg.NParties()) && 1 <= g < |cfg.gates|
    ensures GateStep(cfg, me, secret, coins, st, g).report == st.report
  {
    LastGateOnly(cfg.gates, cfg.NParties(), g);
  }
}
