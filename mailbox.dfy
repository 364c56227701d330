/** What a party's network layer does with the packets that reach it, as pure
    functions over an explicit state: the per-sender queues of the subscriber,
    the packets not yet read from the socket, and the share buffer keyed by
    (source party, source gate). The classes in module Network are proved to
    follow these functions step by step. */
module Mailbox {
  import opened ModPrime

  /** The payload of a share message: (src_gate, share). */
  datatype Msg = Msg(gate: int, share: int)

  /** A packet as read from the socket: the sender's party number and the
      payload. */
  datatype Packet = Packet(sender: int, msg: Msg)

  /** A message handed to the publisher: the destination party and the
      payload. */
  datatype Outgoing = Outgoing(dest: int, msg: Msg)

  /** The subscriber's state: queues of messages already read from the
      socket but not yet asked for, and the packets still to arrive. */
  datatype Inbox = Inbox(queues: map<int, seq<Msg>>, stream: seq<Packet>)

  /** The share buffer: shares[p][g] is the share of gate g received from
      party p and not yet consumed, or None. */
  type Buffer = map<int, map<int, Option<int>>>

  // ---------------------------------------------------------------------------
  // Subscriber.receive

  /** Read packets until one from `sender` arrives, appending the others to
      their senders' queues. None when the stream runs out (the socket read
      would block forever) or a packet comes from a party that has no queue
      (a key error). */
  function Scan(queues: map<int, seq<Msg>>, stream: seq<Packet>, sender: int): (r: (Option<Msg>, Inbox))
    ensures |r.1.stream| <= |stream|
    ensures r.0.Some? ==> |r.1.stream| < |stream|
    ensures forall s :: s in r.1.queues <==> s in queues
    ensures sender in queues ==> r.1.queues[sender] == queues[sender]
    decreases |stream|
  {
    if stream == [] then (None, Inbox(queues, []))
    else
      var pk := stream[0];
      if pk.sender == sender then (Some(pk.msg), Inbox(queues, stream[1..]))
      else if pk.sender !in queues then (None, Inbox(queues, stream[1..]))
      else Scan(queues[pk.sender := queues[pk.sender] + [pk.msg]], stream[1..], sender)
  }

  /** Subscriber.receive(sender): the head of the sender's queue if there is
      one, otherwise the next packet from the sender on the socket. */
  function Receive(ib: Inbox, sender: int): (r: (Option<Msg>, Inbox))
  {
    if sender !in ib.queues then (None, ib)
    else if ib.queues[sender] != [] then
      (Some(ib.queues[sender][0]), ib.(queues := ib.queues[sender := ib.queues[sender][1..]]))
    else Scan(ib.queues, ib.stream, sender)
  }

  /** The messages from s, in the order they were sent. */
  function From(stream: seq<Packet>, s: int): (ms: seq<Msg>)
    ensures |ms| <= |stream|
  {
    if stream == [] then []
    else (if stream[0].sender == s then [stream[0].msg] else []) + From(stream[1..], s)
  }

  /** Every message from s not yet handed out: its queue, then the rest of
      the stream. */
  function Pending(ib: Inbox, s: int): seq<Msg>
  {
    (if s in ib.queues then ib.queues[s] else []) + From(ib.stream, s)
  }

  /** Every packet on the stream comes from a party that has a queue. */
  predicate Known(ib: Inbox)
  {
    forall i :: 0 <= i < |ib.stream| ==> ib.stream[i].sender in ib.queues
  }

  /** The amount of work left for receive(s): queued plus unread. */
  function Left(ib: Inbox, s: int): nat
  {
    (if s in ib.queues then |ib.queues[s]| else 0) + |ib.stream|
  }

  lemma KnownTail(ib: Inbox, k: nat)
    requires Known(ib) && k <= |ib.stream|
    ensures Known(ib.(stream := ib.stream[k..]))
  {
  }

  lemma {:induction false} ScanFifo(queues: map<int, seq<Msg>>, stream: seq<Packet>, sender: int)
    requires sender in queues && queues[sender] == []
    requires Known(Inbox(queues, stream))
    ensures var (m, ib) := Scan(queues, stream, sender);
      && Known(ib)
      && (m.Some? ==> From(stream, sender) == [m.value] + From(ib.stream, sender))
      && (m.None? ==> From(stream, sender) == [] && ib.stream == [])
      && (forall s :: s != sender && s in queues ==> Pending(ib, s) == Pending(Inbox(queues, stream), s))
    decreases |stream|
  {
    if stream != [] {
      var pk := stream[0];
      if pk.sender != sender {
        var q1 := queues[pk.sender := queues[pk.sender] + [pk.msg]];
        ScanSkip(queues, stream, sender);
        ScanFifo(q1, stream[1..], sender);
      } else {
        ScanHit(queues, stream, sender);
      }
    }
  }

  /** Moving a packet from another sender into its queue changes nobody's
      pending messages. */
  lemma ScanSkip(queues: map<int, seq<Msg>>, stream: seq<Packet>, sender: int)
    requires stream != [] && stream[0].sender != sender
    requires Known(Inbox(queues, stream))
    ensures var pk := stream[0];
      var q1 := queues[pk.sender := queues[pk.sender] + [pk.msg]];
      && Known(Inbox(q1, stream[1..]))
      && From(stream, sender) == From(stream[1..], sender)
      && forall s :: s != sender && s in queues ==> Pending(Inbox(q1, stream[1..]), s) == Pending(Inbox(queues, stream), s)
  {
    var pk := stream[0];
    assert From(stream, pk.sender) == [pk.msg] + From(stream[1..], pk.sender);
    KnownTail(Inbox(queues, stream), 1);
    var q1 := queues[pk.sender := queues[pk.sender] + [pk.msg]];
    forall s | s != sender && s in queues
      ensures Pending(Inbox(q1, stream[1..]), s) == Pending(Inbox(queues, stream), s)
    {
      if s != pk.sender {
        assert From(stream, s) == From(stream[1..], s);
      }
    }
  }

  /** A packet from the sender itself is handed out at once, with the queues
      as they were and the rest of the stream unread; every other sender's
      pending messages stay as they were. */
  lemma ScanHit(queues: map<int, seq<Msg>>, stream: seq<Packet>, sender: int)
    requires stream != [] && stream[0].sender == sender
    requires Known(Inbox(queues, stream))
    ensures Scan(queues, stream, sender) == (Some(stream[0].msg), Inbox(queues, stream[1..]))
    ensures Known(Inbox(queues, stream[1..]))
    ensures From(stream, sender) == [stream[0].msg] + From(stream[1..], sender)
    ensures forall s :: s != sender ==> From(stream, s) == From(stream[1..], s)
  {
    KnownTail(Inbox(queues, stream), 1);
  }

  /** receive(sender) hands out the sender's messages in the order they were
      sent, one at a time, and loses, duplicates or reorders nothing from any
      other sender; it returns None only when nothing from the sender is
      left. */
  lemma ReceiveFifo(ib: Inbox, sender: int)
    requires sender in ib.queues && Known(ib)
    ensures var (m, ib2) := Receive(ib, sender);
      && Known(ib2)
      && (m.Some? ==> Pending(ib, sender) == [m.value] + Pending(ib2, sender))
      && (m.None? ==> Pending(ib, sender) == [] && Pending(ib2, sender) == [])
      && (forall s :: s != sender && s in ib.queues ==> Pending(ib2, s) == Pending(ib, s))
  {
    if ib.queues[sender] == [] {
      ScanFifo(ib.queues, ib.stream, sender);
    } else {
      var q := ib.queues[sender];
      assert q == [q[0]] + q[1..];
    }
  }

  /** A non-empty queue is served without touching the socket. */
  lemma ReceiveQueued(ib: Inbox, sender: int)
    requires sender in ib.queues && ib.queues[sender] != []
    ensures var (m, ib2) := Receive(ib, sender);
      m == Some(ib.queues[sender][0]) && ib2.stream == ib.stream
      && |ib2.queues[sender]| + 1 == |ib.queues[sender]|
  {
  }

  /** Each successful receive leaves less work for the next one. */
  lemma ReceiveShrinks(ib: Inbox, sender: int)
    ensures var (m, ib2) := Receive(ib, sender);
      && (forall s :: s in ib2.queues <==> s in ib.queues)
      && (m.Some? ==> Left(ib2, sender) < Left(ib, sender))
  {
  }

  // ---------------------------------------------------------------------------
  // Network.__init__ buffer and Network.receive_share

  /** The buffer as created: a None slot for every party 1..n and every gate
      1..nGates + 1. */
  function EmptyBuffer(n: nat, nGates: nat): (b: Buffer)
    ensures forall p :: p in b <==> 1 <= p <= n
    ensures forall p :: p in b ==> forall g :: g in b[p] <==> 1 <= g <= nGates + 1
    ensures forall p, g :: p in b && g in b[p] ==> b[p][g] == None
  {
    if n == 0 then map[] else EmptyBuffer(n - 1, nGates)[n := EmptyRow(nGates + 1)]
  }

  /** A row with a None slot for every gate 1..size. */
  function EmptyRow(size: nat): (row: map<int, Option<int>>)
    ensures forall g :: g in row <==> 1 <= g <= size
    ensures forall g :: g in row ==> row[g] == None
  {
    if size == 0 then map[] else EmptyRow(size - 1)[size := None]
  }

  /** The row after the messages ms have been stored in order, each at its
      own gate, a later one overwriting an earlier one. */
  function Store(row: map<int, Option<int>>, ms: seq<Msg>): (r: map<int, Option<int>>)
    decreases |ms|
  {
    if ms == [] then row
    else Store(row[ms[0].gate := Some(ms[0].share)], ms[1..])
  }

  /** Hand out a buffered share, emptying its slot when `clear` is set. */
  function Take(shares: Buffer, src: int, gate: int, clear: bool): (r: (Option<int>, Buffer))
    requires src in shares && gate in shares[src]
  {
    (shares[src][gate], if clear then shares[src := shares[src][gate := None]] else shares)
  }

  /** The pulling loop of receive_share: receive from src, store the share at
      its gate, stop once the requested slot is filled. */
  function Pull(shares: Buffer, ib: Inbox, src: int, gate: int, clear: bool): (r: (Option<int>, Buffer, Inbox))
    requires src in shares && gate in shares[src]
    decreases Left(ib, src), 0
  {
    ReceiveShrinks(ib, src);
    var (m, ib1) := Receive(ib, src);
    if m.None? then (None, shares, ib1)
    else
      var row := shares[src][m.value.gate := Some(m.value.share)];
      var shares1 := shares[src := row];
      if row[gate].Some? then
        var (v, shares2) := Take(shares1, src, gate, clear);
        (v, shares2, ib1)
      else ReceiveShare(shares1, ib1, src, gate, clear)
  }

  /** Network.receive_share(src, gate, clear): the buffered share if there is
      one, otherwise keep receiving from src. None when the share never comes
      (the read would block) or when (src, gate) is not a slot of the buffer
      (a key error). */
  function ReceiveShare(shares: Buffer, ib: Inbox, src: int, gate: int, clear: bool): (r: (Option<int>, Buffer, Inbox))
    decreases Left(ib, src), 1
  {
    if src !in shares || gate !in shares[src] then (None, shares, ib)
    else if shares[src][gate].Some? then
      var (v, shares1) := Take(shares, src, gate, clear);
      (v, shares1, ib)
    else Pull(shares, ib, src, gate, clear)
  }

  /** Index of the first message for gate g, or |ms| when there is none. */
  function FirstFor(ms: seq<Msg>, g: int): (k: nat)
    ensures k <= |ms|
    decreases |ms|
  {
    if ms == [] then 0 else if ms[0].gate == g then 0 else 1 + FirstFor(ms[1..], g)
  }

  lemma {:induction false} FirstForMeans(ms: seq<Msg>, g: int)
    ensures var k := FirstFor(ms, g);
      (forall j :: 0 <= j < k ==> ms[j].gate != g) && (k < |ms| ==> ms[k].gate == g)
    decreases |ms|
  {
    if ms != [] && ms[0].gate != g {
      FirstForMeans(ms[1..], g);
    }
  }

  lemma StoreStep(row: map<int, Option<int>>, ms: seq<Msg>, m: Msg)
    ensures Store(row, [m] + ms) == Store(row[m.gate := Some(m.share)], ms)
  {
    assert ([m] + ms)[1..] == ms;
  }

  /** Storing one more message writes its share into its gate's slot. */
  lemma {:induction false} StoreSnoc(row: map<int, Option<int>>, ms: seq<Msg>, m: Msg)
    ensures Store(row, ms + [m]) == Store(row, ms)[m.gate := Some(m.share)]
    decreases |ms|
  {
    if ms != [] {
      assert (ms + [m])[1..] == ms[1..] + [m];
      StoreSnoc(row[ms[0].gate := Some(ms[0].share)], ms[1..], m);
    }
  }

  /** Only slots named by a stored message change; they end up holding a
      share. */
  lemma {:induction false} StoreFrame(row: map<int, Option<int>>, ms: seq<Msg>, g: int)
    requires g in row
    ensures g in Store(row, ms)
    ensures (forall j :: 0 <= j < |ms| ==> ms[j].gate != g) ==> Store(row, ms)[g] == row[g]
    ensures (exists j :: 0 <= j < |ms| && ms[j].gate == g) ==> Store(row, ms)[g].Some?
    decreases |ms|
  {
    if ms != [] {
      StoreFrame(row[ms[0].gate := Some(ms[0].share)], ms[1..], g);
      if exists j :: 0 <= j < |ms| && ms[j].gate == g {
        var j :| 0 <= j < |ms| && ms[j].gate == g;
        if j > 0 {
          assert ms[1..][j - 1].gate == g;
        }
      }
      if forall j :: 0 <= j < |ms| ==> ms[j].gate != g {
        assert forall j :: 0 <= j < |ms[1..]| ==> ms[1..][j].gate != g by {
          forall j | 0 <= j < |ms[1..]| ensures ms[1..][j].gate != g {
            assert ms[1..][j] == ms[j + 1];
          }
        }
      }
    }
  }

  /** The pulling loop touches only src's row of the buffer, and leaves
      every other sender's messages pending in order. */
  lemma {:induction false} PullFrame(shares: Buffer, ib: Inbox, src: int, gate: int, clear: bool)
    requires src in shares && gate in shares[src]
    requires src in ib.queues && Known(ib)
    ensures var (r, shares2, ib2) := Pull(shares, ib, src, gate, clear);
      && Known(ib2)
      && (forall p :: p in shares2 <==> p in shares)
      && (forall p :: p != src && p in shares ==> shares2[p] == shares[p])
      && (forall s :: s != src && s in ib.queues ==> Pending(ib2, s) == Pending(ib, s))
    decreases Left(ib, src)
  {
    ReceiveShrinks(ib, src);
    ReceiveFifo(ib, src);
    var (m, ib1) := Receive(ib, src);
    if m.Some? {
      var row := shares[src][m.value.gate := Some(m.value.share)];
      if row[gate].None? {
        PullFrame(shares[src := row], ib1, src, gate, clear);
      }
    }
  }

  /** The pulling loop consumes src's pending messages up to and including
      the first one for the requested gate, stores each of them in src's row,
      and returns that message's share; when no pending message is for the
      gate it consumes them all and returns None. */
  lemma {:induction false} PullMeans(shares: Buffer, ib: Inbox, src: int, gate: int, clear: bool)
    requires src in shares && gate in shares[src] && shares[src][gate].None?
    requires src in ib.queues && Known(ib)
    ensures var (r, shares2, ib2) := Pull(shares, ib, src, gate, clear);
      var ms := Pending(ib, src);
      var k := FirstFor(ms, gate);
      && src in shares2
      && (k < |ms| ==>
            && r == Some(ms[k].share) && Pending(ib2, src) == ms[k + 1..]
            && shares2[src] == (var row := Store(shares[src], ms[..k + 1]);
                                if clear then row[gate := None] else row))
      && (k == |ms| ==> r == None && Pending(ib2, src) == [] && shares2[src] == Store(shares[src], ms))
    decreases Left(ib, src)
  {
    ReceiveShrinks(ib, src);
    ReceiveFifo(ib, src);
    var ms := Pending(ib, src);
    var (m, ib1) := Receive(ib, src);
    if m.Some? {
      var msg := m.value;
      var row := shares[src][msg.gate := Some(msg.share)];
      var shares1 := shares[src := row];
      assert ms == [msg] + Pending(ib1, src);
      if msg.gate == gate {
        assert FirstFor(ms, gate) == 0;
        assert ms[..1] == [msg];
        StoreStep(shares[src], [], msg);
      } else {
        PullMeans(shares1, ib1, src, gate, clear);
        PullTail(shares[src], ms, msg, gate);
      }
    } else {
      assert FirstFor(ms, gate) == 0;
    }
  }

  /** The bookkeeping of one pulled message that is not for the requested
      gate. */
  lemma PullTail(row: map<int, Option<int>>, ms: seq<Msg>, msg: Msg, gate: int)
    requires ms != [] && ms[0] == msg && msg.gate != gate
    ensures var rest := ms[1..];
      var k1 := FirstFor(rest, gate);
      && FirstFor(ms, gate) == 1 + k1
      && (k1 < |rest| ==> Store(row, ms[..k1 + 2]) == Store(row[msg.gate := Some(msg.share)], rest[..k1 + 1])
                          && ms[k1 + 2..] == rest[k1 + 1..])
      && Store(row, ms) == Store(row[msg.gate := Some(msg.share)], rest)
  {
    var rest := ms[1..];
    assert ms == [msg] + rest;
    StoreStep(row, rest, msg);
    var k1 := FirstFor(rest, gate);
    if k1 < |rest| {
      assert ms[..k1 + 2] == [msg] + rest[..k1 + 1];
      StoreStep(row, rest[..k1 + 1], msg);
    }
  }

  /** A buffered share is returned without reading the socket; with clear
      set its slot is emptied, otherwise nothing changes. */
  lemma ShareHit(shares: Buffer, ib: Inbox, src: int, gate: int, clear: bool)
    requires src in shares && gate in shares[src] && shares[src][gate].Some?
    ensures var (r, shares2, ib2) := ReceiveShare(shares, ib, src, gate, clear);
      && r == shares[src][gate] && ib2 == ib
      && (clear ==> shares2 == shares[src := shares[src][gate := None]])
      && (!clear ==> shares2 == shares)
  {
  }

  /** receive_share touches only the row of the party read from, and the
      subscriber's state of other senders only by keeping it pending. */
  lemma ShareFrame(shares: Buffer, ib: Inbox, src: int, gate: int, clear: bool)
    requires src in ib.queues && Known(ib)
    ensures var (r, shares2, ib2) := ReceiveShare(shares, ib, src, gate, clear);
      && Known(ib2)
      && (forall p :: p in shares2 <==> p in shares)
      && (forall p :: p != src && p in shares ==> shares2[p] == shares[p])
      && (forall s :: s != src && s in ib.queues ==> Pending(ib2, s) == Pending(ib, s))
  {
    if src in shares && gate in shares[src] && shares[src][gate].None? {
      PullFrame(shares, ib, src, gate, clear);
    }
  }

  /** A share read without clearing is still there: reading it again gives
      the same value and changes nothing. */
  lemma ShareIdempotent(shares: Buffer, ib: Inbox, src: int, gate: int)
    requires src in ib.queues && Known(ib)
    ensures var (r, shares2, ib2) := ReceiveShare(shares, ib, src, gate, false);
      r.Some? ==> ReceiveShare(shares2, ib2, src, gate, false) == (r, shares2, ib2)
  {
    if src in shares && gate in shares[src] && shares[src][gate].None? {
      PullMeans(shares, ib, src, gate, false);
      var ms := Pending(ib, src);
      var k := FirstFor(ms, gate);
      if k < |ms| {
        FirstForMeans(ms, gate);
        assert ms[..k + 1] == ms[..k] + [ms[k]];
        StoreSnoc(shares[src], ms[..k], ms[k]);
      }
    }
  }

  /** A share read with clear set is gone: its slot is empty afterwards. */
  lemma ShareCleared(shares: Buffer, ib: Inbox, src: int, gate: int)
    requires src in shares && gate in shares[src]
    requires src in ib.queues && Known(ib)
    ensures var (r, shares2, ib2) := ReceiveShare(shares, ib, src, gate, true);
      r.Some? ==> src in shares2 && gate in shares2[src] && shares2[src][gate] == None
  {
    if shares[src][gate].None? {
      PullMeans(shares, ib, src, gate, true);
    }
  }
}
