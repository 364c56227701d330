/** The objects of a party's network layer. The socket is replaced by the
    sequence of packets that will arrive on it (`stream`), and the publisher
    by the list of messages sent so far (`outbox`); every method is proved to
    do what the functions of module Mailbox say. */
module Network {
  import opened ModPrime
  import opened Mailbox

  /** The queues as created: an empty one for every party 1..n. */
  function EmptyQueues(n: nat): (q: map<int, seq<Msg>>)
    ensures forall p :: p in q <==> 1 <= p <= n
    ensures forall p :: p in q ==> q[p] == []
  {
    if n == 0 then map[] else EmptyQueues(n - 1)[n := []]
  }

  class Subscriber {
    const partyNo: int
    /** Messages already read, per sender, not yet asked for. */
    var queues: map<int, seq<Msg>>
    /** Packets that will still arrive on the socket, in arrival order. */
    var stream: seq<Packet>

    ghost function State(): Inbox
      reads this
    {
      Inbox(queues, stream)
    }

    constructor(partyNo: int, nParties: nat, stream: seq<Packet>)
      ensures this.partyNo == partyNo
      ensures queues == EmptyQueues(nParties) && this.stream == stream
    {
      this.partyNo := partyNo;
      queues := EmptyQueues(nParties);
      this.stream := stream;
    }

    /** The next message from `sender`; None when it never comes. */
    method Receive(sender: int) returns (r: Option<Msg>)
      modifies this
      ensures (r, State()) == Mailbox.Receive(old(State()), sender)
    {
      if sender !in queues {
        return None;
      }
      if queues[sender] != [] {
        r := Some(queues[sender][0]);
        queues := queues[sender := queues[sender][1..]];
        return;
      }
      ghost var q0, s0 := queues, stream;
      while true
        invariant Scan(queues, stream, sender) == Scan(q0, s0, sender)
        decreases |stream|
      {
        if stream == [] {
          return None;
        }
        var pk := stream[0];
        stream := stream[1..];
        if pk.sender == sender {
          return Some(pk.msg);
        }
        if pk.sender !in queues {
          return None;
        }
        queues := queues[pk.sender := queues[pk.sender] + [pk.msg]];
      }
    }
  }

  class Network {
    const partyNo: int
    const subscriber: Subscriber
    /** shares[p][g]: the share of gate g received from party p, or None. */
    var shares: Buffer
    /** Everything published so far, in order. */
    var outbox: seq<Outgoing>

    ghost function Inbound(): Inbox
      reads subscriber
    {
      subscriber.State()
    }

    constructor(partyNo: int, nParties: nat, nGates: nat, stream: seq<Packet>)
      ensures this.partyNo == partyNo && fresh(subscriber)
      ensures shares == EmptyBuffer(nParties, nGates) && outbox == []
      ensures subscriber.queues == EmptyQueues(nParties) && subscriber.stream == stream
    {
      this.partyNo := partyNo;
      subscriber := new Subscriber(partyNo, nParties, stream);
      shares := EmptyBuffer(nParties, nGates);
      outbox := [];
    }

    /** send_share: publish (src_gate, share) to dest_party. */
    method SendShare(share: int, srcGate: int, destParty: int)
      modifies this
      ensures outbox == old(outbox) + [Outgoing(destParty, Msg(srcGate, share))]
      ensures shares == old(shares)
    {
      outbox := outbox + [Outgoing(destParty, Msg(srcGate, share))];
    }

    /** receive_share: the share of (src_party, src_gate), from the buffer or
        by receiving from src_party until it arrives; with `clear` set its
        slot is emptied once returned. */
    method ReceiveShare(srcParty: int, srcGate: int, clear: bool) returns (r: Option<int>)
      modifies this, subscriber
      ensures (r, shares, Inbound()) == Mailbox.ReceiveShare(old(shares), old(Inbound()), srcParty, srcGate, clear)
      ensures outbox == old(outbox)
    {
      if srcParty !in shares || srcGate !in shares[srcParty] {
        return None;
      }
      if shares[srcParty][srcGate].Some? {
        r := shares[srcParty][srcGate];
        if clear {
          shares := shares[srcParty := shares[srcParty][srcGate := None]];
        }
        return;
      }
      while true
        invariant srcParty in shares && srcGate in shares[srcParty]
        invariant Pull(shares, Inbound(), srcParty, srcGate, clear)
          == Pull(old(shares), old(Inbound()), srcParty, srcGate, clear)
        invariant outbox == old(outbox)
        decreases Left(Inbound(), srcParty)
      {
        ReceiveShrinks(Inbound(), srcParty);
        var m := subscriber.Receive(srcParty);
        if m.None? {
          return None;
        }
        shares := shares[srcParty := shares[srcParty][m.value.gate := Some(m.value.share)]];
        if shares[srcParty][srcGate].Some? {
          r := shares[srcParty][srcGate];
          if clear {
            shares := shares[srcParty := shares[srcParty][srcGate := None]];
          }
          return;
        }
      }
    }
  }
}
