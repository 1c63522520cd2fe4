/** Networks of SNAP nodes over whole runs: every packet processed uses up a transaction id, no node uses one twice
    before the 16-bit counter comes round, and every packet sent answers one its sender was meant to hear. */
module SnapTransactions {
  import opened Bytes
  import opened Snap
  import opened SnapProtocol

  /** A packet processed, be it answered or not, takes the next transaction id, and every service asked counts;
      the answer carries the id and the Ethernet type. */
  lemma NextTransaction(n: Node, p: Packet, replies: seq<Reply>)
    requires |replies| == |n.services|
    ensures var (n', sent) := Process(n, p, replies);
            && n'.nextId == (n.nextId + 1) % 0x1_0000 && n'.mac == n.mac && n'.services == n.services
            && n'.received == n.received + Asked(n.services, p)
            && (sent.Some? ==> sent.value.transaction == n.nextId && sent.value.etype == 0xCDAB)
  {
    hide Serve, Ack, Nack;
    var d := Blank(p, n.received);
    if IsResponse(p) {
      ResponsesAreSilent(n.services, replies, p, d);
    } else {
      ServeMeans(n.services, replies, p, d);
    }
  }

  /** The header on the wire: the type, the transaction id and the content size with the high byte first, and the
      bits of acknowledgement and refusal in the last byte of the flags. */
  lemma WireBytes(p: Packet)
    requires ValidPacket(p)
    ensures var f := Encode(p);
            && f[..6] == p.dest && f[6..12] == p.src
            && f[12] == p.etype / 256 && f[13] == p.etype % 256
            && f[14] == p.transaction / 256 && f[15] == p.transaction % 256
            && (Ack(p.flags) <==> f[27] % 2 == 1) && (Nack(p.flags) <==> f[27] / 2 % 2 == 1)
            && f[30] == |p.content| / 256 && f[31] == |p.content| % 256
            && f[32..] == p.content
  {
    EncodeFields(p);
    TwoBytes(p.etype);
    TwoBytes(p.transaction);
    TwoBytes(|p.content|);
    LowByte(p.flags);
    FlagBits(p.flags);
    hide BE, Encode, Ack, Nack;
    var f := Encode(p);
    assert f[12..14][0] == f[12] && f[12..14][1] == f[13] && f[14..16][0] == f[14] && f[14..16][1] == f[15];
    assert f[24..28][3] == f[27] && f[30..32][0] == f[30] && f[30..32][1] == f[31];
  }

  lemma TwoBytes(n: nat)
    requires n < 0x1_0000
    ensures BE(n, 2)[0] == n / 256 && BE(n, 2)[1] == n % 256
  {
  }

  lemma LowByte(n: nat)
    ensures BE(n, 4)[3] == n % 256
  {
  }

  lemma FlagBits(n: nat)
    ensures Ack(n) <==> n % 256 % 2 == 1
    ensures Nack(n) <==> n % 256 / 2 % 2 == 1
  {
  }

  // ---------------------------------------------------------------- networks

  /** How many packets the node has processed since the packet was sent, modulo 2^16. */
  function Age(n: Node, p: Packet): nat {
    (n.nextId - p.transaction) % 0x1_0000
  }

  /** After fewer than 2^16 steps: of two packets of one node the earlier is older, and none is older than the run. */
  ghost predicate Recent(net: Net, t: nat) {
    && (forall a :: 0 <= a < |net.log| ==>
          net.log[a].node < |net.nodes| && 1 <= Age(net.nodes[net.log[a].node], net.log[a].p) <= t)
    && (forall a, b :: 0 <= a < b < |net.log| && net.log[a].node == net.log[b].node ==>
          Age(net.nodes[net.log[a].node], net.log[a].p) > Age(net.nodes[net.log[b].node], net.log[b].p))
    && forall j :: 0 <= j < |net.nodes| ==> net.nodes[j].nextId < 0x1_0000
  }

  lemma Older(id: nat, tid: nat, t: nat)
    requires id < 0x1_0000 && t < 0xFFFF && (id - tid) % 0x1_0000 <= t
    ensures ((id + 1) % 0x1_0000 - tid) % 0x1_0000 == (id - tid) % 0x1_0000 + 1
  {
    var d := (id - tid) % 0x1_0000;
    var k := (id - tid) / 0x1_0000;
    assert id - tid == 0x1_0000 * k + d;
    if id + 1 < 0x1_0000 {
      assert id + 1 - tid == 0x1_0000 * k + (d + 1);
    } else {
      assert 0 - tid == 0x1_0000 * (k - 1) + (d + 1);
    }
  }

  lemma StepRecent(net: Net, step: SnapProtocol.Step, t: nat)
    requires ValidNet(net) && Enabled(net, step) && Recent(net, t) && t < 0xFFFF
    ensures Recent(Take(net, step), t + 1)
  {
    var c := net.wire[step.i];
    var n := net.nodes[c.to];
    if !step.lost && Accepts(n.mac, c.p.dest, c.p.src) {
      NextTransaction(n, c.p, step.replies);
      var (n', sent) := Process(n, c.p, step.replies);
      hide Process, Age;
      forall a | 0 <= a < |net.log| && net.log[a].node == c.to
        ensures Age(n', net.log[a].p) == Age(n, net.log[a].p) + 1
      {
        AgeGrows(n, n', net.log[a].p, t);
      }
      if sent.Some? {
        Newborn(n, n', sent.value);
      }
    }
  }

  lemma AgeGrows(n: Node, n': Node, p: Packet, t: nat)
    requires n.nextId < 0x1_0000 && n'.nextId == (n.nextId + 1) % 0x1_0000 && t < 0xFFFF && Age(n, p) <= t
    ensures Age(n', p) == Age(n, p) + 1
  {
    Older(n.nextId, p.transaction, t);
  }

  lemma Newborn(n: Node, n': Node, p: Packet)
    requires n.nextId < 0x1_0000 && n'.nextId == (n.nextId + 1) % 0x1_0000 && p.transaction == n.nextId
    ensures Age(n', p) == 1
  {
  }

  lemma {:induction false} RunRecent(net: Net, steps: seq<SnapProtocol.Step>, t: nat)
    requires ValidNet(net) && CanRun(net, steps) && Recent(net, t) && t + |steps| < 0x1_0000
    ensures Recent(Run(net, steps), t + |steps|)
    decreases |steps|
  {
    hide Take, Recent;
    if steps != [] {
      StepRecent(net, steps[0], t);
      RunRecent(Take(net, steps[0]), steps[1..], t + 1);
    }
  }

  /** In any run of fewer than 2^16 steps no two packets of the same node have the same transaction id. */
  lemma NoTransactionTwice(nodes: seq<Node>, wire: seq<Copy>, steps: seq<SnapProtocol.Step>, a: nat, b: nat)
    requires ValidNet(Net(nodes, wire, [])) && CanRun(Net(nodes, wire, []), steps) && |steps| < 0x1_0000
    requires forall j :: 0 <= j < |nodes| ==> nodes[j].nextId < 0x1_0000
    requires var log := Run(Net(nodes, wire, []), steps).log;
             a < b < |log| && log[a].node == log[b].node
    ensures var log := Run(Net(nodes, wire, []), steps).log;
            log[a].p.transaction != log[b].p.transaction
  {
    hide Run, CanRun;
    RunRecent(Net(nodes, wire, []), steps, 0);
    var end := Run(Net(nodes, wire, []), steps);
    assert Age(end.nodes[end.log[a].node], end.log[a].p) > Age(end.nodes[end.log[b].node], end.log[b].p);
  }

  // ---------------------------------------------------------------- addresses

  /** A packet that a node has to answer for: sent to it or to everyone, by someone else. */
  predicate Hears(mac: seq<Byte>, q: Packet) {
    q.src != mac && (q.dest == mac || q.dest == [0xFF, 0xFF, 0xFF, 0xFF, 0xFF, 0xFF])
  }

  /** Every packet sent answers one of the packets ps, which its sender heard. */
  ghost predicate Addressed(net: Net, ps: seq<Packet>) {
    forall k :: 0 <= k < |net.log| ==>
      net.log[k].node < |net.nodes|
      && exists q :: q in ps && Answers(net.log[k].p, q) && Hears(net.nodes[net.log[k].node].mac, q)
  }

  lemma StepFromStart(net: Net, step: SnapProtocol.Step, ps: seq<Packet>)
    requires ValidNet(net) && Enabled(net, step) && FromStart(net.wire, ps)
    ensures FromStart(Take(net, step).wire, ps)
  {
    var c := net.wire[step.i];
    OnlyRequestsAreAnswered(net.nodes[c.to], c.p, step.replies);
    hide Process, Ack, Nack;
  }

  lemma StepAddressed(net: Net, step: SnapProtocol.Step, ps: seq<Packet>)
    requires ValidNet(net) && Enabled(net, step) && Addressed(net, ps) && FromStart(net.wire, ps)
    ensures Addressed(Take(net, step), ps)
  {
    var c := net.wire[step.i];
    var n := net.nodes[c.to];
    hide Process, Ack, Nack;
    OnlyRequestsAreAnswered(n, c.p, step.replies);
    NextTransaction(n, c.p, step.replies);
    var next, sent := Take(net, step), Process(n, c.p, step.replies).1;
    assert forall j :: 0 <= j < |net.nodes| ==> next.nodes[j].mac == net.nodes[j].mac;
    if !step.lost && Accepts(n.mac, c.p.dest, c.p.src) && sent.Some? {
      assert c.p in ps && Answers(sent.value, c.p) && Hears(n.mac, c.p);
    }
    hide Answers, Hears;
    forall k | 0 <= k < |next.log|
      ensures next.log[k].node < |next.nodes|
      ensures exists q :: q in ps && Answers(next.log[k].p, q) && Hears(next.nodes[next.log[k].node].mac, q)
    {
      if k < |net.log| {
        assert next.log[k] == net.log[k];
        var q :| q in ps && Answers(net.log[k].p, q) && Hears(net.nodes[net.log[k].node].mac, q);
        assert Hears(next.nodes[next.log[k].node].mac, q);
      } else {
        assert next.log[k] == Sending(c.to, sent.value);
        assert Hears(next.nodes[c.to].mac, c.p);
      }
    }
  }

  /** Over any run, every packet a node sends answers a request that was sent to the node or to everyone, and not
      by the node itself; so no node ever sends to its own address. */
  lemma {:induction false} EverySendAddressed(net: Net, steps: seq<SnapProtocol.Step>, ps: seq<Packet>)
    requires ValidNet(net) && CanRun(net, steps) && Addressed(net, ps) && FromStart(net.wire, ps)
    ensures Addressed(Run(net, steps), ps)
    ensures forall s <- Run(net, steps).log :: s.node < |net.nodes| && s.p.dest != Run(net, steps).nodes[s.node].mac
    decreases |steps|
  {
    hide Take, FromStart;
    if steps != [] {
      StepAddressed(net, steps[0], ps);
      StepFromStart(net, steps[0], ps);
      EverySendAddressed(Take(net, steps[0]), steps[1..], ps);
    }
  }
}
