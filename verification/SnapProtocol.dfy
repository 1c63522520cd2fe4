/** Requests and responses of SNAP, and networks of nodes that answer them: _process_packet,
    _snap_fill_header and _snap_transaction_id of modules/protocols/snap/src/snap.c. */
module SnapProtocol {
  import opened Bytes
  import opened Snap

  const RESPONSE_MAX := 1024
  const ETHERTYPE := 0xCDAB // 0xABCD in network order, as a little-endian host holds it
  const OK := 0
  const NO_RESPONSE := 100

  datatype Option<T> = None | Some(value: T)

  /** vs_snap_service_t: which of the two callbacks are set. */
  datatype Service = Service(id: nat, hasRequest: bool, hasResponse: bool)

  /** What a request callback returns and writes. Callbacks are free to answer differently each time. */
  datatype Reply = Reply(res: int, data: seq<Byte>)

  predicate ValidReply(r: Reply) {
    |r.data| <= RESPONSE_MAX
  }

  /** VS_SNAP_FLAG_ACK and VS_SNAP_FLAG_NACK are bits 0 and 1 of the flags word. */
  predicate Ack(flags: nat) {
    flags % 4 == 1 || flags % 4 == 3
  }

  predicate Nack(flags: nat) {
    flags % 4 >= 2
  }

  predicate IsResponse(p: Packet) {
    Ack(p.flags) || Nack(p.flags)
  }

  function WithAck(flags: nat): (r: nat)
    ensures Ack(r) && (Nack(r) <==> Nack(flags)) && r / 4 == flags / 4
  {
    if Ack(flags) then flags else flags + 1
  }

  function WithNack(flags: nat): (r: nat)
    ensures Nack(r) && (Ack(r) <==> Ack(flags)) && r / 4 == flags / 4
  {
    if Nack(flags) then flags else flags + 2
  }

  /** The response under construction. */
  datatype Draft = Draft(flags: nat, content: seq<Byte>, need: bool, received: nat)

  predicate Serves(s: Service, p: Packet) {
    s.id == p.service && s.hasRequest
  }

  /** The services asked, one after the other: more than one may carry the id. */
  function Serve(services: seq<Service>, replies: seq<Reply>, p: Packet, d: Draft): Draft
    requires |services| == |replies|
    decreases |services|
  {
    if services == [] then d
    else Serve(services[1..], replies[1..], p, ServeOne(services[0], replies[0], p, d))
  }

  function ServeOne(s: Service, r: Reply, p: Packet, d: Draft): Draft {
    if IsResponse(p) || !Serves(s, p) then d
    else if r.res == OK then Draft(WithAck(d.flags), r.data, true, d.received + 1)
    else if r.res == NO_RESPONSE then d.(need := false, received := d.received + 1)
    else Draft(WithNack(d.flags), [], true, d.received + 1)
  }

  /** A device: its address, services, transaction counter and the count of requests received. */
  datatype Node = Node(mac: seq<Byte>, services: seq<Service>, nextId: nat, received: nat)

  /** The response starts as a copy of the request's header over a zeroed buffer. */
  function Blank(p: Packet, received: nat): Draft {
    Draft(p.flags, Fill(0, |p.content|), false, received)
  }

  /** _process_packet: the node afterwards and the packet it sends, if any. */
  function Process(n: Node, p: Packet, replies: seq<Reply>): (Node, Option<Packet>)
    requires |replies| == |n.services|
  {
    var d := Serve(n.services, replies, p, Blank(p, n.received));
    (n.(nextId := (n.nextId + 1) % U16, received := d.received),
     if d.need then Some(Packet(p.src, n.mac, ETHERTYPE, n.nextId, p.service, p.element, d.flags, p.padding, d.content))
     else None)
  }

  /** Number of services asked. */
  function Asked(services: seq<Service>, p: Packet): nat {
    if services == [] || IsResponse(p) then 0
    else (if Serves(services[0], p) then 1 else 0) + Asked(services[1..], p)
  }

  predicate Accepted(services: seq<Service>, replies: seq<Reply>, p: Packet)
    requires |services| == |replies|
  {
    exists i :: 0 <= i < |services| && Serves(services[i], p) && replies[i].res == OK
  }

  predicate Rejected(services: seq<Service>, replies: seq<Reply>, p: Packet)
    requires |services| == |replies|
  {
    exists i :: 0 <= i < |services| && Serves(services[i], p) && replies[i].res != OK && replies[i].res != NO_RESPONSE
  }

  /** i is the last service asked. */
  predicate LastAsked(services: seq<Service>, p: Packet, i: int) {
    0 <= i < |services| && Serves(services[i], p) && forall j :: i < j < |services| ==> !Serves(services[j], p)
  }

  /** A response makes no service speak, and leaves the draft alone. */
  lemma {:induction false} ResponsesAreSilent(services: seq<Service>, replies: seq<Reply>, p: Packet, d: Draft)
    requires |services| == |replies| && IsResponse(p)
    ensures Serve(services, replies, p, d) == d
    decreases |services|
  {
    if services != [] {
      ResponsesAreSilent(services[1..], replies[1..], p, d);
    }
  }

  /** The draft after a request: the last service asked decides whether and with what content there is
      an answer, every service asked counts and leaves its mark in the flags. */
  lemma {:induction false} ServeMeans(services: seq<Service>, replies: seq<Reply>, p: Packet, d: Draft)
    requires |services| == |replies| && !IsResponse(p)
    ensures var e := Serve(services, replies, p, d);
            && e.received == d.received + Asked(services, p)
            && (Ack(e.flags) <==> Ack(d.flags) || Accepted(services, replies, p))
            && (Nack(e.flags) <==> Nack(d.flags) || Rejected(services, replies, p))
            && e.flags / 4 == d.flags / 4
            && ((forall i :: 0 <= i < |services| ==> !Serves(services[i], p)) ==>
               e.need == d.need && e.content == d.content)
            && (forall i :: LastAsked(services, p, i) ==>
                  && (e.need <==> replies[i].res != NO_RESPONSE)
                  && (e.need ==> e.content == if replies[i].res == OK then replies[i].data else []))
    decreases |services|
  {
    hide Ack, Nack;
    if services != [] {
      var d1 := ServeOne(services[0], replies[0], p, d);
      ServeMeans(services[1..], replies[1..], p, d1);
      MarksMore(services, replies, p);
      var e := Serve(services, replies, p, d);
      forall i | LastAsked(services, p, i)
        ensures && (e.need <==> replies[i].res != NO_RESPONSE)
                && (e.need ==> e.content == if replies[i].res == OK then replies[i].data else [])
      {
        if i > 0 {
          assert LastAsked(services[1..], p, i - 1);
        } else {
          assert forall j :: 0 <= j < |services| - 1 ==> services[1..][j] == services[j + 1];
        }
      }
      if forall i :: 0 <= i < |services| ==> !Serves(services[i], p) {
        assert !Serves(services[0], p);
        assert forall i :: 0 <= i < |services| - 1 ==> services[1..][i] == services[i + 1];
      }
    }
  }

  lemma MarksMore(services: seq<Service>, replies: seq<Reply>, p: Packet)
    requires |services| == |replies| > 0
    ensures Accepted(services, replies, p) <==>
            (Serves(services[0], p) && replies[0].res == OK) || Accepted(services[1..], replies[1..], p)
    ensures Rejected(services, replies, p) <==>
            (Serves(services[0], p) && replies[0].res != OK && replies[0].res != NO_RESPONSE)
            || Rejected(services[1..], replies[1..], p)
  {
    if i :| 0 <= i < |services| && Serves(services[i], p) && replies[i].res == OK {
      assert i > 0 ==> services[i] == services[1..][i - 1] && replies[i] == replies[1..][i - 1];
    }
    if i :| 0 <= i < |services| && Serves(services[i], p) && replies[i].res != OK && replies[i].res != NO_RESPONSE {
      assert i > 0 ==> services[i] == services[1..][i - 1] && replies[i] == replies[1..][i - 1];
    }
    if i :| 0 <= i < |services| - 1 && Serves(services[1..][i], p) && replies[1..][i].res == OK {
      assert Serves(services[i + 1], p) && replies[i + 1].res == OK;
    }
    if i :| 0 <= i < |services| - 1 && Serves(services[1..][i], p)
            && replies[1..][i].res != OK && replies[1..][i].res != NO_RESPONSE {
      assert Serves(services[i + 1], p) && replies[i + 1].res != OK && replies[i + 1].res != NO_RESPONSE;
    }
  }

  /** r answers q. */
  predicate Answers(r: Packet, q: Packet) {
    && IsResponse(r) && !IsResponse(q)
    && r.dest == q.src && r.service == q.service && r.element == q.element && r.padding == q.padding
    && r.flags / 4 == q.flags / 4
  }

  /** A node sends at most one packet for a packet received, and what it sends is a response to a
      request, from itself; a response received is never answered. */
  lemma OnlyRequestsAreAnswered(n: Node, p: Packet, replies: seq<Reply>)
    requires |replies| == |n.services|
    ensures Process(n, p, replies).1.Some? ==>
              Answers(Process(n, p, replies).1.value, p) && Process(n, p, replies).1.value.src == n.mac
    ensures IsResponse(p) ==> Process(n, p, replies).1.None? && Process(n, p, replies).0.received == n.received
  {
    hide Ack, Nack, Serve;
    var d := Blank(p, n.received);
    if IsResponse(p) {
      ResponsesAreSilent(n.services, replies, p, d);
    } else {
      ServeMeans(n.services, replies, p, d);
      SomeoneAnswered(n.services, replies, p);
    }
  }

  /** If any service was asked, there is a last one; unless it wants no response it left its mark. */
  lemma {:induction false} SomeoneAnswered(services: seq<Service>, replies: seq<Reply>, p: Packet)
    requires |services| == |replies|
    ensures (forall i :: 0 <= i < |services| ==> !Serves(services[i], p)) || exists i :: LastAsked(services, p, i)
    ensures forall i :: LastAsked(services, p, i) && replies[i].res != NO_RESPONSE ==>
              Accepted(services, replies, p) || Rejected(services, replies, p)
  {
    if i :| 0 <= i < |services| && Serves(services[i], p) {
      var k := |services| - 1;
      while !Serves(services[k], p)
        invariant i <= k < |services| && forall j :: k < j < |services| ==> !Serves(services[j], p)
        decreases k
      {
        k := k - 1;
      }
      assert LastAsked(services, p, k);
    }
  }

  /** With one service for the id, as the services of the repository register: the answer is an
      acknowledgement with that service's data, or a refusal without content, never both. */
  lemma OneService(n: Node, p: Packet, replies: seq<Reply>, i: nat)
    requires |replies| == |n.services| && !IsResponse(p)
    requires i < |n.services| && Serves(n.services[i], p)
    requires forall j :: 0 <= j < |n.services| && j != i ==> !Serves(n.services[j], p)
    ensures var sent := Process(n, p, replies).1;
            && (sent.None? <==> replies[i].res == NO_RESPONSE)
            && (sent.Some? ==>
                  && (Ack(sent.value.flags) <==> replies[i].res == OK)
                  && (Nack(sent.value.flags) <==> replies[i].res != OK)
                  && sent.value.content == if replies[i].res == OK then replies[i].data else [])
  {
    hide Ack, Nack, Serve;
    ServeMeans(n.services, replies, p, Blank(p, n.received));
    assert LastAsked(n.services, p, i);
  }

  /** A response reaches its addressee however it is cut exactly if its content leaves room for the header
      in the packet buffer; a longer one arrives only in a block of its own. */
  lemma ResponseArrives(n: Node, p: Packet, replies: seq<Reply>)
    requires |replies| == |n.services| && (forall r <- replies :: ValidReply(r))
    requires ValidPacket(p) && |n.mac| == MAC_SIZE && n.nextId < U16 && p.src != n.mac
    requires Process(n, p, replies).1.Some?
    ensures var r := Process(n, p, replies).1.value;
            && ValidPacket(r)
            && ((forall blocks :: Joined(blocks) == Encode(r) ==> Feed(p.src, [], blocks) == Delivered(r))
                <==> |r.content| <= 992)
            && forall blocks :: Joined(blocks) == Encode(r) && |r.content| > 992 ==>
                 Feed(p.src, [], blocks) == if Encode(r) in blocks then Delivered(r) else Snap.Fault
  {
    hide Ack, Nack, Serve, Encode, Decode, Feed, Joined;
    var r := Process(n, p, replies).1.value;
    DraftBounds(n, p, replies);
    PacketRoundTrip(r);
    EncodeFields(r);
    var f := Encode(r);
    if |r.content| <= BUFFER_SIZE - HEADER_SIZE {
      forall blocks | Joined(blocks) == f
        ensures Feed(p.src, [], blocks) == Delivered(r)
      {
        NothingJoined();
        assert [] + f + [] == f;
        FirstAdmitted(p.src, [], f, [], blocks);
      }
    } else {
      forall blocks | Joined(blocks) == f
        ensures Feed(p.src, [], blocks) == if f in blocks then Delivered(r) else Snap.Fault
      {
        LongFrame(p.src, f, blocks);
      }
      TwoBlocks(f);
    }
  }

  lemma NothingJoined()
    ensures Joined([]) == []
  {
  }

  lemma OneBlock(f: seq<Byte>)
    ensures Joined([f]) == f
  {
    assert [f][1..] == [];
  }

  /** A cut behind the first byte. */
  lemma TwoBlocks(f: seq<Byte>)
    requires |f| > 1
    ensures Joined([f[..1], f[1..]]) == f && f !in [f[..1], f[1..]]
  {
    OneBlock(f[1..]);
    assert [f[..1], f[1..]][1..] == [f[1..]];
    assert |f[..1]| != |f| && |f[1..]| != |f|;
  }

  /** For example: 993 bytes of an answer, cut behind the first byte of the frame. */
  lemma LongResponse(p: Packet, mac: seq<Byte>)
    requires ValidPacket(p) && !IsResponse(p) && |mac| == MAC_SIZE && p.src != mac
    ensures var n := Node(mac, [Service(p.service, true, true)], 0, 0);
            var sent := Process(n, p, [Reply(OK, Fill(0, 993))]).1;
            && sent.Some? && ValidPacket(sent.value) && |sent.value.content| == 993
            && var f := Encode(sent.value);
               Feed(p.src, [], [f[..1], f[1..]]) == Snap.Fault && Feed(p.src, [], [f]) == Delivered(sent.value)
  {
    hide Ack, Nack, Serve, Encode, Decode, Feed, Joined;
    var n, replies := Node(mac, [Service(p.service, true, true)], 0, 0), [Reply(OK, Fill(0, 993))];
    OneService(n, p, replies, 0);
    ResponseArrives(n, p, replies);
    var f := Encode(Process(n, p, replies).1.value);
    TwoBlocks(f);
    OneBlock(f);
  }

  lemma DraftBounds(n: Node, p: Packet, replies: seq<Reply>)
    requires |replies| == |n.services| && (forall r <- replies :: ValidReply(r))
    requires ValidPacket(p) && Process(n, p, replies).1.Some?
    ensures Process(n, p, replies).1.value.flags < U32 && |Process(n, p, replies).1.value.content| <= RESPONSE_MAX
  {
    hide Ack, Nack, Serve;
    var d := Blank(p, n.received);
    if IsResponse(p) {
      ResponsesAreSilent(n.services, replies, p, d);
    } else {
      ServeMeans(n.services, replies, p, d);
      SomeoneAnswered(n.services, replies, p);
      var i :| LastAsked(n.services, p, i);
      assert replies[i] in replies;
    }
  }

  /** The state snap.c keeps for the default interface. */
  class Station {
    const mac: seq<Byte>
    var services: seq<Service>
    var nextId: nat
    var received: nat

    ghost function State(): Node
      reads this
    {
      Node(mac, services, nextId, received)
    }

    constructor (mac: seq<Byte>)
      ensures State() == Node(mac, [], 0, 0)
    {
      this.mac := mac;
      services, nextId, received := [], 0, 0;
    }

    /** _process_packet, with the replies its request callbacks would give. */
    method ProcessPacket(p: Packet, replies: seq<Reply>) returns (sent: Option<Packet>)
      requires |replies| == |services|
      modifies this`nextId, this`received
      ensures (State(), sent) == Process(old(State()), p, replies)
    {
      var flags, content, need := p.flags, Fill(0, |p.content|), false;
      var dest, id := p.src, nextId;
      nextId := (nextId + 1) % U16;
      var i := 0;
      assert services[0..] == services && replies[0..] == replies;
      while i < |services|
        invariant 0 <= i <= |services|
        invariant nextId == (old(nextId) + 1) % U16
        invariant Serve(services, replies, p, Blank(p, old(received))) ==
                  Serve(services[i..], replies[i..], p, Draft(flags, content, need, received))
      {
        assert services[i..][1..] == services[i + 1..] && replies[i..][1..] == replies[i + 1..];
        if services[i].id == p.service {
          if IsResponse(p) {
            // the response callback sends nothing
          } else if services[i].hasRequest {
            need := true;
            received := received + 1;
            var reply := replies[i];
            if reply.res == OK {
              content := reply.data;
              flags := WithAck(flags);
            } else if reply.res == NO_RESPONSE {
              need := false;
            } else {
              flags := WithNack(flags);
              content := [];
            }
          }
        }
        i := i + 1;
      }
      sent := None;
      if need {
        sent := Some(Packet(dest, mac, ETHERTYPE, id, p.service, p.element, flags, p.padding, content));
      }
    }
  }

  // Networks

  /** A packet on its way to one node. */
  datatype Copy = Copy(p: Packet, to: nat)

  /** All nodes, the copies in flight and the packets nodes have sent, with the sender. */
  datatype Net = Net(nodes: seq<Node>, wire: seq<Copy>, log: seq<Sending>)
  datatype Sending = Sending(node: nat, p: Packet)

  /** One copy in flight gets lost or arrives; replies are what the callbacks of the node would answer. */
  datatype Step = Step(i: nat, lost: bool, replies: seq<Reply>)

  predicate ValidNet(net: Net) {
    forall c <- net.wire :: c.to < |net.nodes|
  }

  predicate Enabled(net: Net, step: Step)
    requires ValidNet(net)
  {
    step.i < |net.wire| && |step.replies| == |net.nodes[net.wire[step.i].to].services|
  }

  /** Every packet sent is put on the wire for every node. */
  function Copies(p: Packet, n: nat): (s: seq<Copy>)
    ensures |s| == n && forall j :: 0 <= j < n ==> s[j] == Copy(p, j)
  {
    seq(n, (j: nat) => Copy(p, j))
  }

  function Take(net: Net, step: Step): (next: Net)
    requires ValidNet(net) && Enabled(net, step)
    ensures ValidNet(next) && |next.nodes| == |net.nodes|
  {
    var c := net.wire[step.i];
    var rest := net.wire[..step.i] + net.wire[step.i + 1..];
    var n := net.nodes[c.to];
    if step.lost || !Accepts(n.mac, c.p.dest, c.p.src) then net.(wire := rest)
    else
      var (n', sent) := Process(n, c.p, step.replies);
      match sent
      case None => Net(net.nodes[c.to := n'], rest, net.log)
      case Some(r) => Net(net.nodes[c.to := n'], rest + Copies(r, |net.nodes|), net.log + [Sending(c.to, r)])
  }

  predicate CanRun(net: Net, steps: seq<Step>)
    requires ValidNet(net)
    decreases |steps|
  {
    steps == [] || (Enabled(net, steps[0]) && CanRun(Take(net, steps[0]), steps[1..]))
  }

  function Run(net: Net, steps: seq<Step>): (end: Net)
    requires ValidNet(net) && CanRun(net, steps)
    ensures ValidNet(end) && |end.nodes| == |net.nodes|
    decreases |steps|
  {
    if steps == [] then net else Run(Take(net, steps[0]), steps[1..])
  }

  predicate Request(c: Copy) {
    !IsResponse(c.p)
  }

  /** Requests on their way to node j. */
  function Pending(wire: seq<Copy>, j: nat): nat {
    if wire == [] then 0 else (if Request(wire[0]) && wire[0].to == j then 1 else 0) + Pending(wire[1..], j)
  }

  function AllPending(wire: seq<Copy>): nat {
    if wire == [] then 0 else (if Request(wire[0]) then 1 else 0) + AllPending(wire[1..])
  }

  function SentBy(log: seq<Sending>, j: nat): nat {
    if log == [] then 0 else (if log[0].node == j then 1 else 0) + SentBy(log[1..], j)
  }

  lemma {:induction false} PendingJoin(a: seq<Copy>, b: seq<Copy>, j: nat)
    ensures Pending(a + b, j) == Pending(a, j) + Pending(b, j)
    ensures AllPending(a + b) == AllPending(a) + AllPending(b)
  {
    if a == [] {
      assert a + b == b;
    } else {
      assert (a + b)[1..] == a[1..] + b;
      PendingJoin(a[1..], b, j);
    }
  }

  lemma {:induction false} SentByMore(log: seq<Sending>, s: Sending, j: nat)
    ensures SentBy(log + [s], j) == SentBy(log, j) + if s.node == j then 1 else 0
  {
    if log == [] {
      assert [s][1..] == [];
    } else {
      assert (log + [s])[1..] == log[1..] + [s];
      SentByMore(log[1..], s, j);
    }
  }

  lemma {:induction false} ResponsesPending(wire: seq<Copy>, j: nat)
    requires forall c <- wire :: !Request(c)
    ensures Pending(wire, j) == AllPending(wire) == 0
  {
    if wire != [] {
      assert wire[0] in wire;
      ResponsesPending(wire[1..], j);
    }
  }

  lemma Removed(wire: seq<Copy>, i: nat, j: nat)
    requires i < |wire|
    ensures var rest := wire[..i] + wire[i + 1..];
            && Pending(rest, j) == Pending(wire, j) - (if Request(wire[i]) && wire[i].to == j then 1 else 0)
            && AllPending(rest) == AllPending(wire) - (if Request(wire[i]) then 1 else 0)
  {
    var c := wire[i];
    assert wire == wire[..i] + ([c] + wire[i + 1..]);
    PendingJoin(wire[..i], [c] + wire[i + 1..], j);
    PendingJoin([c], wire[i + 1..], j);
    PendingJoin(wire[..i], wire[i + 1..], j);
    assert [c][1..] == [];
  }

  /** What is in flight, with room for the copies of the answer each request may still provoke. */
  function Measure(net: Net): nat {
    |net.wire| + AllPending(net.wire) * |net.nodes|
  }

  /** One step: no node sends without using up a request that was on its way to it, and the measure
      goes down. */
  lemma StepKeeps(net: Net, step: Step, j: nat)
    requires ValidNet(net) && Enabled(net, step)
    ensures var next := Take(net, step);
            && SentBy(next.log, j) + Pending(next.wire, j) <= SentBy(net.log, j) + Pending(net.wire, j)
            && |next.log| + AllPending(next.wire) <= |net.log| + AllPending(net.wire)
            && Measure(next) < Measure(net)
  {
    hide Process, Ack, Nack, Pending, AllPending, SentBy;
    var c, N := net.wire[step.i], |net.nodes|;
    var n := net.nodes[c.to];
    var rest := net.wire[..step.i] + net.wire[step.i + 1..];
    Removed(net.wire, step.i, j);
    OnlyRequestsAreAnswered(n, c.p, step.replies);
    var next := Take(net, step);
    Fewer(AllPending(rest), AllPending(net.wire), N);
    if !step.lost && Accepts(n.mac, c.p.dest, c.p.src) && Process(n, c.p, step.replies).1.Some? {
      var r := Process(n, c.p, step.replies).1.value;
      ResponsesPending(Copies(r, N), j);
      PendingJoin(rest, Copies(r, N), j);
      SentByMore(net.log, Sending(c.to, r), j);
    }
  }

  lemma Fewer(a: nat, b: nat, n: nat)
    requires a == b || a + 1 == b
    ensures b * n == a * n + if a == b then 0 else n
  {
  }

  /** Over any run: every node sends at most as many packets as requests were on their way to it, and the
      run is no longer than the initial measure. */
  lemma {:induction false} RunKeeps(net: Net, steps: seq<Step>, j: nat)
    requires ValidNet(net) && CanRun(net, steps)
    ensures var end := Run(net, steps);
            && SentBy(end.log, j) + Pending(end.wire, j) <= SentBy(net.log, j) + Pending(net.wire, j)
            && |end.log| + AllPending(end.wire) <= |net.log| + AllPending(net.wire)
            && |steps| + Measure(end) <= Measure(net)
    decreases |steps|
  {
    hide Take, Measure, Pending, AllPending, SentBy;
    if steps != [] {
      StepKeeps(net, steps[0], j);
      RunKeeps(Take(net, steps[0]), steps[1..], j);
    }
  }

  /** Packets ps put on the wire for N nodes. */
  function Broadcast(ps: seq<Packet>, N: nat): seq<Copy> {
    if ps == [] then [] else Copies(ps[0], N) + Broadcast(ps[1..], N)
  }

  function Requests(ps: seq<Packet>): nat {
    if ps == [] then 0 else (if !IsResponse(ps[0]) then 1 else 0) + Requests(ps[1..])
  }

  lemma {:induction false} CopiesPending(p: Packet, N: nat, j: nat)
    ensures Pending(Copies(p, N), j) == if !IsResponse(p) && j < N then 1 else 0
    ensures AllPending(Copies(p, N)) == if !IsResponse(p) then N else 0
    decreases N
  {
    if N > 0 {
      CopiesPending(p, N - 1, j);
      assert Copies(p, N) == Copies(p, N - 1) + [Copy(p, N - 1)];
      PendingJoin(Copies(p, N - 1), [Copy(p, N - 1)], j);
      assert [Copy(p, N - 1)][1..] == [];
    }
  }

  lemma {:induction false} BroadcastPending(ps: seq<Packet>, N: nat, j: nat)
    ensures |Broadcast(ps, N)| == |ps| * N
    ensures Pending(Broadcast(ps, N), j) == if j < N then Requests(ps) else 0
    ensures AllPending(Broadcast(ps, N)) == Requests(ps) * N
    ensures forall c <- Broadcast(ps, N) :: c.to < N && c.p in ps
  {
    if ps != [] {
      BroadcastPending(ps[1..], N, j);
      CopiesPending(ps[0], N, j);
      PendingJoin(Copies(ps[0], N), Broadcast(ps[1..], N), j);
      Distributes(|ps| - 1, N);
      Distributes(Requests(ps[1..]), N);
    }
  }

  lemma Distributes(a: nat, n: nat)
    ensures (a + 1) * n == a * n + n
  {
  }

  /** Every packet a node sends answers a request that was on the wire in the beginning. */
  ghost predicate AllAnswer(log: seq<Sending>, ps: seq<Packet>) {
    forall s <- log :: exists q :: q in ps && Answers(s.p, q)
  }

  /** Requests on the wire are initial ones. */
  predicate FromStart(wire: seq<Copy>, ps: seq<Packet>) {
    forall c <- wire :: Request(c) ==> c.p in ps
  }

  lemma StepAnswers(net: Net, step: Step, ps: seq<Packet>)
    requires ValidNet(net) && Enabled(net, step) && AllAnswer(net.log, ps) && FromStart(net.wire, ps)
    ensures AllAnswer(Take(net, step).log, ps) && FromStart(Take(net, step).wire, ps)
  {
    hide Process, Ack, Nack;
    var c := net.wire[step.i];
    var n := net.nodes[c.to];
    OnlyRequestsAreAnswered(n, c.p, step.replies);
    var sent := Process(n, c.p, step.replies).1;
    if sent.Some? {
      assert Answers(sent.value, c.p) && c.p in ps;
    }
  }

  lemma {:induction false} EverySendAnswers(net: Net, steps: seq<Step>, ps: seq<Packet>)
    requires ValidNet(net) && CanRun(net, steps) && AllAnswer(net.log, ps) && FromStart(net.wire, ps)
    ensures AllAnswer(Run(net, steps).log, ps)
    decreases |steps|
  {
    hide Take, AllAnswer, FromStart;
    if steps != [] {
      StepAnswers(net, steps[0], ps);
      EverySendAnswers(Take(net, steps[0]), steps[1..], ps);
    }
  }

  /** The network goes quiet: whatever is put on the wire, whichever copies get lost or overtake each
      other and whatever the callbacks answer, each node sends at most one packet per request, all nodes
      together at most requests x nodes, every packet sent answers one of the requests, and the run ends
      after finitely many steps. */
  lemma GoesQuiet(nodes: seq<Node>, ps: seq<Packet>, steps: seq<Step>, j: nat)
    requires ValidNet(Net(nodes, Broadcast(ps, |nodes|), [])) && CanRun(Net(nodes, Broadcast(ps, |nodes|), []), steps)
    ensures var end := Run(Net(nodes, Broadcast(ps, |nodes|), []), steps);
            && SentBy(end.log, j) <= Requests(ps)
            && |end.log| <= Requests(ps) * |nodes|
            && AllAnswer(end.log, ps)
            && |steps| <= |ps| * |nodes| + Requests(ps) * |nodes| * |nodes|
  {
    hide Run, CanRun, Pending, AllPending, Requests, Broadcast;
    BroadcastPending(ps, |nodes|, j);
    EverySendAnswers(Net(nodes, Broadcast(ps, |nodes|), []), steps, ps);
    RunKeeps(Net(nodes, Broadcast(ps, |nodes|), []), steps, j);
  }
}
