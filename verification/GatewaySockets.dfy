/**
 The program on octets: every client has a handler and, in front of it, the receiving half of a frame
 endpoint. `events` records what has happened on the sockets; the objects are always where the run of
 `WireRuns` over these events is, so every theorem about such runs is a theorem about them.
 */
module GatewaySockets {
  import opened Octets
  import opened FrameStream
  import opened GatewayModel
  import opened GatewayServer
  import opened GatewayMain
  import opened WireRuns
  import E = EscapedFraming
  import L = LengthFraming

  /** A connection: the handler, and the receiver that feeds it. */
  class ClientSocket {
    const handler: GatewayAccessServerHandler
    const receiver: FrameReceiver

    constructor (handler: GatewayAccessServerHandler, receiver: FrameReceiver)
      ensures this.handler == handler && this.receiver == receiver
    {
      this.handler, this.receiver := handler, receiver;
    }
  }

  /**
   The receivers of all connections. Each belongs to the protocol entity of its connection; they are gathered
   here so that one invariant can speak of all of them.
   */
  class Endpoints {
    ghost var sockets: seq<ClientSocket>

    ghost function Receivers(): set<FrameReceiver>
      reads this
    {
      set s | s in sockets :: s.receiver
    }

    ghost function EscapedFrames(): set<E.GatewayAccessFrameEscaped?>
      reads this, Receivers()
    {
      set r | r in Receivers() :: r.escaped
    }

    ghost function LengthFrames(): set<L.GatewayAccessFrameLength?>
      reads this, Receivers()
    {
      set r | r in Receivers() :: r.length
    }

    /** No two sockets share a receiver, nor a frame that is being read. */
    ghost predicate Apart()
      reads this, Receivers()
    {
      forall i, j :: 0 <= i < j < |sockets| ==>
        var r, q := sockets[i].receiver, sockets[j].receiver;
        && r != q
        && (r.escaped == null || r.escaped != q.escaped)
        && (r.length == null || r.length != q.length)
    }

    /** The reception of every client is where the run has it. */
    ghost predicate Receiving(links: seq<Link>)
      reads this, Receivers(), EscapedFrames(), LengthFrames()
    {
      && Apart() && |links| == |sockets|
      && forall i :: 0 <= i < |sockets| ==>
           sockets[i].receiver in Receivers() && sockets[i].receiver.Valid() && sockets[i].receiver.State() == links[i]
    }

    constructor ()
      ensures Receiving([]) && sockets == []
    {
      sockets := [];
    }

    method Attach(h: GatewayAccessServerHandler, ghost links: seq<Link>) returns (s: ClientSocket)
      requires Receiving(links)
      modifies this
      ensures sockets == old(sockets) + [s] && s.handler == h && Receiving(links + [Idle])
    {
      var r := new FrameReceiver();
      s := new ClientSocket(h, r);
      sockets := sockets + [s];
      Joined(s, links);
    }

    twostate lemma Joined(new s: ClientSocket, links: seq<Link>)
      requires old(Receiving(links))
      requires sockets == old(sockets) + [s] && fresh(s.receiver)
      requires s.receiver.Valid() && s.receiver.State() == Idle
      requires forall r :: r in old(Receivers()) ==> unchanged(r)
      requires forall e :: e in old(EscapedFrames()) && e != null ==> unchanged(e)
      requires forall l :: l in old(LengthFrames()) && l != null ==> unchanged(l)
      ensures Receiving(links + [Idle])
    {
      forall i | 0 <= i < |old(sockets)|
        ensures sockets[i].receiver in old(Receivers()) && sockets[i].receiver in Receivers()
        ensures sockets[i].receiver.Valid() && sockets[i].receiver.State() == links[i]
      {
        assert old(sockets)[i] in old(sockets) && sockets[i] in sockets;
        assert old(sockets[i].receiver in Receivers() && sockets[i].receiver.Valid());
        assert old(sockets[i].receiver.escaped in EscapedFrames() && sockets[i].receiver.length in LengthFrames());
      }
      assert s in sockets;
    }

    /** What happens elsewhere does not touch the reception. */
    twostate lemma Undisturbed(new links: seq<Link>)
      requires old(Receiving(links)) && unchanged(this)
      requires forall r :: r in Receivers() ==> unchanged(r)
      requires forall e :: e in EscapedFrames() && e != null ==> unchanged(e)
      requires forall l :: l in LengthFrames() && l != null ==> unchanged(l)
      ensures Receiving(links)
    {
      forall i | 0 <= i < |sockets|
        ensures sockets[i].receiver in Receivers() && sockets[i].receiver.Valid()
        ensures sockets[i].receiver.State() == links[i]
      {
        assert sockets[i] in sockets;
        assert old(sockets[i].receiver in Receivers() && sockets[i].receiver.Valid());
        assert sockets[i].receiver.escaped in EscapedFrames() && sockets[i].receiver.length in LengthFrames();
      }
    }

    /** One octet for client `i`. */
    method ReceiveOctet(ghost i: nat, s: ClientSocket, b: byte, ghost links: seq<Link>) returns (got: seq<WireFrame>)
      requires Receiving(links) && i < |sockets| && sockets[i] == s
      modifies s.receiver, s.receiver.escaped, s.receiver.length
      ensures Receiving(links[i := Receive(links[i], b).0]) && got == Listed(Receive(links[i], b).1)
    {
      ghost var k := Receive(links[i], b).0;
      got := Feed(s.receiver, b);
      OneReceived(i, s, links, k);
    }

    method Feed(r: FrameReceiver, b: byte) returns (got: seq<WireFrame>)
      requires r.Valid()
      modifies r, r.escaped, r.length
      ensures r.Valid()
      ensures r.escaped == old(r.escaped) || r.escaped == null || fresh(r.escaped)
      ensures r.length == old(r.length) || r.length == null || fresh(r.length)
      ensures r.State() == Receive(old(r.State()), b).0 && got == Listed(Receive(old(r.State()), b).1)
    {
      ListenOctet(r.State(), b);
      got := r.ReceiveChunk([b]);
    }

    lemma ListenOctet(k: Link, b: byte)
      ensures Listen(k, [b]) == (Receive(k, b).0, Listed(Receive(k, b).1))
    {
      assert [b][1..] == [];
      assert Listen(Receive(k, b).0, [b][1..]) == (Receive(k, b).0, []);
      assert Listed(Receive(k, b).1) + [] == Listed(Receive(k, b).1);
    }

    twostate lemma OneReceived(new i: nat, new s: ClientSocket, new links: seq<Link>, new k: Link)
      requires old(Receiving(links)) && sockets == old(sockets) && i < |sockets|
      requires s == sockets[i]
      requires s.receiver.Valid()
      requires s.receiver.State() == k
      requires s.receiver.escaped == old(s.receiver.escaped) || s.receiver.escaped == null || fresh(s.receiver.escaped)
      requires s.receiver.length == old(s.receiver.length) || s.receiver.length == null || fresh(s.receiver.length)
      requires forall r :: r in Receivers() && r != s.receiver ==> unchanged(r)
      requires forall e :: e in old(EscapedFrames()) && e != null && e != old(s.receiver.escaped) ==> unchanged(e)
      requires forall l :: l in old(LengthFrames()) && l != null && l != old(s.receiver.length) ==> unchanged(l)
      ensures Receiving(links[i := k])
    {
      forall j | 0 <= j < |sockets|
        ensures sockets[j].receiver in Receivers() && sockets[j].receiver.Valid()
        ensures sockets[j].receiver.State() == links[i := k][j]
      {
        assert sockets[j] in sockets;
        assert old(sockets[j].receiver in Receivers() && sockets[j].receiver.Valid());
        assert old(sockets[j].receiver.escaped in EscapedFrames() && sockets[j].receiver.length in LengthFrames());
        if j != i {
          assert sockets[j].receiver != sockets[i].receiver;
        }
      }
    }
  }

  /** The program with its sockets. */
  class SocketGateway {
    const gateway: SnetGateway
    const endpoints: Endpoints
    ghost var events: seq<NetEvent>
    ghost var net: Net

    /** There is one socket for every handler. */
    ghost predicate Attached()
      reads endpoints, gateway.collection
    {
      AttachedTo(gateway.collection.ever)
    }

    ghost predicate AttachedTo(handlers: seq<GatewayAccessServerHandler>)
      reads endpoints
    {
      && |endpoints.sockets| == |handlers|
      && forall i :: 0 <= i < |handlers| ==> endpoints.sockets[i].handler == handlers[i]
    }

    ghost predicate Receiving(links: seq<Link>)
      reads endpoints, endpoints.Receivers(), endpoints.EscapedFrames(), endpoints.LengthFrames()
    {
      endpoints.Receiving(links)
    }

    /** The objects of the program have handled the history of the run. */
    ghost predicate Handled(history: seq<Event>)
      reads gateway, gateway.collection, gateway.collection.pool, gateway.collection.uplink, gateway.collection.ever
      reads gateway.collection.Protocols(), gateway.collection.PubSubs()
    {
      gateway.Valid() && gateway.history == history
    }

    ghost predicate Follows()
      reads `net, `events
    {
      LeadTo(events, net)
    }

    ghost predicate Valid()
      reads this, endpoints, endpoints.Receivers(), endpoints.EscapedFrames(), endpoints.LengthFrames()
      reads gateway, gateway.collection, gateway.collection.pool, gateway.collection.uplink, gateway.collection.ever
      reads gateway.collection.Protocols(), gateway.collection.PubSubs()
    {
      Follows() && Handled(net.history) && Receiving(net.links) && Attached()
    }

    constructor (cfg: Config)
      ensures Valid() && events == [] && gateway.cfg == cfg
    {
      gateway := new SnetGateway(cfg);
      endpoints := new Endpoints();
      events, net := [], NEW_NET;
    }

    /** A socket of this program, listed under the number of its client. */
    ghost predicate Knows(s: ClientSocket)
      reads endpoints
    {
      s.handler.id < |endpoints.sockets| && endpoints.sockets[s.handler.id] == s
    }

    /** The state of the program, as a value. */
    ghost function State(): Gateway
      reads gateway
    {
      Run(gateway.cfg, INITIAL, gateway.history)
    }

    /** A TCP connection is accepted. */
    method OnConnect() returns (s: ClientSocket)
      requires Valid() && Takes(gateway.cfg, net, Connect)
      modifies this, gateway, gateway.collection, gateway.collection.pool, endpoints
      ensures Valid() && events == old(events) + [Connect]
      ensures endpoints.sockets == old(endpoints.sockets) + [s]
    {
      ghost var n := net;
      Advance(Connect, Net(n.history + [Connected], n.links + [Idle]));
      s := Enter(n.links);
    }

    method Enter(ghost links: seq<Link>) returns (s: ClientSocket)
      requires Handled(gateway.history) && Receiving(links) && Attached() && State().running
      modifies gateway, gateway.collection, gateway.collection.pool, endpoints
      ensures Handled(old(gateway.history) + [Connected]) && Receiving(links + [Idle]) && Attached()
      ensures net == old(net) && events == old(events)
      ensures endpoints.sockets == old(endpoints.sockets) + [s]
    {
      ghost var handlers := gateway.collection.ever;
      var h := Accept(links);
      s := Attach(h, handlers, links);
    }

    /** An octet has arrived from a client: the receiver takes it, and the handler what it completes. */
    method OnOctet(s: ClientSocket, b: byte)
      requires Valid() && Knows(s) && Takes(gateway.cfg, net, Octet(s.handler.id, b))
      modifies this, s.receiver, s.receiver.escaped, s.receiver.length, s.handler, s.handler.pubSub
      modifies gateway, gateway.collection, gateway.collection.pool, gateway.hdlcd, gateway.collection.Protocols()
      ensures Valid() && events == old(events) + [Octet(s.handler.id, b)]
      ensures endpoints.sockets == old(endpoints.sockets)
    {
      ghost var n, i := net, s.handler.id;
      Advance(Octet(i, b), Net(n.history + Meaning(n, Octet(i, b)), Links(n, Octet(i, b))));
      Process(s, b, n);
    }

    /** The peer has closed the connection. */
    method OnHangup(s: ClientSocket)
      requires Valid() && Knows(s) && State().running
      modifies this, s.handler, s.handler.protocol, gateway, gateway.collection, gateway.collection.pool
      ensures Valid() && events == old(events) + [Hangup(s.handler.id)]
      ensures endpoints.sockets == old(endpoints.sockets)
    {
      ghost var links := net.links;
      AdvanceOnly(Hangup(s.handler.id), Disconnected(s.handler.id));
      HandleClose(s, links);
    }

    /** One of the HDLC daemons has delivered a packet. */
    method OnPacketFromHdlcd(client: HdlcdClientHandler, data: seq<byte>)
      requires Valid() && client.routing == gateway.routing
      requires CanHappen(gateway.cfg, State(), PacketFromHdlcd(data))
      modifies this, gateway, gateway.hdlcd, gateway.collection.Protocols()
      ensures Valid() && events == old(events) + [FromHdlcd(data)]
      ensures endpoints.sockets == old(endpoints.sockets)
    {
      ghost var links := net.links;
      AdvanceOnly(FromHdlcd(data), PacketFromHdlcd(data));
      HandlePacket(client, data, links);
    }

    /** A signal has ended the io loop. */
    method OnStop()
      requires Valid() && State().running
      modifies this, gateway, gateway.collection, gateway.collection.pool, gateway.collection.ever
      ensures Valid() && events == old(events) + [Stop]
      ensures endpoints.sockets == old(endpoints.sockets)
    {
      ghost var links := net.links;
      AdvanceOnly(Stop, Stopped);
      HandleStop(links);
    }

    method Process(s: ClientSocket, b: byte, ghost n: Net)
      requires Handled(n.history) && Receiving(n.links) && Attached() && Knows(s)
      requires Reads(gateway.cfg, n, s.handler.id, b)
      modifies s.receiver, s.receiver.escaped, s.receiver.length, s.handler, s.handler.pubSub
      modifies gateway, gateway.collection, gateway.collection.pool, gateway.hdlcd, gateway.collection.Protocols()
      ensures Attached()
      ensures Handled(n.history + Meaning(n, Octet(s.handler.id, b))) && Receiving(Links(n, Octet(s.handler.id, b)))
      ensures net == old(net) && events == old(events) && endpoints.sockets == old(endpoints.sockets)
    {
      var got := Hear(s, b, n.links);
      Act(s, got, Links(n, Octet(s.handler.id, b)));
    }

    /** What the handler does with what its receiver has come to. */
    method Act(s: ClientSocket, got: seq<WireFrame>, ghost links: seq<Link>)
      requires Handled(gateway.history) && Receiving(links) && Attached() && Knows(s) && State().running
      requires got != [] ==> CanHappen(gateway.cfg, State(), FrameFrom(s.handler.id, got[0]))
      modifies s.handler, s.handler.pubSub
      modifies gateway, gateway.collection, gateway.collection.pool, gateway.hdlcd, gateway.collection.Protocols()
      ensures Receiving(links) && Attached()
      ensures Handled(old(gateway.history) + Acted(s.handler.id, got, links[s.handler.id] == Down))
      ensures net == old(net) && events == old(events) && endpoints.sockets == old(endpoints.sockets)
    {
      if got != [] {
        HandleFrame(s, got[0], links);
      } else if s.receiver.down {
        HandleClose(s, links);
      }
      assert old(gateway.history) + [] == old(gateway.history);
    }

    ghost function Acted(i: nat, got: seq<WireFrame>, down: bool): seq<Event> {
      if got != [] then [FrameFrom(i, got[0])] else if down then [Disconnected(i)] else []
    }

    method Accept(ghost links: seq<Link>) returns (h: GatewayAccessServerHandler)
      requires Handled(gateway.history) && Receiving(links) && State().running
      modifies gateway, gateway.collection, gateway.collection.pool
      ensures Handled(old(gateway.history) + [Connected]) && Receiving(links)
      ensures gateway.collection.ever == old(gateway.collection.ever) + [h]
    {
      h := gateway.OnConnected();
      endpoints.Undisturbed(links);
    }

    method Attach(
        h: GatewayAccessServerHandler, ghost handlers: seq<GatewayAccessServerHandler>, ghost links: seq<Link>)
        returns (s: ClientSocket)
      requires Handled(gateway.history) && Receiving(links)
      requires AttachedTo(handlers) && gateway.collection.ever == handlers + [h]
      modifies endpoints
      ensures Handled(gateway.history) && Receiving(links + [Idle])
      ensures endpoints.sockets == old(endpoints.sockets) + [s] && Attached()
    {
      s := endpoints.Attach(h, links);
    }

    method Hear(s: ClientSocket, b: byte, ghost links: seq<Link>) returns (got: seq<WireFrame>)
      requires Handled(gateway.history) && Receiving(links) && Attached() && Knows(s)
      modifies s.receiver, s.receiver.escaped, s.receiver.length
      ensures Handled(gateway.history) && Attached()
      ensures Receiving(links[s.handler.id := Receive(links[s.handler.id], b).0])
      ensures got == Listed(Receive(links[s.handler.id], b).1)
    {
      got := endpoints.ReceiveOctet(s.handler.id, s, b, links);
      gateway.Undisturbed();
    }

    method HandleFrame(s: ClientSocket, f: WireFrame, ghost links: seq<Link>)
      requires Handled(gateway.history) && Receiving(links) && Attached() && Knows(s)
      requires CanHappen(gateway.cfg, State(), FrameFrom(s.handler.id, f))
      modifies s.handler, s.handler.pubSub
      modifies gateway, gateway.collection, gateway.collection.pool, gateway.hdlcd, gateway.collection.Protocols()
      ensures Handled(old(gateway.history) + [FrameFrom(s.handler.id, f)]) && Receiving(links) && Attached()
      ensures net == old(net) && events == old(events) && endpoints.sockets == old(endpoints.sockets)
    {
      gateway.OnFrameFrom(s.handler, f);
      endpoints.Undisturbed(links);
    }

    method HandleClose(s: ClientSocket, ghost links: seq<Link>)
      requires Handled(gateway.history) && Receiving(links) && Attached() && Knows(s)
      requires State().running
      modifies s.handler, s.handler.protocol, gateway, gateway.collection, gateway.collection.pool
      ensures Handled(old(gateway.history) + [Disconnected(s.handler.id)]) && Receiving(links) && Attached()
      ensures net == old(net) && events == old(events) && endpoints.sockets == old(endpoints.sockets)
    {
      gateway.OnDisconnected(s.handler);
      endpoints.Undisturbed(links);
    }

    method HandlePacket(client: HdlcdClientHandler, data: seq<byte>, ghost links: seq<Link>)
      requires Handled(gateway.history) && Receiving(links) && Attached() && client.routing == gateway.routing
      requires CanHappen(gateway.cfg, State(), PacketFromHdlcd(data))
      modifies gateway, gateway.hdlcd, gateway.collection.Protocols()
      ensures Handled(old(gateway.history) + [PacketFromHdlcd(data)]) && Receiving(links) && Attached()
      ensures net == old(net) && events == old(events) && endpoints.sockets == old(endpoints.sockets)
    {
      gateway.OnPacketFromHdlcd(client, data);
      endpoints.Undisturbed(links);
    }

    method HandleStop(ghost links: seq<Link>)
      requires Handled(gateway.history) && Receiving(links) && Attached() && State().running
      modifies gateway, gateway.collection, gateway.collection.pool, gateway.collection.ever
      ensures Handled(old(gateway.history) + [Stopped]) && Receiving(links) && Attached()
      ensures net == old(net) && events == old(events) && endpoints.sockets == old(endpoints.sockets)
    {
      gateway.OnStopped();
      endpoints.Undisturbed(links);
    }

    /** The run goes first; the objects follow. */
    ghost method Advance(e: NetEvent, n: Net)
      requires Valid() && n == NetStep(gateway.cfg, net, e)
      modifies `net, `events
      ensures net == n && events == old(events) + [e] && Follows()
      ensures Handled(gateway.history) && Receiving(old(net.links)) && Attached()
    {
      Next(e);
      events, net := events + [e], n;
      gateway.Undisturbed();
      endpoints.Undisturbed(old(net.links));
    }

    /** An event that is not an octet and has nothing to do with the reception. */
    ghost method AdvanceOnly(e: NetEvent, h: Event)
      requires Valid() && (e.Hangup? || e.FromHdlcd? || e.Stop?) && Meaning(net, e) == [h]
      modifies `net, `events
      ensures net.history == old(net.history) + [h] && net.links == old(net.links)
      ensures events == old(events) + [e] && Follows()
      ensures Handled(gateway.history) && gateway.history == old(gateway.history)
      ensures Receiving(net.links) && Attached()
    {
      Advance(e, Net(net.history + [h], net.links));
    }

    lemma Next(e: NetEvent)
      requires Follows()
      ensures LeadTo(events + [e], NetStep(gateway.cfg, net, e))
    {
      NetNext(gateway.cfg, events, e);
    }

    ghost predicate LeadTo(evs: seq<NetEvent>, n: Net) {
      NetRun(gateway.cfg, evs) == n
    }
  }
}
