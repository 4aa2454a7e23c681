/**
 The objects of the access side as the source has them: handlers that own a lease, their
 subscriptions and a protocol entity, the collection that lists them, and the routing entity
 between the collection and the HDLCd clients. Every method is proved against the state machine
 of `GatewayModel`: the collection's abstract state after a call is what the model says.
 */
module GatewayServer {
  import opened Octets
  import opened SnetMessages
  import opened FrameStream
  import opened AccessProtocol
  import opened AddressPooling
  import opened GatewayModel
  import AS = AddressService
  import PS = PublishSubscribe

  /** The other side of the gateway, as a log of the packets handed to it. */
  class HdlcdClientHandlerCollection {
    var sent: seq<Message>

    constructor ()
      ensures sent == []
    {
      sent := [];
    }

    method Send(m: Message)
      modifies this
      ensures sent == old(sent) + [m]
    {
      sent := sent + [m];
    }
  }

  // ----------------------------------------------------------------- routing

  class Routing {
    const collection: GatewayAccessServerHandlerCollection
    const hdlcd: HdlcdClientHandlerCollection
    const cfg: Config

    constructor (collection: GatewayAccessServerHandlerCollection, hdlcd: HdlcdClientHandlerCollection, cfg: Config)
      ensures this.collection == collection && this.hdlcd == hdlcd && this.cfg == cfg
    {
      this.collection, this.hdlcd, this.cfg := collection, hdlcd, cfg;
    }

    ghost predicate Connects(c: GatewayAccessServerHandlerCollection) {
      collection == c && hdlcd == c.uplink && cfg == c.cfg
    }

    method RouteSnetPacket(message: Message, src: Component)
      requires Connects(collection) && collection.Wired() && collection.Live()
      requires RouteFits(cfg, collection.State(), message, src)
      modifies hdlcd, collection.Protocols()
      ensures collection.Wired()
      ensures collection.State() == RoutePacket(cfg, old(collection.State()), message, src)
    {
      var m := message;
      ghost var before := collection.State();
      var dst := PerformRouting(src, m.srcSSA, m.dstSSA);
      if dst == Hdlcd {
        if cfg.reliable {
          m := m.(onAirARQ := true);
        }
        hdlcd.Send(m);
        assert collection.State().clients == before.clients;
      } else if dst == GatewayClients {
        collection.Send(m);
      }
    }
  }

  /** Receives the packets of one HDLC daemon. */
  class HdlcdClientHandler {
    const routing: Routing

    constructor (routing: Routing)
      ensures this.routing == routing
    {
      this.routing := routing;
    }

    method OnData(data: seq<byte>)
      requires routing.Connects(routing.collection) && routing.collection.Wired() && routing.collection.Live()
      requires PacketFits(routing.cfg, routing.collection.State(), data)
      modifies routing.hdlcd, routing.collection.Protocols()
      ensures routing.collection.Wired()
      ensures routing.collection.State() == HdlcdPacketReceived(routing.cfg, old(routing.collection.State()), data)
    {
      var o := routing.cfg.codec.parse(data);
      if o.Some? {
        routing.RouteSnetPacket(o.value, Hdlcd);
      }
    }
  }

  // ---------------------------------------------------------------- handlers

  class GatewayAccessServerHandler {
    ghost const id: nat
    ghost const home: GatewayAccessServerHandlerCollection
    const cfg: Config
    const routing: Routing
    const pubSub: PS.PublishSubscribeService
    const protocol: GatewayAccessProtocol
    var collection: GatewayAccessServerHandlerCollection?
    var lease: AddressLease?
    var registered: bool

    ghost function View(): Client
      reads this, pubSub, protocol
    {
      Client(registered, if lease == null then None else Some(lease.address), pubSub.subscribed, protocol.View())
    }

    /** The connections of a handler to its surroundings. */
    ghost predicate Wired(c: GatewayAccessServerHandlerCollection, i: nat)
      reads this
    {
      && id == i && home == c && cfg == c.cfg && routing.Connects(c)
      && protocol.tag == i && pubSub.tag == i
      && (registered ==> collection == c)
      && (lease != null ==> lease.pool == c.pool)
    }

    constructor (c: GatewayAccessServerHandlerCollection, routing: Routing, lease: AddressLease)
      requires routing.Connects(c) && lease.pool == c.pool
      ensures fresh(protocol) && fresh(pubSub)
      ensures Wired(c, |c.ever|) && !registered && collection == c
      ensures View() == NewClient(lease.address).(registered := false)
    {
      this.collection, this.routing, this.lease, this.cfg := c, routing, lease, c.cfg;
      id, home := |c.ever|, c;
      pubSub := new PS.PublishSubscribeService(|c.ever|);
      protocol := new GatewayAccessProtocol(|c.ever|);
      registered := false;
    }

    method Start()
      requires !registered && collection != null
      modifies this, collection
      ensures registered && collection == old(collection) && lease == old(lease)
      ensures collection.list == old(collection.list) + [this] && collection.ever == old(collection.ever) + [this]
      ensures collection.accepting == old(collection.accepting) && collection.routing == old(collection.routing)
    {
      registered := true;
      collection.RegisterGatewayAccessServerHandler(this);
    }

    method Close()
      requires home.Wired() && home.Knows(this) && (registered ==> lease != null)
      modifies this, home, home.pool
      ensures home.Wired() && home.ever == old(home.ever)
      ensures home.State() == Unregister(old(home.State()), id)
    {
      if registered {
        registered := false;
        assert lease != null;
        lease.Destroy();
        lease := null;
        collection.DeregisterGatewayAccessServerHandler(this);
        collection := null;
        home.StaysWired(this);
        home.OneClosed(this);
      }
    }

    method Send(m: Message) returns (ok: bool)
      requires lease != null
      requires Wants(View(), m) ==> Fits(cfg, View(), m)
      modifies protocol
      ensures View() == Offer(cfg, old(View()), m)
      ensures ok <==> Wants(View(), m) && (protocol.mode == Unknown || protocol.open)
    {
      if (m.dstSSA > 0x4000 && m.dstSSA < 0xFFF0) && m.dstSSA != lease.address {
        return false;
      }
      if (m.dstSSA == 0x4000 || m.dstSSA >= 0xFFF0) && !pubSub.IsServiceIdForMe(m.srcService) {
        return false;
      }
      ok := protocol.Send(cfg.codec.serialize(m));
    }

    method OnPayload(payload: seq<byte>)
      requires home.Wired() && home.Live() && home.Knows(this) && lease != null && Answerable(cfg, payload)
      requires PayloadFits(cfg, home.State(), id, payload)
      modifies pubSub, home.uplink, home.Protocols()
      ensures home.Wired()
      ensures home.State() == GatewayModel.OnPayload(cfg, old(home.State()), id, payload)
    {
      var o := cfg.codec.parse(payload);
      if o.Some? {
        var m := o.value;
        if m.dstSSA == 0x3FFC {
          AnswerAddressRequest(m);
          return;
        }
        if m.dstSSA == 0x4000 {
          AnswerSubscription(m);
          return;
        }
        if m.srcSSA != 0xFFFE {
          m := m.(srcSSA := lease.address);
        }
        routing.RouteSnetPacket(m, GatewayClients);
      }
    }

    method AnswerAddressRequest(m: Message)
      requires home.Wired() && home.Knows(this) && lease != null && m.dstSSA == 0x3FFC
      requires AS.IsRequest(m) ==> |m.payload| >= 6 && Fits(cfg, View(), AS.ProcessRequest(m, lease.address))
      modifies protocol
      ensures home.Wired()
      ensures home.State() == OnMessage(cfg, old(home.State()), id, m)
    {
      var reply := AS.ProcessRequest(m, lease.address);
      if reply.srcService == 0xAE {
        SendReply(reply);
      }
    }

    method AnswerSubscription(m: Message)
      requires home.Wired() && home.Knows(this) && lease != null && m.dstSSA == 0x4000
      requires PS.Valid(m) ==> Fits(cfg, View(), PS.Process(pubSub.subscribed, m, lease.address).1)
      modifies pubSub, protocol
      ensures home.Wired()
      ensures home.State() == OnMessage(cfg, old(home.State()), id, m)
    {
      PubSubStep(cfg, home.State(), id, m);
      var reply := Subscribe(m);
      if reply.srcService == 0xB0 {
        SendReply(reply);
      }
    }

    method Subscribe(m: Message) returns (reply: Message)
      requires home.Wired() && home.Knows(this) && lease != null
      modifies pubSub
      ensures home.Wired()
      ensures var (ids, r) := PS.Process(old(pubSub.subscribed), m, lease.address);
              reply == r && View() == old(View()).(ids := ids) && home.State() == old(home.State()).With(id, View())
    {
      reply := pubSub.ProcessRequest(m, lease.address);
      home.OneChanged(this);
    }

    method SendReply(reply: Message)
      requires home.Wired() && home.Knows(this) && Fits(cfg, View(), reply)
      modifies protocol
      ensures home.Wired()
      ensures home.State() == old(home.State()).With(id, Put(cfg, old(View()), reply))
    {
      var ok := protocol.Send(cfg.codec.serialize(reply));
      home.OneChanged(this);
    }

    /** The frame callback of the protocol, with the upcall it leads to. */
    method OnFrame(f: WireFrame)
      requires home.Wired() && home.Live() && home.Knows(this) && lease != null
      requires CanHandle(cfg, protocol.View(), f) && FrameFits(cfg, home.State(), id, f)
      modifies this, pubSub, home, home.pool, home.uplink, home.Protocols()
      ensures home.Wired() && home.ever == old(home.ever)
      ensures home.State() == HandleFrame(cfg, old(home.State()), id, f)
    {
      var up := ProtocolOnFrame(f);
      OnUpcall(up);
    }

    method OnUpcall(up: Upcall)
      requires home.Wired() && home.Live() && home.Knows(this) && lease != null
      requires up.Deliver? ==> Answerable(cfg, up.payload) && PayloadFits(cfg, home.State(), id, up.payload)
      modifies this, pubSub, home, home.pool, home.uplink, home.Protocols()
      ensures home.Wired() && home.ever == old(home.ever)
      ensures home.State() ==
              match up
              case Nothing => old(home.State())
              case Deliver(payload) => GatewayModel.OnPayload(cfg, old(home.State()), id, payload)
              case Closed => Unregister(old(home.State()), id)
    {
      match up {
        case Nothing =>
        case Deliver(payload) =>
          OnPayload(payload);
        case Closed =>
          Close();
      }
    }

    method ProtocolOnFrame(f: WireFrame) returns (up: Upcall)
      requires home.Wired() && home.Knows(this)
      requires CanHandle(cfg, protocol.View(), f) && FrameFits(cfg, home.State(), id, f)
      modifies protocol
      ensures home.Wired()
      ensures up.Deliver? ==> Answerable(cfg, up.payload) && PayloadFits(cfg, home.State(), id, up.payload)
      ensures HandleFrame(cfg, old(home.State()), id, f) ==
              match up
              case Nothing => home.State()
              case Deliver(payload) => GatewayModel.OnPayload(cfg, home.State(), id, payload)
              case Closed => Unregister(home.State(), id)
    {
      up := TakeFrame(f);
      FrameStep(cfg, old(home.State()), id, f);
    }

    method TakeFrame(f: WireFrame) returns (up: Upcall)
      requires home.Wired() && home.Knows(this) && Readable(protocol.mode, f)
      modifies protocol
      ensures home.Wired()
      ensures var (proto, u) := AfterFrame(old(protocol.View()), f);
              up == u && home.State() == old(home.State()).With(id, old(View()).(proto := proto))
    {
      up := protocol.OnFrame(f);
      home.OneChanged(this);
    }

    /** The closed callback of the protocol: the peer left, or sent what no decoder accepts. */
    method OnClosed()
      requires home.Wired() && home.Knows(this) && (registered ==> lease != null)
      modifies this, protocol, home, home.pool
      ensures home.Wired() && home.ever == old(home.ever)
      ensures home.State() == CloseConnection(old(home.State()), id)
    {
      ProtocolClose();
      Close();
    }

    method ProtocolClose()
      requires home.Wired() && home.Knows(this)
      modifies protocol
      ensures home.Wired()
      ensures home.State() == old(home.State()).With(id, old(View()).(proto := old(protocol.View()).(open := false)))
    {
      var up := protocol.Close();
      home.OneChanged(this);
    }
  }

  // -------------------------------------------------------------- collection

  class GatewayAccessServerHandlerCollection {
    const cfg: Config
    const pool: AddressPool
    var list: seq<GatewayAccessServerHandler>
    var accepting: bool
    var routing: Routing?
    /** The HDLCd side that the routing entity connects this collection to. */
    const uplink: HdlcdClientHandlerCollection
    /** All handlers there have ever been, in the order of their connections. */
    ghost var ever: seq<GatewayAccessServerHandler>

    ghost function Protocols(): set<GatewayAccessProtocol>
      reads this
    {
      set h | h in ever :: h.protocol
    }

    ghost function PubSubs(): set<PS.PublishSubscribeService>
      reads this
    {
      set h | h in ever :: h.pubSub
    }

    ghost predicate Knows(h: GatewayAccessServerHandler)
      reads this
    {
      h.id < |ever| && ever[h.id] == h
    }

    ghost predicate Wired()
      reads this, ever
    {
      && (forall i :: 0 <= i < |ever| ==> ever[i].Wired(this, i))
      && (forall k :: 0 <= k < |list| ==> Knows(list[k]))
      && (accepting ==> routing != null && routing.Connects(this))
    }

    ghost function State(): GatewayModel.State
      reads this, pool, uplink, ever, Protocols(), PubSubs()
    {
      GatewayModel.State(accepting, pool.View(), Ids(list), Views(ever), uplink.sent)
    }

    /** Listed handlers have something to compare a destination with. */
    ghost predicate Live()
      reads this, list
    {
      forall k :: 0 <= k < |list| ==> list[k].registered && list[k].lease != null
    }

    constructor (cfg: Config, uplink: HdlcdClientHandlerCollection)
      requires uplink.sent == []
      ensures this.cfg == cfg && this.uplink == uplink && fresh(pool)
      ensures !accepting && ever == [] && list == [] && pool.View() == NEW_POOL
    {
      this.cfg, this.uplink := cfg, uplink;
      pool := new AddressPool();
      list, ever, accepting, routing := [], [], false, null;
    }

    /** Begins to accept connections. */
    method Initialize(r: Routing)
      requires r.Connects(this) && ever == [] && list == [] && pool.View() == NEW_POOL && uplink.sent == []
      modifies this
      ensures Wired() && State() == INITIAL
    {
      routing := r;
      accepting := true;
    }

    method RegisterGatewayAccessServerHandler(h: GatewayAccessServerHandler)
      modifies this
      ensures list == old(list) + [h] && ever == old(ever) + [h]
      ensures accepting == old(accepting) && routing == old(routing)
    {
      list := list + [h];
      ever := ever + [h];
    }

    method DeregisterGatewayAccessServerHandler(h: GatewayAccessServerHandler)
      modifies this
      ensures list == Without(old(list), h)
      ensures ever == old(ever) && accepting == old(accepting) && routing == old(routing)
    {
      list := Without(list, h);
    }

    /** Offers a packet to every registered handler. */
    method Send(m: Message)
      requires Wired() && Live() && OfferFits(cfg, State().clients, State().roster, m)
      modifies Protocols()
      ensures Wired()
      ensures State() == old(State()).(clients := Fanout(cfg, old(State()).clients, old(State()).roster, m))
    {
      OfferAll(m);
      assert Ids(list)[..|list|] == Ids(list);
    }

    /** The first `k` handlers of the list have been offered the packet. */
    ghost predicate Offered(clients: seq<Client>, k: nat, m: Message)
      reads this, ever, Protocols(), PubSubs()
    {
      && k <= |list| && Within(Ids(list), |clients|) && OfferFits(cfg, clients, Ids(list), m)
      && Within(Ids(list)[..k], |clients|) && Views(ever) == Fanout(cfg, clients, Ids(list)[..k], m)
    }

    method OfferAll(m: Message)
      requires Wired() && Live() && Offered(Views(ever), 0, m)
      modifies Protocols()
      ensures Offered(old(Views(ever)), |list|, m)
    {
      ghost var clients := Views(ever);
      for k := 0 to |list|
        invariant Offered(clients, k, m)
      {
        OfferNext(clients, k, m);
      }
    }

    method OfferNext(ghost clients: seq<Client>, k: nat, m: Message)
      requires Wired() && Live() && k < |list| && Offered(clients, k, m)
      modifies Protocols()
      ensures Offered(clients, k + 1, m)
    {
      var h := list[k];
      assert Knows(h) && h in ever;
      assert Views(ever)[h.id] == h.View();
      FanoutNext(cfg, clients, Ids(list), k, m);
      var ok := h.Send(m);
      OneChanged(h);
    }

    /** A connection was accepted: the completion handler of the acceptor. */
    method DoAccept() returns (h: GatewayAccessServerHandler)
      requires Wired() && accepting
      modifies this, pool
      ensures Wired() && ever == old(ever) + [h]
      ensures State() == AcceptConnection(old(State()))
    {
      var lease := pool.ObtainAddressLease();
      h := new GatewayAccessServerHandler(this, routing, lease);
      h.Start();
      StaysWiredWith(h);
      ViewsGrow(h);
      assert Ids(list) == old(Ids(list)) + [|old(ever)|];
    }

    twostate lemma ViewsGrow(new h: GatewayAccessServerHandler)
      requires ever == old(ever) + [h]
      requires forall g :: g in old(ever) ==> unchanged(g) && unchanged(g.protocol) && unchanged(g.pubSub)
      ensures Views(ever) == old(Views(ever)) + [h.View()]
    {
      forall i | 0 <= i < |old(ever)|
        ensures ever[i].View() == old(ever[i].View())
      {
        assert ever[i] in old(ever);
      }
    }

    /** Stops accepting, then closes the first handler of the list until none is left. */
    method SystemShutdown()
      requires Wired() && Live()
      modifies this, pool, ever
      ensures Wired() && ever == old(ever)
      ensures State() == Shutdown(old(State()))
    {
      StopAccepting();
      CloseHandlers();
    }

    method StopAccepting()
      requires Wired() && Live()
      modifies this
      ensures Wired() && Live() && !accepting && list == old(list) && ever == old(ever)
      ensures State() == old(State()).(running := false)
    {
      accepting := false;
      routing := null;
    }

    method CloseHandlers()
      requires Wired() && Live() && !accepting
      modifies this, pool, ever
      ensures Wired() && ever == old(ever)
      ensures State() == CloseAll(old(State()))
    {
      ghost var goal := CloseAll(State());
      while list != []
        invariant Wired() && Live() && ever == old(ever)
        invariant CloseAll(State()) == goal
        decreases |list|
      {
        CloseFirst();
      }
    }

    method CloseFirst()
      requires Wired() && Live() && list != []
      modifies this, pool, ever
      ensures Wired() && Live() && ever == old(ever) && accepting == old(accepting) && |list| < |old(list)|
      ensures State() == Unregister(old(State()), old(State()).roster[0])
      ensures CloseAll(State()) == CloseAll(old(State()))
    {
      assert old(State()).clients[old(State()).roster[0]].registered;
      list[0].Close();
    }

    twostate lemma StaysWiredWith(new h: GatewayAccessServerHandler)
      requires old(Wired()) && ever == old(ever) + [h] && list == old(list) + [h] && h.Wired(this, |old(ever)|)
      requires forall g :: g in old(ever) ==> unchanged(g)
      requires accepting == old(accepting) && routing == old(routing)
      ensures Wired()
    {
      forall i | 0 <= i < |old(ever)|
        ensures ever[i].Wired(this, i)
      {
        assert old(ever[i].Wired(this, i));
        assert ever[i] in old(ever);
      }
      forall k | 0 <= k < |old(list)|
        ensures Knows(list[k])
      {
        assert old(Knows(list[k]));
      }
    }

    twostate lemma StaysWired(h: GatewayAccessServerHandler)
      requires old(Wired()) && ever == old(ever) && Knows(h) && h.Wired(this, h.id)
      requires forall g :: g in ever && g != h ==> unchanged(g)
      requires forall k :: 0 <= k < |list| ==> list[k] in old(list)
      requires accepting == old(accepting) && routing == old(routing)
      ensures Wired()
    {
      forall i | 0 <= i < |ever|
        ensures ever[i].Wired(this, i)
      {
        assert old(ever[i].Wired(this, i));
        assert ever[i] in ever;
      }
    }

    /** A handler has given back its lease and left the list. */
    twostate lemma OneClosed(h: GatewayAccessServerHandler)
      requires ever == old(ever) && Knows(h) && list == Without(old(list), h)
      requires accepting == old(accepting) && uplink.sent == old(uplink.sent)
      requires old(Wired()) && Wired()
      requires forall g :: g in ever && g != h ==> unchanged(g) && unchanged(g.protocol) && unchanged(g.pubSub)
      requires old(h.registered && h.lease != null) && pool.View() == Release(old(pool.View()), old(h.lease.address))
      requires h.View() == old(h.View()).(registered := false, lease := None)
      ensures State() == Unregister(old(State()), h.id)
    {
      WithoutKeepsIds(old(list), h);
      OneChanged(h);
    }

    /** After one handler, or what it owns, has changed, only its entry of the state is different. */
    twostate lemma OneChanged(h: GatewayAccessServerHandler)
      requires ever == old(ever) && Knows(h)
      requires forall i :: 0 <= i < |ever| ==> ever[i].id == i
      requires forall g :: g in ever && g != h ==> unchanged(g) && unchanged(g.protocol) && unchanged(g.pubSub)
      ensures Views(ever) == old(Views(ever))[h.id := h.View()]
    {
      forall i | 0 <= i < |ever| && i != h.id
        ensures ever[i].View() == old(ever[i].View())
      {
        assert ever[i] in ever && ever[i] != h;
      }
    }
  }

  ghost function Ids(hs: seq<GatewayAccessServerHandler>): (r: seq<nat>)
    ensures |r| == |hs|
    ensures forall k :: 0 <= k < |hs| ==> r[k] == hs[k].id
  {
    if hs == [] then [] else [hs[0].id] + Ids(hs[1..])
  }

  ghost function Views(hs: seq<GatewayAccessServerHandler>): (r: seq<Client>)
    reads hs, (set h | h in hs :: h.protocol), (set h | h in hs :: h.pubSub)
    ensures |r| == |hs|
    ensures forall k :: 0 <= k < |hs| ==> r[k] == hs[k].View()
  {
    if hs == [] then [] else [hs[0].View()] + Views(hs[1..])
  }

  lemma PubSubStep(cfg: Config, g: Gateway, i: nat, m: Message)
    requires g.Has(i) && m.dstSSA == 0x4000
    ensures var c := g.clients[i];
            var (ids, reply) := PS.Process(c.ids, m, c.Address());
            var h := g.With(i, c.(ids := ids));
            OnMessage(cfg, g, i, m) == if reply.srcService == 0xB0 then h.With(i, Put(cfg, h.clients[i], reply)) else h
  {
  }

  lemma FrameStep(cfg: Config, g: Gateway, i: nat, f: WireFrame)
    requires g.Has(i) && CanHandle(cfg, g.clients[i].proto, f) && FrameFits(cfg, g, i, f)
    ensures var (proto, up) := AfterFrame(g.clients[i].proto, f);
            var h := g.With(i, g.clients[i].(proto := proto));
            && (up.Deliver? ==> Answerable(cfg, up.payload) && PayloadFits(cfg, h, i, up.payload))
            && HandleFrame(cfg, g, i, f) ==
               match up
               case Nothing => h
               case Deliver(payload) => GatewayModel.OnPayload(cfg, h, i, payload)
               case Closed => Unregister(h, i)
  {
  }

  lemma FanoutNext(cfg: Config, clients: seq<Client>, ids: seq<nat>, k: nat, m: Message)
    requires Within(ids, |clients|) && k < |ids| && OfferFits(cfg, clients, ids, m)
    ensures Within(ids[..k], |clients|) && Within(ids[..k + 1], |clients|)
    ensures var r := Fanout(cfg, clients, ids[..k], m);
            && Fanout(cfg, clients, ids[..k + 1], m) == r[ids[k] := Offer(cfg, r[ids[k]], m)]
            && (Wants(r[ids[k]], m) ==> Fits(cfg, r[ids[k]], m))
  {
    assert ids[..k + 1][..k] == ids[..k];
    FanoutKeepsNeeds(cfg, clients, ids[..k], m, ids[k]);
  }

  /** Being offered a packet does not change whether a client wants it, or what fits. */
  lemma {:induction false} FanoutKeepsNeeds(cfg: Config, clients: seq<Client>, ids: seq<nat>, m: Message, i: nat)
    requires Within(ids, |clients|) && i < |clients|
    ensures var r := Fanout(cfg, clients, ids, m);
            (Wants(r[i], m) <==> Wants(clients[i], m)) && (Fits(cfg, r[i], m) <==> Fits(cfg, clients[i], m))
  {
    if ids != [] {
      FanoutKeepsNeeds(cfg, clients, ids[..|ids| - 1], m, i);
    }
  }

  /** The removal of a list: every occurrence goes. */
  function Without(hs: seq<GatewayAccessServerHandler>, h: GatewayAccessServerHandler)
      : (r: seq<GatewayAccessServerHandler>)
    ensures |r| <= |hs| && forall k :: 0 <= k < |r| ==> r[k] in hs && r[k] != h
  {
    if hs == [] then [] else (if hs[0] == h then [] else [hs[0]]) + Without(hs[1..], h)
  }

  lemma {:induction false} WithoutKeepsIds(hs: seq<GatewayAccessServerHandler>, h: GatewayAccessServerHandler)
    requires forall k :: 0 <= k < |hs| && hs[k].id == h.id ==> hs[k] == h
    ensures Ids(Without(hs, h)) == Remove(Ids(hs), h.id)
  {
    if hs != [] {
      WithoutKeepsIds(hs[1..], h);
      assert Ids(hs)[1..] == Ids(hs[1..]);
      if hs[0] != h {
        assert ([hs[0]] + Without(hs[1..], h))[1..] == Without(hs[1..], h);
      }
    }
  }
}
