/** Who gets which packet: delivery, routing separation, and replies that return to the client that asked. */
module GatewayDelivery {
  import opened Octets
  import opened SnetMessages
  import opened FrameStream
  import opened AccessProtocol
  import opened AddressPooling
  import opened GatewayModel
  import opened GatewayInvariants
  import opened GatewayRuns
  import PS = PublishSubscribe

  // ------------------------------------------------------------- delivery set

  /** The packets that go to the HDLCd, ... */
  predicate ForHdlcd(src: Component, m: Message) {
    || (m.dstSSA < 0x4000 && m.dstSSA != 0x3FFC)
    || (m.dstSSA == 0xFFFE && src == GatewayClients)
  }

  /** ... and those that go to the clients. */
  predicate ForClients(src: Component, m: Message) {
    || (m.dstSSA == 0x4000 && m.srcSSA < 0x4000)
    || (m.dstSSA > 0x4000 && !(m.dstSSA == 0xFFFE && src == GatewayClients))
  }

  /** The leaseholder of a client address; for any other destination the subscribers of the source service. */
  predicate Addressee(c: Client, m: Message) {
    c.registered && if ClientAddress(m.dstSSA) then c.lease == Some(m.dstSSA) else m.srcService in c.ids
  }

  function WithArq(cfg: Config, m: Message): Message {
    m.(onAirARQ := m.onAirARQ || cfg.reliable)
  }

  /** The frames that carry a message to a client: one, once the client has chosen a mode, and if the message fits. */
  function Carrying(cfg: Config, mode: Mode, m: Message): (fs: seq<WireFrame>)
    ensures |fs| == if mode != Unknown && Sendable(mode, cfg.codec.serialize(m)) then 1 else 0
  {
    var p := cfg.codec.serialize(m);
    if mode == Escaping && |p| <= 4093 then [EscapedFrame([0x03, 0x02] + p)]
    else if mode == Length && |p| <= 4095 then [LengthFrame(p)]
    else []
  }

  /** A client after a message has been sent to it. */
  function WithFrame(cfg: Config, c: Client, m: Message): Client {
    c.(proto := c.proto.(sent := c.proto.sent + Carrying(cfg, c.proto.mode, m)))
  }

  /** The filter of the handlers lets a packet through to its addressees. */
  lemma FilteredTo(cfg: Config, g: Gateway, m: Message, src: Component, i: nat)
    requires Consistent(g) && g.running && g.Has(i) && ForClients(src, m)
    ensures (if i in g.roster then Offer(cfg, g.clients[i], m) else g.clients[i]) ==
            if Addressee(g.clients[i], m) then WithFrame(cfg, g.clients[i], m) else g.clients[i]
  {
    var c := g.clients[i];
    assert Standing(g, i);
    assert c.registered ==> (Wants(c, m) <==> Addressee(c, m));
    assert c.proto.sent + [] == c.proto.sent;
    assert c.registered ==> Put(cfg, c, m) == WithFrame(cfg, c, m);
  }

  lemma OfferedOnce(cfg: Config, clients: seq<Client>, ids: seq<nat>, m: Message, i: nat)
    requires Within(ids, |clients|) && Distinct(ids) && i < |clients|
    ensures Fanout(cfg, clients, ids, m)[i] == if i in ids then Offer(cfg, clients[i], m) else clients[i]
  {
    FanoutOffersOnce(cfg, clients, ids, m);
  }

  lemma DeliveredTo(cfg: Config, g: Gateway, m: Message, src: Component, i: nat)
    requires Consistent(g) && g.running && g.Has(i)
    ensures RoutePacket(cfg, g, m, src).Has(i)
    ensures RoutePacket(cfg, g, m, src).clients[i] ==
            if ForClients(src, m) && Addressee(g.clients[i], m) then WithFrame(cfg, g.clients[i], m) else g.clients[i]
  {
    if ForClients(src, m) {
      OfferedOnce(cfg, g.clients, g.roster, m, i);
      FilteredTo(cfg, g, m, src, i);
      assert RoutePacket(cfg, g, m, src).clients == Fanout(cfg, g.clients, g.roster, m);
    } else {
      assert RoutePacket(cfg, g, m, src).clients == g.clients;
    }
  }

  /**
   Routing delivers a packet to the HDLCd, or to the clients, or nowhere, never to both sides; on the
   client side exactly the addressees get it, each of them once, and nobody else notices. (In a frame that a
   packet does not fit it is not carried; the source asserts that this does not happen, nor does it in runs.)
   */
  lemma DeliverySet(cfg: Config, g: Gateway, m: Message, src: Component)
    requires Consistent(g) && g.running
    ensures var h := RoutePacket(cfg, g, m, src);
            && !(ForHdlcd(src, m) && ForClients(src, m))
            && h.uplink == g.uplink + (if ForHdlcd(src, m) then [WithArq(cfg, m)] else [])
            && h == g.(uplink := h.uplink, clients := h.clients)
            && |h.clients| == |g.clients|
            && forall i :: 0 <= i < |g.clients| ==>
                 h.clients[i] ==
                 if ForClients(src, m) && Addressee(g.clients[i], m) then WithFrame(cfg, g.clients[i], m)
                 else g.clients[i]
  {
    assert WithArq(cfg, m) == if cfg.reliable then m.(onAirARQ := true) else m;
    forall i | 0 <= i < |g.clients|
      ensures RoutePacket(cfg, g, m, src).clients[i] ==
              if ForClients(src, m) && Addressee(g.clients[i], m) then WithFrame(cfg, g.clients[i], m) else g.clients[i]
    {
      DeliveredTo(cfg, g, m, src, i);
    }
  }

  /** An addressee is offered the packet, so within the limits of a possible event the packet fits it. */
  lemma FitsAddressee(cfg: Config, g: Gateway, m: Message, src: Component, i: nat)
    requires Consistent(g) && g.Has(i)
    requires RouteFits(cfg, g, m, src) && ForClients(src, m) && Addressee(g.clients[i], m)
    ensures Fits(cfg, g.clients[i], m)
  {
    var k := ListedAt(g, i);
    assert Wants(g.clients[g.roster[k]], m);
  }

  /** Among the clients, those who notice a routed packet are its addressees with a framing mode. */
  lemma NoticedIff(cfg: Config, g: Gateway, m: Message, src: Component, i: nat)
    requires Consistent(g) && g.running && g.Has(i) && RouteFits(cfg, g, m, src) && ForClients(src, m)
    ensures RoutePacket(cfg, g, m, src).Has(i)
    ensures RoutePacket(cfg, g, m, src).clients[i] != g.clients[i] <==>
              Addressee(g.clients[i], m) && g.clients[i].proto.mode != Unknown
  {
    DeliveredTo(cfg, g, m, src, i);
    if Addressee(g.clients[i], m) {
      FitsAddressee(cfg, g, m, src, i);
      var s := g.clients[i].proto.sent;
      assert |s + Carrying(cfg, g.clients[i].proto.mode, m)| == |s| + |Carrying(cfg, g.clients[i].proto.mode, m)|;
      assert s + [] == s;
    }
  }

  /** A packet for a client address has one addressee at most. */
  lemma OneAddressee(g: Gateway, m: Message, i: nat, j: nat)
    requires Orderly(g) && LedgerOf(g).Drawn() <= 0x1_0000 && g.Has(i) && g.Has(j)
    requires ClientAddress(m.dstSSA) && Addressee(g.clients[i], m) && Addressee(g.clients[j], m)
    ensures i == j
  {
    if i != j {
      LeasesAreUnique(g, i, j);
    }
  }

  // ------------------------------------------------------- packets of clients

  /** The message a frame hands to the gateway, if it is accepted and carries one. */
  function Carried(cfg: Config, s: Proto, f: WireFrame): Option<Message>
    requires Readable(s.mode, f)
  {
    var up := AfterFrame(s, f).1;
    if up.Deliver? then cfg.codec.parse(up.payload) else None
  }

  /** The gateway after the protocol has dealt with a frame, before its payload is looked at. */
  function Acknowledged(g: Gateway, i: nat, f: WireFrame): Gateway
    requires g.Has(i) && Readable(g.clients[i].proto.mode, f)
  {
    g.With(i, g.clients[i].(proto := AfterFrame(g.clients[i].proto, f).0))
  }

  lemma AcknowledgedIsConsistent(cfg: Config, g: Gateway, i: nat, f: WireFrame)
    requires Consistent(g) && CanHappen(cfg, g, FrameFrom(i, f)) && Carried(cfg, g.clients[i].proto, f).Some?
    ensures Consistent(Acknowledged(g, i, f))
  {
    TalkKeepsConsistent(g, Acknowledged(g, i, f));
  }

  /** What the gateway does with a client's packet that is not for its services. */
  lemma PacketIsRouted(cfg: Config, g: Gateway, i: nat, f: WireFrame)
    requires CanHappen(cfg, g, FrameFrom(i, f)) && Carried(cfg, g.clients[i].proto, f).Some?
    requires Carried(cfg, g.clients[i].proto, f).value.dstSSA !in {0x3FFC, 0x4000}
    ensures var m := Masquerade(Carried(cfg, g.clients[i].proto, f).value, g.clients[i].Address());
            && Step(cfg, g, FrameFrom(i, f)) == RoutePacket(cfg, Acknowledged(g, i, f), m, GatewayClients)
            && RouteFits(cfg, Acknowledged(g, i, f), m, GatewayClients)
  {
    assert Acknowledged(g, i, f).clients[i].Address() == g.clients[i].Address();
  }

  /**
   What a client's packet can do, by destination. For the services and for the HDLCd no other client
   notices it; what goes to the HDLCd differs from what the client sent in its source, which is the
   client's lease or the wired address, and in the ARQ flag; everything else stays on the client side.
   */
  lemma ClientPacketFate(cfg: Config, g: Gateway, i: nat, f: WireFrame)
    requires Consistent(g) && CanHappen(cfg, g, FrameFrom(i, f)) && Carried(cfg, g.clients[i].proto, f).Some?
    ensures var o := Carried(cfg, g.clients[i].proto, f).value;
            var h := Step(cfg, g, FrameFrom(i, f));
            var a := Acknowledged(g, i, f);
            && g.clients[i].registered && g.clients[i].lease.Some?
            && (o.dstSSA == 0x3FFC || o.dstSSA == 0x4000 ==>
                  h == a.(clients := h.clients) && |h.clients| == |a.clients| &&
                  forall j :: 0 <= j < |a.clients| && j != i ==> h.clients[j] == a.clients[j])
            && (o.dstSSA != 0x3FFC && (o.dstSSA < 0x4000 || o.dstSSA == 0xFFFE) ==>
                  var src := if o.srcSSA == 0xFFFE then 0xFFFE else g.clients[i].lease.value;
                  h == a.(uplink := g.uplink + [WithArq(cfg, o.(srcSSA := src))]))
            && (o.dstSSA > 0x4000 && o.dstSSA != 0xFFFE ==> h.uplink == g.uplink)
  {
    assert Standing(g, i);
    var o := Carried(cfg, g.clients[i].proto, f).value;
    var a := Acknowledged(g, i, f);
    AcknowledgedIsConsistent(cfg, g, i, f);
    assert a.clients[i].Address() == g.clients[i].Address();
    if o.dstSSA != 0x3FFC && o.dstSSA != 0x4000 {
      PacketIsRouted(cfg, g, i, f);
      DeliverySet(cfg, a, Masquerade(o, g.clients[i].Address()), GatewayClients);
      assert g.uplink + [] == g.uplink;
    }
  }

  /**
   Client packets and other clients. The documentation promises that they are never mirrored; another
   client does get a copy if and only if the destination lies above 0x4000, is not the wired address,
   and makes that client an addressee with a known framing mode.
   */
  lemma MirroredIff(cfg: Config, g: Gateway, i: nat, f: WireFrame, j: nat)
    requires Consistent(g) && CanHappen(cfg, g, FrameFrom(i, f)) && Carried(cfg, g.clients[i].proto, f).Some?
    requires g.Has(j) && j != i
    ensures var o := Carried(cfg, g.clients[i].proto, f).value;
            var h := Step(cfg, g, FrameFrom(i, f));
            && h.Has(j)
            && (h.clients[j] != g.clients[j] <==>
                  && o.dstSSA > 0x4000 && o.dstSSA != 0xFFFE
                  && Addressee(g.clients[j], o) && g.clients[j].proto.mode != Unknown)
  {
    var o := Carried(cfg, g.clients[i].proto, f).value;
    var a := Acknowledged(g, i, f);
    ClientPacketFate(cfg, g, i, f);
    AcknowledgedIsConsistent(cfg, g, i, f);
    if o.dstSSA > 0x4000 && o.dstSSA != 0xFFFE {
      PacketIsRouted(cfg, g, i, f);
      NoticedIff(cfg, a, Masquerade(o, g.clients[i].Address()), GatewayClients, j);
    }
  }

  const ONE_CLIENT: State := State(true, Pool(0x4002, []), [0], [NewClient(0x4001)], [])
  const TWO_CLIENTS: State := State(true, Pool(0x4003, []), [0, 1], [NewClient(0x4001), NewClient(0x4002)], [])

  /** Two clients, of which the second has sent the command 0100. */
  const ONE_OF_TWO_TALKS: State :=
    TWO_CLIENTS.(clients := [NewClient(0x4001), NewClient(0x4002).(proto := Proto(Escaping, true, [ACK_0101]))])

  lemma TwoConnect()
    ensures AcceptConnection(INITIAL) == ONE_CLIENT && AcceptConnection(ONE_CLIENT) == TWO_CLIENTS
  {
  }

  lemma SecondTalks(cfg: Config)
    ensures CanHappen(cfg, TWO_CLIENTS, FrameFrom(1, EscapedFrame([0x01, 0x00])))
    ensures HandleFrame(cfg, TWO_CLIENTS, 1, EscapedFrame([0x01, 0x00])) == ONE_OF_TWO_TALKS
  {
    assert [] + [ACK_0101] == [ACK_0101];
  }

  lemma TwoClients(cfg: Config) returns (evs: seq<Event>)
    ensures Run(cfg, INITIAL, evs) == ONE_OF_TWO_TALKS
  {
    var hello := FrameFrom(1, EscapedFrame([0x01, 0x00]));
    TwoConnect();
    SecondTalks(cfg);
    var none: seq<Event> := [];
    RunNext(cfg, INITIAL, none, Connected);
    RunNext(cfg, INITIAL, none + [Connected], Connected);
    RunNext(cfg, INITIAL, none + [Connected] + [Connected], hello);
    evs := none + [Connected] + [Connected] + [hello];
  }

  /** A frame of client 0 changes what client 1 is sent. */
  ghost predicate Mirrors(cfg: Config, g: Gateway, f: WireFrame) {
    && g.Has(1)
    && CanHappen(cfg, g, FrameFrom(0, f))
    && Step(cfg, g, FrameFrom(0, f)).clients[1] != g.clients[1]
  }

  lemma FirstMayTalk(cfg: Config, p: seq<byte>)
    requires |p| <= 4095 && cfg.codec.parse(p).Some? && cfg.codec.parse(p).value.dstSSA == 0x4002
    requires |cfg.codec.serialize(Masquerade(cfg.codec.parse(p).value, 0x4001))| <= 4093
    ensures CanHappen(cfg, ONE_OF_TWO_TALKS, FrameFrom(0, LengthFrame(p)))
    ensures Carried(cfg, NEW, LengthFrame(p)) == cfg.codec.parse(p)
  {
  }

  /**
   Whatever the codec, if it has a packet for the second address of all that fits a frame, then there is a
   run of two clients after which the first has this packet mirrored to the second, against the documentation.
   */
  lemma MirroringHappens(cfg: Config, p: seq<byte>) returns (evs: seq<Event>)
    requires |p| <= 4095 && cfg.codec.parse(p).Some? && cfg.codec.parse(p).value.dstSSA == 0x4002
    requires |cfg.codec.serialize(Masquerade(cfg.codec.parse(p).value, 0x4001))| <= 4093
    ensures Mirrors(cfg, Run(cfg, INITIAL, evs), LengthFrame(p))
  {
    evs := TwoClients(cfg);
    RunIsConsistent(cfg, evs);
    FirstMayTalk(cfg, p);
    MirroredIff(cfg, ONE_OF_TWO_TALKS, 0, LengthFrame(p), 1);
  }

  /** Every packet from the HDLCd that is addressed to a client's lease goes to this client and to no other. */
  ghost predicate UnicastWorks(g: Gateway, i: nat)
    requires g.Has(i)
  {
    forall m: Message :: m.dstSSA == g.clients[i].Address() ==>
      ForClients(Hdlcd, m) && forall j :: 0 <= j < |g.clients| ==> (Addressee(g.clients[j], m) <==> j == i)
  }

  /**
   When unicast replies work for a registered client, whatever has happened to the address counter: if
   its address is a client address that it does not share, or else lies above that range and the client
   has subscribed to everything while all others have to nothing.
   */
  lemma UnicastWorksIff(g: Gateway, i: nat)
    requires Orderly(g) && g.Has(i) && g.clients[i].registered
    ensures var a := g.clients[i].Address();
            UnicastWorks(g, i) <==>
              || (ClientAddress(a) &&
                  forall j :: 0 <= j < |g.clients| && j != i && g.clients[j].registered ==>
                    g.clients[j].lease != Some(a))
              || (a >= 0xFFF0 && g.clients[i].ids == PS.ALL_IDS &&
                  forall j :: 0 <= j < |g.clients| && j != i && g.clients[j].registered ==> g.clients[j].ids == {})
  {
    var a := g.clients[i].Address();
    assert Standing(g, i);
    if UnicastWorks(g, i) {
      UnicastSeparates(g, i);
    }
  }

  lemma UnicastSeparates(g: Gateway, i: nat)
    requires Orderly(g) && g.Has(i) && g.clients[i].registered && UnicastWorks(g, i)
    ensures var a := g.clients[i].Address();
            if ClientAddress(a) then
              forall j :: 0 <= j < |g.clients| && j != i && g.clients[j].registered ==> g.clients[j].lease != Some(a)
            else
              && a >= 0xFFF0 && g.clients[i].ids == PS.ALL_IDS
              && forall j :: 0 <= j < |g.clients| && j != i && g.clients[j].registered ==> g.clients[j].ids == {}
  {
    var a := g.clients[i].Address();
    if ClientAddress(a) {
      forall j | 0 <= j < |g.clients| && j != i && g.clients[j].registered
        ensures g.clients[j].lease != Some(a)
      {
        UnicastAt(g, i, j, 0);
      }
    } else {
      forall j, b: byte | 0 <= j < |g.clients| && g.clients[j].registered
        ensures b in g.clients[j].ids <==> j == i
      {
        UnicastAt(g, i, j, b);
      }
      UnicastAt(g, i, i, 0);
      assert g.clients[i].ids == PS.ALL_IDS;
    }
  }

  lemma UnicastAt(g: Gateway, i: nat, j: nat, b: byte)
    requires g.Has(i) && UnicastWorks(g, i) && g.Has(j) && g.clients[j].registered
    ensures var a := g.clients[i].Address();
            && a > 0x4000
            && ((if ClientAddress(a) then g.clients[j].lease == Some(a) else b in g.clients[j].ids) <==> j == i)
  {
    var m := Message(b, 0, 0, 0x4000, g.clients[i].Address(), false, []);
    assert ForClients(Hdlcd, m) && (Addressee(g.clients[j], m) <==> j == i);
  }

  /** As long as 65536 addresses have sufficed, no client address is shared, and being one is enough. */
  lemma UnicastWorksBeforeOverflow(g: Gateway, i: nat)
    requires Orderly(g) && LedgerOf(g).Drawn() <= 0x1_0000 && g.Has(i) && g.clients[i].registered
    ensures UnicastWorks(g, i) <==>
              || ClientAddress(g.clients[i].Address())
              || (g.clients[i].Address() >= 0xFFF0 && g.clients[i].ids == PS.ALL_IDS &&
                  forall j :: 0 <= j < |g.clients| && j != i && g.clients[j].registered ==> g.clients[j].ids == {})
  {
    UnicastWorksIff(g, i);
    assert Standing(g, i);
    forall j | 0 <= j < |g.clients| && j != i && g.clients[j].registered
      ensures g.clients[j].lease != Some(g.clients[i].Address())
    {
      LeasesAreUnique(g, i, j);
    }
  }

  /**
   One client too many: there is a run, of connections only, in which the client that connects when 49135
   are there is given the address 0xFFF0, at which unicast replies do not work.
   */
  lemma UnicastFailsBeyondCapacity(cfg: Config) returns (evs: seq<Event>)
    ensures PeakClients(cfg, evs) == CAPACITY + 1
    ensures var g := Run(cfg, INITIAL, evs);
            && g.running && g.Has(CAPACITY) && g.clients[CAPACITY] == NewClient(0xFFF0) && !UnicastWorks(g, CAPACITY)
  {
    evs := Connections(cfg, CAPACITY + 1);
    RunIsConsistent(cfg, evs);
    var g := Run(cfg, INITIAL, evs);
    assert g.clients[CAPACITY] == NewClient(0xFFF0);
    UnicastFailsAt(g, CAPACITY);
  }

  /** 0xFFF0 is the first address that is not a client's, and its holder begins without subscriptions. */
  lemma UnicastFailsAt(g: Gateway, i: nat)
    requires Orderly(g) && g.Has(i) && g.clients[i] == NewClient(0xFFF0)
    ensures !UnicastWorks(g, i)
  {
    UnicastWorksIff(g, i);
    var b: byte := 0;
    assert b in PS.ALL_IDS;
  }

  ghost predicate UnicastWorksForAll(g: Gateway) {
    forall i :: 0 <= i < |g.clients| && g.clients[i].registered ==> UnicastWorks(g, i)
  }

  ghost predicate AlwaysUnicast(cfg: Config, evs: seq<Event>)
    decreases |evs|
  {
    UnicastWorksForAll(Run(cfg, INITIAL, evs)) && (evs == [] || AlwaysUnicast(cfg, Init(evs)))
  }

  lemma UnicastWithinCapacity(g: Gateway)
    requires Orderly(g) && LedgerOf(g).Drawn() <= CAPACITY
    ensures UnicastWorksForAll(g)
  {
    AddressableWithinCapacity(g);
    forall i | 0 <= i < |g.clients| && g.clients[i].registered
      ensures UnicastWorks(g, i)
    {
      UnicastWorksBeforeOverflow(g, i);
    }
  }

  lemma UnicastFailsAtAccept(g: Gateway)
    requires Consistent(g) && g.pool == Pool(Fresh(CAPACITY), [])
    ensures !UnicastWorksForAll(AcceptConnection(g))
  {
    AcceptKeepsConsistent(g);
    LastAddress(g);
    UnicastFailsAt(AcceptConnection(g), |g.clients|);
  }

  lemma LastAddress(g: Gateway)
    requires g.pool == Pool(Fresh(CAPACITY), [])
    ensures AcceptConnection(g).Has(|g.clients|) && AcceptConnection(g).clients[|g.clients|] == NewClient(0xFFF0)
  {
  }

  /**
   The promise of unicast replies over runs: they work for every registered client at all times if and
   only if at most 49135 clients are ever registered at once.
   */
  lemma {:induction false} UnicastIffPeakWithinCapacity(cfg: Config, evs: seq<Event>)
    ensures AlwaysUnicast(cfg, evs) <==> PeakClients(cfg, evs) <= CAPACITY
    decreases |evs|
  {
    RunIsConsistent(cfg, evs);
    DrawnIsPeak(cfg, evs);
    if PeakClients(cfg, evs) <= CAPACITY {
      UnicastWithinCapacity(Run(cfg, INITIAL, evs));
    }
    if evs != [] {
      UnicastIffPeakWithinCapacity(cfg, Init(evs));
      if PeakClients(cfg, Init(evs)) <= CAPACITY < PeakClients(cfg, evs) {
        BeyondCapacity(cfg, evs);
        UnicastFailsAtAccept(Run(cfg, INITIAL, Init(evs)));
      }
    }
  }

  // --------------------------------------------------------- routing over runs

  /** What an event adds to the packets for the HDLCd, said without the routing code. */
  function Admitted(cfg: Config, g: Gateway, e: Event): seq<Message> {
    if !CanHappen(cfg, g, e) then []
    else match e
      case PacketFromHdlcd(data) =>
        var o := cfg.codec.parse(data);
        if o.Some? && o.value.dstSSA < 0x4000 && o.value.dstSSA != 0x3FFC then [WithArq(cfg, o.value)] else []
      case FrameFrom(i, f) =>
        var o := Carried(cfg, g.clients[i].proto, f);
        if o.Some? && o.value.dstSSA != 0x3FFC && (o.value.dstSSA < 0x4000 || o.value.dstSSA == 0xFFFE) then
          var src := if o.value.srcSSA == 0xFFFE then 0xFFFE else g.clients[i].Address();
          [WithArq(cfg, o.value.(srcSSA := src))]
        else []
      case _ => []
  }

  function AllAdmitted(cfg: Config, evs: seq<Event>): seq<Message>
    decreases |evs|
  {
    if evs == [] then [] else AllAdmitted(cfg, Init(evs)) + Admitted(cfg, Run(cfg, INITIAL, Init(evs)), Last(evs))
  }

  /**
   Which packets leave for the HDLCd: a client's if its destination is below 4000 and not 3FFC, or is FFFE,
   under the client's lease as its source, or FFFE if that was its source; one from the HDLCd if its
   destination is below 4000 and not 3FFC. No other event makes one leave.
   */
  lemma UplinkStep(cfg: Config, g: Gateway, e: Event)
    requires Consistent(g)
    ensures Step(cfg, g, e).uplink == g.uplink + Admitted(cfg, g, e)
  {
    assert g.uplink + [] == g.uplink;
    if CanHappen(cfg, g, e) {
      match e {
        case Connected =>
        case FrameFrom(i, f) =>
          if Carried(cfg, g.clients[i].proto, f).Some? {
            ClientPacketFate(cfg, g, i, f);
          }
        case PacketFromHdlcd(data) =>
          if cfg.codec.parse(data).Some? {
            DeliverySet(cfg, g, cfg.codec.parse(data).value, Hdlcd);
          }
        case Disconnected(i) =>
        case Stopped =>
          CloseAllUplink(g.(running := false));
      }
    }
  }

  lemma {:induction false} CloseAllUplink(g: Gateway)
    ensures CloseAll(g).uplink == g.uplink
    decreases |g.roster|
  {
    if g.roster != [] && g.clients[g.roster[0]].registered {
      CloseAllUplink(Unregister(g, g.roster[0]));
    }
  }

  /**
   Routing separation over whole runs: the packets that left for the HDLCd are, in order, exactly the
   admitted ones: those below 0x4000 from either side and those of clients to the wired address, every
   client's packet under that client's lease or the wired address, changed in nothing but the ARQ flag.
   */
  lemma {:induction false} UplinkIsWhatWasAdmitted(cfg: Config, evs: seq<Event>)
    ensures Run(cfg, INITIAL, evs).uplink == AllAdmitted(cfg, evs)
    decreases |evs|
  {
    if evs != [] {
      UplinkIsWhatWasAdmitted(cfg, Init(evs));
      RunIsConsistent(cfg, Init(evs));
      UplinkStep(cfg, Run(cfg, INITIAL, Init(evs)), Last(evs));
    }
  }

  // -------------------------------------------------------- request / response

  /** A packet from the HDLCd, addressed to a registered client that has chosen a framing mode. */
  lemma PacketReachesItsClient(cfg: Config, g: Gateway, i: nat, data: seq<byte>)
    requires Consistent(g) && g.running && LedgerOf(g).Drawn() <= 0x1_0000
    requires g.Has(i) && g.clients[i].registered && g.clients[i].proto.mode != Unknown
    requires ClientAddress(g.clients[i].Address())
    requires cfg.codec.parse(data).Some? && g.clients[i].lease == Some(cfg.codec.parse(data).value.dstSSA)
    requires Fits(cfg, g.clients[i], cfg.codec.parse(data).value)
    ensures CanHappen(cfg, g, PacketFromHdlcd(data))
    ensures var h := Step(cfg, g, PacketFromHdlcd(data));
            var p := cfg.codec.serialize(cfg.codec.parse(data).value);
            && h.clients[i].proto.sent ==
               g.clients[i].proto.sent
               + [if g.clients[i].proto.mode == Escaping then EscapedFrame([0x03, 0x02] + p) else LengthFrame(p)]
            && h.uplink == g.uplink && |h.clients| == |g.clients|
            && forall j :: 0 <= j < |g.clients| && j != i ==> h.clients[j] == g.clients[j]
  {
    var m := cfg.codec.parse(data).value;
    OnlyItsClientWants(cfg, g, i, m);
    DeliverySet(cfg, g, m, Hdlcd);
    assert g.uplink + [] == g.uplink;
  }

  /** Nobody else is offered a packet for the address of a client, so it need not fit anybody else. */
  lemma OnlyItsClientWants(cfg: Config, g: Gateway, i: nat, m: Message)
    requires Consistent(g) && LedgerOf(g).Drawn() <= 0x1_0000
    requires g.Has(i) && g.clients[i].lease == Some(m.dstSSA) && ClientAddress(m.dstSSA) && Fits(cfg, g.clients[i], m)
    ensures forall j :: 0 <= j < |g.clients| ==> (Addressee(g.clients[j], m) <==> j == i)
    ensures OfferFits(cfg, g.clients, g.roster, m)
  {
    assert Standing(g, i);
    forall j | 0 <= j < |g.clients|
      ensures Addressee(g.clients[j], m) <==> j == i
    {
      if Addressee(g.clients[j], m) {
        OneAddressee(g, m, i, j);
      }
    }
    forall k | 0 <= k < |g.roster| && Wants(g.clients[g.roster[k]], m)
      ensures Fits(cfg, g.clients[g.roster[k]], m)
    {
      assert Standing(g, g.roster[k]);
      assert Addressee(g.clients[g.roster[k]], m);
    }
  }

  /** A client whose packet leaves for the HDLCd has a framing mode and holds the address it leaves under, or wired. */
  lemma RequestCarriesLease(cfg: Config, g: Gateway, i: nat, f: WireFrame)
    requires Consistent(g)
    requires |Step(cfg, g, FrameFrom(i, f)).uplink| > |g.uplink|
    ensures var h := Step(cfg, g, FrameFrom(i, f));
            var m := h.uplink[|h.uplink| - 1];
            && g.Has(i) && h.Has(i) && h.clients[i].registered && h.clients[i].proto.mode != Unknown
            && (m.srcSSA == 0xFFFE || h.clients[i].lease == Some(m.srcSSA))
  {
    UplinkStep(cfg, g, FrameFrom(i, f));
    ClientPacketFate(cfg, g, i, f);
  }

  /** What a packet does, to the address of a client, when it arrives at the end of the events `evs`. */
  ghost predicate OnlyGets(cfg: Config, evs: seq<Event>, i: nat, data: seq<byte>) {
    var k, r := Run(cfg, INITIAL, evs), Run(cfg, INITIAL, evs + [PacketFromHdlcd(data)]);
    && k.Has(i) && cfg.codec.parse(data).Some?
    && |r.clients| == |k.clients| && r.uplink == k.uplink
    && (forall j :: 0 <= j < |k.clients| && j != i ==> r.clients[j] == k.clients[j])
    && k.clients[i].proto.mode != Unknown
    && var p := cfg.codec.serialize(cfg.codec.parse(data).value);
       r.clients[i].proto.sent ==
       k.clients[i].proto.sent
       + [if k.clients[i].proto.mode == Escaping then EscapedFrame([0x03, 0x02] + p) else LengthFrame(p)]
  }

  /**
   Request and response over whole runs. Let a packet of client `i` leave for the HDLCd under a client
   address as its source. Whatever happens afterwards, other than that the client goes, a packet to that
   source, if it fits a frame of the client, gets to this client, in one frame of the format it has chosen,
   and nobody else gets anything; all that as long as 65536 addresses have sufficed.
   */
  lemma ReplyReturnsToRequester(
      cfg: Config, before: seq<Event>, i: nat, f: WireFrame, between: seq<Event>, data: seq<byte>)
    requires var g, h := Run(cfg, INITIAL, before), Run(cfg, INITIAL, before + [FrameFrom(i, f)]);
             |h.uplink| > |g.uplink| && IsReply(cfg, h, i, data) && Stays(cfg, h, between, i)
    requires PeakClients(cfg, before + [FrameFrom(i, f)] + between) <= 0x1_0000
    ensures OnlyGets(cfg, before + [FrameFrom(i, f)] + between, i, data)
  {
    RunNext(cfg, INITIAL, before, FrameFrom(i, f));
    RunIsConsistent(cfg, before);
    ReplyReturns(cfg, Run(cfg, INITIAL, before), i, f, before + [FrameFrom(i, f)], between, data);
  }

  /** A packet to the source of the last packet that left in the state `h`, a client address, which fits client `i`. */
  predicate IsReply(cfg: Config, h: Gateway, i: nat, data: seq<byte>) {
    && h.Has(i) && h.uplink != [] && cfg.codec.parse(data).Some?
    && var m := cfg.codec.parse(data).value;
       m.dstSSA == h.uplink[|h.uplink| - 1].srcSSA && ClientAddress(m.dstSSA) && Fits(cfg, h.clients[i], m)
  }

  /** In the state `k`, client `i` still is the one whose packet was the last that had left in the state `h`. */
  predicate IsRequester(h: Gateway, k: Gateway, i: nat) {
    && h.Has(i) && k.Has(i) && k.clients[i].registered
    && k.clients[i].proto.mode == h.clients[i].proto.mode != Unknown
    && h.uplink != []
    && var src := h.uplink[|h.uplink| - 1].srcSSA;
       src == 0xFFFE || k.clients[i].lease == Some(src)
  }

  /** As long as the client does not go, the source it was given remains its lease, and its mode the one it had. */
  lemma RequesterStays(cfg: Config, g: Gateway, i: nat, f: WireFrame, between: seq<Event>)
    requires Consistent(g) && |Step(cfg, g, FrameFrom(i, f)).uplink| > |g.uplink|
    requires Stays(cfg, Step(cfg, g, FrameFrom(i, f)), between, i)
    ensures var h := Step(cfg, g, FrameFrom(i, f)); IsRequester(h, Run(cfg, h, between), i)
  {
    var h := Step(cfg, g, FrameFrom(i, f));
    RequestCarriesLease(cfg, g, i, f);
    StepKeepsConsistent(cfg, g, FrameFrom(i, f));
    RegisteredIffStays(cfg, h, between, i);
    RunEvolves(cfg, h, between, i);
  }

  /** The same for a request that is the last of the events `asked`. */
  lemma ReplyReturns(
      cfg: Config, g: Gateway, i: nat, f: WireFrame, asked: seq<Event>, between: seq<Event>, data: seq<byte>)
    requires Consistent(g) && Run(cfg, INITIAL, asked) == Step(cfg, g, FrameFrom(i, f))
    requires var h := Run(cfg, INITIAL, asked);
             |h.uplink| > |g.uplink| && IsReply(cfg, h, i, data) && Stays(cfg, h, between, i)
    requires PeakClients(cfg, asked + between) <= 0x1_0000
    ensures OnlyGets(cfg, asked + between, i, data)
  {
    var h := Run(cfg, INITIAL, asked);
    RunConcat(cfg, INITIAL, asked, between);
    RequesterStays(cfg, g, i, f, between);
    ReplyArrives(cfg, h, Run(cfg, h, between), asked + between, i, data);
  }

  lemma ReplyArrives(cfg: Config, h: Gateway, k: Gateway, evs: seq<Event>, i: nat, data: seq<byte>)
    requires PeakClients(cfg, evs) <= 0x1_0000 && k == Run(cfg, INITIAL, evs)
    requires IsRequester(h, k, i) && IsReply(cfg, h, i, data)
    ensures OnlyGets(cfg, evs, i, data)
  {
    RunIsConsistent(cfg, evs);
    DrawnIsPeak(cfg, evs);
    NobodyAfterShutdown(cfg, evs);
    RunNext(cfg, INITIAL, evs, PacketFromHdlcd(data));
    PacketReachesItsClient(cfg, k, i, data);
  }
}
