/**
 The access side of the gateway as one state machine: the connected clients with their leases,
 subscriptions and protocol state, the address pool, the list of registered handlers, and the
 packets that left for the HDLCd.

 Clients are named by the order of their connections. Every event of the io loop is one step.
 */
module GatewayModel {
  import opened Octets
  import opened SnetMessages
  import opened FrameStream
  import opened AccessProtocol
  import opened AddressPooling
  import AS = AddressService
  import PS = PublishSubscribe

  datatype Config = Config(codec: Codec, reliable: bool)

  // ------------------------------------------------------------------ routing

  datatype Component = UnknownComponent | Hdlcd | GatewayClients

  const WIRED_ADDR: u16 := 0xFFFE

  function PerformRouting(src: Component, srcSSA: u16, dstSSA: u16): Component {
    if dstSSA == 0x3FFC || (dstSSA == 0x4000 && srcSSA >= 0x4000) then UnknownComponent
    else if dstSSA < 0x4000 || (dstSSA == WIRED_ADDR && src == GatewayClients) then Hdlcd
    else GatewayClients
  }

  // ------------------------------------------------------------------ clients

  datatype Client = Client(registered: bool, lease: Option<u16>, ids: set<byte>, proto: Proto) {
    /** The address on loan to a client; only used while it has one. */
    function Address(): u16 {
      if lease.Some? then lease.value else 0
    }
  }

  function NewClient(address: u16): Client {
    Client(true, Some(address), {}, NEW)
  }

  /** The delivery filter. */
  predicate Wants(c: Client, m: Message) {
    && !(ClientAddress(m.dstSSA) && m.dstSSA != c.Address())
    && !((m.dstSSA == 0x4000 || m.dstSSA >= 0xFFF0) && m.srcService !in c.ids)
  }

  /** The size limit that the source asserts when it frames a message for a client. */
  predicate Fits(cfg: Config, c: Client, m: Message) {
    Sendable(c.proto.mode, cfg.codec.serialize(m))
  }

  /** Sends a message to a client; events in which one would not fit do not happen (`CanHappen`). */
  function Put(cfg: Config, c: Client, m: Message): Client {
    if Fits(cfg, c, m) then c.(proto := AfterSend(c.proto, cfg.codec.serialize(m))) else c
  }

  function Offer(cfg: Config, c: Client, m: Message): Client {
    if Wants(c, m) then Put(cfg, c, m) else c
  }

  /** The elements of a list of handlers are clients. */
  predicate Within(ids: seq<nat>, n: nat) {
    forall k :: 0 <= k < |ids| ==> ids[k] < n
  }

  /** Offers a message to the handlers of a list, one after the other. */
  function Fanout(cfg: Config, clients: seq<Client>, ids: seq<nat>, m: Message): (r: seq<Client>)
    requires Within(ids, |clients|)
    ensures |r| == |clients|
  {
    if ids == [] then clients
    else
      var last := ids[|ids| - 1];
      var r := Fanout(cfg, clients, ids[..|ids| - 1], m);
      r[last := Offer(cfg, r[last], m)]
  }

  function Remove(ids: seq<nat>, id: nat): (r: seq<nat>)
    ensures forall i :: i in r <==> i in ids && i != id
    ensures forall k :: 0 <= k < |r| ==> r[k] in ids && r[k] != id
    ensures |r| <= |ids| && (id in ids ==> |r| < |ids|)
  {
    if ids == [] then [] else (if ids[0] == id then [] else [ids[0]]) + Remove(ids[1..], id)
  }

  // -------------------------------------------------------------------- state

  datatype State = State(running: bool, pool: Pool, roster: seq<nat>, clients: seq<Client>, uplink: seq<Message>) {
    predicate Indexed() {
      Within(roster, |clients|)
    }

    predicate Has(i: nat) {
      i < |clients|
    }

    function With(i: nat, c: Client): State
      requires Has(i)
    {
      this.(clients := clients[i := c])
    }
  }

  const INITIAL: State := State(true, NEW_POOL, [], [], [])

  type Gateway = g: State | g.Indexed() witness State(true, NEW_POOL, [], [], [])

  // --------------------------------------------------------------- operations

  /** A packet from one side, to the other, to the same, or to nobody. */
  function RoutePacket(cfg: Config, g: Gateway, m: Message, src: Component): Gateway {
    match PerformRouting(src, m.srcSSA, m.dstSSA)
    case Hdlcd => g.(uplink := g.uplink + [if cfg.reliable then m.(onAirARQ := true) else m])
    case GatewayClients => g.(clients := Fanout(cfg, g.clients, g.roster, m))
    case UnknownComponent => g
  }

  /** Masquerading: the source becomes the client's own address, except for the wired address. */
  function Masquerade(m: Message, address: u16): Message {
    if m.srcSSA != WIRED_ADDR then m.(srcSSA := address) else m
  }

  /** What the services and the routing entity do with a message of client `i`. */
  function OnMessage(cfg: Config, g: Gateway, i: nat, m: Message): Gateway
    requires g.Has(i)
    requires AS.IsRequest(m) ==> |m.payload| >= 6
  {
    var c := g.clients[i];
    if m.dstSSA == 0x3FFC then
      var reply := AS.ProcessRequest(m, c.Address());
      if reply.srcService == 0xAE then g.With(i, Put(cfg, c, reply)) else g
    else if m.dstSSA == 0x4000 then
      var (ids, reply) := PS.Process(c.ids, m, c.Address());
      var c' := c.(ids := ids);
      g.With(i, if reply.srcService == 0xB0 then Put(cfg, c', reply) else c')
    else
      RoutePacket(cfg, g, Masquerade(m, c.Address()), GatewayClients)
  }

  function OnPayload(cfg: Config, g: Gateway, i: nat, payload: seq<byte>): Gateway
    requires g.Has(i) && Answerable(cfg, payload)
  {
    match cfg.codec.parse(payload)
    case Some(m) => OnMessage(cfg, g, i, m)
    case None => g
  }

  /** Address requests that reach the service carry at least a UUID. */
  predicate Answerable(cfg: Config, payload: seq<byte>) {
    var o := cfg.codec.parse(payload);
    o.Some? && AS.IsRequest(o.value) ==> |o.value.payload| >= 6
  }

  /** The handler gives its lease back and leaves the list; a second time nothing happens. */
  function Unregister(g: Gateway, i: nat): Gateway
    requires g.Has(i)
  {
    var c := g.clients[i];
    if !c.registered then g
    else
      g.With(i, c.(registered := false, lease := None))
      .(pool := Release(g.pool, c.Address()), roster := Remove(g.roster, i))
  }

  function CloseConnection(g: Gateway, i: nat): Gateway
    requires g.Has(i)
  {
    var c := g.clients[i];
    Unregister(g.With(i, c.(proto := c.proto.(open := false))), i)
  }

  function AcceptConnection(g: Gateway): Gateway {
    var (pool, address) := Obtain(g.pool);
    g.(pool := pool, roster := g.roster + [|g.clients|], clients := g.clients + [NewClient(address)])
  }

  function HandleFrame(cfg: Config, g: Gateway, i: nat, f: WireFrame): Gateway
    requires g.Has(i) && CanHandle(cfg, g.clients[i].proto, f)
  {
    var c := g.clients[i];
    var (proto, up) := AfterFrame(c.proto, f);
    var g' := g.With(i, c.(proto := proto));
    match up
    case Nothing => g'
    case Deliver(payload) => OnPayload(cfg, g', i, payload)
    case Closed => Unregister(g', i)
  }

  predicate CanHandle(cfg: Config, s: Proto, f: WireFrame) {
    && Readable(s.mode, f)
    && (AfterFrame(s, f).1.Deliver? ==> Answerable(cfg, AfterFrame(s, f).1.payload))
  }

  function HdlcdPacketReceived(cfg: Config, g: Gateway, data: seq<byte>): Gateway {
    match cfg.codec.parse(data)
    case Some(m) => RoutePacket(cfg, g, m, Hdlcd)
    case None => g
  }

  /** Closes the first handler of the list until there is none; a listed handler is always a registered one. */
  function CloseAll(g: Gateway): Gateway
    decreases |g.roster|
  {
    if g.roster == [] || !g.clients[g.roster[0]].registered then g else CloseAll(Unregister(g, g.roster[0]))
  }

  function Shutdown(g: Gateway): Gateway {
    CloseAll(g.(running := false))
  }

  // -------------------------------------------------------------- size limits

  /** What the routing entity gives to clients fits all those that want it. */
  predicate RouteFits(cfg: Config, g: Gateway, m: Message, src: Component) {
    PerformRouting(src, m.srcSSA, m.dstSSA) == GatewayClients ==> OfferFits(cfg, g.clients, g.roster, m)
  }

  predicate OfferFits(cfg: Config, clients: seq<Client>, ids: seq<nat>, m: Message)
    requires Within(ids, |clients|)
  {
    forall k :: 0 <= k < |ids| && Wants(clients[ids[k]], m) ==> Fits(cfg, clients[ids[k]], m)
  }

  /** What a message of client `i` causes to be sent fits whoever it is sent to. */
  predicate MessageFits(cfg: Config, g: Gateway, i: nat, m: Message)
    requires g.Has(i)
    requires AS.IsRequest(m) ==> |m.payload| >= 6
  {
    var c := g.clients[i];
    if m.dstSSA == 0x3FFC then AS.IsRequest(m) ==> Fits(cfg, c, AS.ProcessRequest(m, c.Address()))
    else if m.dstSSA == 0x4000 then PS.Valid(m) ==> Fits(cfg, c, PS.Process(c.ids, m, c.Address()).1)
    else RouteFits(cfg, g, Masquerade(m, c.Address()), GatewayClients)
  }

  predicate PayloadFits(cfg: Config, g: Gateway, i: nat, payload: seq<byte>)
    requires g.Has(i) && Answerable(cfg, payload)
  {
    var o := cfg.codec.parse(payload);
    o.Some? ==> MessageFits(cfg, g, i, o.value)
  }

  predicate FrameFits(cfg: Config, g: Gateway, i: nat, f: WireFrame)
    requires g.Has(i) && CanHandle(cfg, g.clients[i].proto, f)
  {
    var (proto, up) := AfterFrame(g.clients[i].proto, f);
    up.Deliver? ==> PayloadFits(cfg, g.With(i, g.clients[i].(proto := proto)), i, up.payload)
  }

  predicate PacketFits(cfg: Config, g: Gateway, data: seq<byte>) {
    var o := cfg.codec.parse(data);
    o.Some? ==> RouteFits(cfg, g, o.value, Hdlcd)
  }

  // --------------------------------------------------------------- invariants

  /** The addresses on loan, in the order of the list. */
  function Loans(clients: seq<Client>, ids: seq<nat>): (s: seq<u16>)
    requires Within(ids, |clients|)
    ensures |s| == |ids|
    ensures forall k :: 0 <= k < |ids| ==> s[k] == clients[ids[k]].Address()
  {
    if ids == [] then [] else [clients[ids[0]].Address()] + Loans(clients, ids[1..])
  }

  function LedgerOf(g: Gateway): Ledger {
    Ledger(g.pool, Loans(g.clients, g.roster))
  }

  /** Being listed, being registered and holding a lease are the same thing. */
  predicate Standing(g: Gateway, i: nat)
    requires g.Has(i)
  {
    && (i in g.roster <==> g.clients[i].registered)
    && (g.clients[i].registered <==> g.clients[i].lease.Some?)
  }

  /** The lifecycle part of the invariant: no handler is listed twice, and the pool's books balance. */
  ghost predicate Orderly(g: Gateway) {
    && Distinct(g.roster)
    && (forall i :: 0 <= i < |g.clients| ==> Standing(g, i))
    && LedgerOf(g).Balanced()
  }

  /** While the gateway runs, the registered clients are those with an open connection. */
  ghost predicate Consistent(g: Gateway) {
    && Orderly(g)
    && (g.running ==> Attended(g))
  }

  ghost predicate Attended(g: Gateway) {
    forall i :: 0 <= i < |g.clients| ==> (g.clients[i].registered <==> g.clients[i].proto.open)
  }

  // --------------------------------------------------------------------- runs

  datatype Event =
    | Connected
    | FrameFrom(i: nat, f: WireFrame)
    | PacketFromHdlcd(data: seq<byte>)
    | Disconnected(i: nat)
    | Stopped

  /**
   After the shutdown the io loop does not run any more; before it, frames come from open connections,
   and the limits that the source asserts or takes for granted are kept.
   */
  predicate CanHappen(cfg: Config, g: Gateway, e: Event) {
    && g.running
    && match e
       case FrameFrom(i, f) =>
         && g.Has(i) && g.clients[i].proto.open
         && CanHandle(cfg, g.clients[i].proto, f) && FrameFits(cfg, g, i, f)
       case PacketFromHdlcd(data) => PacketFits(cfg, g, data)
       case Disconnected(i) => g.Has(i)
       case _ => true
  }

  /** One event of the io loop; what cannot happen in a state is skipped. */
  function Step(cfg: Config, g: Gateway, e: Event): Gateway {
    if !CanHappen(cfg, g, e) then g
    else match e
      case Connected => AcceptConnection(g)
      case FrameFrom(i, f) => HandleFrame(cfg, g, i, f)
      case PacketFromHdlcd(data) => HdlcdPacketReceived(cfg, g, data)
      case Disconnected(i) => CloseConnection(g, i)
      case Stopped => Shutdown(g)
  }

  /** The state after a sequence of events. */
  function Run(cfg: Config, g: Gateway, evs: seq<Event>): Gateway
    decreases |evs|
  {
    if evs == [] then g else Step(cfg, Run(cfg, g, Init(evs)), Last(evs))
  }

  function Init(evs: seq<Event>): seq<Event>
    requires evs != []
  {
    evs[..|evs| - 1]
  }

  function Last(evs: seq<Event>): Event
    requires evs != []
  {
    evs[|evs| - 1]
  }
}
