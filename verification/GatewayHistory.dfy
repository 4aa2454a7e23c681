/**
 What a run of the gateway means for one client: it was sent what it was owed, its connection has
 gone through a trace of the access protocol, and its subscriptions are the history of its requests.
 */
module GatewayHistory {
  import opened Octets
  import opened SnetMessages
  import opened FrameStream
  import opened AccessProtocol
  import opened AddressPooling
  import opened GatewayModel
  import opened GatewayInvariants
  import opened GatewayRuns
  import opened GatewayDelivery
  import AS = AddressService
  import PS = PublishSubscribe

  // -------------------------------------------------------------- one step

  /** What an event itself does to the connection of client `i`, before any packet is delivered. */
  function OwnChange(g: Gateway, e: Event, i: nat): Proto
    requires g.Has(i) && (e.FrameFrom? && e.i == i ==> Readable(g.clients[i].proto.mode, e.f))
  {
    var s := g.clients[i].proto;
    match e
    case FrameFrom(j, f) => if j == i then AfterFrame(s, f).0 else s
    case Disconnected(j) => if j == i then s.(open := false) else s
    case _ => s
  }

  ghost predicate Delivers(s: Proto, t: Proto, sends: seq<seq<byte>>) {
    && |sends| <= 1
    && (forall p :: p in sends ==> Sendable(s.mode, p))
    && t == if sends == [] then s else AfterSend(s, sends[0])
  }

  /** Beyond its own change a connection sees at most one delivery in a step. */
  lemma StepDelivers(cfg: Config, g: Gateway, e: Event, i: nat) returns (sends: seq<seq<byte>>)
    requires CanHappen(cfg, g, e) && Consistent(g) && g.Has(i)
    ensures Step(cfg, g, e).Has(i)
    ensures Delivers(OwnChange(g, e, i), Step(cfg, g, e).clients[i].proto, sends)
  {
    sends := [];
    match e {
      case Connected =>
      case FrameFrom(j, f) =>
        sends := FrameDelivers(cfg, g, j, f, i);
      case PacketFromHdlcd(data) =>
        if cfg.codec.parse(data).Some? {
          sends := RouteDelivers(cfg, g, cfg.codec.parse(data).value, Hdlcd, i);
        }
      case Disconnected(j) =>
      case Stopped =>
        CloseAllEvolves(g.(running := false), i);
    }
  }

  lemma RouteDelivers(cfg: Config, g: Gateway, m: Message, src: Component, i: nat) returns (sends: seq<seq<byte>>)
    requires Distinct(g.roster) && g.Has(i)
    ensures RoutePacket(cfg, g, m, src).Has(i)
    ensures Delivers(g.clients[i].proto, RoutePacket(cfg, g, m, src).clients[i].proto, sends)
  {
    FanoutOffersOnce(cfg, g.clients, g.roster, m);
    if RoutePacket(cfg, g, m, src).clients[i] == g.clients[i] {
      sends := [];
    } else {
      sends := [cfg.codec.serialize(m)];
    }
  }

  lemma SendsIfFits(cfg: Config, c: Client, m: Message) returns (sends: seq<seq<byte>>)
    ensures Delivers(c.proto, Put(cfg, c, m).proto, sends)
  {
    sends := if Fits(cfg, c, m) then [cfg.codec.serialize(m)] else [];
  }

  lemma MessageDelivers(cfg: Config, a: Gateway, j: nat, m: Message, i: nat) returns (sends: seq<seq<byte>>)
    requires Distinct(a.roster) && a.Has(i) && a.Has(j) && (AS.IsRequest(m) ==> |m.payload| >= 6)
    ensures OnMessage(cfg, a, j, m).Has(i)
    ensures Delivers(a.clients[i].proto, OnMessage(cfg, a, j, m).clients[i].proto, sends)
  {
    var address := a.clients[j].Address();
    if m.dstSSA == 0x3FFC {
      if j == i && AS.IsRequest(m) {
        sends := SendsIfFits(cfg, a.clients[j], AS.ProcessRequest(m, address));
      } else {
        sends := [];
      }
    } else if m.dstSSA == 0x4000 {
      var ids := a.clients[j].ids;
      if j == i && PS.Valid(m) {
        sends := SendsIfFits(cfg, a.clients[j], PS.Process(ids, m, address).1);
      } else {
        sends := [];
      }
    } else {
      sends := RouteDelivers(cfg, a, Masquerade(m, address), GatewayClients, i);
    }
  }

  lemma FrameDelivers(cfg: Config, g: Gateway, j: nat, f: WireFrame, i: nat) returns (sends: seq<seq<byte>>)
    requires CanHappen(cfg, g, FrameFrom(j, f)) && Consistent(g) && g.Has(i)
    ensures HandleFrame(cfg, g, j, f).Has(i)
    ensures Delivers(OwnChange(g, FrameFrom(j, f), i), HandleFrame(cfg, g, j, f).clients[i].proto, sends)
  {
    sends := [];
    var o := Carried(cfg, g.clients[j].proto, f);
    if o.Some? {
      var a := Acknowledged(g, j, f);
      sends := MessageDelivers(cfg, a, j, o.value, i);
      assert HandleFrame(cfg, g, j, f) == OnMessage(cfg, a, j, o.value);
      assert a.clients[i].proto == OwnChange(g, FrameFrom(j, f), i);
    }
  }

  // ------------------------------------------------------- what a client is owed

  /** What a frame is answered with: nothing, if it is in the format that the client has not chosen. */
  function AnswerTo(s: Proto, f: WireFrame): seq<WireFrame> {
    if s.mode == Unknown || s.mode == FormatOf(f) then AnswerDue(f) else []
  }

  /** The mode after a frame: its format, if it is the first. */
  function ModeAfter(s: Proto, f: WireFrame): Mode {
    if s.mode == Unknown then FormatOf(f) else s.mode
  }

  /** What client `i` is owed for a message of client `j`: a reply of a service, or a packet addressed to it. */
  function OwedFor(g: Gateway, j: nat, m: Message, i: nat): Option<Message>
    requires g.Has(i) && g.Has(j) && (AS.IsRequest(m) ==> |m.payload| >= 6)
  {
    var c := g.clients[j];
    if m.dstSSA == 0x3FFC then
      if j == i && AS.IsRequest(m) then Some(AS.ProcessRequest(m, c.Address())) else None
    else if m.dstSSA == 0x4000 then
      if j == i && PS.Valid(m) then Some(PS.Process(c.ids, m, c.Address()).1) else None
    else
      OwedPacket(g, m.(srcSSA := if m.srcSSA == 0xFFFE then 0xFFFE else c.Address()), GatewayClients, i)
  }

  function OwedPacket(g: Gateway, m: Message, src: Component, i: nat): Option<Message>
    requires g.Has(i)
  {
    if ForClients(src, m) && Addressee(g.clients[i], m) then Some(m) else None
  }

  function Owed(cfg: Config, g: Gateway, e: Event, i: nat): Option<Message>
    requires g.Has(i) && CanHappen(cfg, g, e)
  {
    match e
    case PacketFromHdlcd(data) =>
      var o := cfg.codec.parse(data);
      if o.Some? then OwedPacket(g, o.value, Hdlcd, i) else None
    case FrameFrom(j, f) =>
      var o := Carried(cfg, g.clients[j].proto, f);
      if o.Some? then OwedFor(g, j, o.value, i) else None
    case _ => None
  }

  /** The answer owed to client `i` for an event, ... */
  function AnswerBy(cfg: Config, g: Gateway, e: Event, i: nat): seq<WireFrame>
    requires g.Has(i) && CanHappen(cfg, g, e)
  {
    if e.FrameFrom? && e.i == i then AnswerTo(g.clients[i].proto, e.f) else []
  }

  /** ... and the data: what it is owed, as one frame of its mode. */
  function DataBy(cfg: Config, g: Gateway, e: Event, i: nat): seq<WireFrame>
    requires g.Has(i) && CanHappen(cfg, g, e)
  {
    var o := Owed(cfg, g, e, i);
    if o.Some? then Carrying(cfg, ModeBy(g, e, i), o.value) else []
  }

  function ModeBy(g: Gateway, e: Event, i: nat): Mode
    requires g.Has(i)
  {
    if e.FrameFrom? && e.i == i then ModeAfter(g.clients[i].proto, e.f) else g.clients[i].proto.mode
  }

  lemma RouteLogs(cfg: Config, g: Gateway, m: Message, src: Component, i: nat)
    requires Consistent(g) && g.running && g.Has(i) && RouteFits(cfg, g, m, src)
    ensures RoutePacket(cfg, g, m, src).Has(i)
    ensures var o := OwedPacket(g, m, src, i);
            && RoutePacket(cfg, g, m, src).clients[i].proto.sent ==
               g.clients[i].proto.sent + (if o.Some? then Carrying(cfg, g.clients[i].proto.mode, m) else [])
            && (o.Some? ==> Fits(cfg, g.clients[i], m))
  {
    var s := g.clients[i].proto.sent;
    assert s + [] == s;
    DeliveredTo(cfg, g, m, src, i);
    if ForClients(src, m) && Addressee(g.clients[i], m) {
      FitsAddressee(cfg, g, m, src, i);
    }
  }

  lemma PutLogs(cfg: Config, c: Client, m: Message)
    requires c.proto.open && Fits(cfg, c, m)
    ensures Put(cfg, c, m).proto.sent == c.proto.sent + Carrying(cfg, c.proto.mode, m)
  {
  }

  /** What the message of client `j` makes of the log of client `i`, once the frame has been acknowledged. */
  lemma MessageLogs(cfg: Config, a: Gateway, j: nat, m: Message, i: nat)
    requires Consistent(a) && a.running && a.Has(i) && a.Has(j) && a.clients[j].proto.open
    requires (AS.IsRequest(m) ==> |m.payload| >= 6) && MessageFits(cfg, a, j, m)
    ensures OnMessage(cfg, a, j, m).Has(i)
    ensures var o := OwedFor(a, j, m, i);
            && OnMessage(cfg, a, j, m).clients[i].proto.sent ==
               a.clients[i].proto.sent + (if o.Some? then Carrying(cfg, a.clients[i].proto.mode, o.value) else [])
            && (o.Some? ==> Fits(cfg, a.clients[i], o.value))
  {
    var c := a.clients[j];
    var s := a.clients[i].proto.sent;
    assert s + [] == s;
    if m.dstSSA == 0x3FFC {
      if AS.IsRequest(m) {
        PutLogs(cfg, c, AS.ProcessRequest(m, c.Address()));
      }
    } else if m.dstSSA == 0x4000 {
      if PS.Valid(m) {
        var (ids, reply) := PS.Process(c.ids, m, c.Address());
        PutLogs(cfg, c.(ids := ids), reply);
      }
    } else {
      RouteLogs(cfg, a, Masquerade(m, c.Address()), GatewayClients, i);
    }
  }

  lemma OwnAnswer(s: Proto, f: WireFrame)
    requires s.open && Readable(s.mode, f)
    ensures AfterFrame(s, f).0.sent == s.sent + AnswerTo(s, f)
    ensures AfterFrame(s, f).1.Deliver? ==> AfterFrame(s, f).0.mode == ModeAfter(s, f)
  {
    ResponseIsDue(f);
    assert s.sent + [] == s.sent;
  }

  /** What the log of client `i` is once the frame has been acknowledged. */
  lemma AcknowledgedLogs(cfg: Config, g: Gateway, j: nat, f: WireFrame, i: nat)
    requires CanHappen(cfg, g, FrameFrom(j, f)) && g.Has(i)
    ensures Acknowledged(g, j, f).clients[i].proto.sent ==
            g.clients[i].proto.sent + AnswerBy(cfg, g, FrameFrom(j, f), i)
    ensures Carried(cfg, g.clients[j].proto, f).Some? ==>
              Acknowledged(g, j, f).clients[i].proto.mode == ModeBy(g, FrameFrom(j, f), i)
  {
    OwnAnswer(g.clients[j].proto, f);
    assert g.clients[i].proto.sent + [] == g.clients[i].proto.sent;
  }

  /** What is owed depends on leases, subscriptions and registrations, which an acknowledgement leaves alone. */
  lemma OwedAsBefore(g: Gateway, a: Gateway, j: nat, m: Message, i: nat)
    requires g.Has(i) && g.Has(j) && a.Has(i) && a.Has(j) && (AS.IsRequest(m) ==> |m.payload| >= 6)
    requires forall k :: k in {i, j} ==> a.clients[k] == g.clients[k].(proto := a.clients[k].proto)
    ensures OwedFor(a, j, m, i) == OwedFor(g, j, m, i)
  {
    assert a.clients[i] == g.clients[i].(proto := a.clients[i].proto);
    assert a.clients[j].Address() == g.clients[j].Address() && a.clients[j].ids == g.clients[j].ids;
  }

  lemma FrameLogs(cfg: Config, g: Gateway, j: nat, f: WireFrame, i: nat)
    requires CanHappen(cfg, g, FrameFrom(j, f)) && Consistent(g) && g.Has(i)
    ensures var h := HandleFrame(cfg, g, j, f);
            h.Has(i) && Logs(cfg, g, FrameFrom(j, f), i, h.clients[i].proto.sent)
  {
    var o := Carried(cfg, g.clients[j].proto, f);
    var a := Acknowledged(g, j, f);
    AcknowledgedLogs(cfg, g, j, f, i);
    Concat(a.clients[i].proto.sent, [], []);
    if o.Some? {
      AcknowledgedIsConsistent(cfg, g, j, f);
      assert HandleFrame(cfg, g, j, f) == OnMessage(cfg, a, j, o.value);
      MessageLogs(cfg, a, j, o.value, i);
      OwedAsBefore(g, a, j, o.value, i);
    }
  }

  /** The log of client `i` after an event: first the answer, then the data, one frame if the client has a mode. */
  predicate Logs(cfg: Config, g: Gateway, e: Event, i: nat, sent: seq<WireFrame>)
    requires g.Has(i) && CanHappen(cfg, g, e)
  {
    && sent == g.clients[i].proto.sent + AnswerBy(cfg, g, e, i) + DataBy(cfg, g, e, i)
    && |DataBy(cfg, g, e, i)| == if Owed(cfg, g, e, i).Some? && ModeBy(g, e, i) != Unknown then 1 else 0
  }

  lemma StepLogs(cfg: Config, g: Gateway, e: Event, i: nat)
    requires CanHappen(cfg, g, e) && Consistent(g) && g.Has(i)
    ensures Step(cfg, g, e).Has(i) && Logs(cfg, g, e, i, Step(cfg, g, e).clients[i].proto.sent)
  {
    var sent := g.clients[i].proto.sent;
    assert sent + [] + [] == sent;
    match e {
      case Connected =>
      case FrameFrom(j, f) =>
        FrameLogs(cfg, g, j, f, i);
      case PacketFromHdlcd(data) =>
        assert sent + [] == sent;
        if cfg.codec.parse(data).Some? {
          RouteLogs(cfg, g, cfg.codec.parse(data).value, Hdlcd, i);
        }
      case Disconnected(j) =>
      case Stopped =>
        CloseAllEvolves(g.(running := false), i);
    }
  }

  /** All that client `i` is owed in a run, answers and data, in order. */
  function AllOwed(cfg: Config, evs: seq<Event>, i: nat): seq<WireFrame>
    decreases |evs|
  {
    if evs == [] then []
    else
      var g, e := Run(cfg, INITIAL, Init(evs)), Last(evs);
      AllOwed(cfg, Init(evs), i)
      + if g.Has(i) && CanHappen(cfg, g, e) then AnswerBy(cfg, g, e, i) + DataBy(cfg, g, e, i) else []
  }

  /** Of this, the data: the replies of the services and the packets of which it was an addressee. */
  function AllData(cfg: Config, evs: seq<Event>, i: nat): seq<WireFrame>
    decreases |evs|
  {
    if evs == [] then []
    else
      var g, e := Run(cfg, INITIAL, Init(evs)), Last(evs);
      AllData(cfg, Init(evs), i) + if g.Has(i) && CanHappen(cfg, g, e) then DataBy(cfg, g, e, i) else []
  }

  lemma NothingOwedBeforeConnection(cfg: Config, evs: seq<Event>, i: nat)
    requires !Run(cfg, INITIAL, evs).Has(i)
    ensures AllOwed(cfg, evs, i) == [] && AllData(cfg, evs, i) == []
    decreases |evs|
  {
    if evs != [] {
      ClientsAreNotForgotten(cfg, Run(cfg, INITIAL, Init(evs)), Last(evs), i);
      NothingOwedBeforeConnection(cfg, Init(evs), i);
    }
  }

  /**
   The client side over whole runs: every client was sent, in order, exactly what it was owed, event by
   event: the answers to its own commands, each before the data of the same event, and the service
   replies and packets addressed to it, each in one frame of its mode.
   */
  lemma {:induction false} LogIsWhatWasOwed(cfg: Config, evs: seq<Event>, i: nat)
    requires Run(cfg, INITIAL, evs).Has(i)
    ensures Run(cfg, INITIAL, evs).clients[i].proto.sent == AllOwed(cfg, evs, i)
    decreases |evs|
  {
    var g, e := Run(cfg, INITIAL, Init(evs)), Last(evs);
    RunIsConsistent(cfg, Init(evs));
    ClientsAreNotForgotten(cfg, g, e, i);
    if g.Has(i) {
      LogIsWhatWasOwed(cfg, Init(evs), i);
      if CanHappen(cfg, g, e) {
        StepLogs(cfg, g, e, i);
        Concat(g.clients[i].proto.sent, AnswerBy(cfg, g, e, i), DataBy(cfg, g, e, i));
      }
    } else {
      NothingOwedBeforeConnection(cfg, Init(evs), i);
    }
  }

  lemma DataOfNext(fs: seq<WireFrame>, answer: seq<WireFrame>, data: seq<WireFrame>)
    requires |answer| <= 1 && |data| <= 1
    requires (forall f :: f in answer ==> !IsData(f)) && (forall f :: f in data ==> IsData(f))
    ensures DataOf(fs + (answer + data)) == DataOf(fs) + data
  {
    Concat(fs, answer, data);
    AnswerIsNoData(fs, answer);
    if data == [] {
      Concat(fs + answer, [], []);
      Concat(DataOf(fs), [], []);
    } else {
      assert data[0] in data && data == [data[0]];
      SnocData(fs + answer, data[0]);
    }
  }

  lemma AnswerIsNoData(fs: seq<WireFrame>, answer: seq<WireFrame>)
    requires |answer| <= 1 && forall f :: f in answer ==> !IsData(f)
    ensures DataOf(fs + answer) == DataOf(fs)
  {
    if answer == [] {
      Concat(fs, [], []);
    } else {
      assert answer[0] in answer && answer == [answer[0]];
      SnocData(fs, answer[0]);
      assert DataOf(fs) + [] == DataOf(fs);
    }
  }

  lemma OwedIsOneOfEach(cfg: Config, g: Gateway, e: Event, i: nat)
    requires g.Has(i) && CanHappen(cfg, g, e)
    ensures |AnswerBy(cfg, g, e, i)| <= 1 && |DataBy(cfg, g, e, i)| <= 1
    ensures forall f :: f in AnswerBy(cfg, g, e, i) ==> !IsData(f)
    ensures forall f :: f in DataBy(cfg, g, e, i) ==> IsData(f)
  {
  }

  lemma {:induction false} DataIsWhatWasOwed(cfg: Config, evs: seq<Event>, i: nat)
    ensures DataOf(AllOwed(cfg, evs, i)) == AllData(cfg, evs, i)
    decreases |evs|
  {
    if evs != [] {
      var g, e := Run(cfg, INITIAL, Init(evs)), Last(evs);
      DataIsWhatWasOwed(cfg, Init(evs), i);
      if g.Has(i) && CanHappen(cfg, g, e) {
        OwedIsOneOfEach(cfg, g, e, i);
        DataOfNext(AllOwed(cfg, Init(evs), i), AnswerBy(cfg, g, e, i), DataBy(cfg, g, e, i));
      } else {
        Concat(AllOwed(cfg, Init(evs), i), [], []);
      }
    }
  }

  /** The data frames that a client was sent are its service replies and the packets of which it was an addressee. */
  lemma DataReceived(cfg: Config, evs: seq<Event>, i: nat)
    requires Run(cfg, INITIAL, evs).Has(i)
    ensures DataOf(Run(cfg, INITIAL, evs).clients[i].proto.sent) == AllData(cfg, evs, i)
  {
    LogIsWhatWasOwed(cfg, evs, i);
    DataIsWhatWasOwed(cfg, evs, i);
  }

  // ---------------------------------------------------------------- services

  /**
   A data command is acknowledged before anything that its payload causes is sent to the same client,
   and what follows the acknowledgement is at most one data frame.
   */
  lemma AckComesFirst(cfg: Config, g: Gateway, i: nat, f: WireFrame)
    requires CanHappen(cfg, g, FrameFrom(i, f)) && Consistent(g)
    requires f.EscapedFrame? && g.clients[i].proto.mode != Length && RequestId(f) == 0x0300
    ensures var h := Step(cfg, g, FrameFrom(i, f));
            var data := DataBy(cfg, g, FrameFrom(i, f), i);
            && h.Has(i)
            && h.clients[i].proto.sent == g.clients[i].proto.sent + [EscapedFrame([0x03, 0x01, 0x00, 0x00])] + data
            && |data| <= 1 && forall d :: d in data ==> IsData(d)
  {
    StepLogs(cfg, g, FrameFrom(i, f), i);
    OwedIsOneOfEach(cfg, g, FrameFrom(i, f), i);
  }

  /** A frame of client `i` that asks for its address. */
  predicate Asks(cfg: Config, g: Gateway, i: nat, f: WireFrame) {
    && CanHappen(cfg, g, FrameFrom(i, f))
    && Carried(cfg, g.clients[i].proto, f).Some? && AS.IsRequest(Carried(cfg, g.clients[i].proto, f).value)
  }

  function AddressReply(cfg: Config, g: Gateway, i: nat, f: WireFrame): Message
    requires Asks(cfg, g, i, f)
  {
    AS.ProcessRequest(Carried(cfg, g.clients[i].proto, f).value, g.clients[i].Address())
  }

  /**
   An address request is answered with the service's reply to it, in one frame to the client that asked;
   it carries the UUID of the request and the address that the client holds a lease on, and goes on holding.
   */
  lemma AddressQueryAnswered(cfg: Config, g: Gateway, i: nat, f: WireFrame)
    requires Consistent(g) && Asks(cfg, g, i, f)
    ensures var h := Step(cfg, g, FrameFrom(i, f));
            var reply := AddressReply(cfg, g, i, f);
            var fs := Carrying(cfg, ModeAfter(g.clients[i].proto, f), reply);
            && |fs| == 1
            && h.Has(i) && h.clients[i].proto.sent == g.clients[i].proto.sent + AnswerTo(g.clients[i].proto, f) + fs
            && |reply.payload| == 10
            && g.clients[i].registered
            && h.clients[i].lease == g.clients[i].lease == Some(Join(reply.payload[8], reply.payload[9]))
  {
    assert Standing(g, i);
    AS.ReplyCarriesAddress(Carried(cfg, g.clients[i].proto, f).value, g.clients[i].Address());
    StepLogs(cfg, g, FrameFrom(i, f), i);
  }

  /** Two queries of one client, at any two points of a run, are answered with the same address. */
  lemma AddressQueriesAgree(cfg: Config, before: seq<Event>, i: nat, f: WireFrame, between: seq<Event>, f': WireFrame)
    requires Asks(cfg, Run(cfg, INITIAL, before), i, f)
    requires Asks(cfg, Run(cfg, INITIAL, before + [FrameFrom(i, f)] + between), i, f')
    ensures var first := AddressReply(cfg, Run(cfg, INITIAL, before), i, f).payload;
            var second := AddressReply(cfg, Run(cfg, INITIAL, before + [FrameFrom(i, f)] + between), i, f').payload;
            |first| == |second| == 10 && first[8..] == second[8..]
  {
    var g, h := Run(cfg, INITIAL, before), Run(cfg, INITIAL, before + [FrameFrom(i, f)]);
    var k := Run(cfg, INITIAL, before + [FrameFrom(i, f)] + between);
    RunSplit(cfg, before, FrameFrom(i, f), between);
    RunIsConsistent(cfg, before + [FrameFrom(i, f)] + between);
    AddressQueryAnswered(cfg, g, i, f);
    AddressQueryAnswered(cfg, k, i, f');
    RunEvolves(cfg, h, between, i);
  }

  /**
   A message to the publish / subscribe service is answered, in one frame to the client that sent it, if
   and only if it is a valid request: with the service's reply, which names the same id and goes to the
   address the client holds.
   */
  lemma SubscriptionAnswered(cfg: Config, g: Gateway, i: nat, f: WireFrame)
    requires CanHappen(cfg, g, FrameFrom(i, f)) && Consistent(g)
    requires Carried(cfg, g.clients[i].proto, f).Some? && Carried(cfg, g.clients[i].proto, f).value.dstSSA == 0x4000
    ensures var m := Carried(cfg, g.clients[i].proto, f).value;
            var h := Step(cfg, g, FrameFrom(i, f));
            var reply := PS.Process(g.clients[i].ids, m, g.clients[i].Address()).1;
            var fs := if PS.Valid(m) then Carrying(cfg, ModeAfter(g.clients[i].proto, f), reply) else [];
            && |fs| == (if PS.Valid(m) then 1 else 0)
            && h.Has(i) && h.clients[i].proto.sent == g.clients[i].proto.sent + AnswerTo(g.clients[i].proto, f) + fs
            && (PS.Valid(m) ==>
                  && g.clients[i].lease == Some(reply.dstSSA)
                  && reply.token == m.token + 1 && reply.payload == m.payload + [0])
  {
    assert Standing(g, i);
    PS.RepliesAnswerRequests(g.clients[i].ids, Carried(cfg, g.clients[i].proto, f).value, g.clients[i].Address());
    StepLogs(cfg, g, FrameFrom(i, f), i);
  }

  // ------------------------------------------------------------------ traces

  /** The frames of client `i` that the gateway has handled in a run. */
  function FramesHandled(cfg: Config, evs: seq<Event>, i: nat): seq<WireFrame>
    decreases |evs|
  {
    if evs == [] then []
    else FramesHandled(cfg, Init(evs), i) + FrameOf(cfg, Run(cfg, INITIAL, Init(evs)), Last(evs), i)
  }

  function FrameOf(cfg: Config, g: Gateway, e: Event, i: nat): seq<WireFrame> {
    if e.FrameFrom? && e.i == i && CanHappen(cfg, g, e) then [e.f] else []
  }

  ghost predicate Explains(tr: seq<ProtoEvent>, s: Proto, rcv: seq<WireFrame>) {
    Possible(tr) && ProtoRun(tr) == s && ReceivedOf(tr) == rcv
  }

  lemma Extend(tr: seq<ProtoEvent>, s: Proto, rcv: seq<WireFrame>, e: ProtoEvent)
    requires Explains(tr, s, rcv) && Enabled(s, e)
    ensures Explains(tr + [e], ProtoStep(s, e), rcv + Heard(e))
  {
    assert (tr + [e])[..|tr|] == tr;
  }

  lemma ExtendByOwnChange(cfg: Config, g: Gateway, e: Event, i: nat, tr: seq<ProtoEvent>, rcv: seq<WireFrame>)
      returns (tr': seq<ProtoEvent>)
    requires CanHappen(cfg, g, e) && g.Has(i) && Explains(tr, g.clients[i].proto, rcv)
    ensures Explains(tr', OwnChange(g, e, i), rcv + FrameOf(cfg, g, e, i))
  {
    assert rcv + [] == rcv;
    tr' := tr;
    if e.FrameFrom? && e.i == i {
      Extend(tr, g.clients[i].proto, rcv, Received(e.f));
      tr' := tr + [Received(e.f)];
    } else if e.Disconnected? && e.i == i {
      Extend(tr, g.clients[i].proto, rcv, Closing);
      tr' := tr + [Closing];
    }
  }

  lemma ExtendByDelivery(tr: seq<ProtoEvent>, s: Proto, t: Proto, rcv: seq<WireFrame>, sends: seq<seq<byte>>)
      returns (tr': seq<ProtoEvent>)
    requires Explains(tr, s, rcv) && Delivers(s, t, sends)
    ensures Explains(tr', t, rcv)
  {
    tr' := tr;
    if sends != [] {
      assert sends[0] in sends;
      Extend(tr, s, rcv, Sending(sends[0]));
      tr' := tr + [Sending(sends[0])];
      assert rcv + [] == rcv;
    }
  }

  lemma NoFramesBeforeConnection(cfg: Config, evs: seq<Event>, i: nat)
    requires !Run(cfg, INITIAL, evs).Has(i)
    ensures FramesHandled(cfg, evs, i) == []
    ensures PubSubRequests(cfg, evs, i) == []
    decreases |evs|
  {
    if evs != [] {
      ClientsAreNotForgotten(cfg, Run(cfg, INITIAL, Init(evs)), Last(evs), i);
      NoFramesBeforeConnection(cfg, Init(evs), i);
    }
  }

  lemma ClientsAreNotForgotten(cfg: Config, g: Gateway, e: Event, i: nat)
    ensures g.Has(i) ==> Step(cfg, g, e).Has(i)
    ensures Step(cfg, g, e).Has(i) && !g.Has(i) ==>
              e == Connected && Step(cfg, g, e).clients[i].proto == NEW && Step(cfg, g, e).clients[i].ids == {}
  {
    StepCountsClients(cfg, g, e);
  }

  lemma {:induction false} CloseAllKeepsClients(g: Gateway)
    ensures |CloseAll(g).clients| == |g.clients|
    decreases |g.roster|
  {
    if g.roster != [] && g.clients[g.roster[0]].registered {
      CloseAllKeepsClients(Unregister(g, g.roster[0]));
    }
  }

  lemma StepCountsClients(cfg: Config, g: Gateway, e: Event)
    ensures |Step(cfg, g, e).clients| == |g.clients| + (if e.Connected? && g.running then 1 else 0)
  {
    if e.Stopped? {
      CloseAllKeepsClients(g.(running := false));
    }
  }

  /** In every run, the connection of every client has gone through a trace of the access protocol. */
  lemma {:induction false} ConnectionIsTrace(cfg: Config, evs: seq<Event>, i: nat) returns (tr: seq<ProtoEvent>)
    requires Run(cfg, INITIAL, evs).Has(i)
    ensures Explains(tr, Run(cfg, INITIAL, evs).clients[i].proto, FramesHandled(cfg, evs, i))
    decreases |evs|
  {
    var g, e := Run(cfg, INITIAL, Init(evs)), Last(evs);
    RunIsConsistent(cfg, Init(evs));
    ClientsAreNotForgotten(cfg, g, e, i);
    if g.Has(i) {
      tr := ConnectionIsTrace(cfg, Init(evs), i);
      tr := StepIsTrace(cfg, g, e, i, tr, FramesHandled(cfg, Init(evs), i));
    } else {
      NoFramesBeforeConnection(cfg, Init(evs), i);
      tr := [];
    }
  }

  lemma StepIsTrace(cfg: Config, g: Gateway, e: Event, i: nat, tr: seq<ProtoEvent>, rcv: seq<WireFrame>)
      returns (tr': seq<ProtoEvent>)
    requires Consistent(g) && g.Has(i) && Explains(tr, g.clients[i].proto, rcv)
    ensures Step(cfg, g, e).Has(i) && Explains(tr', Step(cfg, g, e).clients[i].proto, rcv + FrameOf(cfg, g, e, i))
  {
    if CanHappen(cfg, g, e) {
      var sends := StepDelivers(cfg, g, e, i);
      tr' := ExtendByOwnChange(cfg, g, e, i, tr, rcv);
      var after := Step(cfg, g, e).clients[i].proto;
      tr' := ExtendByDelivery(tr', OwnChange(g, e, i), after, rcv + FrameOf(cfg, g, e, i), sends);
    } else {
      assert rcv + [] == rcv;
      tr' := tr;
    }
  }

  /**
   The protocol's promises, in every run and for every client: the mode is the format of its first frame;
   nothing is sent before that frame and nothing in another format; and apart from data, an escaping
   client was sent exactly the answers to its commands, in order.
   */
  lemma ClientsAreServedInTheirFormat(cfg: Config, evs: seq<Event>, i: nat)
    requires Run(cfg, INITIAL, evs).Has(i)
    ensures var s, rcv := Run(cfg, INITIAL, evs).clients[i].proto, FramesHandled(cfg, evs, i);
            && s.mode == (if rcv == [] then Unknown else FormatOf(rcv[0]))
            && (rcv == [] ==> s.sent == [])
            && (forall f :: f in s.sent ==> FormatOf(f) == s.mode)
            && Acks(s.sent) == if s.mode == Escaping then AnswersDue(rcv) else []
  {
    var tr := ConnectionIsTrace(cfg, evs, i);
    ModeLatch(tr);
    AcksMatchCommands(tr);
  }

  // ----------------------------------------------------------------- conduct

  /** How many clients a sequence of events lets in. */
  function Accepted(evs: seq<Event>): nat
    decreases |evs|
  {
    if evs == [] then 0
    else Accepted(Init(evs)) + if Last(evs).Connected? && Stopped !in Init(evs) then 1 else 0
  }

  /** Client `i` has connected, and its connection was closed afterwards. */
  predicate HungUp(evs: seq<Event>, i: nat)
    decreases |evs|
  {
    evs != [] && (HungUp(Init(evs), i) || (Last(evs) == Disconnected(i) && i < Accepted(Init(evs))))
  }

  /** Frames of one format, all of which are data or commands there is an answer to. */
  predicate Compliant(fs: seq<WireFrame>) {
    forall k :: 0 <= k < |fs| ==> FormatOf(fs[k]) == FormatOf(fs[0]) && (fs[k].EscapedFrame? ==> IsCommand(fs[k]))
  }

  /** The connection of client `i` has not been closed, neither by its peer nor by a violation nor by the shutdown. */
  predicate Behaves(cfg: Config, evs: seq<Event>, i: nat) {
    Stopped !in evs && !HungUp(evs, i) && Compliant(FramesHandled(cfg, evs, i))
  }

  /** Who is there, and whether the gateway runs, can be told from the events. */
  lemma {:induction false} AcceptedAndStopped(cfg: Config, evs: seq<Event>)
    ensures |Run(cfg, INITIAL, evs).clients| == Accepted(evs)
    ensures Run(cfg, INITIAL, evs).running <==> Stopped !in evs
    decreases |evs|
  {
    if evs != [] {
      var g, e := Run(cfg, INITIAL, Init(evs)), Last(evs);
      AcceptedAndStopped(cfg, Init(evs));
      StepCountsClients(cfg, g, e);
      StepStops(cfg, g, e);
      assert evs == Init(evs) + [e];
    }
  }

  lemma StepStops(cfg: Config, g: Gateway, e: Event)
    ensures Step(cfg, g, e).running <==> g.running && !e.Stopped?
  {
    if e.Stopped? && g.running {
      CloseAllStops(g.(running := false));
    }
  }

  lemma {:induction false} CloseAllStops(g: Gateway)
    ensures CloseAll(g).running == g.running
    decreases |g.roster|
  {
    if g.roster != [] && g.clients[g.roster[0]].registered {
      CloseAllStops(Unregister(g, g.roster[0]));
    }
  }

  lemma CompliesUnlessViolation(s: Proto, rcv: seq<WireFrame>, f: WireFrame)
    requires s.mode == if rcv == [] then Unknown else FormatOf(rcv[0])
    ensures Compliant(rcv + [f]) <==> Compliant(rcv) && !Violates(s, f)
  {
    var all := rcv + [f];
    assert all[|rcv|] == f && forall k :: 0 <= k < |rcv| ==> all[k] == rcv[k];
    if Compliant(all) {
      forall k | 0 <= k < |rcv|
        ensures FormatOf(rcv[k]) == FormatOf(rcv[0]) && (rcv[k].EscapedFrame? ==> IsCommand(rcv[k]))
      {
        assert all[k] == rcv[k];
      }
    }
  }

  lemma {:induction false} NobodyHungUpBeforeConnection(evs: seq<Event>, i: nat)
    requires i >= Accepted(evs)
    ensures !HungUp(evs, i)
    decreases |evs|
  {
    if evs != [] {
      NobodyHungUpBeforeConnection(Init(evs), i);
    }
  }

  /**
   A connection is a matter of its own client's conduct: it is there if and only if the client has
   connected, the gateway has not been stopped, the connection was not closed by its peer, and all frames
   handled for it were of the format of the first one and, in escaping mode, known commands.
   */
  lemma {:induction false} RegisteredIffCompliant(cfg: Config, evs: seq<Event>, i: nat)
    ensures var g := Run(cfg, INITIAL, evs);
            g.Has(i) && g.clients[i].registered <==> i < Accepted(evs) && Behaves(cfg, evs, i)
    decreases |evs|
  {
    AcceptedAndStopped(cfg, evs);
    if evs != [] && Run(cfg, INITIAL, evs).Has(i) {
      var before := Init(evs);
      RegisteredIffCompliant(cfg, before, i);
      AcceptedAndStopped(cfg, before);
      BehavesNext(cfg, evs, i);
      if Run(cfg, INITIAL, before).Has(i) {
        ConductStep(cfg, before, Last(evs), i);
      } else {
        NoFramesBeforeConnection(cfg, before, i);
        NobodyHungUpBeforeConnection(before, i);
      }
    }
  }

  /** Conduct, one event at a time. */
  lemma BehavesNext(cfg: Config, evs: seq<Event>, i: nat)
    requires evs != []
    ensures var e := Last(evs);
            Behaves(cfg, evs, i) <==>
              && Stopped !in Init(evs) && e != Stopped
              && !HungUp(Init(evs), i) && !(e == Disconnected(i) && i < Accepted(Init(evs)))
              && Compliant(FramesHandled(cfg, Init(evs), i) + FrameOf(cfg, Run(cfg, INITIAL, Init(evs)), e, i))
  {
    assert evs == Init(evs) + [Last(evs)];
  }

  /** How one more event changes either side. */
  lemma ConductStep(cfg: Config, evs: seq<Event>, e: Event, i: nat)
    requires var g := Run(cfg, INITIAL, evs);
             g.Has(i) && (g.running <==> Stopped !in evs) && (g.clients[i].registered <==> Behaves(cfg, evs, i))
    ensures var g := Run(cfg, INITIAL, evs);
            && Step(cfg, g, e).Has(i)
            && (Step(cfg, g, e).clients[i].registered <==>
                  && Stopped !in evs && e != Stopped && !HungUp(evs, i) && e != Disconnected(i)
                  && Compliant(FramesHandled(cfg, evs, i) + FrameOf(cfg, g, e, i)))
  {
    var g, rcv := Run(cfg, INITIAL, evs), FramesHandled(cfg, evs, i);
    RunIsConsistent(cfg, evs);
    StepEvolves(cfg, g, e, i);
    CompliesNext(cfg, evs, e, i);
    if g.clients[i].registered {
      StepKeepsUnlessGone(cfg, g, e, i);
    }
  }

  lemma CompliesNext(cfg: Config, evs: seq<Event>, e: Event, i: nat)
    requires Run(cfg, INITIAL, evs).Has(i)
    ensures var g, rcv := Run(cfg, INITIAL, evs), FramesHandled(cfg, evs, i);
            Compliant(rcv + FrameOf(cfg, g, e, i)) <==>
              Compliant(rcv) &&
              !(e.FrameFrom? && e.i == i && CanHappen(cfg, g, e) && Violates(g.clients[i].proto, e.f))
  {
    var g, rcv := Run(cfg, INITIAL, evs), FramesHandled(cfg, evs, i);
    ClientsAreServedInTheirFormat(cfg, evs, i);
    if e.FrameFrom? {
      CompliesUnlessViolation(g.clients[i].proto, rcv, e.f);
    }
    assert rcv + [] == rcv;
  }

  // ----------------------------------------------------------- subscriptions

  /** The messages of client `i` that reached the publish / subscribe service. */
  function PubSubRequests(cfg: Config, evs: seq<Event>, i: nat): seq<Message>
    decreases |evs|
  {
    if evs == [] then []
    else PubSubRequests(cfg, Init(evs), i) + PubSubRequest(cfg, Run(cfg, INITIAL, Init(evs)), Last(evs), i)
  }

  function PubSubRequest(cfg: Config, g: Gateway, e: Event, i: nat): seq<Message> {
    if e.FrameFrom? && e.i == i && CanHappen(cfg, g, e) then
      var o := Carried(cfg, g.clients[i].proto, e.f);
      if o.Some? && o.value.dstSSA == 0x4000 then [o.value] else []
    else []
  }

  lemma StepSubscribes(cfg: Config, g: Gateway, e: Event, i: nat, requests: seq<Message>)
    requires Distinct(g.roster) && g.Has(i) && g.clients[i].ids == PS.After(requests)
    ensures Step(cfg, g, e).Has(i)
    ensures Step(cfg, g, e).clients[i].ids == PS.After(requests + PubSubRequest(cfg, g, e, i))
  {
    assert requests + [] == requests;
    if CanHappen(cfg, g, e) {
      match e {
        case Connected =>
        case FrameFrom(j, f) =>
          FrameSubscribes(cfg, g, j, f, i, requests);
        case PacketFromHdlcd(data) =>
          if cfg.codec.parse(data).Some? {
            FanoutOffersOnce(cfg, g.clients, g.roster, cfg.codec.parse(data).value);
          }
        case Disconnected(j) =>
        case Stopped =>
          CloseAllEvolves(g.(running := false), i);
      }
    }
  }

  lemma MessageSubscribes(cfg: Config, a: Gateway, j: nat, m: Message, i: nat)
    requires Distinct(a.roster) && a.Has(i) && a.Has(j) && (AS.IsRequest(m) ==> |m.payload| >= 6)
    ensures OnMessage(cfg, a, j, m).Has(i)
    ensures OnMessage(cfg, a, j, m).clients[i].ids ==
            if m.dstSSA == 0x4000 && j == i then PS.Process(a.clients[i].ids, m, 0).0 else a.clients[i].ids
  {
    if m.dstSSA == 0x4000 {
      PS.RepliesAnswerRequests(a.clients[j].ids, m, a.clients[j].Address());
    } else if m.dstSSA != 0x3FFC {
      FanoutOffersOnce(cfg, a.clients, a.roster, Masquerade(m, a.clients[j].Address()));
    }
  }

  lemma FrameSubscribes(cfg: Config, g: Gateway, j: nat, f: WireFrame, i: nat, requests: seq<Message>)
    requires CanHappen(cfg, g, FrameFrom(j, f)) && Distinct(g.roster)
    requires g.Has(i) && g.clients[i].ids == PS.After(requests)
    ensures HandleFrame(cfg, g, j, f).Has(i)
    ensures HandleFrame(cfg, g, j, f).clients[i].ids == PS.After(requests + PubSubRequest(cfg, g, FrameFrom(j, f), i))
  {
    assert requests + [] == requests;
    var o := Carried(cfg, g.clients[j].proto, f);
    if o.Some? {
      var a := Acknowledged(g, j, f);
      MessageSubscribes(cfg, a, j, o.value, i);
      var all := requests + [o.value];
      assert all[..|all| - 1] == requests;
      assert HandleFrame(cfg, g, j, f) == OnMessage(cfg, a, j, o.value);
    }
  }

  /** In every run a client is subscribed to an id if and only if its last request naming it was to subscribe. */
  lemma {:induction false} SubscribedIffLastAskedFor(cfg: Config, evs: seq<Event>, i: nat, id: byte)
    requires Run(cfg, INITIAL, evs).Has(i)
    ensures id in Run(cfg, INITIAL, evs).clients[i].ids <==> PS.LastNamedBySubscribe(PubSubRequests(cfg, evs, i), id)
  {
    SubscriptionsFollowRequests(cfg, evs, i);
    PS.SubscriptionsAreHistory(PubSubRequests(cfg, evs, i), id);
  }

  lemma {:induction false} SubscriptionsFollowRequests(cfg: Config, evs: seq<Event>, i: nat)
    requires Run(cfg, INITIAL, evs).Has(i)
    ensures Run(cfg, INITIAL, evs).clients[i].ids == PS.After(PubSubRequests(cfg, evs, i))
    decreases |evs|
  {
    var g, e := Run(cfg, INITIAL, Init(evs)), Last(evs);
    RunIsConsistent(cfg, Init(evs));
    ClientsAreNotForgotten(cfg, g, e, i);
    if g.Has(i) {
      SubscriptionsFollowRequests(cfg, Init(evs), i);
      StepSubscribes(cfg, g, e, i, PubSubRequests(cfg, Init(evs), i));
    } else {
      NoFramesBeforeConnection(cfg, Init(evs), i);
    }
  }
}
