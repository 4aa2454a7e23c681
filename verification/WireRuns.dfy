/**
 The gateway on octets: every client writes a stream of octets, in pieces that mix arbitrarily with
 those of the others, and reads the octets of the frames it is sent. The frame-level runs of the
 other modules are what such a run amounts to.
 */
module WireRuns {
  import opened Octets
  import opened FrameStream
  import opened AccessProtocol
  import opened GatewayModel
  import opened GatewayInvariants
  import opened GatewayRuns
  import opened GatewayDelivery
  import opened GatewayHistory

  /** The events the gateway has handled, and where the reception of every client stands. */
  datatype Net = Net(history: seq<Event>, links: seq<Link>)

  const NEW_NET := Net([], [])

  datatype NetEvent =
    | Connect
    | Octet(i: nat, b: byte)
    | FromHdlcd(data: seq<byte>)
    | Hangup(i: nat)
    | Stop

  /** An octet that completes a frame leads to this frame, one that fits nowhere to a close. */
  function Meaning(n: Net, e: NetEvent): seq<Event>
    requires e.Octet? ==> e.i < |n.links|
  {
    match e
    case Connect => [Connected]
    case Octet(i, b) =>
      var (k, o) := Receive(n.links[i], b);
      if o.Some? then [FrameFrom(i, o.value)] else if k == Down then [Disconnected(i)] else []
    case FromHdlcd(data) => [PacketFromHdlcd(data)]
    case Hangup(i) => [Disconnected(i)]
    case Stop => [Stopped]
  }

  function Links(n: Net, e: NetEvent): seq<Link>
    requires e.Octet? ==> e.i < |n.links|
  {
    match e
    case Connect => n.links + [Idle]
    case Octet(i, b) => n.links[i := Receive(n.links[i], b).0]
    case _ => n.links
  }

  /** The gateway after the events of a net. */
  function GatewayOf(cfg: Config, n: Net): Gateway {
    Run(cfg, INITIAL, n.history)
  }

  /** Octets are read from open connections, within the preconditions of what they lead to. */
  predicate Reads(cfg: Config, n: Net, i: nat, b: byte) {
    var g := GatewayOf(cfg, n);
    && g.running && i < |n.links| && g.Has(i) && g.clients[i].proto.open
    && (Receive(n.links[i], b).1.Some? ==> CanHappen(cfg, g, FrameFrom(i, Receive(n.links[i], b).1.value)))
  }

  /** Octets that are not read are skipped, as are connections that are not accepted any more. */
  predicate Takes(cfg: Config, n: Net, e: NetEvent) {
    match e
    case Octet(i, b) => Reads(cfg, n, i, b)
    case Connect => GatewayOf(cfg, n).running
    case _ => true
  }

  function NetStep(cfg: Config, n: Net, e: NetEvent): Net {
    if Takes(cfg, n, e) then Net(n.history + Meaning(n, e), Links(n, e)) else n
  }

  function NetRun(cfg: Config, evs: seq<NetEvent>): Net {
    if evs == [] then NEW_NET else NetStep(cfg, NetRun(cfg, evs[..|evs| - 1]), evs[|evs| - 1])
  }

  /** The octets of client `i` that the gateway has read. */
  function OctetsRead(cfg: Config, evs: seq<NetEvent>, i: nat): seq<byte> {
    if evs == [] then []
    else OctetsRead(cfg, evs[..|evs| - 1], i) + Read(cfg, NetRun(cfg, evs[..|evs| - 1]), evs[|evs| - 1], i)
  }

  function Read(cfg: Config, n: Net, e: NetEvent, i: nat): seq<byte> {
    if e.Octet? && e.i == i && Takes(cfg, n, e) then [e.b] else []
  }

  /** There is one reception for every client. */
  predicate Sound(cfg: Config, n: Net) {
    |n.links| == |GatewayOf(cfg, n).clients|
  }

  lemma NetStepIsSound(cfg: Config, n: Net, e: NetEvent)
    requires Sound(cfg, n)
    ensures Sound(cfg, NetStep(cfg, n, e))
  {
    if Takes(cfg, n, e) {
      var m := Meaning(n, e);
      if m == [] {
        assert n.history + m == n.history;
      } else {
        assert m == [m[0]];
        RunNext(cfg, INITIAL, n.history, m[0]);
        StepCountsClients(cfg, GatewayOf(cfg, n), m[0]);
      }
    }
  }

  lemma {:induction false} NetRunIsSound(cfg: Config, evs: seq<NetEvent>)
    ensures Sound(cfg, NetRun(cfg, evs))
  {
    if evs != [] {
      NetRunIsSound(cfg, evs[..|evs| - 1]);
      NetStepIsSound(cfg, NetRun(cfg, evs[..|evs| - 1]), evs[|evs| - 1]);
    }
  }

  lemma FramesHandledNext(cfg: Config, evs: seq<Event>, e: Event, i: nat)
    ensures FramesHandled(cfg, evs + [e], i) == FramesHandled(cfg, evs, i) + FrameOf(cfg, Run(cfg, INITIAL, evs), e, i)
  {
    assert Init(evs + [e]) == evs && Last(evs + [e]) == e;
  }

  lemma ListenOne(w: seq<byte>, b: byte)
    ensures var (k, fs) := Listen(Idle, w);
            var (r, o) := Receive(k, b);
            Listen(Idle, w + [b]) == (r, fs + Listed(o))
  {
    var (k, fs) := Listen(Idle, w);
    var (r, o) := Receive(k, b);
    ListenConcat(Idle, w, [b]);
    assert Listen(r, [b][1..]) == (r, []);
    assert [b][1..] == [];
    assert Listed(o) + [] == Listed(o);
  }

  /** Where the reception of a client stands, and which frames it has led to, depends on its own octets alone. */
  predicate Heeds(cfg: Config, n: Net, i: nat, w: seq<byte>) {
    i < |n.links| && (n.links[i], FramesHandled(cfg, n.history, i)) == Listen(Idle, w)
  }

  lemma HeedsOwnOctet(cfg: Config, n: Net, i: nat, b: byte, w: seq<byte>)
    requires Heeds(cfg, n, i, w) && Reads(cfg, n, i, b)
    ensures Heeds(cfg, NetStep(cfg, n, Octet(i, b)), i, w + [b])
  {
    ListenOne(w, b);
    var m := Meaning(n, Octet(i, b));
    var fs := FramesHandled(cfg, n.history, i);
    assert fs + [] == fs;
    if m == [] {
      assert n.history + m == n.history;
    } else {
      assert m == [m[0]];
      FramesHandledNext(cfg, n.history, m[0], i);
    }
  }

  lemma HeedsOthers(cfg: Config, n: Net, e: NetEvent, i: nat, w: seq<byte>)
    requires Heeds(cfg, n, i, w) && Takes(cfg, n, e) && !(e.Octet? && e.i == i)
    ensures Heeds(cfg, NetStep(cfg, n, e), i, w)
  {
    var m := Meaning(n, e);
    var fs := FramesHandled(cfg, n.history, i);
    assert fs + [] == fs;
    if m == [] {
      assert n.history + m == n.history;
    } else {
      assert m == [m[0]];
      FramesHandledNext(cfg, n.history, m[0], i);
    }
  }

  lemma HeedsStep(cfg: Config, n: Net, e: NetEvent, i: nat, w: seq<byte>)
    requires Heeds(cfg, n, i, w)
    ensures Heeds(cfg, NetStep(cfg, n, e), i, w + Read(cfg, n, e, i))
  {
    assert w + [] == w;
    if Takes(cfg, n, e) {
      if e.Octet? && e.i == i {
        HeedsOwnOctet(cfg, n, i, e.b, w);
      } else {
        HeedsOthers(cfg, n, e, i, w);
      }
    }
  }

  lemma BeginsListening(cfg: Config, n: Net, i: nat)
    requires Sound(cfg, n) && i == |n.links| && GatewayOf(cfg, n).running
    ensures Heeds(cfg, NetStep(cfg, n, Connect), i, [])
  {
    NoFramesBeforeConnection(cfg, n.history, i);
    FramesHandledNext(cfg, n.history, Connected, i);
  }

  lemma {:induction false} ReceptionIsListening(cfg: Config, evs: seq<NetEvent>, i: nat)
    ensures if i < |NetRun(cfg, evs).links| then Heeds(cfg, NetRun(cfg, evs), i, OctetsRead(cfg, evs, i))
            else OctetsRead(cfg, evs, i) == []
  {
    if evs != [] {
      var before, e := evs[..|evs| - 1], evs[|evs| - 1];
      var n := NetRun(cfg, before);
      ReceptionIsListening(cfg, before, i);
      NetRunIsSound(cfg, before);
      if i < |n.links| {
        HeedsStep(cfg, n, e, i, OctetsRead(cfg, before, i));
      } else if Takes(cfg, n, e) && i < |Links(n, e)| {
        BeginsListening(cfg, n, i);
      }
    }
  }

  /** What is written to the socket of a client. */
  function Outgoing(s: Proto): seq<byte> {
    EncodeAll(s.sent)
  }

  /**
   The gateway as its clients see it, octets in and octets out, in every run and whatever client `i` writes,
   however cut into pieces and mixed with what the others do. The frames handled for it, and where its
   reception stands, are those of its own octets; and decoding what it reads back yields what it is owed,
   all of it: frames in the format of its first one only, of which those that are not data are the answers
   to its commands, in order; and nothing at all before its first frame.
   */
  lemma OctetsInOctetsOut(cfg: Config, evs: seq<NetEvent>, i: nat)
    requires i < |NetRun(cfg, evs).links|
    ensures var n := NetRun(cfg, evs);
            var (k, fs) := Listen(Idle, OctetsRead(cfg, evs, i));
            && n.links[i] == k && FramesHandled(cfg, n.history, i) == fs
            && GatewayOf(cfg, n).Has(i)
            && var (l, read) := Listen(Idle, Outgoing(GatewayOf(cfg, n).clients[i].proto));
               && l == Idle && read == AllOwed(cfg, n.history, i)
               && (fs == [] ==> read == [])
               && (forall f :: f in read ==> FormatOf(f) == FormatOf(fs[0]))
               && (fs != [] ==> Acks(read) == if fs[0].EscapedFrame? then AnswersDue(fs) else [])
  {
    var n := NetRun(cfg, evs);
    NetRunIsSound(cfg, evs);
    ReceptionIsListening(cfg, evs, i);
    ClientsAreServedInTheirFormat(cfg, n.history, i);
    LogIsWhatWasOwed(cfg, n.history, i);
    UniqueDecoding(GatewayOf(cfg, n).clients[i].proto.sent, []);
  }

  /** In particular, a client that wrote the frames `fs` back to back has had exactly `fs` handled. */
  lemma ServedOverTheWire(cfg: Config, evs: seq<NetEvent>, i: nat, fs: seq<WireFrame>)
    requires i < |NetRun(cfg, evs).links| && OctetsRead(cfg, evs, i) == EncodeAll(fs)
    ensures var n := NetRun(cfg, evs);
            && n.links[i] == Idle && FramesHandled(cfg, n.history, i) == fs
            && GatewayOf(cfg, n).Has(i)
            && var (k, read) := Listen(Idle, Outgoing(GatewayOf(cfg, n).clients[i].proto));
               && k == Idle && read == AllOwed(cfg, n.history, i)
               && (fs == [] ==> read == [])
               && (forall f :: f in read ==> FormatOf(f) == FormatOf(fs[0]))
               && (fs != [] ==> Acks(read) == if fs[0].EscapedFrame? then AnswersDue(fs) else [])
  {
    OctetsInOctetsOut(cfg, evs, i);
    UniqueDecoding(fs, []);
  }

  // ----------------------------------------------------------------- conduct

  /** Client `i` has connected, and its peer has closed the connection. */
  predicate PeerHungUp(cfg: Config, evs: seq<NetEvent>, i: nat)
    decreases |evs|
  {
    evs != [] &&
    var before := evs[..|evs| - 1];
    PeerHungUp(cfg, before, i) || (evs[|evs| - 1] == Hangup(i) && i < |NetRun(cfg, before).links|)
  }

  /** The reception of client `i` has come upon octets that no decoder accepts. */
  predicate Refused(n: Net, i: nat) {
    i < |n.links| && n.links[i] == Down
  }

  lemma HungUpNext(evs: seq<Event>, e: Event, i: nat)
    ensures HungUp(evs + [e], i) <==> HungUp(evs, i) || (e == Disconnected(i) && i < Accepted(evs))
    ensures Stopped in evs + [e] <==> Stopped in evs || e == Stopped
  {
    assert Init(evs + [e]) == evs && Last(evs + [e]) == e;
  }

  /** A connection is closed by its peer, or because what it sent was refused. */
  lemma NetStepHangsUp(cfg: Config, n: Net, e: NetEvent, i: nat)
    requires Sound(cfg, n) && (Refused(n, i) ==> HungUp(n.history, i))
    ensures HungUp(NetStep(cfg, n, e).history, i) <==>
              || (HungUp(n.history, i) && !Refused(n, i)) || Refused(NetStep(cfg, n, e), i)
              || (e == Hangup(i) && i < |n.links|)
    ensures Refused(n, i) ==> Refused(NetStep(cfg, n, e), i)
  {
    AcceptedAndStopped(cfg, n.history);
    if Takes(cfg, n, e) {
      NobodyHungUp(n, i);
      HistoryHangsUp(n, Meaning(n, e), i);
      if e.Octet? {
        OctetHangsUp(n, e.i, e.b, i);
      }
    }
  }

  /** A history of at most one event more. */
  lemma HistoryHangsUp(n: Net, m: seq<Event>, i: nat)
    requires |m| <= 1
    ensures HungUp(n.history + m, i) <==> HungUp(n.history, i) || (m == [Disconnected(i)] && i < Accepted(n.history))
  {
    if m == [] {
      assert n.history + m == n.history;
    } else {
      assert m == [m[0]];
      HungUpNext(n.history, m[0], i);
    }
  }

  lemma OctetHangsUp(n: Net, j: nat, b: byte, i: nat)
    requires j < |n.links|
    ensures var m := Net(n.history, n.links[j := Receive(n.links[j], b).0]);
            && (Meaning(n, Octet(j, b)) == [Disconnected(i)] <==> j == i && Refused(m, i))
            && (j != i ==> (Refused(m, i) <==> Refused(n, i)))
            && (Refused(n, i) ==> Refused(m, i))
  {
  }

  lemma NobodyHungUp(n: Net, i: nat)
    ensures i >= Accepted(n.history) ==> !HungUp(n.history, i)
  {
    if i >= Accepted(n.history) {
      NobodyHungUpBeforeConnection(n.history, i);
    }
  }

  lemma {:induction false} HangupsAndRefusals(cfg: Config, evs: seq<NetEvent>, i: nat)
    ensures HungUp(NetRun(cfg, evs).history, i) <==> PeerHungUp(cfg, evs, i) || Refused(NetRun(cfg, evs), i)
  {
    if evs != [] {
      var before := evs[..|evs| - 1];
      HangupsAndRefusals(cfg, before, i);
      NetRunIsSound(cfg, before);
      NetStepHangsUp(cfg, NetRun(cfg, before), evs[|evs| - 1], i);
    }
  }

  lemma {:induction false} StopsInHistory(cfg: Config, evs: seq<NetEvent>)
    ensures Stopped in NetRun(cfg, evs).history <==> Stop in evs
  {
    if evs != [] {
      var before, e := evs[..|evs| - 1], evs[|evs| - 1];
      StopsInHistory(cfg, before);
      assert evs == before + [e];
      StepStopsHistory(cfg, NetRun(cfg, before), e);
    }
  }

  lemma StepStopsHistory(cfg: Config, n: Net, e: NetEvent)
    ensures Stopped in NetStep(cfg, n, e).history <==> Stopped in n.history || e == Stop
  {
  }

  /**
   A connection lasts, in terms of what its client does on the socket, exactly until the gateway stops, the
   client closes it, or the client's octets go wrong: they are refused by the decoders, or are frames of two
   formats, or an escaping frame that is no command.
   */
  lemma ConnectedIffInOrder(cfg: Config, evs: seq<NetEvent>, i: nat)
    requires i < |NetRun(cfg, evs).links|
    ensures var g := GatewayOf(cfg, NetRun(cfg, evs));
            var (k, fs) := Listen(Idle, OctetsRead(cfg, evs, i));
            && g.Has(i)
            && (g.clients[i].registered <==>
                  Stop !in evs && !PeerHungUp(cfg, evs, i) && k != Down && Compliant(fs))
  {
    var n := NetRun(cfg, evs);
    NetRunIsSound(cfg, evs);
    ReceptionIsListening(cfg, evs, i);
    HangupsAndRefusals(cfg, evs, i);
    StopsInHistory(cfg, evs);
    RegisteredIffCompliant(cfg, n.history, i);
    AcceptedAndStopped(cfg, n.history);
  }

  // -------------------------------------------------------- request / response

  lemma NetNext(cfg: Config, evs: seq<NetEvent>, e: NetEvent)
    ensures NetRun(cfg, evs + [e]) == NetStep(cfg, NetRun(cfg, evs), e)
  {
    assert (evs + [e])[..|evs|] == evs;
  }

  /** What happens later is added to the history. */
  lemma {:induction false} HistoryGrows(cfg: Config, evs: seq<NetEvent>, more: seq<NetEvent>) returns (es: seq<Event>)
    ensures NetRun(cfg, evs + more).history == NetRun(cfg, evs).history + es
    decreases |more|
  {
    es := [];
    if more == [] {
      assert evs + more == evs;
    } else {
      var before, last := more[..|more| - 1], more[|more| - 1];
      es := HistoryGrows(cfg, evs, before);
      es := GrowsByStep(cfg, NetRun(cfg, evs).history, evs + before, last, es);
      SplitLast(evs, more);
    }
  }

  lemma SplitLast(evs: seq<NetEvent>, more: seq<NetEvent>)
    requires more != []
    ensures evs + more == evs + more[..|more| - 1] + [more[|more| - 1]]
  {
  }

  lemma GrowsByStep(cfg: Config, base: seq<Event>, evs: seq<NetEvent>, e: NetEvent, es: seq<Event>)
      returns (es': seq<Event>)
    requires NetRun(cfg, evs).history == base + es
    ensures NetRun(cfg, evs + [e]).history == base + es'
  {
    NetNext(cfg, evs, e);
    var r := Recorded(cfg, NetRun(cfg, evs), e);
    es' := es + r;
    assert (base + es) + r == base + (es + r);
  }

  /** What an event adds to the history. */
  function Recorded(cfg: Config, n: Net, e: NetEvent): (es: seq<Event>)
    ensures NetStep(cfg, n, e).history == n.history + es
  {
    if Takes(cfg, n, e) then Meaning(n, e) else []
  }

  /** An octet upon which a packet leaves for the HDLCd completes a frame of its client. */
  lemma RequestOctet(cfg: Config, n: Net, i: nat, b: byte) returns (f: WireFrame)
    requires |GatewayOf(cfg, NetStep(cfg, n, Octet(i, b))).uplink| > |GatewayOf(cfg, n).uplink|
    ensures NetStep(cfg, n, Octet(i, b)).history == n.history + [FrameFrom(i, f)]
  {
    f := EscapedFrame([]);
    assert n.history + [] == n.history;
    if Takes(cfg, n, Octet(i, b)) {
      var m := Meaning(n, Octet(i, b));
      if m != [] {
        if m[0].FrameFrom? {
          f := m[0].f;
        } else {
          RunNext(cfg, INITIAL, n.history, m[0]);
        }
      }
    }
  }

  /** What the clients read when a packet arrives from the HDLCd: client `i` a frame with it, the others nothing. */
  ghost predicate OnlyReads(cfg: Config, n: Net, i: nat, data: seq<byte>) {
    var k, r := GatewayOf(cfg, n), GatewayOf(cfg, NetStep(cfg, n, FromHdlcd(data)));
    && |r.clients| == |k.clients| && k.Has(i) && cfg.codec.parse(data).Some?
    && (forall j :: 0 <= j < |k.clients| && j != i ==> Outgoing(r.clients[j].proto) == Outgoing(k.clients[j].proto))
    && var p := cfg.codec.serialize(cfg.codec.parse(data).value);
       var before, after := Outgoing(k.clients[i].proto), Outgoing(r.clients[i].proto);
       match k.clients[i].proto.mode
       case Unknown => false
       case Escaping => |p| <= 4093 && after == before + Encode(EscapedFrame([0x03, 0x02] + p))
       case Length => |p| <= 4095 && after == before + Encode(LengthFrame(p))
  }

  lemma GetsIsReads(cfg: Config, n: Net, i: nat, data: seq<byte>)
    requires OnlyGets(cfg, n.history, i, data)
    ensures OnlyReads(cfg, n, i, data)
  {
    var k, r := GatewayOf(cfg, n), GatewayOf(cfg, NetStep(cfg, n, FromHdlcd(data)));
    var sent, sent' := k.clients[i].proto.sent, r.clients[i].proto.sent;
    EncodeAllAppend(sent, sent'[|sent|]);
    assert sent' == sent + [sent'[|sent|]];
  }

  /**
   Request and response on the sockets. Let an octet of client `i` complete a packet that leaves for the
   HDLCd under a client address as its source. Whatever all clients and the HDLCd do afterwards, as long
   as the connection of client `i` is not closed, a packet to that source, if it fits a frame of the
   client, adds the encoding of one frame, which carries it, to what this client reads, and nothing to
   what the others read; all that as long as 65536 addresses have sufficed.
   */
  lemma ReplyIsReadByRequester(
      cfg: Config, before: seq<NetEvent>, i: nat, b: byte, between: seq<NetEvent>, data: seq<byte>)
    requires var g, h := GatewayOf(cfg, NetRun(cfg, before)), GatewayOf(cfg, NetRun(cfg, before + [Octet(i, b)]));
             |h.uplink| > |g.uplink| && IsReply(cfg, h, i, data)
    requires var n := NetRun(cfg, before + [Octet(i, b)] + between);
             Behaves(cfg, n.history, i) && PeakClients(cfg, n.history) <= 0x1_0000
    ensures OnlyReads(cfg, NetRun(cfg, before + [Octet(i, b)] + between), i, data)
  {
    NetNext(cfg, before, Octet(i, b));
    var es := HistoryGrows(cfg, before + [Octet(i, b)], between);
    ReplyAfterOctet(cfg, NetRun(cfg, before), i, b, es, data);
    GetsIsReads(cfg, NetRun(cfg, before + [Octet(i, b)] + between), i, data);
  }

  lemma ReplyAfterOctet(cfg: Config, n: Net, i: nat, b: byte, es: seq<Event>, data: seq<byte>)
    requires var g, h := GatewayOf(cfg, n), GatewayOf(cfg, NetStep(cfg, n, Octet(i, b)));
             |h.uplink| > |g.uplink| && IsReply(cfg, h, i, data)
    requires var evs := NetStep(cfg, n, Octet(i, b)).history + es;
             Behaves(cfg, evs, i) && PeakClients(cfg, evs) <= 0x1_0000
    ensures OnlyGets(cfg, NetStep(cfg, n, Octet(i, b)).history + es, i, data)
  {
    var f := RequestOctet(cfg, n, i, b);
    var asked := NetStep(cfg, n, Octet(i, b)).history;
    RunIsConsistent(cfg, n.history);
    RunNext(cfg, INITIAL, n.history, FrameFrom(i, f));
    BehavedStays(cfg, GatewayOf(cfg, n), i, f, asked, es);
    ReplyReturns(cfg, GatewayOf(cfg, n), i, f, asked, es, data);
  }

  /** A connection that is not closed at the end was not closed in between. */
  lemma BehavedStays(cfg: Config, g: Gateway, i: nat, f: WireFrame, asked: seq<Event>, es: seq<Event>)
    requires Consistent(g) && Run(cfg, INITIAL, asked) == Step(cfg, g, FrameFrom(i, f))
    requires |Run(cfg, INITIAL, asked).uplink| > |g.uplink|
    requires Behaves(cfg, asked + es, i)
    ensures Stays(cfg, Run(cfg, INITIAL, asked), es, i)
  {
    RequestCarriesLease(cfg, g, i, f);
    RunIsConsistent(cfg, asked);
    RunConcat(cfg, INITIAL, asked, es);
    RegisteredIffStays(cfg, Run(cfg, INITIAL, asked), es, i);
    RegisteredIffCompliant(cfg, asked + es, i);
    AcceptedAndStopped(cfg, asked + es);
  }
}
