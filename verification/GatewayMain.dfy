/**
 The program: it wires the three components together and runs the io loop. `history` records the
 events so far; the objects are always in the state that the model's run over this history ends in,
 so every theorem about runs is a theorem about them.
 */
module GatewayMain {
  import opened Octets
  import opened FrameStream
  import opened GatewayModel
  import opened GatewayInvariants
  import opened GatewayRuns
  import opened GatewayServer

  class SnetGateway {
    const cfg: Config
    const collection: GatewayAccessServerHandlerCollection
    const hdlcd: HdlcdClientHandlerCollection
    const routing: Routing
    ghost var history: seq<Event>

    ghost predicate Valid()
      reads this, collection, collection.pool, collection.uplink, collection.ever
      reads collection.Protocols(), collection.PubSubs()
    {
      Joined() && LeadsTo(collection.State(), history)
    }

    ghost predicate Joined()
      reads collection, collection.ever
    {
      && routing.Connects(collection) && routing.collection == collection
      && hdlcd == collection.uplink && cfg == collection.cfg
      && collection.Wired()
    }

    /** The state that a sequence of events leads to. */
    ghost predicate LeadsTo(g: State, evs: seq<Event>) {
      g == Run(cfg, INITIAL, evs)
    }

    constructor (cfg: Config)
      ensures Valid() && history == [] && this.cfg == cfg
    {
      var uplink := new HdlcdClientHandlerCollection();
      var c := new GatewayAccessServerHandlerCollection(cfg, uplink);
      var r := new Routing(c, uplink, cfg);
      this.cfg, hdlcd, collection, routing, history := cfg, uplink, c, r, [];
      new;
      c.Initialize(r);
    }

    /** A TCP connection is accepted. */
    method OnConnected() returns (h: GatewayAccessServerHandler)
      requires Valid() && collection.accepting
      modifies this, collection, collection.pool
      ensures Valid() && history == old(history) + [Connected]
      ensures collection.ever == old(collection.ever) + [h]
    {
      ghost var before := collection.State();
      h := collection.DoAccept();
      Record(before, Connected);
    }

    /** A client has sent a complete frame. */
    method OnFrameFrom(h: GatewayAccessServerHandler, f: WireFrame)
      requires Valid() && collection.Knows(h)
      requires CanHappen(cfg, collection.State(), FrameFrom(h.id, f))
      modifies this, h, h.pubSub, collection, collection.pool, hdlcd, collection.Protocols()
      ensures Valid() && history == old(history) + [FrameFrom(h.id, f)]
      ensures collection.ever == old(collection.ever)
    {
      ghost var before := collection.State();
      ConsistentIsLive(h);
      h.OnFrame(f);
      Record(before, FrameFrom(h.id, f));
    }

    /** One of the HDLC daemons has delivered a packet. */
    method OnPacketFromHdlcd(client: HdlcdClientHandler, data: seq<byte>)
      requires Valid() && client.routing == routing
      requires CanHappen(cfg, collection.State(), PacketFromHdlcd(data))
      modifies this, hdlcd, collection.Protocols()
      ensures Valid() && history == old(history) + [PacketFromHdlcd(data)]
    {
      ghost var before := collection.State();
      AllLive();
      client.OnData(data);
      Record(before, PacketFromHdlcd(data));
    }

    /** The connection of a client has ended, for the first time or once more. */
    method OnDisconnected(h: GatewayAccessServerHandler)
      requires Valid() && collection.Knows(h) && collection.accepting
      modifies this, h, h.protocol, collection, collection.pool
      ensures Valid() && history == old(history) + [Disconnected(h.id)]
      ensures collection.ever == old(collection.ever)
    {
      ghost var before := collection.State();
      KnownStanding(h);
      DisconnectIsStep(before, h.id);
      h.OnClosed();
      Record(before, Disconnected(h.id));
    }

    /** A signal has ended the io loop. */
    method OnStopped()
      requires Valid() && collection.accepting
      modifies this, collection, collection.pool, collection.ever
      ensures Valid() && history == old(history) + [Stopped]
      ensures collection.ever == old(collection.ever)
    {
      ghost var before := collection.State();
      AllLive();
      collection.SystemShutdown();
      Record(before, Stopped);
    }

    lemma DisconnectIsStep(g: Gateway, i: nat)
      requires g.running && g.Has(i)
      ensures Step(cfg, g, Disconnected(i)) == CloseConnection(g, i)
    {
    }

    /** What happens elsewhere does not touch the program. */
    twostate lemma Undisturbed()
      requires old(Valid()) && unchanged(this) && unchanged(collection) && unchanged(collection.pool)
      requires unchanged(collection.uplink)
      requires forall h :: h in collection.ever ==> unchanged(h) && unchanged(h.protocol) && unchanged(h.pubSub)
      ensures Valid()
    {
      forall i | 0 <= i < |collection.ever|
        ensures collection.ever[i].Wired(collection, i) && collection.ever[i].View() == old(collection.ever[i].View())
      {
        assert collection.ever[i] in collection.ever;
      }
    }

    /** The objects have taken a step of the model. */
    ghost method Record(before: Gateway, e: Event)
      requires Joined() && LeadsTo(before, history)
      requires collection.State() == Step(cfg, before, e)
      modifies this`history
      ensures Valid() && history == old(history) + [e]
    {
      RunNext(cfg, INITIAL, history, e);
      Append(e);
    }

    ghost method Append(e: Event)
      requires Joined() && LeadsTo(collection.State(), history + [e])
      modifies this`history
      ensures Valid() && history == old(history) + [e]
    {
      history := history + [e];
    }

    lemma KnownStanding(h: GatewayAccessServerHandler)
      requires Valid() && collection.Knows(h)
      ensures h.registered <==> h.lease != null
      ensures collection.accepting ==> (h.registered <==> h.protocol.open)
    {
      var g := collection.State();
      assert Consistent(g) by { RunIsConsistent(cfg, history); }
      assert Standing(g, h.id);
    }

    lemma AllLive()
      requires Valid()
      ensures collection.Live()
    {
      forall k | 0 <= k < |collection.list|
        ensures collection.list[k].registered && collection.list[k].lease != null
      {
        KnownStanding(collection.list[k]);
        var g := collection.State();
        assert Consistent(g) by { RunIsConsistent(cfg, history); }
        assert g.roster[k] == collection.list[k].id && Standing(g, g.roster[k]);
      }
    }

    lemma ConsistentIsLive(h: GatewayAccessServerHandler)
      requires Valid() && collection.Knows(h) && collection.accepting && h.protocol.open
      ensures collection.Live() && h.lease != null
    {
      AllLive();
      KnownStanding(h);
    }
  }
}
