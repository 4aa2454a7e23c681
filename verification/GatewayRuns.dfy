/** Whole runs of the gateway: addresses, leases and the lifecycle of connections. */
module GatewayRuns {
  import opened Octets
  import opened SnetMessages
  import opened FrameStream
  import opened AccessProtocol
  import opened AddressPooling
  import opened GatewayModel
  import opened GatewayInvariants

  lemma RunNext(cfg: Config, g: Gateway, evs: seq<Event>, e: Event)
    ensures Run(cfg, g, evs + [e]) == Step(cfg, Run(cfg, g, evs), e)
  {
    assert Init(evs + [e]) == evs && Last(evs + [e]) == e;
  }

  lemma {:induction false} RunConcat(cfg: Config, g: Gateway, a: seq<Event>, b: seq<Event>)
    ensures Run(cfg, g, a + b) == Run(cfg, Run(cfg, g, a), b)
    decreases |b|
  {
    if b == [] {
      assert a + b == a;
    } else {
      assert a + b == (a + Init(b)) + [Last(b)];
      RunNext(cfg, g, a + Init(b), Last(b));
      RunConcat(cfg, g, a, Init(b));
    }
  }

  lemma RunSplit(cfg: Config, before: seq<Event>, e: Event, after: seq<Event>)
    ensures Consistent(Run(cfg, INITIAL, before))
    ensures Run(cfg, INITIAL, before + [e]) == Step(cfg, Run(cfg, INITIAL, before), e)
    ensures Run(cfg, INITIAL, before + [e] + after) == Run(cfg, Step(cfg, Run(cfg, INITIAL, before), e), after)
  {
    RunNext(cfg, INITIAL, before, e);
    RunConcat(cfg, INITIAL, before + [e], after);
    RunIsConsistent(cfg, before);
  }

  // -------------------------------------------------------------- high water

  lemma CloseDraws(g: Gateway, i: nat, proto: Proto)
    requires Orderly(g) && g.Has(i)
    ensures var h := Unregister(g.With(i, g.clients[i].(proto := proto)), i);
            LedgerOf(h).Drawn() == LedgerOf(g).Drawn() && |h.roster| <= |g.roster|
  {
    SwitchedOffIsOrderly(g, i, proto);
    UnregisterDraws(g.With(i, g.clients[i].(proto := proto)), i);
  }

  lemma FrameDraws(cfg: Config, g: Gateway, i: nat, f: WireFrame)
    requires Orderly(g) && g.Has(i) && CanHandle(cfg, g.clients[i].proto, f)
    ensures var h := HandleFrame(cfg, g, i, f);
            LedgerOf(h).Drawn() == LedgerOf(g).Drawn() && |h.roster| <= |g.roster|
  {
    var (proto, up) := AfterFrame(g.clients[i].proto, f);
    if up.Closed? {
      CloseDraws(g, i, proto);
    } else {
      var h := HandleFrame(cfg, g, i, f);
      assert h.roster == g.roster && h.pool == g.pool;
    }
  }

  lemma AcceptDraws(g: Gateway)
    requires Orderly(g)
    ensures var h := AcceptConnection(g);
            LedgerOf(h).Drawn() == Max(LedgerOf(g).Drawn(), |h.roster|) && |h.roster| == |g.roster| + 1
  {
    AcceptIsLease(g);
  }

  lemma DrawnStep(cfg: Config, g: Gateway, e: Event)
    requires Consistent(g)
    ensures var h := Step(cfg, g, e);
            && LedgerOf(h).Drawn() == Max(LedgerOf(g).Drawn(), |h.roster|)
            && |h.roster| <= |g.roster| + (if e.Connected? then 1 else 0)
  {
    if CanHappen(cfg, g, e) {
      match e {
        case Connected =>
          AcceptDraws(g);
        case FrameFrom(i, f) =>
          FrameDraws(cfg, g, i, f);
        case PacketFromHdlcd(data) =>
        case Disconnected(i) =>
          CloseDraws(g, i, g.clients[i].proto.(open := false));
        case Stopped =>
          ShutdownDraws(g);
      }
    }
  }

  lemma ShutdownDraws(g: Gateway)
    requires Orderly(g)
    ensures LedgerOf(Shutdown(g)).Drawn() == LedgerOf(g).Drawn() && Shutdown(g).roster == []
  {
    StoppedIsOrderly(g);
    CloseAllKeepsOrderly(g.(running := false));
  }

  lemma UnregisterDraws(g: Gateway, i: nat)
    requires Orderly(g) && g.Has(i)
    ensures var h := Unregister(g, i);
            LedgerOf(h).Drawn() == LedgerOf(g).Drawn() && |h.roster| <= |g.roster|
  {
    assert Standing(g, i);
    if g.clients[i].registered {
      var k :| 0 <= k < |g.roster| && g.roster[k] == i;
      UnregisterIsReturn(g, k);
    }
  }

  /** The largest number of clients registered at once during a run. */
  function PeakClients(cfg: Config, evs: seq<Event>): nat
    decreases |evs|
  {
    if evs == [] then 0 else Max(PeakClients(cfg, Init(evs)), |Run(cfg, INITIAL, evs).roster|)
  }

  /** Whoever comes and goes, the pool has drawn as many addresses as clients were ever registered at once. */
  lemma {:induction false} DrawnIsPeak(cfg: Config, evs: seq<Event>)
    ensures LedgerOf(Run(cfg, INITIAL, evs)).Drawn() == PeakClients(cfg, evs)
    decreases |evs|
  {
    if evs != [] {
      DrawnIsPeak(cfg, Init(evs));
      RunIsConsistent(cfg, Init(evs));
      DrawnStep(cfg, Run(cfg, INITIAL, Init(evs)), Last(evs));
    }
  }

  /** The counter is where the peak has taken it; on loan and reclaimed are the addresses drawn, with multiplicity. */
  lemma PeakIsHighWater(cfg: Config, evs: seq<Event>)
    ensures var g := Run(cfg, INITIAL, evs);
            var peak := PeakClients(cfg, evs);
            && g.pool.next == Fresh(peak)
            && multiset(Loans(g.clients, g.roster)) + multiset(g.pool.released) == multiset(Issued(peak))
  {
    DrawnIsPeak(cfg, evs);
    RunIsConsistent(cfg, evs);
  }

  ghost predicate Addressable(g: Gateway) {
    forall i :: 0 <= i < |g.clients| && g.clients[i].registered ==> ClientAddress(g.clients[i].Address())
  }

  ghost predicate AlwaysAddressable(cfg: Config, evs: seq<Event>)
    decreases |evs|
  {
    Addressable(Run(cfg, INITIAL, evs)) && (evs == [] || AlwaysAddressable(cfg, Init(evs)))
  }

  lemma AddressableWithinCapacity(g: Gateway)
    requires Orderly(g) && LedgerOf(g).Drawn() <= CAPACITY
    ensures Addressable(g)
  {
    LoansInRange(LedgerOf(g));
    forall i | 0 <= i < |g.clients| && g.clients[i].registered
      ensures ClientAddress(g.clients[i].Address())
    {
      assert Standing(g, i);
      var k :| 0 <= k < |g.roster| && g.roster[k] == i;
      assert Loans(g.clients, g.roster)[k] == g.clients[i].Address();
    }
  }

  lemma AcceptBeyondCapacity(g: Gateway)
    requires g.pool == Pool(Fresh(CAPACITY), [])
    ensures !Addressable(AcceptConnection(g))
  {
    var c := AcceptConnection(g).clients[|g.clients|];
    assert c.registered && c.Address() == Fresh(CAPACITY);
  }

  /** After `n` connections and nothing else: `n` clients are listed, and the pool has issued `n` addresses. */
  predicate HasAccepted(g: Gateway, n: nat) {
    && g.running && g.pool == Pool(Fresh(n), []) && |g.clients| == |g.roster| == n
    && (n > 0 ==> g.clients[n - 1] == NewClient(Fresh(n - 1)))
  }

  lemma AcceptOneMore(cfg: Config, g: Gateway, n: nat)
    requires HasAccepted(g, n)
    ensures HasAccepted(Step(cfg, g, Connected), n + 1)
  {
    FreshStep(n);
  }

  /** A run in which clients connect and do nothing else: every event draws one address for one more client. */
  lemma {:induction false} Connections(cfg: Config, n: nat) returns (evs: seq<Event>)
    ensures |evs| == n && forall k :: 0 <= k < n ==> evs[k] == Connected
    ensures HasAccepted(Run(cfg, INITIAL, evs), n) && PeakClients(cfg, evs) == n
  {
    evs := [];
    if n > 0 {
      var before := Connections(cfg, n - 1);
      evs := before + [Connected];
      AcceptOneMore(cfg, Run(cfg, INITIAL, before), n - 1);
      RunNext(cfg, INITIAL, before, Connected);
      PeakNext(cfg, before, Connected);
    }
  }

  lemma PeakNext(cfg: Config, evs: seq<Event>, e: Event)
    ensures PeakClients(cfg, evs + [e]) == Max(PeakClients(cfg, evs), |Step(cfg, Run(cfg, INITIAL, evs), e).roster|)
  {
    RunNext(cfg, INITIAL, evs, e);
    assert Init(evs + [e]) == evs;
  }

  /** A step draws a further address only by a connection that finds none reclaimed. */
  lemma DrawnByConnection(cfg: Config, g: Gateway, e: Event)
    requires Consistent(g)
    ensures LedgerOf(Step(cfg, g, e)).Drawn() > LedgerOf(g).Drawn() ==>
              && Step(cfg, g, e) == AcceptConnection(g) && g.pool.released == []
              && LedgerOf(Step(cfg, g, e)).Drawn() == LedgerOf(g).Drawn() + 1
  {
    DrawnStep(cfg, g, e);
  }

  /** The event with which the capacity is exceeded is a connection that finds the range used up. */
  lemma BeyondCapacity(cfg: Config, evs: seq<Event>)
    requires evs != [] && PeakClients(cfg, Init(evs)) <= CAPACITY < PeakClients(cfg, evs)
    ensures var g := Run(cfg, INITIAL, Init(evs));
            Consistent(g) && g.pool == Pool(Fresh(CAPACITY), []) && Run(cfg, INITIAL, evs) == AcceptConnection(g)
  {
    var g := Run(cfg, INITIAL, Init(evs));
    RunIsConsistent(cfg, Init(evs));
    DrawnIsPeak(cfg, Init(evs));
    DrawnIsPeak(cfg, evs);
    DrawnByConnection(cfg, g, Last(evs));
  }

  /** Every client of a run can be addressed at all times if and only if at most 49135 are ever registered at once. */
  lemma {:induction false} AddressableIffPeakWithinCapacity(cfg: Config, evs: seq<Event>)
    ensures AlwaysAddressable(cfg, evs) <==> PeakClients(cfg, evs) <= CAPACITY
    decreases |evs|
  {
    RunIsConsistent(cfg, evs);
    DrawnIsPeak(cfg, evs);
    if PeakClients(cfg, evs) <= CAPACITY {
      AddressableWithinCapacity(Run(cfg, INITIAL, evs));
    }
    if evs != [] {
      AddressableIffPeakWithinCapacity(cfg, Init(evs));
      if PeakClients(cfg, Init(evs)) <= CAPACITY < PeakClients(cfg, evs) {
        BeyondCapacity(cfg, evs);
        AcceptBeyondCapacity(Run(cfg, INITIAL, Init(evs)));
      }
    }
  }

  /** No two registered clients share an address, and none holds a reclaimed one, while at most 65536 are registered. */
  lemma LeasesAreUnique(g: Gateway, i: nat, j: nat)
    requires Orderly(g) && LedgerOf(g).Drawn() <= 0x1_0000
    requires g.Has(i) && g.Has(j) && g.clients[i].registered && g.clients[j].registered
    ensures i != j ==> g.clients[i].lease != g.clients[j].lease
    ensures g.clients[i].Address() !in g.pool.released
  {
    NoAddressTwice(LedgerOf(g));
    var k := ListedAt(g, i);
    var l := ListedAt(g, j);
    var s := Loans(g.clients, g.roster);
    assert s[k] in s;
    if i != j {
      assert k != l && s[k] != s[l];
    }
  }

  lemma ListedAt(g: Gateway, i: nat) returns (k: nat)
    requires (forall j :: 0 <= j < |g.clients| ==> Standing(g, j)) && g.Has(i) && g.clients[i].registered
    ensures k < |g.roster| && g.roster[k] == i && Loans(g.clients, g.roster)[k] == g.clients[i].Address()
    ensures g.clients[i].lease.Some?
  {
    assert Standing(g, i);
    k :| k < |g.roster| && g.roster[k] == i;
  }

  /**
   Addresses throughout a run in which at most 49135 clients are ever registered at once: every registered
   client holds a client address, no other client holds the same one, and every address up to the counter
   is either on loan to a registered client or reclaimed, but not both.
   */
  lemma AddressesInEveryRun(cfg: Config, evs: seq<Event>)
    requires PeakClients(cfg, evs) <= CAPACITY
    ensures var g := Run(cfg, INITIAL, evs);
            && (forall i :: 0 <= i < |g.clients| && g.clients[i].registered ==>
                  ClientAddress(g.clients[i].Address()) && g.clients[i].Address() !in g.pool.released)
            && (forall i, j :: 0 <= i < j < |g.clients| && g.clients[i].registered && g.clients[j].registered ==>
                  g.clients[i].Address() != g.clients[j].Address())
            && (forall a: u16 :: a in Loans(g.clients, g.roster) || a in g.pool.released <==> 0x4001 <= a < g.pool.next)
            && Distinct(g.pool.released)
  {
    var g := Run(cfg, INITIAL, evs);
    RunIsConsistent(cfg, evs);
    DrawnIsPeak(cfg, evs);
    AddressableWithinCapacity(g);
    NoAddressTwice(LedgerOf(g));
    Partition(LedgerOf(g));
    forall i, j | 0 <= i < |g.clients| && 0 <= j < |g.clients| && g.clients[i].registered && g.clients[j].registered
      ensures i != j ==> g.clients[i].Address() != g.clients[j].Address()
      ensures g.clients[i].Address() !in g.pool.released
    {
      LeasesAreUnique(g, i, j);
      assert Standing(g, i) && Standing(g, j);
    }
  }

  // ------------------------------------------------------------------ clients

  /** What can become of a client: a lease is kept or lost for good, a mode once chosen stays, a log only grows. */
  predicate Evolves(c: Client, d: Client) {
    && (d.registered ==> c.registered && d.lease == c.lease)
    && (c.proto.mode != Unknown ==> d.proto.mode == c.proto.mode)
    && c.proto.sent <= d.proto.sent
    && (d.proto.open ==> c.proto.open)
  }

  lemma {:induction false} FanoutEvolves(cfg: Config, clients: seq<Client>, ids: seq<nat>, m: Message, i: nat)
    requires Within(ids, |clients|) && i < |clients|
    ensures Evolves(clients[i], Fanout(cfg, clients, ids, m)[i])
  {
    if ids != [] {
      FanoutEvolves(cfg, clients, ids[..|ids| - 1], m, i);
    }
  }

  lemma {:induction false} CloseAllEvolves(g: Gateway, i: nat)
    requires g.Has(i)
    ensures |CloseAll(g).clients| == |g.clients| && Evolves(g.clients[i], CloseAll(g).clients[i])
    ensures CloseAll(g).clients[i].proto == g.clients[i].proto
    ensures CloseAll(g).clients[i].ids == g.clients[i].ids
    decreases |g.roster|
  {
    if g.roster != [] && g.clients[g.roster[0]].registered {
      CloseAllEvolves(Unregister(g, g.roster[0]), i);
    }
  }

  lemma StepEvolves(cfg: Config, g: Gateway, e: Event, i: nat)
    requires g.Has(i)
    ensures Step(cfg, g, e).Has(i) && Evolves(g.clients[i], Step(cfg, g, e).clients[i])
  {
    if CanHappen(cfg, g, e) {
      match e {
        case Connected =>
        case FrameFrom(j, f) =>
          FrameEvolves(cfg, g, j, f, i);
        case PacketFromHdlcd(data) =>
          if cfg.codec.parse(data).Some? {
            FanoutEvolves(cfg, g.clients, g.roster, cfg.codec.parse(data).value, i);
          }
        case Disconnected(j) =>
        case Stopped =>
          CloseAllEvolves(g.(running := false), i);
      }
    }
  }

  lemma FrameEvolves(cfg: Config, g: Gateway, j: nat, f: WireFrame, i: nat)
    requires g.Has(i) && g.Has(j) && CanHandle(cfg, g.clients[j].proto, f)
    ensures HandleFrame(cfg, g, j, f).Has(i) && Evolves(g.clients[i], HandleFrame(cfg, g, j, f).clients[i])
  {
    var (proto, up) := AfterFrame(g.clients[j].proto, f);
    var g': Gateway := g.With(j, g.clients[j].(proto := proto));
    assert Evolves(g.clients[i], g'.clients[i]);
    match up {
      case Nothing =>
      case Deliver(payload) => PayloadEvolves(cfg, g', j, payload, i);
      case Closed => assert Evolves(g'.clients[i], Unregister(g', j).clients[i]);
    }
  }

  lemma PayloadEvolves(cfg: Config, g: Gateway, j: nat, payload: seq<byte>, i: nat)
    requires g.Has(i) && g.Has(j) && Answerable(cfg, payload)
    ensures OnPayload(cfg, g, j, payload).Has(i) && Evolves(g.clients[i], OnPayload(cfg, g, j, payload).clients[i])
  {
    if cfg.codec.parse(payload).Some? {
      var m := cfg.codec.parse(payload).value;
      FanoutEvolves(cfg, g.clients, g.roster, Masquerade(m, g.clients[j].Address()), i);
    }
  }

  /** As long as a client stays registered it keeps its address and its framing mode. */
  lemma {:induction false} RunEvolves(cfg: Config, g: Gateway, evs: seq<Event>, i: nat)
    requires g.Has(i)
    ensures Run(cfg, g, evs).Has(i) && Evolves(g.clients[i], Run(cfg, g, evs).clients[i])
    decreases |evs|
  {
    if evs != [] {
      RunEvolves(cfg, g, Init(evs), i);
      StepEvolves(cfg, Run(cfg, g, Init(evs)), Last(evs), i);
    }
  }

  // ------------------------------------------------------------ staying on

  /** A frame that breaks the protocol: of the format not chosen, or a command there is none of. */
  predicate Violates(s: Proto, f: WireFrame) {
    (s.mode != Unknown && s.mode != FormatOf(f)) || (f.EscapedFrame? && !IsCommand(f))
  }

  /** The ways to lose a connection: the peer closes it, the peer breaks the protocol, or the gateway stops. */
  predicate Goes(cfg: Config, g: Gateway, e: Event, i: nat)
    requires g.Has(i)
  {
    && CanHappen(cfg, g, e)
    && match e
       case Disconnected(j) => j == i
       case FrameFrom(j, f) => j == i && Violates(g.clients[i].proto, f)
       case Stopped => true
       case _ => false
  }

  lemma StepKeepsUnlessGone(cfg: Config, g: Gateway, e: Event, i: nat)
    requires Consistent(g) && g.Has(i) && g.clients[i].registered
    ensures Step(cfg, g, e).Has(i)
    ensures Step(cfg, g, e).clients[i].registered <==> !Goes(cfg, g, e, i)
  {
    if CanHappen(cfg, g, e) {
      match e {
        case Connected =>
        case FrameFrom(j, f) =>
          FrameKeepsUnlessViolation(cfg, g, j, f, i);
        case PacketFromHdlcd(data) =>
          if cfg.codec.parse(data).Some? {
            RouteKeepsRegistered(cfg, g, cfg.codec.parse(data).value, Hdlcd, i);
          }
        case Disconnected(j) =>
        case Stopped =>
          ShutdownRemoves(cfg, g, i);
      }
    }
  }

  lemma ShutdownRemoves(cfg: Config, g: Gateway, i: nat)
    requires Consistent(g) && g.running && g.Has(i)
    ensures Step(cfg, g, Stopped).Has(i) && !Step(cfg, g, Stopped).clients[i].registered
  {
    ShutdownFrees(cfg, g);
    CloseAllEvolves(g.(running := false), i);
  }

  lemma ClosedIffViolates(s: Proto, f: WireFrame)
    requires Readable(s.mode, f)
    ensures AfterFrame(s, f).1.Closed? <==> Violates(s, f)
  {
    ResponseIsDue(f);
  }

  lemma FrameKeepsUnlessViolation(cfg: Config, g: Gateway, j: nat, f: WireFrame, i: nat)
    requires g.Has(i) && g.clients[i].registered && g.Has(j) && CanHandle(cfg, g.clients[j].proto, f)
    ensures HandleFrame(cfg, g, j, f).Has(i)
    ensures HandleFrame(cfg, g, j, f).clients[i].registered <==> !(j == i && Violates(g.clients[i].proto, f))
  {
    var (proto, up) := AfterFrame(g.clients[j].proto, f);
    ClosedIffViolates(g.clients[j].proto, f);
    if up.Deliver? {
      PayloadKeepsRegistered(cfg, g.With(j, g.clients[j].(proto := proto)), j, up.payload, i);
    }
  }

  lemma {:induction false} FanoutKeepsRegistered(cfg: Config, clients: seq<Client>, ids: seq<nat>, m: Message, i: nat)
    requires Within(ids, |clients|) && i < |clients|
    ensures Fanout(cfg, clients, ids, m)[i].registered == clients[i].registered
  {
    if ids != [] {
      FanoutKeepsRegistered(cfg, clients, ids[..|ids| - 1], m, i);
    }
  }

  lemma RouteKeepsRegistered(cfg: Config, g: Gateway, m: Message, src: Component, i: nat)
    requires g.Has(i)
    ensures RoutePacket(cfg, g, m, src).Has(i)
    ensures RoutePacket(cfg, g, m, src).clients[i].registered == g.clients[i].registered
  {
    FanoutKeepsRegistered(cfg, g.clients, g.roster, m, i);
  }

  lemma PayloadKeepsRegistered(cfg: Config, g: Gateway, j: nat, payload: seq<byte>, i: nat)
    requires g.Has(i) && g.Has(j) && Answerable(cfg, payload)
    ensures OnPayload(cfg, g, j, payload).Has(i)
    ensures OnPayload(cfg, g, j, payload).clients[i].registered == g.clients[i].registered
  {
    var o := cfg.codec.parse(payload);
    if o.Some? && o.value.dstSSA != 0x3FFC && o.value.dstSSA != 0x4000 {
      RouteKeepsRegistered(cfg, g, Masquerade(o.value, g.clients[j].Address()), GatewayClients, i);
    }
  }

  /** No event of a sequence is one at which the client goes. */
  predicate Stays(cfg: Config, g: Gateway, evs: seq<Event>, i: nat)
    decreases |evs|
  {
    evs == [] ||
    (Stays(cfg, g, Init(evs), i) && var h := Run(cfg, g, Init(evs)); h.Has(i) && !Goes(cfg, h, Last(evs), i))
  }

  /**
   A connection lasts exactly until its own client closes it or breaks the protocol, or the gateway stops:
   nothing that others do, and no packet, ends it.
   */
  lemma {:induction false} RegisteredIffStays(cfg: Config, g: Gateway, evs: seq<Event>, i: nat)
    requires Consistent(g) && g.Has(i) && g.clients[i].registered
    ensures Run(cfg, g, evs).Has(i) && Consistent(Run(cfg, g, evs))
    ensures Run(cfg, g, evs).clients[i].registered <==> Stays(cfg, g, evs, i)
    decreases |evs|
  {
    if evs != [] {
      var h := Run(cfg, g, Init(evs));
      RegisteredIffStays(cfg, g, Init(evs), i);
      StepKeepsConsistent(cfg, h, Last(evs));
      StepEvolves(cfg, h, Last(evs), i);
      if h.clients[i].registered {
        StepKeepsUnlessGone(cfg, h, Last(evs), i);
      }
    }
  }

  /** Once the gateway has stopped, no client is registered. */
  lemma {:induction false} NobodyAfterShutdown(cfg: Config, evs: seq<Event>)
    ensures var g := Run(cfg, INITIAL, evs);
            g.running || forall i :: 0 <= i < |g.clients| ==> !g.clients[i].registered
    decreases |evs|
  {
    if evs != [] {
      NobodyAfterShutdown(cfg, Init(evs));
      RunIsConsistent(cfg, Init(evs));
      StoppedOnlyByShutdown(cfg, Run(cfg, INITIAL, Init(evs)), Last(evs));
    }
  }

  lemma StoppedOnlyByShutdown(cfg: Config, g: Gateway, e: Event)
    requires Consistent(g)
    ensures var h := Step(cfg, g, e);
            h.running || h == g || forall i :: 0 <= i < |h.clients| ==> !h.clients[i].registered
  {
    if e.Stopped? && g.running {
      ShutdownFrees(cfg, g);
    }
  }

  // ------------------------------------------------------------- reuse order

  /** What a sequence of leases and returns makes of the ledger of a gateway. */
  ghost predicate LedgerRuns(g: Gateway, ops: seq<Op>, h: Gateway) {
    Legal(LedgerOf(g), ops) && RunOps(LedgerOf(g), ops) == LedgerOf(h)
  }

  lemma OneOp(l: Ledger, op: Op)
    requires Allowed(l, op)
    ensures Legal(l, [op]) && RunOps(l, [op]) == Apply(l, op) && Leases([op]) == if op.Lease? then 1 else 0
  {
    assert [op][1..] == [];
    assert Legal(Apply(l, op), []) && RunOps(Apply(l, op), []) == Apply(l, op);
  }

  lemma UnregisterOps(g: Gateway, i: nat) returns (ops: seq<Op>)
    requires Orderly(g) && g.Has(i)
    ensures LedgerRuns(g, ops, Unregister(g, i)) && Leases(ops) == 0
  {
    assert Standing(g, i);
    ops := [];
    if g.clients[i].registered {
      var k := ListedAt(g, i);
      UnregisterIsReturn(g, k);
      OneOp(LedgerOf(g), Return(k));
      ops := [Return(k)];
    }
  }

  lemma CloseOps(g: Gateway, i: nat, proto: Proto) returns (ops: seq<Op>)
    requires Orderly(g) && g.Has(i)
    ensures LedgerRuns(g, ops, Unregister(g.With(i, g.clients[i].(proto := proto)), i)) && Leases(ops) == 0
  {
    SwitchedOffIsOrderly(g, i, proto);
    ops := UnregisterOps(g.With(i, g.clients[i].(proto := proto)), i);
    SameLedger(g, g.With(i, g.clients[i].(proto := proto)));
  }

  /** Clients that only talk leave the ledger as it is. */
  lemma SameLedger(g: Gateway, h: Gateway)
    requires h.pool == g.pool && h.roster == g.roster && |h.clients| == |g.clients|
    requires forall i :: 0 <= i < |g.clients| ==> h.clients[i].lease == g.clients[i].lease
    ensures LedgerOf(h) == LedgerOf(g)
  {
    LoansDependOnAddresses(g.clients, h.clients, g.roster);
  }

  lemma {:induction false} CloseAllOps(g: Gateway) returns (ops: seq<Op>)
    requires Orderly(g)
    ensures LedgerRuns(g, ops, CloseAll(g)) && Leases(ops) == 0
    decreases |g.roster|
  {
    ops := [];
    if g.roster != [] && g.clients[g.roster[0]].registered {
      var i := g.roster[0];
      UnregisterKeepsOrderly(g, i);
      ops := UnregisterOps(g, i);
      var rest := CloseAllOps(Unregister(g, i));
      RunOpsConcat(LedgerOf(g), ops, rest);
      ops := ops + rest;
    }
  }

  lemma {:induction false} FanoutKeepsLeases(cfg: Config, clients: seq<Client>, ids: seq<nat>, m: Message)
    requires Within(ids, |clients|)
    ensures forall i :: 0 <= i < |clients| ==> Fanout(cfg, clients, ids, m)[i].lease == clients[i].lease
  {
    if ids != [] {
      FanoutKeepsLeases(cfg, clients, ids[..|ids| - 1], m);
    }
  }

  lemma RouteKeepsLedger(cfg: Config, g: Gateway, m: Message, src: Component)
    ensures LedgerOf(RoutePacket(cfg, g, m, src)) == LedgerOf(g)
    ensures |RoutePacket(cfg, g, m, src).clients| == |g.clients|
  {
    FanoutKeepsLeases(cfg, g.clients, g.roster, m);
    SameLedger(g, RoutePacket(cfg, g, m, src));
  }

  lemma PayloadKeepsLedger(cfg: Config, g: Gateway, i: nat, payload: seq<byte>)
    requires g.Has(i) && Answerable(cfg, payload)
    ensures LedgerOf(OnPayload(cfg, g, i, payload)) == LedgerOf(g)
    ensures |OnPayload(cfg, g, i, payload).clients| == |g.clients|
  {
    var o := cfg.codec.parse(payload);
    if o.Some? {
      if o.value.dstSSA == 0x3FFC || o.value.dstSSA == 0x4000 {
        SameLedger(g, OnPayload(cfg, g, i, payload));
      } else {
        RouteKeepsLedger(cfg, g, Masquerade(o.value, g.clients[i].Address()), GatewayClients);
      }
    }
  }

  lemma FrameOps(cfg: Config, g: Gateway, i: nat, f: WireFrame) returns (ops: seq<Op>)
    requires Orderly(g) && g.Has(i) && CanHandle(cfg, g.clients[i].proto, f)
    ensures LedgerRuns(g, ops, HandleFrame(cfg, g, i, f)) && Leases(ops) == 0
    ensures |HandleFrame(cfg, g, i, f).clients| == |g.clients|
  {
    var (proto, up) := AfterFrame(g.clients[i].proto, f);
    var g': Gateway := g.With(i, g.clients[i].(proto := proto));
    ops := [];
    SameLedger(g, g');
    match up {
      case Nothing =>
      case Deliver(payload) =>
        PayloadKeepsLedger(cfg, g', i, payload);
      case Closed =>
        ops := CloseOps(g, i, proto);
    }
  }

  lemma StoppedOps(g: Gateway) returns (ops: seq<Op>)
    requires Orderly(g)
    ensures LedgerRuns(g, ops, Shutdown(g)) && Leases(ops) == 0
    ensures |Shutdown(g).clients| == |g.clients|
  {
    var h: Gateway := g.(running := false);
    StoppedIsOrderly(g);
    ops := CloseAllOps(h);
    SameLedger(g, h);
    CloseAllKeepsCount(h);
  }

  lemma {:induction false} CloseAllKeepsCount(g: Gateway)
    ensures |CloseAll(g).clients| == |g.clients|
    decreases |g.roster|
  {
    if g.roster != [] && g.clients[g.roster[0]].registered {
      CloseAllKeepsCount(Unregister(g, g.roster[0]));
    }
  }

  /** An event is a sequence of operations of the ledger, with a lease for a connection and none for anything else. */
  lemma StepOps(cfg: Config, g: Gateway, e: Event) returns (ops: seq<Op>)
    requires Consistent(g)
    ensures LedgerRuns(g, ops, Step(cfg, g, e)) && |Step(cfg, g, e).clients| == |g.clients| + Leases(ops)
  {
    ops := [];
    if CanHappen(cfg, g, e) {
      match e {
        case Connected =>
          AcceptIsLease(g);
          OneOp(LedgerOf(g), Lease);
          ops := [Lease];
        case FrameFrom(i, f) =>
          ops := FrameOps(cfg, g, i, f);
        case PacketFromHdlcd(data) =>
          if cfg.codec.parse(data).Some? {
            RouteKeepsLedger(cfg, g, cfg.codec.parse(data).value, Hdlcd);
          }
        case Disconnected(i) =>
          ops := CloseOps(g, i, g.clients[i].proto.(open := false));
        case Stopped =>
          ops := StoppedOps(g);
      }
    }
  }

  /** The gateway refines the ledger: every run is a legal sequence of leases and returns, a lease for a connection. */
  lemma {:induction false} RunIsLedgerRun(cfg: Config, g: Gateway, evs: seq<Event>) returns (ops: seq<Op>)
    requires Consistent(g)
    ensures Consistent(Run(cfg, g, evs)) && LedgerRuns(g, ops, Run(cfg, g, evs))
    ensures |Run(cfg, g, evs).clients| == |g.clients| + Leases(ops)
    decreases |evs|
  {
    ops := [];
    if evs != [] {
      var h := Run(cfg, g, Init(evs));
      ops := RunIsLedgerRun(cfg, g, Init(evs));
      var last := StepOps(cfg, h, Last(evs));
      StepKeepsConsistent(cfg, h, Last(evs));
      RunOpsConcat(LedgerOf(g), ops, last);
      ops := ops + last;
    }
  }

  /**
   Oldest first, over runs: the address at position k of the reclaimed queue goes to the (k+1)-th client
   that connects from then on, whatever else happens in between.
   */
  lemma OldestAddressFirst(cfg: Config, evs: seq<Event>, more: seq<Event>, k: nat)
    requires k < |Run(cfg, INITIAL, evs).pool.released|
    requires |Run(cfg, INITIAL, evs + more).clients| == |Run(cfg, INITIAL, evs).clients| + k
    requires Run(cfg, INITIAL, evs + more).running
    ensures var g, h := Run(cfg, INITIAL, evs), Run(cfg, INITIAL, evs + more);
            Run(cfg, INITIAL, evs + more + [Connected]).clients == h.clients + [NewClient(g.pool.released[k])]
  {
    var g, h := Run(cfg, INITIAL, evs), Run(cfg, INITIAL, evs + more);
    RunIsConsistent(cfg, evs);
    RunConcat(cfg, INITIAL, evs, more);
    var ops := RunIsLedgerRun(cfg, g, more);
    OldestFirst(LedgerOf(g), ops, k);
    RunNext(cfg, INITIAL, evs + more, Connected);
  }

  // ------------------------------------------------------------------ closing

  /** Closing a connection again changes nothing: the lease was given back by the first close. */
  lemma CloseIsIdempotent(g: Gateway, i: nat)
    requires g.Has(i)
    ensures CloseConnection(CloseConnection(g, i), i) == CloseConnection(g, i)
  {
    var h := CloseConnection(g, i);
    assert h.clients[i := h.clients[i]] == h.clients;
  }

  /** The handlers are closed in the order of the list, so their addresses are reclaimed in this order. */
  lemma {:induction false} CloseAllInOrder(g: Gateway)
    requires Orderly(g)
    ensures CloseAll(g).pool.released == g.pool.released + Loans(g.clients, g.roster)
    decreases |g.roster|
  {
    if g.roster == [] {
      Concat(g.pool.released, [], []);
    } else {
      var h := Unregister(g, g.roster[0]);
      assert Standing(g, g.roster[0]);
      UnregisterKeepsOrderly(g, g.roster[0]);
      UnregisterIsReturn(g, 0);
      CloseAllInOrder(h);
      FirstReturned(g, h);
    }
  }

  lemma FirstReturned(g: Gateway, h: Gateway)
    requires g.roster != [] && LedgerOf(h) == Apply(LedgerOf(g), Return(0))
    ensures h.pool.released + Loans(h.clients, h.roster) == g.pool.released + Loans(g.clients, g.roster)
  {
    var l := Loans(g.clients, g.roster);
    assert l[..0] + l[1..] == l[1..] && [l[0]] + l[1..] == l;
    Concat(g.pool.released, [l[0]], l[1..]);
  }

  /**
   The shutdown closes every handler, in the order of the list, and terminates; afterwards the reclaimed
   queue is a permutation of all addresses issued during the run, each exactly once as long as 65536 sufficed.
   */
  lemma ShutdownReturnsAll(cfg: Config, evs: seq<Event>)
    requires Run(cfg, INITIAL, evs).running
    ensures var before, g := Run(cfg, INITIAL, evs), Run(cfg, INITIAL, evs + [Stopped]);
            && g.roster == [] && !g.running
            && (forall i :: 0 <= i < |g.clients| ==> !g.clients[i].registered && g.clients[i].lease.None?)
            && g.pool.released == before.pool.released + Loans(before.clients, before.roster)
            && multiset(g.pool.released) == multiset(Issued(PeakClients(cfg, evs)))
            && (PeakClients(cfg, evs) <= 0x1_0000 ==> Distinct(g.pool.released))
  {
    var before := Run(cfg, INITIAL, evs);
    RunIsConsistent(cfg, evs);
    DrawnIsPeak(cfg, evs);
    RunNext(cfg, INITIAL, evs, Stopped);
    ShutdownFrees(cfg, before);
    ShutdownInOrder(cfg, before);
  }

  lemma ShutdownInOrder(cfg: Config, g: Gateway)
    requires Consistent(g) && g.running
    ensures Step(cfg, g, Stopped).pool.released == g.pool.released + Loans(g.clients, g.roster)
  {
    StoppedIsOrderly(g);
    CloseAllInOrder(g.(running := false));
  }

  lemma ShutdownFrees(cfg: Config, g: Gateway)
    requires Consistent(g) && g.running
    ensures var h := Step(cfg, g, Stopped);
            && h.roster == [] && !h.running
            && (forall i :: 0 <= i < |h.clients| ==> !h.clients[i].registered && h.clients[i].lease.None?)
            && multiset(h.pool.released) == multiset(Issued(LedgerOf(g).Drawn()))
            && (LedgerOf(g).Drawn() <= 0x1_0000 ==> Distinct(h.pool.released))
  {
    var h := Step(cfg, g, Stopped);
    StoppedIsOrderly(g);
    CloseAllKeepsOrderly(g.(running := false));
    forall i | 0 <= i < |h.clients|
      ensures !h.clients[i].registered && h.clients[i].lease.None?
    {
      assert Standing(h, i);
    }
    if LedgerOf(g).Drawn() <= 0x1_0000 {
      NoAddressTwice(LedgerOf(h));
    }
  }
}
