/** The lifecycle invariant of the gateway: every step keeps it, so it holds throughout every run. */
module GatewayInvariants {
  import opened Octets
  import opened SnetMessages
  import opened FrameStream
  import opened AccessProtocol
  import opened AddressPooling
  import opened GatewayModel

  // ------------------------------------------------------------ the send loop

  lemma DistinctInit(ids: seq<nat>)
    requires Distinct(ids) && ids != []
    ensures Distinct(ids[..|ids| - 1]) && ids[|ids| - 1] !in ids[..|ids| - 1]
    ensures forall i :: i in ids <==> i in ids[..|ids| - 1] || i == ids[|ids| - 1]
  {
    assert ids == ids[..|ids| - 1] + [ids[|ids| - 1]];
  }

  /** The loop over a list without duplicates offers the message to each listed handler once, and to no other. */
  lemma {:induction false} FanoutOffersOnce(cfg: Config, clients: seq<Client>, ids: seq<nat>, m: Message)
    requires Within(ids, |clients|) && Distinct(ids)
    ensures forall i :: 0 <= i < |clients| ==>
              Fanout(cfg, clients, ids, m)[i] == if i in ids then Offer(cfg, clients[i], m) else clients[i]
  {
    if ids != [] {
      DistinctInit(ids);
      FanoutOffersOnce(cfg, clients, ids[..|ids| - 1], m);
    }
  }

  // ----------------------------------------------------- steps that only talk

  /** Two clients that differ at most in subscriptions, framing mode and what they were sent. */
  predicate SameStanding(c: Client, d: Client) {
    c.registered == d.registered && c.lease == d.lease && c.proto.open == d.proto.open
  }

  lemma LoansDependOnAddresses(c: seq<Client>, d: seq<Client>, ids: seq<nat>)
    requires |c| <= |d| && Within(ids, |c|)
    requires forall k :: 0 <= k < |ids| ==> c[ids[k]].lease == d[ids[k]].lease
    ensures Loans(c, ids) == Loans(d, ids)
  {
  }

  /** A step that changes neither the list nor the pool nor anybody's standing keeps the invariant. */
  lemma TalkKeepsConsistent(g: Gateway, h: Gateway)
    requires Consistent(g)
    requires h.running == g.running && h.roster == g.roster && h.pool == g.pool && |h.clients| == |g.clients|
    requires forall i :: 0 <= i < |g.clients| ==> SameStanding(g.clients[i], h.clients[i])
    ensures Consistent(h)
  {
    forall i | 0 <= i < |h.clients|
      ensures Standing(h, i)
    {
      assert Standing(g, i) && SameStanding(g.clients[i], h.clients[i]);
    }
    assert forall k :: 0 <= k < |g.roster| ==> SameStanding(g.clients[g.roster[k]], h.clients[g.roster[k]]);
    LoansDependOnAddresses(g.clients, h.clients, g.roster);
  }

  lemma RouteKeepsConsistent(cfg: Config, g: Gateway, m: Message, src: Component)
    requires Consistent(g)
    ensures Consistent(RoutePacket(cfg, g, m, src))
  {
    var h := RoutePacket(cfg, g, m, src);
    FanoutOffersOnce(cfg, g.clients, g.roster, m);
    forall i | 0 <= i < |g.clients|
      ensures SameStanding(g.clients[i], h.clients[i])
    {
      assert h.clients[i] == g.clients[i] || h.clients[i] == Offer(cfg, g.clients[i], m);
    }
    TalkKeepsConsistent(g, h);
  }

  lemma PayloadKeepsConsistent(cfg: Config, g: Gateway, i: nat, payload: seq<byte>)
    requires Consistent(g) && g.Has(i) && Answerable(cfg, payload)
    ensures Consistent(OnPayload(cfg, g, i, payload))
  {
    match cfg.codec.parse(payload) {
      case None =>
      case Some(m) =>
        if m.dstSSA == 0x3FFC || m.dstSSA == 0x4000 {
          TalkKeepsConsistent(g, OnPayload(cfg, g, i, payload));
        } else {
          RouteKeepsConsistent(cfg, g, Masquerade(m, g.clients[i].Address()), GatewayClients);
        }
    }
  }

  // ------------------------------------------------- steps that open and close

  lemma {:induction false} RemoveConcat(a: seq<nat>, b: seq<nat>, id: nat)
    ensures Remove(a + b, id) == Remove(a, id) + Remove(b, id)
  {
    if a == [] {
      assert a + b == b;
    } else {
      assert (a + b)[1..] == a[1..] + b;
      RemoveConcat(a[1..], b, id);
    }
  }

  lemma ElsewhereInDistinct(ids: seq<nat>, k: nat)
    requires Distinct(ids) && k < |ids|
    ensures ids[k] !in ids[..k] && ids[k] !in ids[k + 1..]
  {
  }

  lemma DistinctWithout(ids: seq<nat>, k: nat)
    requires Distinct(ids) && k < |ids|
    ensures Distinct(ids[..k] + ids[k + 1..])
  {
    var rest := ids[..k] + ids[k + 1..];
    forall i, j | 0 <= i < j < |rest|
      ensures rest[i] != rest[j]
    {
      assert rest[i] == ids[if i < k then i else i + 1] && rest[j] == ids[if j < k then j else j + 1];
    }
  }

  lemma RemoveOnly(a: seq<nat>, id: nat, b: seq<nat>)
    requires id !in a && id !in b
    ensures Remove(a + [id] + b, id) == a + b
  {
    RemoveConcat(a + [id], b, id);
    RemoveConcat(a, [id], id);
    RemoveAbsent(a, id);
    RemoveAbsent(b, id);
    assert [id][1..] == [] && a + [] == a;
  }

  lemma RemoveAt(ids: seq<nat>, k: nat)
    requires k < |ids| && ids[k] !in ids[..k] && ids[k] !in ids[k + 1..]
    ensures Remove(ids, ids[k]) == ids[..k] + ids[k + 1..]
  {
    RemoveOnly(ids[..k], ids[k], ids[k + 1..]);
    SplitAt(ids, k);
  }

  lemma SplitAt(ids: seq<nat>, k: nat)
    requires k < |ids|
    ensures ids == ids[..k] + [ids[k]] + ids[k + 1..]
  {
  }

  lemma {:induction false} RemoveAbsent(ids: seq<nat>, id: nat)
    requires id !in ids
    ensures Remove(ids, id) == ids
  {
    if ids != [] {
      RemoveAbsent(ids[1..], id);
    }
  }

  lemma LoansWithout(c: seq<Client>, d: seq<Client>, ids: seq<nat>, k: nat)
    requires |c| == |d| && Within(ids, |c|) && Distinct(ids) && k < |ids|
    requires forall i :: 0 <= i < |c| && i != ids[k] ==> d[i] == c[i]
    ensures Within(ids[..k] + ids[k + 1..], |d|)
    ensures Loans(d, ids[..k] + ids[k + 1..]) == Loans(c, ids)[..k] + Loans(c, ids)[k + 1..]
  {
    var rest := ids[..k] + ids[k + 1..];
    forall j | 0 <= j < |rest|
      ensures rest[j] < |d| && d[rest[j]] == c[ids[if j < k then j else j + 1]]
    {
      assert rest[j] == ids[if j < k then j else j + 1];
    }
  }

  /** Closing a registered client returns, of the ledger's loans, the one that is its own. */
  lemma UnregisterIsReturn(g: Gateway, k: nat)
    requires Distinct(g.roster) && k < |g.roster| && g.clients[g.roster[k]].registered
    ensures var h := Unregister(g, g.roster[k]);
            && h.roster == g.roster[..k] + g.roster[k + 1..]
            && Distinct(h.roster)
            && LedgerOf(h) == Apply(LedgerOf(g), Return(k))
  {
    ElsewhereInDistinct(g.roster, k);
    RemoveAt(g.roster, k);
    DistinctWithout(g.roster, k);
    LoansWithout(g.clients, Unregister(g, g.roster[k]).clients, g.roster, k);
  }

  lemma UnregisterKeepsStanding(g: Gateway, i: nat)
    requires g.Has(i) && forall j :: 0 <= j < |g.clients| ==> Standing(g, j)
    ensures var h := Unregister(g, i); forall j :: 0 <= j < |h.clients| ==> Standing(h, j)
    ensures !Unregister(g, i).clients[i].registered
  {
    var h := Unregister(g, i);
    forall j | 0 <= j < |h.clients|
      ensures Standing(h, j)
    {
      assert Standing(g, j);
    }
  }

  lemma UnregisterKeepsOrderly(g: Gateway, i: nat)
    requires Orderly(g) && g.Has(i)
    ensures Orderly(Unregister(g, i))
    ensures !Unregister(g, i).clients[i].registered
  {
    UnregisterKeepsStanding(g, i);
    assert Standing(g, i);
    if g.clients[i].registered {
      var k :| 0 <= k < |g.roster| && g.roster[k] == i;
      UnregisterIsReturn(g, k);
      ApplyBalances(LedgerOf(g), Return(k));
    }
  }

  lemma SwitchedOffIsOrderly(g: Gateway, i: nat, proto: Proto)
    requires Orderly(g) && g.Has(i)
    ensures Orderly(g.With(i, g.clients[i].(proto := proto)))
  {
    var h: Gateway := g.With(i, g.clients[i].(proto := proto));
    forall j | 0 <= j < |h.clients|
      ensures Standing(h, j)
    {
      assert Standing(g, j);
    }
    LoansDependOnAddresses(g.clients, h.clients, g.roster);
  }

  /** A client whose connection is closed is no longer registered when the step is over. */
  lemma CloseKeepsConsistent(g: Gateway, i: nat, proto: Proto)
    requires Consistent(g) && g.Has(i) && !proto.open
    ensures Consistent(Unregister(g.With(i, g.clients[i].(proto := proto)), i))
  {
    SwitchedOffIsOrderly(g, i, proto);
    UnregisterKeepsOrderly(g.With(i, g.clients[i].(proto := proto)), i);
    if g.running {
      ClosedIsAttended(g, i, proto);
    }
  }

  lemma ClosedIsAttended(g: Gateway, i: nat, proto: Proto)
    requires Attended(g) && g.Has(i) && !proto.open
    ensures Attended(Unregister(g.With(i, g.clients[i].(proto := proto)), i))
  {
    var h := Unregister(g.With(i, g.clients[i].(proto := proto)), i);
    forall j | 0 <= j < |h.clients|
      ensures h.clients[j].registered <==> h.clients[j].proto.open
    {
      assert g.clients[j].registered <==> g.clients[j].proto.open;
    }
  }

  lemma DisconnectKeepsConsistent(g: Gateway, i: nat)
    requires Consistent(g) && g.Has(i)
    ensures Consistent(CloseConnection(g, i))
  {
    CloseKeepsConsistent(g, i, g.clients[i].proto.(open := false));
  }

  lemma AcceptIsLease(g: Gateway)
    requires Orderly(g)
    ensures LedgerOf(AcceptConnection(g)) == Apply(LedgerOf(g), Lease)
  {
    var h := AcceptConnection(g);
    var l, l' := Loans(g.clients, g.roster), Loans(h.clients, h.roster);
    forall j | 0 <= j < |h.roster|
      ensures l'[j] == (l + [Obtain(g.pool).1])[j]
    {
      if j < |g.roster| {
        assert h.roster[j] == g.roster[j];
      }
    }
    assert l' == l + [Obtain(g.pool).1];
  }

  lemma AcceptKeepsStanding(g: Gateway)
    requires forall i :: 0 <= i < |g.clients| ==> Standing(g, i)
    ensures var h := AcceptConnection(g); forall i :: 0 <= i < |h.clients| ==> Standing(h, i)
  {
    var h := AcceptConnection(g);
    forall i | 0 <= i < |h.clients|
      ensures Standing(h, i)
    {
      if i < |g.clients| {
        assert Standing(g, i);
      } else {
        assert h.roster[|g.roster|] == i;
      }
    }
  }

  lemma AcceptKeepsDistinct(g: Gateway)
    requires Distinct(g.roster)
    ensures Distinct(AcceptConnection(g).roster)
  {
  }

  lemma AcceptedIsAttended(g: Gateway)
    requires Attended(g)
    ensures Attended(AcceptConnection(g))
  {
    var h := AcceptConnection(g);
    forall j | 0 <= j < |h.clients|
      ensures h.clients[j].registered <==> h.clients[j].proto.open
    {
      assert j < |g.clients| ==> h.clients[j] == g.clients[j];
    }
  }

  lemma AcceptKeepsConsistent(g: Gateway)
    requires Consistent(g)
    ensures Consistent(AcceptConnection(g))
  {
    AcceptIsLease(g);
    ApplyBalances(LedgerOf(g), Lease);
    AcceptKeepsStanding(g);
    AcceptKeepsDistinct(g);
    if g.running {
      AcceptedIsAttended(g);
    }
  }

  lemma {:induction false} CloseAllKeepsOrderly(g: Gateway)
    requires Orderly(g)
    ensures Orderly(CloseAll(g)) && CloseAll(g).roster == [] && CloseAll(g).running == g.running
    ensures LedgerOf(CloseAll(g)).Drawn() == LedgerOf(g).Drawn()
    decreases |g.roster|
  {
    if g.roster != [] {
      assert Standing(g, g.roster[0]);
      UnregisterKeepsOrderly(g, g.roster[0]);
      UnregisterIsReturn(g, 0);
      CloseAllKeepsOrderly(Unregister(g, g.roster[0]));
    }
  }

  lemma StoppedIsOrderly(g: Gateway)
    requires Orderly(g)
    ensures Orderly(g.(running := false))
  {
    var h: Gateway := g.(running := false);
    forall i | 0 <= i < |h.clients| ensures Standing(h, i) { assert Standing(g, i); }
  }

  lemma FrameKeepsConsistent(cfg: Config, g: Gateway, i: nat, f: WireFrame)
    requires Consistent(g) && g.Has(i) && g.clients[i].proto.open && CanHandle(cfg, g.clients[i].proto, f)
    ensures Consistent(HandleFrame(cfg, g, i, f))
  {
    var (proto, up) := AfterFrame(g.clients[i].proto, f);
    var g': Gateway := g.With(i, g.clients[i].(proto := proto));
    match up {
      case Nothing =>
        TalkKeepsConsistent(g, g');
      case Deliver(payload) =>
        TalkKeepsConsistent(g, g');
        PayloadKeepsConsistent(cfg, g', i, payload);
      case Closed =>
        CloseKeepsConsistent(g, i, proto);
    }
  }

  lemma ShutdownKeepsConsistent(g: Gateway)
    requires Orderly(g)
    ensures Consistent(Shutdown(g))
  {
    StoppedIsOrderly(g);
    CloseAllKeepsOrderly(g.(running := false));
  }

  lemma PacketKeepsConsistent(cfg: Config, g: Gateway, data: seq<byte>)
    requires Consistent(g)
    ensures Consistent(HdlcdPacketReceived(cfg, g, data))
  {
    if cfg.codec.parse(data).Some? {
      RouteKeepsConsistent(cfg, g, cfg.codec.parse(data).value, Hdlcd);
    }
  }

  lemma StepKeepsConsistent(cfg: Config, g: Gateway, e: Event)
    requires Consistent(g)
    ensures Consistent(Step(cfg, g, e))
  {
    if CanHappen(cfg, g, e) {
      match e {
        case Connected =>
          AcceptKeepsConsistent(g);
        case FrameFrom(i, f) =>
          FrameKeepsConsistent(cfg, g, i, f);
        case PacketFromHdlcd(data) =>
          PacketKeepsConsistent(cfg, g, data);
        case Disconnected(i) =>
          DisconnectKeepsConsistent(g, i);
        case Stopped =>
          ShutdownKeepsConsistent(g);
      }
    }
  }

  /** The lifecycle invariant holds in every state of every run. */
  lemma {:induction false} RunIsConsistent(cfg: Config, evs: seq<Event>)
    ensures Consistent(Run(cfg, INITIAL, evs))
    decreases |evs|
  {
    if evs != [] {
      RunIsConsistent(cfg, Init(evs));
      StepKeepsConsistent(cfg, Run(cfg, INITIAL, Init(evs)), Last(evs));
    }
  }
}
