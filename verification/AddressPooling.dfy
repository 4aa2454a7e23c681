/**
 Allocation of client addresses: a 16-bit counter for addresses never used before and a
 queue of addresses given back, of which the oldest is reused first.

 `Ledger` puts the pool beside the addresses on loan; the lemmas are about every sequence
 of leases and returns, including those in which the counter wraps around.
 */
module AddressPooling {
  import opened Octets

  datatype Pool = Pool(next: u16, released: seq<u16>)

  const NEW_POOL := Pool(0x4001, [])

  function Obtain(p: Pool): (Pool, u16) {
    if p.released == [] then (p.(next := (p.next + 1) % 0x1_0000), p.next)
    else (p.(released := p.released[1..]), p.released[0])
  }

  function Release(p: Pool, a: u16): Pool {
    p.(released := p.released + [a])
  }

  /** The address of the (k+1)-th draw from the counter. */
  function Fresh(k: nat): u16 {
    (0x4001 + k) % 0x1_0000
  }

  function Issued(n: nat): (s: seq<u16>)
    ensures |s| == n
    ensures forall i :: 0 <= i < n ==> s[i] == Fresh(i)
  {
    if n == 0 then [] else Issued(n - 1) + [Fresh(n - 1)]
  }

  /** The unicast addresses of gateway clients, the range tested before delivery. */
  predicate ClientAddress(a: u16) {
    0x4000 < a < 0xFFF0
  }

  const CAPACITY: nat := 49135

  /** The first 49135 fresh addresses, and no further one before the counter wraps, are client addresses. */
  lemma CapacityIsExact(k: nat)
    requires k < 0x1_0000
    ensures ClientAddress(Fresh(k)) <==> k < CAPACITY
  {
  }

  // ------------------------------------------------------------------ ledger

  datatype Ledger = Ledger(pool: Pool, loans: seq<u16>) {
    /** How many addresses have ever been drawn from the counter. */
    function Drawn(): nat {
      |loans| + |pool.released|
    }

    /** On loan and reclaimed together are, with multiplicity, the addresses ever drawn. */
    ghost predicate Balanced() {
      && pool.next == Fresh(Drawn())
      && multiset(loans) + multiset(pool.released) == multiset(Issued(Drawn()))
    }
  }

  const NEW_LEDGER := Ledger(NEW_POOL, [])

  datatype Op = Lease | Return(i: nat)

  predicate Allowed(l: Ledger, op: Op) {
    op.Return? ==> op.i < |l.loans|
  }

  function Apply(l: Ledger, op: Op): Ledger
    requires Allowed(l, op)
  {
    match op
    case Lease =>
      var (p, a) := Obtain(l.pool);
      Ledger(p, l.loans + [a])
    case Return(i) =>
      Ledger(Release(l.pool, l.loans[i]), l.loans[..i] + l.loans[i + 1..])
  }

  predicate Legal(l: Ledger, ops: seq<Op>)
    decreases |ops|
  {
    ops == [] || (Allowed(l, ops[0]) && Legal(Apply(l, ops[0]), ops[1..]))
  }

  function RunOps(l: Ledger, ops: seq<Op>): Ledger
    requires Legal(l, ops)
    decreases |ops|
  {
    if ops == [] then l else RunOps(Apply(l, ops[0]), ops[1..])
  }

  lemma FreshStep(n: nat)
    ensures Fresh(n + 1) == (Fresh(n) + 1) % 0x1_0000
  {
  }

  lemma IssuedStep(n: nat)
    ensures multiset(Issued(n + 1)) == multiset(Issued(n)) + multiset{Fresh(n)}
  {
    assert Issued(n + 1) == Issued(n) + [Fresh(n)];
  }

  lemma FreshLeaseBalances(l: Ledger)
    requires l.Balanced() && l.pool.released == []
    ensures Apply(l, Lease).Balanced()
  {
    var l' := Apply(l, Lease);
    var n := |l.loans|;
    assert l'.Drawn() == n + 1;
    assert l'.pool.next == Fresh(n + 1) by {
      FreshStep(n);
    }
    assert multiset(l'.loans) == multiset(Issued(n + 1)) by {
      IssuedStep(n);
      assert multiset(l.loans) == multiset(Issued(n));
    }
  }

  lemma ReusedLeaseBalances(l: Ledger)
    requires l.Balanced() && l.pool.released != []
    ensures Apply(l, Lease).Balanced()
  {
    var l' := Apply(l, Lease);
    var a := l.pool.released[0];
    assert l.pool.released == [a] + l'.pool.released;
    assert multiset(l'.loans) == multiset(l.loans) + multiset{a};
    assert multiset(l'.loans) + multiset(l'.pool.released) == multiset(l.loans) + multiset(l.pool.released);
    assert l'.Drawn() == l.Drawn();
  }

  lemma ReturnBalances(l: Ledger, i: nat)
    requires l.Balanced() && i < |l.loans|
    ensures Apply(l, Return(i)).Balanced()
  {
    var l' := Apply(l, Return(i));
    assert l.loans == l.loans[..i] + [l.loans[i]] + l.loans[i + 1..];
    assert multiset(l.loans) == multiset(l'.loans) + multiset{l.loans[i]};
    assert l'.Drawn() == l.Drawn();
  }

  lemma ApplyBalances(l: Ledger, op: Op)
    requires l.Balanced() && Allowed(l, op)
    ensures Apply(l, op).Balanced()
  {
    match op {
      case Lease => if l.pool.released == [] { FreshLeaseBalances(l); } else { ReusedLeaseBalances(l); }
      case Return(i) => ReturnBalances(l, i);
    }
  }

  /** The pool partition: it holds in every reachable state, also after the counter has wrapped. */
  lemma {:induction false} BooksAlwaysBalance(l: Ledger, ops: seq<Op>)
    requires l.Balanced() && Legal(l, ops)
    ensures RunOps(l, ops).Balanced()
    decreases |ops|
  {
    if ops != [] {
      ApplyBalances(l, ops[0]);
      BooksAlwaysBalance(Apply(l, ops[0]), ops[1..]);
    }
  }

  // --------------------------------------------------------------- high water

  function Max(a: nat, b: nat): nat {
    if a < b then b else a
  }

  /** The largest number of leases held at once during a run. */
  function Peak(l: Ledger, ops: seq<Op>): nat
    requires Legal(l, ops)
    decreases |ops|
  {
    if ops == [] then |l.loans| else Max(|l.loans|, Peak(Apply(l, ops[0]), ops[1..]))
  }

  lemma {:induction false} HighWaterFrom(l: Ledger, ops: seq<Op>)
    requires Legal(l, ops)
    ensures RunOps(l, ops).Drawn() == Max(l.Drawn(), Peak(l, ops))
    decreases |ops|
  {
    if ops != [] {
      HighWaterFrom(Apply(l, ops[0]), ops[1..]);
    }
  }

  /**
   High water: however many leases come and go, the number of addresses ever drawn from the counter
   is the peak of simultaneous leases, so the counter is where that peak has taken it.
   */
  lemma HighWater(ops: seq<Op>)
    requires Legal(NEW_LEDGER, ops)
    ensures var l := RunOps(NEW_LEDGER, ops);
            && l.Drawn() == Peak(NEW_LEDGER, ops)
            && l.pool.next == Fresh(Peak(NEW_LEDGER, ops))
            && multiset(l.loans) + multiset(l.pool.released) == multiset(Issued(Peak(NEW_LEDGER, ops)))
  {
    HighWaterFrom(NEW_LEDGER, ops);
    BooksAlwaysBalance(NEW_LEDGER, ops);
  }

  // --------------------------------------------------- range and distinctness

  ghost predicate Distinct<T>(s: seq<T>) {
    forall i, j :: 0 <= i < j < |s| ==> s[i] != s[j]
  }

  lemma {:induction false} DistinctCountsOnce<T>(s: seq<T>)
    ensures Distinct(s) <==> forall x :: multiset(s)[x] <= 1
  {
    if Distinct(s) {
      if s != [] {
        DistinctCountsOnce(s[1..]);
        assert s == [s[0]] + s[1..];
      }
    } else {
      var i, j :| 0 <= i < j < |s| && s[i] == s[j];
      assert s == s[..j] + [s[j]] + s[j + 1..];
      assert s[j] in s[..j];
      assert multiset(s)[s[j]] >= 2;
    }
  }

  lemma IssuedIsDistinct(n: nat)
    ensures Distinct(Issued(n)) <==> n <= 0x1_0000
  {
    var s := Issued(n);
    if n > 0x1_0000 {
      assert s[0] == s[0x1_0000];
    } else {
      forall i, j | 0 <= i < j < n
        ensures s[i] != s[j]
      {
        assert s[i] == Fresh(i) && s[j] == Fresh(j);
      }
    }
  }

  lemma PartsOfDistinct<T>(a: seq<T>, b: seq<T>, s: seq<T>)
    requires Distinct(s) && multiset(a) + multiset(b) == multiset(s)
    ensures Distinct(a) && Distinct(b)
    ensures forall x :: !(x in a && x in b)
  {
    DistinctCountsOnce(s);
    var m, n := multiset(a), multiset(b);
    forall x
      ensures m[x] + n[x] <= 1
    {
      assert (m + n)[x] == multiset(s)[x];
    }
    DistinctCountsOnce(a);
    DistinctCountsOnce(b);
    forall x
      ensures !(x in a && x in b)
    {
      assert m[x] + n[x] <= 1;
    }
  }

  /**
   Up to 65536 addresses drawn, no address is on loan twice, none is on loan and reclaimed at once,
   and none is reclaimed twice.
   */
  lemma NoAddressTwice(l: Ledger)
    requires l.Balanced() && l.Drawn() <= 0x1_0000
    ensures Distinct(l.loans) && Distinct(l.pool.released)
    ensures forall a :: !(a in l.loans && a in l.pool.released)
  {
    IssuedIsDistinct(l.Drawn());
    PartsOfDistinct(l.loans, l.pool.released, Issued(l.Drawn()));
  }

  /** Before the counter wraps, the addresses on loan and reclaimed are the interval from 0x4001 up to it. */
  lemma Partition(l: Ledger)
    requires l.Balanced() && l.Drawn() < 0xBFFF
    ensures forall a: u16 :: a in l.loans || a in l.pool.released <==> 0x4001 <= a < l.pool.next
  {
    forall a: u16
      ensures a in l.loans || a in l.pool.released <==> 0x4001 <= a < l.pool.next
    {
      assert a in l.loans || a in l.pool.released <==> a in multiset(Issued(l.Drawn()));
      IssuedBeforeWrap(l.Drawn(), a);
    }
  }

  lemma FreshBeforeWrap(k: nat)
    requires k <= 0xBFFE
    ensures Fresh(k) == 0x4001 + k
  {
  }

  lemma IssuedBeforeWrap(n: nat, a: u16)
    requires n < 0xBFFF
    ensures a in Issued(n) <==> 0x4001 <= a < Fresh(n)
  {
    FreshBeforeWrap(n);
    if 0x4001 <= a < Fresh(n) {
      var k := a - 0x4001;
      FreshBeforeWrap(k);
      assert Issued(n)[k] == Fresh(k);
    }
    if a in Issued(n) {
      var k :| 0 <= k < n && Issued(n)[k] == a;
      FreshBeforeWrap(k);
    }
  }

  ghost predicate AlwaysInRange(l: Ledger, ops: seq<Op>)
    requires Legal(l, ops)
    decreases |ops|
  {
    (forall a :: a in l.loans ==> ClientAddress(a)) && (ops == [] || AlwaysInRange(Apply(l, ops[0]), ops[1..]))
  }

  ghost predicate AlwaysDistinct(l: Ledger, ops: seq<Op>)
    requires Legal(l, ops)
    decreases |ops|
  {
    Distinct(l.loans) && (ops == [] || AlwaysDistinct(Apply(l, ops[0]), ops[1..]))
  }

  lemma LoansWereDrawn(l: Ledger, a: u16) returns (k: nat)
    requires l.Balanced() && a in l.loans
    ensures k < l.Drawn() && a == Fresh(k)
  {
    var s := Issued(l.Drawn());
    assert a in multiset(l.loans) + multiset(l.pool.released);
    k :| k < |s| && s[k] == a;
  }

  lemma LoansInRange(l: Ledger)
    requires l.Balanced() && l.Drawn() <= CAPACITY
    ensures forall a :: a in l.loans ==> ClientAddress(a)
  {
    forall a | a in l.loans
      ensures ClientAddress(a)
    {
      var k := LoansWereDrawn(l, a);
      CapacityIsExact(k);
    }
  }

  lemma LastBeyondCapacity(l: Ledger)
    requires l.Balanced() && l.Drawn() == CAPACITY && l.pool.released == []
    ensures var l' := Apply(l, Lease);
            |l'.loans| == CAPACITY + 1 && 0xFFF0 in l'.loans && !ClientAddress(0xFFF0)
  {
    var l' := Apply(l, Lease);
    assert l'.loans[|l'.loans| - 1] == l.pool.next == 0xFFF0;
  }

  lemma PeakAtLeastNow(l: Ledger, ops: seq<Op>)
    requires Legal(l, ops)
    ensures Peak(l, ops) >= |l.loans|
  {
  }

  lemma DrawsByOne(l: Ledger, op: Op)
    requires Allowed(l, op)
    ensures Apply(l, op).Drawn() > l.Drawn() ==>
              op == Lease && l.pool.released == [] && Apply(l, op).Drawn() == l.Drawn() + 1
  {
  }

  lemma BeyondCapacityFrom(l: Ledger, ops: seq<Op>)
    requires Legal(l, ops) && ops != [] && l.Balanced() && l.Drawn() == CAPACITY
    requires Apply(l, ops[0]).Drawn() > CAPACITY
    ensures !AlwaysInRange(Apply(l, ops[0]), ops[1..]) && Peak(Apply(l, ops[0]), ops[1..]) > CAPACITY
  {
    DrawsByOne(l, ops[0]);
    LastBeyondCapacity(l);
    PeakAtLeastNow(Apply(l, ops[0]), ops[1..]);
  }

  lemma {:induction false} InRangeFrom(l: Ledger, ops: seq<Op>)
    requires Legal(l, ops) && l.Balanced() && l.Drawn() <= CAPACITY
    ensures AlwaysInRange(l, ops) <==> Peak(l, ops) <= CAPACITY
    decreases |ops|
  {
    assert |l.loans| <= CAPACITY && forall a :: a in l.loans ==> ClientAddress(a) by {
      LoansInRange(l);
    }
    if ops != [] {
      var l', rest := Apply(l, ops[0]), ops[1..];
      assert AlwaysInRange(l', rest) <==> Peak(l', rest) <= CAPACITY by {
        DrawsByOne(l, ops[0]);
        if l'.Drawn() <= CAPACITY {
          ApplyBalances(l, ops[0]);
          InRangeFrom(l', rest);
        } else {
          BeyondCapacityFrom(l, ops);
        }
      }
    }
  }

  /** All addresses leased during a run are client addresses if and only if at most 49135 are held at once. */
  lemma InRangeIffPeakWithinCapacity(ops: seq<Op>)
    requires Legal(NEW_LEDGER, ops)
    ensures AlwaysInRange(NEW_LEDGER, ops) <==> Peak(NEW_LEDGER, ops) <= CAPACITY
  {
    InRangeFrom(NEW_LEDGER, ops);
  }

  lemma TooManyCollide(l: Ledger)
    requires l.Balanced() && l.pool.released == [] && l.Drawn() > 0x1_0000
    ensures !Distinct(l.loans)
  {
    var s := Issued(l.Drawn());
    assert multiset(l.loans) == multiset(s);
    IssuedIsDistinct(l.Drawn());
    DistinctCountsOnce(s);
    DistinctCountsOnce(l.loans);
  }

  lemma {:induction false} DistinctFrom(l: Ledger, ops: seq<Op>)
    requires Legal(l, ops) && l.Balanced() && l.Drawn() <= 0x1_0000
    ensures AlwaysDistinct(l, ops) <==> Peak(l, ops) <= 0x1_0000
    decreases |ops|
  {
    NoAddressTwice(l);
    if ops != [] {
      var l' := Apply(l, ops[0]);
      ApplyBalances(l, ops[0]);
      if l'.Drawn() <= 0x1_0000 {
        DistinctFrom(l', ops[1..]);
      } else {
        TooManyCollide(l');
      }
    }
  }

  /** Live leases stay pairwise distinct if and only if at most 65536 are held at once. */
  lemma DistinctIffPeakWithinWordSize(ops: seq<Op>)
    requires Legal(NEW_LEDGER, ops)
    ensures AlwaysDistinct(NEW_LEDGER, ops) <==> Peak(NEW_LEDGER, ops) <= 0x1_0000
  {
    DistinctFrom(NEW_LEDGER, ops);
  }

  // -------------------------------------------------------------------- reuse

  function Leases(ops: seq<Op>): nat {
    if ops == [] then 0 else (if ops[0].Lease? then 1 else 0) + Leases(ops[1..])
  }

  lemma {:induction false} QueueAdvances(l: Ledger, ops: seq<Op>)
    requires Legal(l, ops) && Leases(ops) <= |l.pool.released|
    ensures l.pool.released[Leases(ops)..] <= RunOps(l, ops).pool.released
    ensures RunOps(l, ops).pool.next == l.pool.next
    decreases |ops|
  {
    if ops != [] {
      var l' := Apply(l, ops[0]);
      QueueAdvances(l', ops[1..]);
      if ops[0].Return? {
        assert l.pool.released[Leases(ops)..] <= l'.pool.released[Leases(ops)..];
      } else {
        assert l'.pool.released[Leases(ops[1..])..] == l.pool.released[Leases(ops)..];
      }
    }
  }

  lemma {:induction false} RunOpsConcat(l: Ledger, a: seq<Op>, b: seq<Op>)
    requires Legal(l, a) && Legal(RunOps(l, a), b)
    ensures Legal(l, a + b) && RunOps(l, a + b) == RunOps(RunOps(l, a), b)
    ensures Leases(a + b) == Leases(a) + Leases(b)
    decreases |a|
  {
    if a == [] {
      assert a + b == b;
    } else {
      assert (a + b)[1..] == a[1..] + b;
      RunOpsConcat(Apply(l, a[0]), a[1..], b);
    }
  }

  /**
   Oldest first: the address at position k of the reclaimed queue is what the (k+1)-th later lease
   hands out, whatever returns are interleaved, and no lease before it touches the counter.
   */
  lemma OldestFirst(l: Ledger, ops: seq<Op>, k: nat)
    requires Legal(l, ops) && k < |l.pool.released| && Leases(ops) == k
    ensures var (p, a) := Obtain(RunOps(l, ops).pool);
            a == l.pool.released[k] && p.next == l.pool.next
  {
    QueueAdvances(l, ops);
    assert l.pool.released[k..][0] == l.pool.released[k];
  }

  /** A fresh address is drawn exactly when every address drawn before is on loan. */
  lemma FreshOnlyWhenAllOnLoan(l: Ledger)
    requires l.Balanced()
    ensures Apply(l, Lease).Drawn() == l.Drawn() + 1 <==> multiset(l.loans) == multiset(Issued(l.Drawn()))
    ensures Apply(l, Lease).Drawn() == l.Drawn() <==> l.pool.released != []
  {
    if multiset(l.loans) == multiset(Issued(l.Drawn())) {
      assert |multiset(l.loans)| == |multiset(Issued(l.Drawn()))|;
    }
  }

  // ------------------------------------------------------------------ classes

  class AddressPool {
    var next: u16
    var released: seq<u16>

    function View(): Pool
      reads this
    {
      Pool(next, released)
    }

    constructor ()
      ensures View() == NEW_POOL
    {
      next, released := 0x4001, [];
    }

    method ObtainAddressLease() returns (lease: AddressLease)
      modifies this
      ensures fresh(lease) && lease.pool == this
      ensures (View(), lease.address) == Obtain(old(View()))
    {
      var nextAddress: u16;
      if released == [] {
        nextAddress := next;
        next := (next + 1) % 0x1_0000;
      } else {
        nextAddress := released[0];
        released := released[1..];
      }
      lease := new AddressLease(this, nextAddress);
    }

    method ReleaseAddressLease(address: u16)
      modifies this
      ensures View() == Release(old(View()), address)
    {
      released := released + [address];
    }
  }

  /** An address on loan; its owner destroys it, which gives the address back. */
  class AddressLease {
    const pool: AddressPool
    const address: u16

    constructor (pool: AddressPool, address: u16)
      ensures this.pool == pool && this.address == address
    {
      this.pool, this.address := pool, address;
    }

    method Destroy()
      modifies pool
      ensures pool.View() == Release(old(pool.View()), address)
    {
      pool.ReleaseAddressLease(address);
    }
  }
}
