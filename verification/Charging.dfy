/** What the constraints charge, exactly: which ledgers a packet leaves behind for every verdict, and
    over runs the lifetime ledger of a relay as the bytes of its packets that got as far as the last
    constraint. */
module Charging {
  import opened Addresses
  import opened Limiter
  import opened Engine
  import opened Invariants
  import opened Routing
  import Reclaim
  import Traffic

  /** The slice is not over and the packet would take it over the budget. */
  predicate Full(l: Limit, size: nat, now: real) {
    now <= l.lastInterval + l.interval && (l.traffic + size) as real > l.maxTraffic * l.interval
  }

  /** The limiter a relay meets, made on its first packet. */
  function LimiterOf(config: Config, l: Ledgers, id: string, now: real): Limit {
    if id in l.individual then l.individual[id] else Limit(config.individualTraffic, config.interval, 0, now)
  }

  /** The bytes the lifetime ledger has for a relay. */
  function Charge(l: Ledgers, id: string): nat {
    if id in l.lifetime then l.lifetime[id] else 0
  }

  /** The first constraint in the order of registration that does not hold decides; the individual
      ledger is always charged, the global one unless the individual one was full, the lifetime one
      only when the three constraints before it hold. No other ledger changes. */
  lemma VetExact(config: Config, l: Ledgers, source: Relay, size: nat, now: real)
    ensures var (l', verdict) := Vet(config, l, source, size, now);
            var id := RelayId(source.address, source.port);
            var limit := LimiterOf(config, l, id, now);
            && verdict == (if Full(limit, size, now) then OverIndividual
                           else if Full(l.global, size, now) then OverGlobal
                           else if now - source.created >= config.lifetime then TooOld
                           else if (Charge(l, id) + size) as real >= config.lifetimeTraffic then OverLifetime
                           else Accepted)
            && l'.individual == l.individual[id := limit.Validated(size, now, now)]
            && l'.global == (if verdict == OverIndividual then l.global else l.global.Validated(size, now, now))
            && l'.lifetime == (if verdict in {OverIndividual, OverGlobal, TooOld} then l.lifetime
                               else l.lifetime[id := Charge(l, id) + size])
  {
    var id := RelayId(source.address, source.port);
    LimitExact(LimiterOf(config, l, id, now), size, now, now);
    LimitExact(l.global, size, now, now);
    hide RelayId, Limit.Accepts, Limit.Validated;
  }

  // ------------------------------------------------------------------- over runs

  /** The three constraints before the last one hold for a packet of the relay. */
  predicate PassesThree(e: Engine, r: Relay, size: nat) {
    && !Full(LimiterOf(e.config, e.ledgers, RelayId(r.address, r.port), e.clock), size, e.clock)
    && !Full(e.ledgers.global, size, e.clock)
    && e.clock - r.created < e.config.lifetime
  }

  /** The operation is a packet of this relay to another one that gets as far as the last constraint. */
  ghost predicate GetsFar(e: Engine, t: Timed, a: NetAddress, p: nat) {
    && t.op.Packet? && t.op.sender == a && p in e.pool.ports
    && (exists d :: d in e.table && d.port == t.op.target)
    && (exists r :: r in e.table && r.address == a && r.port == p
                    && PassesThree(e.(clock := t.at), r, |t.op.message|))
  }

  /** The relay was announced as destroyed in between. */
  predicate Gone(before: Engine, after: Engine, a: NetAddress, p: nat) {
    |before.trace| <= |after.trace| && Destroyed(a, p) in after.trace[|before.trace|..]
  }

  /** The bytes of the relay's packets that got as far as the last constraint, since it was destroyed
      last; what an earlier constraint rejects does not count. */
  ghost function FarBytes(e: Engine, ops: seq<Timed>, a: NetAddress, p: nat): nat {
    if ops == [] then 0
    else
      var init, last := ops[..|ops| - 1], ops[|ops| - 1];
      var before := Run(e, init);
      if Gone(before, Apply(before, last), a, p) then 0
      else FarBytes(e, init, a, p) + if GetsFar(before, last, a, p) then |last.op.message| else 0
  }


  /** The lifetime ledger after one packet. */
  lemma PacketCharge(e: Engine, t: Timed, a: NetAddress, p: nat)
    requires Inv(e) && e.clock == t.at && t.op.Packet?
    ensures var e' := RelayPacket(e, t.op.message, t.op.sender, t.op.target).0;
            Charge(e'.ledgers, RelayId(a, p))
            == Charge(e.ledgers, RelayId(a, p)) + if GetsFar(e, t, a, p) then |t.op.message| else 0
  {
    var i, j := IndexOf(e.table, t.op.sender), IndexOfPort(e.table, t.op.target);
    var e' := RelayPacket(e, t.op.message, t.op.sender, t.op.target).0;
    assert e.(clock := t.at) == e;
    Traffic.PacketEffect(e, t.op.message, t.op.sender, t.op.target);
    LookedUp(e, t.op.sender, t.op.target);
    if i < |e.table| && j < |e.table| && e.table[i].port in e.pool.ports {
      var source := e.table[i];
      assert source in e.table && e.table[j] in e.table;
      VetExact(e.config, e.ledgers, source, |t.op.message|, e.clock);
      RelayIdInjective(source.address, source.port, a, p);
      hide Inv, RelayPacket, Vet, RelayId, IndexOf, IndexOfPort, Full, LimiterOf;
    } else {
      hide Inv, RelayPacket, Vet, RelayId, IndexOf, IndexOfPort, PassesThree;
    }
  }

  /** The entries found are the only ones with the sender's address and with the target's port. */
  lemma LookedUp(e: Engine, sender: NetAddress, target: nat)
    requires Inv(e)
    ensures var i, j := IndexOf(e.table, sender), IndexOfPort(e.table, target);
            && (forall r :: r in e.table && r.address == sender ==> i < |e.table| && r == e.table[i])
            && (j < |e.table| <==> exists d :: d in e.table && d.port == target)
  {
    hide Accounted, Owned, Clocked, First;
    var i, j := IndexOf(e.table, sender), IndexOfPort(e.table, target);
    forall r | r in e.table && r.address == sender
      ensures i < |e.table| && r == e.table[i]
    {
      var k :| 0 <= k < |e.table| && e.table[k] == r;
    }
    if d :| d in e.table && d.port == target {
      var k :| 0 <= k < |e.table| && e.table[k] == d;
    }
    if j < |e.table| {
      assert e.table[j] in e.table;
    }
  }

  lemma {:induction false} ForgottenCharge(l: Ledgers, gone: seq<Relay>, a: NetAddress, p: nat)
    ensures Charge(ForgetAll(l, gone), RelayId(a, p))
            == if Destroyed(a, p) in DestroyEvents(gone) then 0 else Charge(l, RelayId(a, p))
    decreases |gone|
  {
    if gone != [] {
      var r := gone[0];
      RelayIdInjective(r.address, r.port, a, p);
      ForgottenCharge(Forget(l, r.Id()), gone[1..], a, p);
      assert DestroyEvents(gone) == [Destroyed(r.address, r.port)] + DestroyEvents(gone[1..]);
      hide RelayId, ForgetAll;
      assert ForgetAll(l, gone) == ForgetAll(Forget(l, r.Id()), gone[1..]) by { ForgetHead(l, gone); }
    }
  }

  lemma ForgetHead(l: Ledgers, gone: seq<Relay>)
    requires gone != []
    ensures ForgetAll(l, gone) == ForgetAll(Forget(l, gone[0].Id()), gone[1..])
  {
  }

  lemma DestroyCharge(e: Engine, e': Engine, gone: seq<Relay>, a: NetAddress, p: nat)
    requires e'.ledgers == ForgetAll(e.ledgers, gone) && e'.trace == e.trace + DestroyEvents(gone)
    ensures Charge(e'.ledgers, RelayId(a, p)) == if Gone(e, e', a, p) then 0 else Charge(e.ledgers, RelayId(a, p))
  {
    ForgottenCharge(e.ledgers, gone, a, p);
    assert e'.trace[|e.trace|..] == DestroyEvents(gone);
    hide RelayId, ForgetAll, DestroyEvents;
  }

  lemma QuietCharge(e: Engine, e': Engine, a: NetAddress, p: nat)
    requires e'.ledgers == e.ledgers && Extends(e, e')
    requires forall ev :: ev in News(e, e') ==> !ev.Destroyed?
    ensures Charge(e'.ledgers, RelayId(a, p)) == Charge(e.ledgers, RelayId(a, p)) && !Gone(e, e', a, p)
  {
    hide RelayId;
    assert Destroyed(a, p) !in News(e, e');
  }

  lemma ApplyCharge(e: Engine, t: Timed, a: NetAddress, p: nat)
    requires Inv(e) && e.clock <= t.at
    ensures var e' := Apply(e, t);
            Charge(e'.ledgers, RelayId(a, p))
            == if Gone(e, e', a, p) then 0
               else Charge(e.ledgers, RelayId(a, p)) + if GetsFar(e, t, a, p) then |t.op.message| else 0
  {
    TickKeeps(e, t.at);
    var now, e' := e.(clock := t.at), Apply(e, t);
    assert News(e, e) == [];
    assert GetsFar(now, t, a, p) == GetsFar(e, t, a, p) by {
      hide PassesThree;
      assert now.(clock := t.at) == e.(clock := t.at);
    }
    hide Inv, CreateRelay, RelayPacket, Cleanup, ClearTable, RelayId, PassesThree, ForgetAll, DestroyEvents, Charge;
    match t.op {
      case Create(address) =>
        CreateQuiet(now, address);
        QuietCharge(now, e', a, p);
      case Packet(message, sender, target) =>
        Reclaim.PacketNews(now, message, sender, target);
        PacketCharge(now, t, a, p);
      case Clean =>
        Traffic.CleanEffect(now);
        DestroyCharge(now, e', Expired(now.table, now.clock - now.config.timeout), a, p);
      case Clear =>
        Traffic.CleanEffect(now);
        DestroyCharge(now, e', now.table, a, p);
      case Strand => QuietCharge(e, e', a, p);
      case Close => QuietCharge(e, e', a, p);
      case Tick => QuietCharge(e, e', a, p);
    }
    assert Gone(now, e', a, p) == Gone(e, e', a, p);
  }

  lemma CreateQuiet(e: Engine, address: NetAddress)
    ensures var e' := CreateRelay(e, address).0;
            && e'.ledgers == e.ledgers && Extends(e, e') && forall ev :: ev in News(e, e') ==> !ev.Destroyed?
  {
    Reclaim.CreateNews(e, address);
    hide IndexOf;
  }

  /** Over every run from start-up the lifetime ledger of a relay is exactly the bytes of its packets that
      passed the three constraints before it, since the relay was last destroyed. */
  lemma {:induction false} LifetimeExact(config: Config, bound: seq<nat>, start: real, ops: seq<Timed>, a: NetAddress,
                                         p: nat)
    requires NoDuplicates(bound) && Timely(ops, start)
    ensures var e := Start(config, bound, start);
            Charge(Run(e, ops).ledgers, RelayId(a, p)) == FarBytes(e, ops, a, p)
  {
    var e := Start(config, bound, start);
    if ops != [] {
      LifetimeExact(config, bound, start, ops[..|ops| - 1], a, p);
      StartInv(config, bound, start);
      RunKeeps(e, ops[..|ops| - 1]);
      hide Inv, Apply, RelayId, Charge, Gone, GetsFar, Start;
      ApplyCharge(Run(e, ops[..|ops| - 1]), ops[|ops| - 1], a, p);
    }
  }
}
