/** Routing: who a packet reaches, when it is sent at all, and that replies find their way back. */
module Routing {
  import opened Addresses
  import opened Engine
  import opened Invariants

  /** The table has an entry for the address, using the port. */
  ghost predicate Holds(e: Engine, address: NetAddress, port: nat) {
    exists r :: r in e.table && r.address == address && r.port == port
  }

  ghost predicate Extends(before: Engine, after: Engine) {
    before.trace <= after.trace
  }

  /** Events of `after` that `before` had not seen. */
  function News(before: Engine, after: Engine): seq<Event>
    requires Extends(before, after)
  {
    after.trace[|before.trace|..]
  }

  // --------------------------------------------------- when a packet is sent

  /** The four constraints, read off the ledgers before the packet. */
  ghost predicate AllAccept(config: Config, l: Ledgers, source: Relay, size: nat, now: real) {
    && IndividualLimit(config, l, source.Id(), now).Accepts(size, now)
    && l.global.Accepts(size, now)
    && now - source.created < config.lifetime
    && (LifetimeTraffic(l, source.Id()) + size) as real < config.lifetimeTraffic
  }

  /** A packet is sent if and only if its sender and its target have relays, the sender's socket
      is managed, and all four constraints accept it. It then leaves from the sender's own port
      towards the target's address; otherwise nothing is observed. */
  lemma SentIff(e: Engine, message: Datagram, sender: NetAddress, target: nat)
    requires Inv(e)
    ensures var (e', outcome) := RelayPacket(e, message, sender, target);
            && (outcome == Delivered <==>
                  exists s, d :: s in e.table && d in e.table && s.address == sender && d.port == target
                                 && s.port in e.pool.ports && AllAccept(e.config, e.ledgers, s, |message|, e.clock))
            && (outcome != Delivered ==> e'.trace == e.trace && e'.table == e.table)
            && (outcome == Dropped(false, true)
                <==> !Has(e.table, sender) && exists d :: d in e.table && d.port == target)
    ensures RelayPacket(e, message, sender, target).1 == Delivered ==>
            forall s, d :: s in e.table && d in e.table && s.address == sender && d.port == target ==>
              RelayPacket(e, message, sender, target).0.trace
              == e.trace + [Sent(e.clock, sender, s.port, d.address, message)]
  {
    hide Vet, RelayId, Touch, Clocked, Owned, Accounted;
    var i, j := IndexOf(e.table, sender), IndexOfPort(e.table, target);
    forall s | s in e.table && s.address == sender ensures i < |e.table| && s == e.table[i] {
      var k :| 0 <= k < |e.table| && e.table[k] == s;
    }
    forall d | d in e.table && d.port == target ensures j < |e.table| && d == e.table[j] {
      var k :| 0 <= k < |e.table| && e.table[k] == d;
    }
    if i < |e.table| && j < |e.table| {
      VetAccepts(e.config, e.ledgers, e.table[i], |message|, e.clock);
      assert e.table[i] in e.table && e.table[j] in e.table;
    }
  }

  /** Everything one packet does. Without sender or target it is dropped, with the reason, and without a
      socket it is ignored; neither changes anything. Otherwise the constraints charge what they
      charge, and if all accept, the packet is sent and exactly two timestamps move. */
  lemma PacketExact(e: Engine, message: Datagram, sender: NetAddress, target: nat)
    requires Inv(e)
    ensures var (e', outcome) := RelayPacket(e, message, sender, target);
            var known := exists r :: r in e.table && r.address == sender;
            var aimed := exists r :: r in e.table && r.port == target;
            !known || !aimed ==> outcome == Dropped(known, aimed) && e' == e
    ensures var (e', outcome) := RelayPacket(e, message, sender, target);
            forall s, d :: s in e.table && d in e.table && s.address == sender && d.port == target ==>
              if s.port !in e.pool.ports then outcome == NoSocket && e' == e
              else
                var (charged, verdict) := Vet(e.config, e.ledgers, s, |message|, e.clock);
                if verdict != Accepted then outcome == Rejected && e' == e.(ledgers := charged)
                else
                  && outcome == Delivered
                  && e' == e.(ledgers := charged, table := e'.table,
                              trace := e.trace + [Sent(e.clock, sender, s.port, d.address, message)])
                  && Moved(e.table, e'.table, s, d, e.clock)
  {
    hide Vet, Touch, Accounted, Owned, Clocked, First;
    var i, j := IndexOf(e.table, sender), IndexOfPort(e.table, target);
    forall r | r in e.table
      ensures r.address == sender ==> i < |e.table| && r == e.table[i]
      ensures r.port == target ==> j < |e.table| && r == e.table[j]
    {
      var k :| 0 <= k < |e.table| && e.table[k] == r;
    }
    if i < |e.table| && j < |e.table| {
      assert e.table[i] in e.table && e.table[j] in e.table;
      TouchMoved(e.table, i, j, e.clock);
    } else if i < |e.table| {
      assert e.table[i] in e.table;
    } else if j < |e.table| {
      assert e.table[j] in e.table;
    }
  }

  /** The sender has received and the target has sent at this time; nothing else changed. */
  ghost predicate Moved(table: seq<Relay>, table': seq<Relay>, s: Relay, d: Relay, now: real) {
    |table'| == |table|
    && forall k :: 0 <= k < |table| ==>
         table'[k] == table[k].(lastReceived := if table[k] == s then now else table[k].lastReceived,
                                lastSent := if table[k] == d then now else table[k].lastSent)
  }

  lemma TouchMoved(table: seq<Relay>, i: nat, j: nat, now: real)
    requires Distinct(table) && i < |table| && j < |table|
    ensures Moved(table, Touch(table, i, j, now), table[i], table[j], now)
  {
    TouchShape(table, i, j, now);
    hide Touch;
  }

  lemma VetAccepts(config: Config, l: Ledgers, source: Relay, size: nat, now: real)
    ensures Vet(config, l, source, size, now).1 == Accepted <==> AllAccept(config, l, source, size, now)
  {
  }

  // ------------------------------------------------------------ routes persist

  lemma {:induction false} FreeAllTrace(e: Engine, relays: seq<Relay>)
    ensures Extends(e, FreeAll(e, relays))
    decreases |relays|
  {
    hide RelayId;
    if relays != [] {
      FreeAllTrace(FreeRelay(e, relays[0]).0, relays[1..]);
    }
  }

  /** The trace only grows. */
  lemma TraceGrows(e: Engine, t: Timed)
    ensures Extends(e, Apply(e, t))
  {
    hide Vet, Touch, IndexOf, IndexOfPort, Expired, FreeAll;
    var now := e.(clock := t.at);
    FreeAllTrace(now, Expired(now.table, now.clock - now.config.timeout));
    FreeAllTrace(now, now.table);
  }

  lemma {:induction false} RunTraceGrows(e: Engine, ops: seq<Timed>)
    ensures Extends(e, Run(e, ops))
  {
    if ops != [] {
      RunTraceGrows(e, ops[..|ops| - 1]);
      TraceGrows(Run(e, ops[..|ops| - 1]), ops[|ops| - 1]);
      hide Apply;
    }
  }

  lemma {:induction false} DestroyEventsOf(relays: seq<Relay>, r: Relay)
    requires r in relays
    ensures Destroyed(r.address, r.port) in DestroyEvents(relays)
  {
    if r != relays[0] {
      DestroyEventsOf(relays[1..], r);
    }
  }

  /** What an operation does to one route: the entry keeps its creation time, and its last traffic
      moves only when the trace says so. */
  ghost predicate Carried(r: Relay, r': Relay) {
    r'.address == r.address && r'.port == r.port && r'.created == r.created
  }

  /** The route of `r` is still in the table of `e'`, or its destruction was announced. */
  ghost predicate Survives(e: Engine, e': Engine, r: Relay)
    requires Extends(e, e')
  {
    Destroyed(r.address, r.port) in News(e, e') || exists r' :: r' in e'.table && Carried(r, r')
  }

  lemma CreateRoute(e: Engine, address: NetAddress, r: Relay)
    requires r in e.table
    ensures var e' := CreateRelay(e, address).0; Extends(e, e') && Survives(e, e', r)
  {
    assert r in CreateRelay(e, address).0.table && Carried(r, r);
  }

  lemma PacketKeepsRoute(e: Engine, message: Datagram, sender: NetAddress, target: nat, r: Relay)
    requires r in e.table
    ensures var e' := RelayPacket(e, message, sender, target).0; Extends(e, e') && Survives(e, e', r)
  {
    hide Vet, RelayId, Touch;
    var e' := RelayPacket(e, message, sender, target).0;
    var i, j := IndexOf(e.table, sender), IndexOfPort(e.table, target);
    var k :| 0 <= k < |e.table| && e.table[k] == r;
    if e'.table != e.table {
      TouchShape(e.table, i, j, e.clock);
      assert Carried(r, e'.table[k]) && e'.table[k] in e'.table;
    } else {
      assert Carried(r, r);
    }
  }

  lemma CleanRoute(e: Engine, r: Relay)
    requires Inv(e) && r in e.table
    ensures var e' := Cleanup(e); Extends(e, e') && Survives(e, e', r)
  {
    hide Inv, Cleanup, Expired, Kept, Ports, DestroyEvents, RelayId;
    CleanupExact(e);
    var cutoff := e.clock - e.config.timeout;
    if r.LastTraffic() > cutoff {
      assert r in Cleanup(e).table && Carried(r, r);
    } else {
      ExpiredMembers(e.table, cutoff);
      DestroyEventsOf(Expired(e.table, cutoff), r);
    }
  }

  lemma ClearRoute(e: Engine, r: Relay)
    requires Inv(e) && r in e.table
    ensures var e' := ClearTable(e); Extends(e, e') && Survives(e, e', r)
  {
    hide Inv, ClearTable;
    ClearTrace(e);
    DestroyEventsOf(e.table, r);
  }

  /** A route survives every operation that does not announce its destruction. */
  lemma RouteStep(e: Engine, t: Timed, r: Relay)
    requires Inv(e) && e.clock <= t.at && r in e.table
    ensures var e' := Apply(e, t); Extends(e, e') && Survives(e, e', r)
  {
    hide Inv, CreateRelay, RelayPacket, Cleanup, ClearTable, Survives;
    TickKeeps(e, t.at);
    var now, e' := e.(clock := t.at), Apply(e, t);
    match t.op {
      case Create(address) => CreateRoute(now, address, r);
      case Packet(message, sender, target) => PacketKeepsRoute(now, message, sender, target, r);
      case Clean => CleanRoute(now, r);
      case Clear => ClearRoute(now, r);
      case Strand => Unmoved(e, e', r);
      case Close => Unmoved(e, e', r);
      case Tick => Unmoved(e, e', r);
    }
    SameNews(e, now, e', r);
  }

  lemma Unmoved(e: Engine, e': Engine, r: Relay)
    requires r in e.table && e'.table == e.table && e'.trace == e.trace
    ensures Survives(e, e', r)
  {
  }

  lemma SameNews(e: Engine, now: Engine, e': Engine, r: Relay)
    requires e.trace == now.trace && Extends(e, e')
    ensures Survives(e, e', r) == Survives(now, e', r)
  {
  }

  lemma ClearTrace(e: Engine)
    requires Inv(e)
    ensures ClearTable(e).trace == e.trace + DestroyEvents(e.table)
  {
    hide Inv, FreeAll, ReturnAll, ForgetAll;
    assert [] + e.table == e.table;
    AllExpired(e.table, Latest(e.table));
    FreeExpired(e, [], e.table, Latest(e.table));
  }

  /** Over any run, a route that is not announced as destroyed is still there. */
  lemma {:induction false} RouteRun(e: Engine, ops: seq<Timed>, r: Relay)
    requires Inv(e) && Timely(ops, e.clock) && r in e.table
    ensures Extends(e, Run(e, ops)) && Survives(e, Run(e, ops), r)
  {
    RunTraceGrows(e, ops);
    if ops == [] {
      assert Carried(r, r);
    } else {
      var before, last := ops[..|ops| - 1], ops[|ops| - 1];
      RouteRun(e, before, r);
      RunKeeps(e, before);
      hide Inv, Apply;
      var mid, end := Run(e, before), Run(e, ops);
      TraceGrows(mid, last);
      assert News(e, end) == News(e, mid) + News(mid, end);
      if Destroyed(r.address, r.port) !in News(e, mid) {
        var r1 :| r1 in mid.table && Carried(r, r1);
        RouteStep(mid, last, r1);
        if Destroyed(r.address, r.port) !in News(mid, end) {
          var r2 :| r2 in end.table && Carried(r1, r2);
          assert Carried(r, r2);
        }
      }
    }
  }

  /** With relays for `a` on `p` and for `b` on `q`, a packet from `a` to port `q` can only go to
      `b`, from port `p`. */
  lemma PacketRoute(e: Engine, message: Datagram, a: NetAddress, p: nat, b: NetAddress, q: nat)
    requires Inv(e) && Holds(e, a, p) && Holds(e, b, q) && p in e.pool.ports
    ensures var (e', outcome) := RelayPacket(e, message, a, q);
            && (outcome == Delivered || outcome == Rejected)
            && (outcome == Delivered ==> e'.trace == e.trace + [Sent(e.clock, a, p, b, message)])
            && (outcome == Rejected ==> e'.trace == e.trace)
  {
    SentIff(e, message, a, q);
    var s :| s in e.table && s.address == a && s.port == p;
    var d :| d in e.table && d.address == b && d.port == q;
    hide Inv, Vet, RelayId, Touch;
  }

  /** A packet that is sent was routed between two table entries. */
  lemma SentBetween(e: Engine, message: Datagram, a: NetAddress, q: nat)
    requires Inv(e) && RelayPacket(e, message, a, q).1 == Delivered
    ensures exists p, b ::
              Holds(e, a, p) && Holds(e, b, q) && p in e.pool.ports
              && RelayPacket(e, message, a, q).0.trace == e.trace + [Sent(e.clock, a, p, b, message)]
  {
  }

  /** Replies find their way back: if a packet from `a` to port `q` reached `b` from port `p`, then
      as long as neither relay is destroyed, whatever else happens in between, what `b` sends to
      the port it saw either goes to `a` from the port `a` addressed, or is rejected by a
      constraint. */
  lemma ReplyRoutesBack(e: Engine, message: Datagram, a: NetAddress, p: nat, b: NetAddress, q: nat,
                        ops: seq<Timed>, reply: Datagram)
    requires Inv(e) && Timely(ops, e.clock)
    requires RelayPacket(e, message, a, q).0.trace == e.trace + [Sent(e.clock, a, p, b, message)]
    ensures var sent := RelayPacket(e, message, a, q).0;
            var end := Run(sent, ops);
            && Extends(sent, end)
            && (Destroyed(a, p) !in News(sent, end) && Destroyed(b, q) !in News(sent, end) && q in end.pool.ports ==>
                  var (e', outcome) := RelayPacket(end, reply, b, p);
                  || (outcome == Delivered && e'.trace == end.trace + [Sent(end.clock, b, q, a, reply)])
                  || (outcome == Rejected && e'.trace == end.trace))
  {
    var sent := RelayPacket(e, message, a, q).0;
    var end := Run(sent, ops);
    PacketKeeps(e, message, a, q);
    SentTable(e, message, a, p, b, q);
    hide Inv, RelayPacket;
    assert sent.clock == e.clock;
    RunKeeps(sent, ops);
    RunTraceGrows(sent, ops);
    if Destroyed(a, p) !in News(sent, end) && Destroyed(b, q) !in News(sent, end) && q in end.pool.ports {
      var ra :| ra in sent.table && ra.address == a && ra.port == p;
      var rb :| rb in sent.table && rb.address == b && rb.port == q;
      RouteRun(sent, ops, ra);
      RouteRun(sent, ops, rb);
      PacketRoute(end, reply, b, q, a, p);
    }
  }

  lemma SentTable(e: Engine, message: Datagram, a: NetAddress, p: nat, b: NetAddress, q: nat)
    requires Inv(e)
    requires RelayPacket(e, message, a, q).0.trace == e.trace + [Sent(e.clock, a, p, b, message)]
    ensures var sent := RelayPacket(e, message, a, q).0;
            sent.clock == e.clock && Holds(sent, a, p) && Holds(sent, b, q)
  {
    hide Inv, Vet, RelayId, Touch;
    var sent := RelayPacket(e, message, a, q).0;
    var i, j := IndexOf(e.table, a), IndexOfPort(e.table, q);
    assert sent.trace[|e.trace|] == Sent(e.clock, a, p, b, message);
    TouchShape(e.table, i, j, e.clock);
    assert sent.table[i] in sent.table && sent.table[j] in sent.table;
  }

  /** `createRelay` for an address that has a relay changes nothing and returns its port. */
  lemma CreateIsIdempotent(e: Engine, address: NetAddress, port: nat)
    requires Inv(e) && Holds(e, address, port)
    ensures CreateRelay(e, address) == (e, Some(port))
  {
  }

  /** Creating a relay for a new address and freeing it again restores table, free list and ledgers. */
  lemma CreateFreeUndo(e: Engine, address: NetAddress)
    requires Inv(e) && !Has(e.table, address) && e.pool.free != []
    ensures var (created, port) := CreateRelay(e, address);
            && port.Some?
            && created.table == e.table + [Relay(address, port.value, 0.0, e.clock, e.clock)]
            && var freed := FreeRelay(created, created.table[|e.table|]).0;
               && freed.table == e.table
               && freed.pool.free == e.pool.free && freed.pool.ports == e.pool.ports
               && freed.pool.stranded == e.pool.stranded
               && freed.ledgers == e.ledgers
  {
    var (created, port) := CreateRelay(e, address);
    var k, last := |e.table|, e.pool.free[|e.pool.free| - 1];
    assert last in Elements(e.pool.free);
    assert last in e.pool.ports;
    NewIdIsFresh(e, address, last);
    hide Inv, RelayId, CreateRelay, Accounted;
    NewEntryFound(e.table, Relay(address, last, 0.0, e.clock, e.clock));
    assert created.table == e.table + [Relay(address, last, 0.0, e.clock, e.clock)] by { CreateNew(e, address); }
    CreateNew(e, address);
    assert Forget(e.ledgers, RelayId(address, last)) == e.ledgers by {
      assert e.ledgers.individual - {RelayId(address, last)} == e.ledgers.individual;
      assert e.ledgers.lifetime - {RelayId(address, last)} == e.ledgers.lifetime;
    }
    assert e.pool.free[..|e.pool.free| - 1] + [last] == e.pool.free;
  }

  lemma CreateNew(e: Engine, address: NetAddress)
    requires !Has(e.table, address) && e.pool.free != []
    ensures var (created, port) := CreateRelay(e, address);
            var last := e.pool.free[|e.pool.free| - 1];
            && port == Some(last)
            && created == e.(pool := e.pool.(free := e.pool.free[..|e.pool.free| - 1],
                                             listening := e.pool.listening + {last}),
                             table := e.table + [Relay(address, last, 0.0, e.clock, e.clock)],
                             trace := e.trace + [Created(e.clock, address, last)])
  {
  }

  /** Everything `freeRelay` does, whatever its argument: nothing if its address has no relay; otherwise
      that relay leaves the table, and the argument's own port and ledgers are released. */
  lemma FreeExact(e: Engine, relay: Relay)
    ensures var (e', freed) := FreeRelay(e, relay);
            && (freed <==> exists r :: r in e.table && r.address == relay.address)
            && (!freed ==> e' == e)
            && (freed ==>
                  && (exists k :: 0 <= k < |e.table| && e.table[k].address == relay.address
                                  && e'.table == e.table[..k] + e.table[k + 1..])
                  && e'.pool == e.pool.(
                       free := if relay.port in e.pool.ports then e.pool.free + [relay.port] else e.pool.free)
                  && e' == e.(table := e'.table, pool := e'.pool, ledgers := e'.ledgers,
                              trace := e.trace + [Destroyed(relay.address, relay.port)])
                  && LedgersWithout(e.ledgers, e'.ledgers, RelayId(relay.address, relay.port)))
  {
    hide RelayId, First;
    var i := IndexOf(e.table, relay.address);
    if i < |e.table| {
      assert e.table[i] in e.table;
    }
  }

  /** Both ledgers of the relay are gone and all others are as they were. */
  ghost predicate LedgersWithout(l: Ledgers, l': Ledgers, id: string) {
    && l'.global == l.global
    && (forall other :: other in l'.individual <==> other in l.individual && other != id)
    && (forall other :: other in l'.lifetime <==> other in l.lifetime && other != id)
    && (forall other :: other in l'.individual ==> l'.individual[other] == l.individual[other])
    && (forall other :: other in l'.lifetime ==> l'.lifetime[other] == l.lifetime[other])
  }

  lemma NewEntryFound(table: seq<Relay>, r: Relay)
    requires !Has(table, r.address)
    ensures IndexOf(table + [r], r.address) == |table| && Without(table + [r], |table|) == table
  {
    var t := table + [r];
    assert forall i :: 0 <= i < |table| ==> t[i] == table[i] && t[i].address != r.address;
    assert t[|table|] == r;
  }

  /** A relay re-created at the same address and port starts from fresh ledgers. */
  lemma NewIdIsFresh(e: Engine, address: NetAddress, port: nat)
    requires Inv(e) && !Has(e.table, address)
    ensures RelayId(address, port) !in e.ledgers.individual && RelayId(address, port) !in e.ledgers.lifetime
  {
    forall r | r in e.table ensures r.Id() != RelayId(address, port) {
      RelayIdInjective(r.address, r.port, address, port);
    }
    hide RelayId;
  }

  function Shutdown(e: Engine, poolFirst: bool): Engine {
    if poolFirst then ClearTable(e.(pool := ClosePool(e.pool)))
    else
      var cleared := ClearTable(e);
      cleared.(pool := ClosePool(cleared.pool))
  }

  /** Shutting down from any reachable state, in either order, leaves nothing behind and closes
      every managed socket exactly once. */
  lemma ShutdownIsComplete(e: Engine, poolFirst: bool)
    requires Inv(e)
    ensures var end := Shutdown(e, poolFirst);
            && end.pool == Pool({}, [], {}, e.pool.closed + multiset(e.pool.ports), {})
            && end.table == [] && end.ledgers.individual == map[] && end.ledgers.lifetime == map[]
            && end.trace == e.trace + DestroyEvents(e.table)
  {
    hide Inv, ClearTable, DestroyEvents;
    if poolFirst {
      CloseKeeps(e);
      ClearExact(e.(pool := ClosePool(e.pool)));
      ClearTrace(e.(pool := ClosePool(e.pool)));
    } else {
      ClearExact(e);
      ClearTrace(e);
    }
  }
}
