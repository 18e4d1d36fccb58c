/** What every run of the engine keeps: routes are unambiguous, every port is accounted for
    and no ledger outlives its relay. */
module Invariants {
  import opened Addresses
  import opened Limiter
  import opened Engine

  // -------------------------------------------------------------- predicates

  /** Table addresses and table ports are each free of duplicates. */
  ghost predicate Distinct(table: seq<Relay>) {
    forall i, j :: 0 <= i < j < |table| ==> table[i].address != table[j].address && table[i].port != table[j].port
  }

  function Elements<T>(s: seq<T>): set<T> {
    set x | x in s
  }

  function PortSet(table: seq<Relay>): set<nat> {
    set r | r in table :: r.port
  }

  /** Every managed port is free, in the table, or stranded, and never two of these; every table
      port is listened on. */
  ghost predicate Accounted(pool: Pool, table: seq<Relay>) {
    && NoDuplicates(pool.free)
    && (Elements(pool.free) !! PortSet(table) !! pool.stranded)
    && pool.ports == Elements(pool.free) + PortSet(table) + pool.stranded
    && PortSet(table) <= pool.listening <= pool.ports
  }

  ghost predicate Closed(pool: Pool) {
    pool.ports == {} && pool.free == [] && pool.stranded == {} && pool.listening == {}
  }

  /** Every ledger key is the identifier of a table entry. */
  ghost predicate Owned(l: Ledgers, table: seq<Relay>) {
    && (forall id :: id in l.individual ==> exists r :: r in table && r.Id() == id)
    && (forall id :: id in l.lifetime ==> exists r :: r in table && r.Id() == id)
  }

  ghost predicate Tuned(l: Limit, maxTraffic: real, interval: real, clock: real) {
    l.maxTraffic == maxTraffic && l.interval == interval && l.lastInterval <= clock
  }

  /** Limiters carry the configured parameters and no timestamp lies in the future. */
  ghost predicate Clocked(e: Engine) {
    && Tuned(e.ledgers.global, e.config.globalTraffic, e.config.interval, e.clock)
    && (forall id :: id in e.ledgers.individual ==>
          Tuned(e.ledgers.individual[id], e.config.individualTraffic, e.config.interval, e.clock))
    && (forall r :: r in e.table ==>
          r.lastReceived <= e.clock && r.created <= e.clock && (r.lastSent == 0.0 || r.lastSent <= e.clock))
    && (forall ev :: ev in e.trace && ev.Sent? ==> ev.at <= e.clock)
  }

  ghost predicate Inv(e: Engine) {
    && Distinct(e.table)
    && (Closed(e.pool) || Accounted(e.pool, e.table))
    && Owned(e.ledgers, e.table)
    && Clocked(e)
  }

  // ----------------------------------------------------------------- lookups

  /** Addresses are looked up unambiguously: any entry with the address is the one found. */
  lemma Found(table: seq<Relay>, k: nat)
    requires Distinct(table) && k < |table|
    ensures IndexOf(table, table[k].address) == k
    ensures IndexOfPort(table, table[k].port) == k
  {
  }

  lemma IndexSplit(table: seq<Relay>, kept: seq<Relay>, rest: seq<Relay>)
    requires table == kept + rest && rest != [] && Distinct(table)
    ensures IndexOf(table, rest[0].address) == |kept|
  {
    assert table[|kept|] == rest[0];
    Found(table, |kept|);
  }

  // ------------------------------------------------------- lists as sets

  lemma ElementsAppend<T>(s: seq<T>, x: T)
    ensures Elements(s + [x]) == Elements(s) + {x}
  {
  }

  lemma ElementsPop<T>(s: seq<T>)
    requires s != [] && NoDuplicates(s)
    ensures NoDuplicates(s[..|s| - 1])
    ensures Elements(s[..|s| - 1]) == Elements(s) - {s[|s| - 1]}
  {
  }

  lemma PortSetAppend(table: seq<Relay>, r: Relay)
    ensures PortSet(table + [r]) == PortSet(table) + {r.port}
  {
    ElementsAppend(table, r);
    assert forall x :: x in table + [r] <==> x in Elements(table + [r]);
  }

  /** Removing one entry of a duplicate-free table removes that entry and no other. */
  lemma WithoutEntry(table: seq<Relay>, k: nat)
    requires Distinct(table) && k < |table|
    ensures Distinct(Without(table, k))
    ensures Elements(Without(table, k)) == Elements(table) - {table[k]}
    ensures PortSet(Without(table, k)) == PortSet(table) - {table[k].port}
  {
    var t := Without(table, k);
    forall r | r in table && r != table[k]
      ensures r in t
    {
      var i :| 0 <= i < |table| && table[i] == r;
      assert t[if i < k then i else i - 1] == r;
    }
    forall r | r in t
      ensures r in table && r.port != table[k].port
    {
      var i :| 0 <= i < |t| && t[i] == r;
      assert r == table[if i < k then i else i + 1];
    }
  }

  // ------------------------------------------------------------ preservation

  lemma StartInv(config: Config, bound: seq<nat>, now: real)
    requires NoDuplicates(bound)
    ensures Inv(Start(config, bound, now))
  {
  }

  /** At start-up nothing has happened: the bound ports are free in the order they were bound, and the
      global limiter starts with an empty slice. */
  lemma StartExact(config: Config, bound: seq<nat>, now: real)
    ensures var e := Start(config, bound, now);
            && e.config == config && e.clock == now && e.table == [] && e.trace == []
            && e.ledgers.individual == map[] && e.ledgers.lifetime == map[]
            && e.ledgers.global == Limit(config.globalTraffic, config.interval, 0, now)
            && e.pool.ports == Elements(bound) && e.pool.free == bound
            && e.pool.listening == {} && e.pool.closed == multiset{} && e.pool.stranded == {}
  {
  }

  lemma TickKeeps(e: Engine, at: real)
    requires Inv(e) && e.clock <= at
    ensures Inv(e.(clock := at))
  {
  }

  lemma CreateDistinct(e: Engine, address: NetAddress)
    requires Distinct(e.table) && (Closed(e.pool) || Accounted(e.pool, e.table))
    ensures var e' := CreateRelay(e, address).0;
            Distinct(e'.table) && (Closed(e'.pool) || Accounted(e'.pool, e'.table))
  {
    if !Has(e.table, address) && e.pool.free != [] {
      var port := e.pool.free[|e.pool.free| - 1];
      assert port in Elements(e.pool.free);
      ElementsPop(e.pool.free);
      PortSetAppend(e.table, Relay(address, port, 0.0, e.clock, e.clock));
      assert forall i :: 0 <= i < |e.table| ==> e.table[i].port in PortSet(e.table);
      hide Elements, PortSet, IndexOf, NoDuplicates;
    }
  }

  lemma CreateKeeps(e: Engine, address: NetAddress)
    requires Inv(e)
    ensures Inv(CreateRelay(e, address).0)
  {
    CreateDistinct(e, address);
    hide Distinct, Accounted;
    var e' := CreateRelay(e, address).0;
    assert forall r :: r in e.table ==> r in e'.table;
  }

  lemma StrandKeeps(e: Engine)
    requires Inv(e)
    ensures Inv(e.(pool := StrandPort(e.pool)))
  {
  }

  lemma CloseKeeps(e: Engine)
    requires Inv(e)
    ensures Inv(e.(pool := ClosePool(e.pool)))
  {
  }

  lemma FreeDistinct(e: Engine, k: nat)
    requires Distinct(e.table) && (Closed(e.pool) || Accounted(e.pool, e.table)) && k < |e.table|
    ensures var e' := FreeRelay(e, e.table[k]).0;
            e'.table == Without(e.table, k) &&
            Distinct(e'.table) && (Closed(e'.pool) || Accounted(e'.pool, e'.table))
  {
    Found(e.table, k);
    WithoutEntry(e.table, k);
    if !Closed(e.pool) {
      assert e.table[k].port in PortSet(e.table);
      ElementsAppend(e.pool.free, e.table[k].port);
      assert forall i :: 0 <= i < |e.pool.free| ==> e.pool.free[i] in Elements(e.pool.free);
    }
  }

  lemma FreeOwned(l: Ledgers, table: seq<Relay>, k: nat)
    requires Owned(l, table) && Distinct(table) && k < |table|
    ensures Owned(Forget(l, table[k].Id()), Without(table, k))
  {
  }

  /** Freeing a table entry: the entry and only the entry leaves, with its port and its ledgers. */
  lemma FreeKeeps(e: Engine, k: nat)
    requires Inv(e) && k < |e.table|
    ensures Inv(FreeRelay(e, e.table[k]).0)
  {
    FreeDistinct(e, k);
    FreeOwned(e.ledgers, e.table, k);
    WithoutEntry(e.table, k);
    hide Distinct, Accounted, Owned, RelayId;
    var e' := FreeRelay(e, e.table[k]).0;
    forall r | r in e'.table
      ensures r in e.table
    {
      assert r in Elements(e'.table);
    }
  }

  /** Delivering a packet changes timestamps and nothing else in the table. */
  lemma TouchShape(table: seq<Relay>, i: nat, j: nat, now: real)
    requires i < |table| && j < |table|
    ensures var t := Touch(table, i, j, now);
            && |t| == |table|
            && (forall k :: 0 <= k < |t| ==>
                  && t[k].address == table[k].address && t[k].port == table[k].port && t[k].created == table[k].created
                  && t[k].lastReceived == (if k == i then now else table[k].lastReceived)
                  && t[k].lastSent == (if k == j then now else table[k].lastSent))
            && PortSet(t) == PortSet(table)
  {
  }

  lemma ValidatedTuned(l: Limit, maxTraffic: real, interval: real, clock: real, size: nat)
    requires Tuned(l, maxTraffic, interval, clock)
    ensures Tuned(l.Validated(size, clock, clock), maxTraffic, interval, clock)
  {
  }

  /** The listeners touch the source's own ledgers and the global one, and keep them tuned. */
  lemma VetKeys(config: Config, l: Ledgers, source: Relay, size: nat, now: real)
    ensures var l' := Vet(config, l, source, size, now).0;
            && l'.individual.Keys <= l.individual.Keys + {source.Id()}
            && l'.lifetime.Keys <= l.lifetime.Keys + {source.Id()}
            && (forall id :: id in l.individual && id != source.Id() ==>
                  id in l'.individual && l'.individual[id] == l.individual[id])
            && (forall id :: id in l.lifetime && id != source.Id() ==>
                  id in l'.lifetime && l'.lifetime[id] == l.lifetime[id])
            && source.Id() in l'.individual
            && l'.individual[source.Id()] == IndividualLimit(config, l, source.Id(), now).Validated(size, now, now)
            && (l'.global == l.global || l'.global == l.global.Validated(size, now, now))
  {
    hide Product, RelayId;
  }

  lemma PacketOwned(l: Ledgers, l': Ledgers, table: seq<Relay>, i: nat, j: nat, now: real)
    requires i < |table| && j < |table| && Owned(l, table)
    requires l'.individual.Keys <= l.individual.Keys + {table[i].Id()}
    requires l'.lifetime.Keys <= l.lifetime.Keys + {table[i].Id()}
    ensures Owned(l', table) && Owned(l', Touch(table, i, j, now))
  {
    TouchShape(table, i, j, now);
    var t := Touch(table, i, j, now);
    forall id | id in l'.individual || id in l'.lifetime
      ensures (exists r :: r in table && r.Id() == id) && (exists r :: r in t && r.Id() == id)
    {
      var r :| r in table && r.Id() == id;
      var k :| 0 <= k < |table| && table[k] == r;
      assert t[k].address == table[k].address && t[k].port == table[k].port;
      assert t[k] in t && t[k].Id() == table[k].Id();
    }
  }

  lemma TouchDistinct(pool: Pool, table: seq<Relay>, i: nat, j: nat, now: real)
    requires i < |table| && j < |table|
    requires Distinct(table) && (Closed(pool) || Accounted(pool, table))
    ensures Distinct(Touch(table, i, j, now)) && (Closed(pool) || Accounted(pool, Touch(table, i, j, now)))
  {
    TouchShape(table, i, j, now);
    hide Touch;
  }

  lemma PacketClocked(e: Engine, message: Datagram, sender: NetAddress, target: nat)
    requires Clocked(e)
    ensures Clocked(RelayPacket(e, message, sender, target).0)
  {
    hide Vet, RelayId, Product, Touch, IndexOf, IndexOfPort;
    var (e', outcome) := RelayPacket(e, message, sender, target);
    if e' != e {
      var i, j := IndexOf(e.table, sender), IndexOfPort(e.table, target);
      var source, now := e.table[i], e.clock;
      VetKeys(e.config, e.ledgers, source, |message|, now);
      TouchShape(e.table, i, j, now);
      ValidatedTuned(e.ledgers.global, e.config.globalTraffic, e.config.interval, now, |message|);
      ValidatedTuned(IndividualLimit(e.config, e.ledgers, source.Id(), now),
                     e.config.individualTraffic, e.config.interval, now, |message|);
    }
  }

  lemma PacketKeeps(e: Engine, message: Datagram, sender: NetAddress, target: nat)
    requires Inv(e)
    ensures Inv(RelayPacket(e, message, sender, target).0)
  {
    PacketClocked(e, message, sender, target);
    hide Clocked, Vet, RelayId, Touch, Owned;
    var i, j := IndexOf(e.table, sender), IndexOfPort(e.table, target);
    if i < |e.table| && j < |e.table| {
      VetKeys(e.config, e.ledgers, e.table[i], |message|, e.clock);
      TouchDistinct(e.pool, e.table, i, j, e.clock);
      PacketOwned(e.ledgers, Vet(e.config, e.ledgers, e.table[i], |message|, e.clock).0, e.table, i, j, e.clock);
    }
  }

  // ---------------------------------------------------- cleanup and clearing

  function ForgetAll(l: Ledgers, relays: seq<Relay>): Ledgers
    decreases |relays|
  {
    if relays == [] then l else ForgetAll(Forget(l, relays[0].Id()), relays[1..])
  }

  function Ports(relays: seq<Relay>): seq<nat> {
    if relays == [] then [] else [relays[0].port] + Ports(relays[1..])
  }

  function DestroyEvents(relays: seq<Relay>): seq<Event> {
    if relays == [] then [] else [Destroyed(relays[0].address, relays[0].port)] + DestroyEvents(relays[1..])
  }

  function ReturnAll(pool: Pool, relays: seq<Relay>): Pool
    decreases |relays|
  {
    if relays == [] then pool else ReturnAll(ReturnPort(pool, relays[0].port), relays[1..])
  }

  lemma DestroyEventsHead(trace: seq<Event>, gone: seq<Relay>)
    requires gone != []
    ensures trace + DestroyEvents(gone)
            == (trace + [Destroyed(gone[0].address, gone[0].port)]) + DestroyEvents(gone[1..])
  {
  }

  /** What freeing the relays in `gone` one after the other makes of `e`. */
  ghost predicate Freed(e: Engine, e': Engine, gone: seq<Relay>) {
    && Inv(e')
    && e'.pool == ReturnAll(e.pool, gone)
    && e'.ledgers == ForgetAll(e.ledgers, gone)
    && e'.trace == e.trace + DestroyEvents(gone)
    && e'.config == e.config && e'.clock == e.clock
  }

  lemma FreedHead(e: Engine, e1: Engine, e': Engine, gone: seq<Relay>)
    requires gone != [] && Freed(e1, e', gone[1..])
    requires e1.pool == ReturnPort(e.pool, gone[0].port) && e1.ledgers == Forget(e.ledgers, gone[0].Id())
    requires e1.trace == e.trace + [Destroyed(gone[0].address, gone[0].port)]
    requires e1.config == e.config && e1.clock == e.clock
    ensures Freed(e, e', gone)
  {
  }

  /** Freeing the expired entries of a snapshot while the table shrinks under the loop: an entry
      already passed over stays where it is, and each expired one is found at its place. */
  lemma {:induction false} FreeExpired(e: Engine, kept: seq<Relay>, rest: seq<Relay>, cutoff: real)
    requires Inv(e) && e.table == kept + rest
    ensures var gone := Expired(rest, cutoff);
            var e' := FreeAll(e, gone);
            && Inv(e')
            && e'.table == kept + Kept(rest, cutoff)
            && e'.pool == ReturnAll(e.pool, gone)
            && e'.ledgers == ForgetAll(e.ledgers, gone)
            && e'.trace == e.trace + DestroyEvents(gone)
            && e'.config == e.config && e'.clock == e.clock
    decreases |rest|
  {
    FreeExpiredFrom(e, kept, rest, cutoff);
    hide Inv, RelayId, FreeRelay, FreeAll, ReturnAll, ForgetAll, DestroyEvents;
  }

  lemma {:induction false} FreeExpiredFrom(e: Engine, kept: seq<Relay>, rest: seq<Relay>, cutoff: real)
    requires Inv(e) && e.table == kept + rest
    ensures var gone := Expired(rest, cutoff);
            Freed(e, FreeAll(e, gone), gone) && FreeAll(e, gone).table == kept + Kept(rest, cutoff)
    decreases |rest|
  {
    ExpiredHead(rest, cutoff);
    hide *;
    if rest == [] {
      assert kept + [] == kept;
      NothingFreed(e);
    } else if rest[0].LastTraffic() <= cutoff {
      var gone, e1 := Expired(rest, cutoff), FreeRelay(e, rest[0]).0;
      FreeMiddle(e, kept, rest);
      FreeExpiredFrom(e1, kept, rest[1..], cutoff);
      FreedHead(e, e1, FreeAll(e1, gone[1..]), gone);
      FreeAllHead(e, gone);
    } else {
      assert kept + rest == (kept + [rest[0]]) + rest[1..];
      FreeExpiredFrom(e, kept + [rest[0]], rest[1..], cutoff);
      assert kept + Kept(rest, cutoff) == (kept + [rest[0]]) + Kept(rest[1..], cutoff);
    }
  }

  lemma ExpiredHead(rest: seq<Relay>, cutoff: real)
    ensures rest == [] ==> Expired(rest, cutoff) == [] && Kept(rest, cutoff) == []
    ensures rest != [] && rest[0].LastTraffic() <= cutoff ==>
              Expired(rest, cutoff) == [rest[0]] + Expired(rest[1..], cutoff)
              && Kept(rest, cutoff) == Kept(rest[1..], cutoff)
    ensures rest != [] && rest[0].LastTraffic() > cutoff ==>
              Expired(rest, cutoff) == Expired(rest[1..], cutoff)
              && Kept(rest, cutoff) == [rest[0]] + Kept(rest[1..], cutoff)
  {
  }

  lemma FreeAllHead(e: Engine, gone: seq<Relay>)
    requires gone != []
    ensures FreeAll(e, gone) == FreeAll(FreeRelay(e, gone[0]).0, gone[1..])
  {
  }

  lemma NothingFreed(e: Engine)
    requires Inv(e)
    ensures FreeAll(e, []) == e && Freed(e, e, [])
  {
  }

  lemma FreeMiddle(e: Engine, kept: seq<Relay>, rest: seq<Relay>)
    requires Inv(e) && e.table == kept + rest && rest != []
    ensures var e' := FreeRelay(e, rest[0]).0;
            && Inv(e')
            && e' == e.(pool := ReturnPort(e.pool, rest[0].port), table := kept + rest[1..],
                        ledgers := Forget(e.ledgers, rest[0].Id()),
                        trace := e.trace + [Destroyed(rest[0].address, rest[0].port)])
  {
    IndexSplit(e.table, kept, rest);
    FreeKeeps(e, |kept|);
    hide Inv, RelayId;
    assert e.table[|kept|] == rest[0];
    assert Without(e.table, |kept|) == kept + rest[1..];
  }

  lemma {:induction false} AllExpired(table: seq<Relay>, cutoff: real)
    requires forall r :: r in table ==> r.LastTraffic() <= cutoff
    ensures Expired(table, cutoff) == table && Kept(table, cutoff) == []
  {
    if table != [] {
      AllExpired(table[1..], cutoff);
    }
  }

  lemma {:induction false} ReturnAllOpen(pool: Pool, relays: seq<Relay>)
    requires forall r :: r in relays ==> r.port in pool.ports
    ensures ReturnAll(pool, relays) == pool.(free := pool.free + Ports(relays))
    decreases |relays|
  {
    if relays == [] {
      assert pool.free + [] == pool.free;
    } else {
      ReturnAllOpen(ReturnPort(pool, relays[0].port), relays[1..]);
      assert pool.free + Ports(relays) == (pool.free + [relays[0].port]) + Ports(relays[1..]);
    }
  }

  lemma {:induction false} ReturnAllClosed(pool: Pool, relays: seq<Relay>)
    requires Closed(pool)
    ensures ReturnAll(pool, relays) == pool
  {
    if relays != [] {
      ReturnAllClosed(pool, relays[1..]);
    }
  }

  lemma ReturnExpired(e: Engine, gone: seq<Relay>)
    requires Inv(e)
    requires forall r :: r in gone ==> r in e.table
    ensures ReturnAll(e.pool, gone) == if Closed(e.pool) then e.pool else e.pool.(free := e.pool.free + Ports(gone))
  {
    if Closed(e.pool) {
      ReturnAllClosed(e.pool, gone);
    } else {
      assert forall r :: r in gone ==> r.port in PortSet(e.table);
      ReturnAllOpen(e.pool, gone);
    }
  }

  lemma {:induction false} ExpiredMembers(table: seq<Relay>, cutoff: real)
    ensures forall r :: r in Expired(table, cutoff) <==> r in table && r.LastTraffic() <= cutoff
    ensures forall r :: r in Kept(table, cutoff) <==> r in table && r.LastTraffic() > cutoff
  {
    if table != [] {
      ExpiredMembers(table[1..], cutoff);
    }
  }

  /** The two parts of the table keep its order: they are taken entry by entry. */
  lemma {:induction false} PartsConcat(a: seq<Relay>, b: seq<Relay>, cutoff: real)
    ensures Expired(a + b, cutoff) == Expired(a, cutoff) + Expired(b, cutoff)
    ensures Kept(a + b, cutoff) == Kept(a, cutoff) + Kept(b, cutoff)
  {
    if a == [] {
      assert a + b == b;
    } else {
      hide Expired, Kept;
      assert (a + b)[0] == a[0] && (a + b)[1..] == a[1..] + b;
      PartsHead(a, cutoff);
      PartsHead(a + b, cutoff);
      PartsConcat(a[1..], b, cutoff);
      var over := a[0].lastSent <= cutoff && a[0].lastReceived <= cutoff;
      Associative(if over then [a[0]] else [], Expired(a[1..], cutoff), Expired(b, cutoff));
      Associative(if over then [] else [a[0]], Kept(a[1..], cutoff), Kept(b, cutoff));
    }
  }

  lemma Associative<T>(a: seq<T>, b: seq<T>, c: seq<T>)
    ensures (a + b) + c == a + (b + c)
  {
  }

  /** An entry has expired if neither of its timestamps is after the cutoff. */
  lemma PartsHead(table: seq<Relay>, cutoff: real)
    requires table != []
    ensures var r := table[0];
            var over := r.lastSent <= cutoff && r.lastReceived <= cutoff;
            && Expired(table, cutoff) == (if over then [r] else []) + Expired(table[1..], cutoff)
            && Kept(table, cutoff) == (if over then [] else [r]) + Kept(table[1..], cutoff)
  {
  }

  /** Cleanup leaves exactly the entries with traffic after the cutoff, in order, and appends
      exactly the ports of the others to the free list, in table order. */
  lemma CleanupExact(e: Engine)
    requires Inv(e)
    ensures var cutoff := e.clock - e.config.timeout;
            var e' := Cleanup(e);
            && e'.table == Kept(e.table, cutoff)
            && (forall r :: r in e'.table <==> r in e.table && Max(r.lastSent, r.lastReceived) > cutoff)
            && e'.pool == (if Closed(e.pool) then e.pool
                           else e.pool.(free := e.pool.free + Ports(Expired(e.table, cutoff))))
            && e'.trace == e.trace + DestroyEvents(Expired(e.table, cutoff))
            && Inv(e')
  {
    var cutoff := e.clock - e.config.timeout;
    hide Inv, FreeAll, ReturnAll, Ports, Expired, Kept, ForgetAll, DestroyEvents;
    ExpiredMembers(e.table, cutoff);
    ReturnExpired(e, Expired(e.table, cutoff));
    assert [] + e.table == e.table;
    FreeExpired(e, [], e.table, cutoff);
    assert [] + Kept(e.table, cutoff) == Kept(e.table, cutoff);
  }

  lemma NoLedgersLeft(e: Engine)
    requires Inv(e) && e.table == []
    ensures e.ledgers.individual == map[] && e.ledgers.lifetime == map[]
  {
  }

  /** Clearing empties the table and the ledgers and returns every port still managed. */
  lemma ClearExact(e: Engine)
    requires Inv(e)
    ensures var e' := ClearTable(e);
            && e'.table == []
            && e'.ledgers.individual == map[] && e'.ledgers.lifetime == map[]
            && e'.pool == (if Closed(e.pool) then e.pool else e.pool.(free := e.pool.free + Ports(e.table)))
            && Inv(e')
  {
    hide Inv, FreeAll, ReturnAll, Ports, Expired, Kept, ForgetAll, DestroyEvents;
    assert [] + e.table == e.table;
    var cutoff := Latest(e.table);
    AllExpired(e.table, cutoff);
    FreeExpired(e, [], e.table, cutoff);
    ReturnExpired(e, e.table);
    NoLedgersLeft(ClearTable(e));
  }

  ghost function Latest(table: seq<Relay>): (t: real)
    ensures forall r :: r in table ==> r.LastTraffic() <= t
  {
    if table == [] then 0.0 else Max(table[0].LastTraffic(), Latest(table[1..]))
  }

  // -------------------------------------------------------------------- runs

  lemma ApplyKeeps(e: Engine, t: Timed)
    requires Inv(e) && e.clock <= t.at
    ensures Inv(Apply(e, t))
  {
    TickKeeps(e, t.at);
    var now := e.(clock := t.at);
    match t.op
    case Create(address) => CreateKeeps(now, address);
    case Strand => StrandKeeps(now);
    case Packet(message, sender, target) => PacketKeeps(now, message, sender, target);
    case Clean => CleanupExact(now);
    case Clear => ClearExact(now);
    case Close => CloseKeeps(now);
    case Tick =>
  }

  /** Every reachable state of the engine is unambiguous, accounted for and free of stale ledgers. */
  lemma {:induction false} RunKeeps(e: Engine, ops: seq<Timed>)
    requires Inv(e) && Timely(ops, e.clock)
    ensures Inv(Run(e, ops))
    ensures Run(e, ops).clock == if ops == [] then e.clock else ops[|ops| - 1].at
  {
    if ops != [] {
      RunKeeps(e, ops[..|ops| - 1]);
      var before := Run(e, ops[..|ops| - 1]);
      assert before.clock <= ops[|ops| - 1].at;
      ApplyKeeps(before, ops[|ops| - 1]);
      hide Inv, RelayPacket, CreateRelay, Cleanup, ClearTable;
      ApplyClock(before, ops[|ops| - 1]);
    }
  }

  lemma {:induction false} FreeAllClock(e: Engine, relays: seq<Relay>)
    ensures FreeAll(e, relays).clock == e.clock && FreeAll(e, relays).config == e.config
    decreases |relays|
  {
    if relays != [] {
      FreeAllClock(FreeRelay(e, relays[0]).0, relays[1..]);
    }
  }

  lemma ApplyClock(e: Engine, t: Timed)
    ensures Apply(e, t).clock == t.at && Apply(e, t).config == e.config
  {
    hide Vet, Touch, IndexOf, IndexOfPort, Expired, FreeAll;
    var now := e.(clock := t.at);
    FreeAllClock(now, Expired(now.table, now.clock - now.config.timeout));
    FreeAllClock(now, now.table);
  }

  // -------------------------------------------------------- the port ledger

  /** The pool's ports stay those bound at start-up, until the pool is closed. */
  lemma {:induction false} RunPorts(e: Engine, ops: seq<Timed>)
    requires Inv(e) && Timely(ops, e.clock)
    requires forall k :: 0 <= k < |ops| ==> !ops[k].op.Close?
    ensures Run(e, ops).pool.ports == e.pool.ports
    ensures Accounted(e.pool, e.table) ==> Accounted(Run(e, ops).pool, Run(e, ops).table)
    ensures (forall k :: 0 <= k < |ops| ==> !ops[k].op.Strand?) ==> Run(e, ops).pool.stranded == e.pool.stranded
  {
    hide Inv, Apply, Accounted;
    if ops != [] {
      RunPorts(e, ops[..|ops| - 1]);
      RunKeeps(e, ops[..|ops| - 1]);
      ApplyPorts(Run(e, ops[..|ops| - 1]), ops[|ops| - 1]);
      ApplyAccounted(Run(e, ops[..|ops| - 1]), ops[|ops| - 1]);
    }
  }

  lemma ApplyPorts(e: Engine, t: Timed)
    requires Inv(e) && e.clock <= t.at && !t.op.Close?
    ensures Apply(e, t).pool.ports == e.pool.ports
    ensures !t.op.Strand? ==> Apply(e, t).pool.stranded == e.pool.stranded
  {
    hide Inv, Cleanup, ClearTable, Vet, Touch;
    TickKeeps(e, t.at);
    if t.op.Clean? {
      CleanupExact(e.(clock := t.at));
    } else if t.op.Clear? {
      ClearExact(e.(clock := t.at));
    }
  }

  lemma ApplyAccounted(e: Engine, t: Timed)
    requires Inv(e) && e.clock <= t.at && !t.op.Close?
    ensures Accounted(e.pool, e.table) ==> Accounted(Apply(e, t).pool, Apply(e, t).table)
  {
    ApplyKeeps(e, t);
    ApplyPorts(e, t);
    if e.pool.ports == {} && Accounted(e.pool, e.table) {
      NoPorts(e.pool, e.table);
      NothingHappens(e, t);
    }
  }

  lemma NoPorts(pool: Pool, table: seq<Relay>)
    requires Distinct(table) && Accounted(pool, table) && pool.ports == {}
    ensures pool.free == [] && table == []
  {
    ElementsSize(pool.free);
    PortSetSize(table);
    assert Elements(pool.free) == {} && PortSet(table) == {};
  }

  lemma NothingHappens(e: Engine, t: Timed)
    requires e.pool.free == [] && e.table == []
    ensures Apply(e, t).table == []
  {
  }

  lemma {:induction false} ElementsSize<T>(s: seq<T>)
    requires NoDuplicates(s)
    ensures |Elements(s)| == |s|
  {
    if s != [] {
      ElementsPop(s);
      ElementsSize(s[..|s| - 1]);
      assert s[|s| - 1] in Elements(s);
    }
  }

  lemma {:induction false} PortSetSize(table: seq<Relay>)
    requires Distinct(table)
    ensures |PortSet(table)| == |table|
  {
    if table != [] {
      var k := |table| - 1;
      WithoutEntry(table, k);
      assert Without(table, k) == table[..k];
      PortSetSize(table[..k]);
      assert table[k] in table && table[k].port in PortSet(table);
    }
  }

  // ------------------------------------------------------- ports that leak

  /** Dynamic relaying takes a port, and there is one to take. */
  predicate Leaks(e: Engine, op: Op) {
    op.Strand? && e.pool.free != []
  }

  /** How often that happens in a run. */
  function LeakCount(e: Engine, ops: seq<Timed>): nat {
    if ops == [] then 0
    else LeakCount(e, ops[..|ops| - 1]) + if Leaks(Run(e, ops[..|ops| - 1]), ops[|ops| - 1].op) then 1 else 0
  }

  lemma StrandLeaks(e: Engine)
    requires Inv(e) && e.pool.free != []
    ensures var last := e.pool.free[|e.pool.free| - 1];
            StrandPort(e.pool).stranded == e.pool.stranded + {last} && last !in e.pool.stranded
  {
    assert e.pool.free[|e.pool.free| - 1] in Elements(e.pool.free);
  }

  /** The port that is lost is the last free one, and only the free list and the account of lost ports change. */
  lemma StrandExact(pool: Pool)
    ensures StrandPort(pool)
            == if |pool.free| == 0 then pool
               else pool.(free := pool.free[..|pool.free| - 1],
                          stranded := pool.stranded + {pool.free[|pool.free| - 1]})
  {
  }

  lemma ApplyLeaks(e: Engine, t: Timed)
    requires Inv(e) && e.clock <= t.at && !t.op.Close?
    ensures var before, after := e.pool.stranded, Apply(e, t).pool.stranded;
            && before <= after
            && |after| == |before| + (if Leaks(e, t.op) then 1 else 0)
            && (after == before <==> !Leaks(e, t.op))
  {
    ApplyPorts(e, t);
    if t.op.Strand? && e.pool.free != [] {
      StrandLeaks(e);
    }
    hide Inv, CreateRelay, RelayPacket, Cleanup, ClearTable;
  }

  lemma {:induction false} LeakGrowth(e: Engine, ops: seq<Timed>)
    requires Inv(e) && Timely(ops, e.clock)
    requires forall k :: 0 <= k < |ops| ==> !ops[k].op.Close?
    ensures var before, after := e.pool.stranded, Run(e, ops).pool.stranded;
            before <= after && |after| == |before| + LeakCount(e, ops) && (after == before <==> LeakCount(e, ops) == 0)
  {
    hide Inv, Apply, Leaks;
    if ops != [] {
      LeakGrowth(e, ops[..|ops| - 1]);
      RunKeeps(e, ops[..|ops| - 1]);
      ApplyLeaks(Run(e, ops[..|ops| - 1]), ops[|ops| - 1]);
    }
  }

  lemma {:induction false} NoLeaks(e: Engine, ops: seq<Timed>)
    ensures LeakCount(e, ops) == 0 <==> forall k :: 0 <= k < |ops| ==> !Leaks(Run(e, ops[..k]), ops[k].op)
  {
    hide Run, Leaks;
    if ops != [] {
      var init, last := ops[..|ops| - 1], ops[|ops| - 1];
      NoLeaks(e, init);
      forall k | 0 <= k < |init|
        ensures Leaks(Run(e, init[..k]), init[k].op) == Leaks(Run(e, ops[..k]), ops[k].op)
      {
        assert init[..k] == ops[..k];
      }
    }
  }

  /** A leaked port is never returned: over any run short of closing the pool the stranded ports only
      grow, by one port each time dynamic relaying takes one, and not otherwise. */
  lemma LeakedForGood(e: Engine, ops: seq<Timed>)
    requires Inv(e) && Timely(ops, e.clock)
    requires forall k :: 0 <= k < |ops| ==> !ops[k].op.Close?
    ensures var before, after := e.pool.stranded, Run(e, ops).pool.stranded;
            && before <= after
            && |after| == |before| + LeakCount(e, ops)
            && (after == before <==> forall k :: 0 <= k < |ops| ==> !Leaks(Run(e, ops[..k]), ops[k].op))
  {
    LeakGrowth(e, ops);
    NoLeaks(e, ops);
    hide *;
  }

  /** Port ledger: after any run from start-up short of closing the pool, the bound ports are
      split exactly between the free list, the table and the stranded ports, each port once. As many
      ports are stranded as dynamic relaying took, so none is if and only if it never took any. */
  lemma {:induction false} PortsAccounted(config: Config, bound: seq<nat>, start: real, ops: seq<Timed>)
    requires NoDuplicates(bound) && Timely(ops, start)
    requires forall k :: 0 <= k < |ops| ==> !ops[k].op.Close?
    ensures var e := Run(Start(config, bound, start), ops);
            && NoDuplicates(e.pool.free)
            && Elements(bound) == Elements(e.pool.free) + PortSet(e.table) + e.pool.stranded
            && |bound| == |e.pool.free| + |e.table| + |e.pool.stranded|
            && |e.pool.stranded| == LeakCount(Start(config, bound, start), ops)
            && (e.pool.stranded == {}
                <==> forall k :: 0 <= k < |ops| ==> !Leaks(Run(Start(config, bound, start), ops[..k]), ops[k].op))
  {
    StartInv(config, bound, start);
    var s := Start(config, bound, start);
    RunKeeps(s, ops);
    RunPorts(s, ops);
    LeakedForGood(s, ops);
    hide Run, LeakCount, Leaks;
    var e := Run(s, ops);
    assert s.pool.ports == Elements(bound);
    ElementsSize(bound);
    ElementsSize(e.pool.free);
    PortSetSize(e.table);
  }
}
