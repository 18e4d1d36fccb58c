/** The relay handler, its constraints and the cleanup job as objects. Every method is proved to do
    to the objects what the corresponding function of module Engine does to their values. */
module Handler {
  import opened Addresses
  import opened Limiter
  import opened Spec = Engine
  import opened Sockets

  // ------------------------------------------------------------- constraints

  ghost function LimitViews(limiters: map<string, BandwidthLimiter>): map<string, Limit>
    reads limiters.Values
  {
    map id | id in limiters :: limiters[id].View()
  }

  /** What the closures of the four `constrain*` functions capture. */
  class Constraints {
    const config: Config
    const limiter: BandwidthLimiter
    var limiters: map<string, BandwidthLimiter>
    var relayTraffic: map<string, nat>

    ghost predicate Valid()
      reads this
    {
      && limiter !in limiters.Values
      && (forall a, b :: a in limiters && b in limiters && a != b ==> limiters[a] != limiters[b])
    }

    ghost function View(): Ledgers
      reads this, limiter, limiters.Values
    {
      Ledgers(LimitViews(limiters), limiter.View(), relayTraffic)
    }

    constructor (config: Config, now: real)
      ensures Valid() && this.config == config && fresh(limiter) && limiters == map[]
      ensures View() == Ledgers(map[], Limit(config.globalTraffic, config.interval, 0, now), map[])
    {
      this.config := config;
      limiter := new BandwidthLimiter(config.globalTraffic, config.interval, now);
      limiters, relayTraffic := map[], map[];
    }

    /** `constrainIndividualBandwidth`: a limiter per relay, made when its first packet comes. */
    method Individual(source: RelayEntry, size: nat, now: real) returns (accepted: bool)
      requires Valid()
      modifies this`limiters, limiters.Values
      ensures Valid() && fresh(limiters.Values - old(limiters.Values))
      ensures var limit := IndividualLimit(config, old(View()), source.Id(), now);
              && accepted == limit.Accepts(size, now)
              && View() == old(View()).(
                   individual := old(View()).individual[source.Id() := limit.Validated(size, now, now)])
    {
      hide Limit.Validated, Limit.Accepts, RelayId;
      var id := source.Id();
      if id !in limiters {
        var added := new BandwidthLimiter(config.individualTraffic, config.interval, now);
        limiters := limiters[id := added];
      }
      accepted := limiters[id].Validate(size, now, now);
    }

    /** `constrainTraffic`: charges first, then checks. */
    method Lifetime(source: RelayEntry, size: nat) returns (accepted: bool)
      modifies this`relayTraffic
      ensures var total := (if source.Id() in old(relayTraffic) then old(relayTraffic)[source.Id()] else 0) + size;
              relayTraffic == old(relayTraffic)[source.Id() := total]
              && accepted == (total as real < config.lifetimeTraffic)
    {
      var id := source.Id();
      relayTraffic := relayTraffic[id := (if id in relayTraffic then relayTraffic[id] else 0) + size];
      accepted := relayTraffic[id] as real < config.lifetimeTraffic;
    }

    /** `emit('transmit')`: the listeners in the order they were registered, up to the first that throws. */
    method Transmit(source: RelayEntry, size: nat, now: real) returns (verdict: Verdict)
      requires Valid()
      modifies this, limiter, limiters.Values
      ensures Valid() && fresh(limiters.Values - old(limiters.Values))
      ensures (View(), verdict) == Vet(config, old(View()), source.View(), size, now)
    {
      hide Limit.Validated, Limit.Accepts, RelayId;
      var accepted := Individual(source, size, now);
      if !accepted {
        return OverIndividual;
      }
      accepted := limiter.Validate(size, now, now);
      if !accepted {
        return OverGlobal;
      }
      if !(now - source.created < config.lifetime) {
        return TooOld;
      }
      accepted := Lifetime(source, size);
      verdict := if accepted then Accepted else OverLifetime;
    }

    /** `emit('destroy')`. */
    method Destroy(relay: RelayEntry)
      requires Valid()
      modifies this
      ensures Valid() && limiters.Values <= old(limiters.Values)
      ensures View() == Forget(old(View()), relay.Id())
    {
      limiters := limiters - {relay.Id()};
      relayTraffic := relayTraffic - {relay.Id()};
    }
  }

  // ----------------------------------------------------------------- handler

  ghost function Views(entries: seq<RelayEntry>): (r: seq<Relay>)
    reads entries
    ensures |r| == |entries| && forall i :: 0 <= i < |r| ==> r[i] == entries[i].View()
  {
    seq(|entries|, i requires 0 <= i < |entries| reads entries => entries[i].View())
  }

  /** The entries that sockets have as listeners, in the table or long freed. */
  ghost function Listeners(sockets: map<nat, UdpSocket>): set<RelayEntry>
    reads sockets.Values
  {
    set p | p in sockets && sockets[p].listener != null :: sockets[p].listener
  }

  /** `find` by address over the table: the first match, or the length. */
  function FindAddress(entries: seq<RelayEntry>, address: NetAddress): (i: nat)
    ensures i == IndexOf(Views(entries), address)
    reads entries
  {
    if entries == [] || entries[0].address == address then 0
    else
      assert Views(entries)[1..] == Views(entries[1..]);
      1 + FindAddress(entries[1..], address)
  }

  /** `find` by port over the table: the first match, or the length. */
  function FindPort(entries: seq<RelayEntry>, port: nat): (i: nat)
    ensures i == IndexOfPort(Views(entries), port)
    reads entries
  {
    if entries == [] || entries[0].port == port then 0
    else
      assert Views(entries)[1..] == Views(entries[1..]);
      1 + FindPort(entries[1..], port)
  }

  lemma WithoutEntry(entries: seq<RelayEntry>, k: nat)
    requires k < |entries| && forall i, j :: 0 <= i < j < |entries| ==> entries[i] != entries[j]
    ensures var rest := Without(entries, k);
            && (forall i, j :: 0 <= i < j < |rest| ==> rest[i] != rest[j])
            && (forall e :: e in rest ==> e in entries)
            && Views(rest) == Without(Views(entries), k)
  {
  }

  class UDPRelayHandler {
    const pool: UDPSocketPool
    const constraints: Constraints
    var table: seq<RelayEntry>
    var trace: seq<Event>

    ghost predicate Valid()
      reads this, pool, pool.sockets.Values, Listeners(pool.sockets), constraints
    {
      && pool.Valid() && constraints.Valid()
      && (forall i, j :: 0 <= i < j < |table| ==> table[i] != table[j])
      && (forall p :: p in pool.sockets && pool.sockets[p].listener != null ==> pool.sockets[p].listener.port == p)
    }

    ghost function View(now: real): Engine
      reads this, pool, pool.sockets.Values, constraints, constraints.limiter, constraints.limiters.Values, table
    {
      Engine(constraints.config, pool.View(), Views(table), constraints.View(), trace, now)
    }

    constructor (pool: UDPSocketPool, constraints: Constraints)
      requires pool.Valid() && constraints.Valid()
      requires forall p :: p in pool.sockets ==> pool.sockets[p].listener == null
      ensures this.pool == pool && this.constraints == constraints && Valid()
      ensures table == [] && trace == []
    {
      this.pool, this.constraints, table, trace := pool, constraints, [], [];
    }

    /** The second half of `createRelay`: the entry gets its port, its socket listens, the table grows. */
    method AddEntry(relay: RelayEntry, port: nat, now: real)
      requires Valid() && port in pool.sockets
      requires relay !in table && relay !in Listeners(pool.sockets) && relay.lastSent == 0.0
      modifies this, relay, pool.sockets[port]
      ensures Valid() && table == old(table) + [relay]
      ensures Listeners(pool.sockets) <= old(Listeners(pool.sockets)) + {relay}
      ensures Listening(pool.sockets) == old(Listening(pool.sockets)) + {port}
      ensures relay.View() == Spec.Relay(relay.address, port, 0.0, now, now)
      ensures Views(table) == old(Views(table)) + [relay.View()]
      ensures trace == old(trace) + [Created(now, relay.address, port)]
    {
      relay.port := port;
      trace := trace + [Created(now, relay.address, relay.port)];
      pool.sockets[port].listener := relay;
      relay.lastReceived := now;
      relay.created := now;
      table := table + [relay];
    }

    /** `createRelay` for an address without a relay. */
    method CreateMissing(relay: RelayEntry, now: real) returns (created: bool)
      requires Valid() && relay !in table && relay !in Listeners(pool.sockets) && relay.lastSent == 0.0
      modifies this, relay, pool`freePorts, pool.sockets.Values
      ensures Valid() && created == (old(pool.freePorts) != [])
      ensures Listeners(pool.sockets) <= old(Listeners(pool.sockets)) + {relay}
      ensures !created ==> table == old(table) && trace == old(trace) && pool.View() == old(pool.View())
                           && Views(table) == old(Views(table))
      ensures created ==>
                var port := old(pool.freePorts)[|old(pool.freePorts)| - 1];
                && relay.View() == Spec.Relay(relay.address, port, 0.0, now, now)
                && table == old(table) + [relay] && Views(table) == old(Views(table)) + [relay.View()]
                && trace == old(trace) + [Created(now, relay.address, port)]
                && pool.View() == TakePort(old(pool.View())).0.(listening := old(pool.View()).listening + {port})
    {
      hide Views, Listeners, Listening;
      var port := pool.GetPort();
      if port.None? {
        return false;
      }
      AddEntry(relay, port.value, now);
      return true;
    }

    /** Creates a relay unless the address has one. An entry that is added must be a new one, as
        every caller in the source makes it. Null stands for the exception of `getPort`. */
    method CreateRelay(relay: RelayEntry, now: real) returns (result: RelayEntry?)
      requires Valid()
      requires Has(Views(table), relay.address) || (relay !in Listeners(pool.sockets) && relay.lastSent == 0.0)
      modifies this, relay, pool`freePorts, pool.sockets.Values
      ensures Valid()
      ensures Listeners(pool.sockets) <= old(Listeners(pool.sockets)) + {relay}
      ensures table == old(table) || table == old(table) + [relay]
      ensures var (e, port) := Spec.CreateRelay(old(View(now)), relay.address);
              && View(now) == e
              && (result == null <==> port == None)
              && (result != null ==> result.address == relay.address && port == Some(result.port))
    {
      hide Views, Listening;
      var i := FindAddress(table, relay.address);
      if i < |table| {
        FoundEntry(i);
        return table[i];
      }
      NotInTable(relay);
      var created := CreateMissing(relay, now);
      return if created then relay else null;
    }

    lemma FoundEntry(i: nat)
      requires i < |table|
      ensures Views(table)[i] == table[i].View()
    {
    }

    lemma NotInTable(relay: RelayEntry)
      requires !Has(Views(table), relay.address)
      ensures relay !in table
    {
    }

    /** The second half of `freeRelay`: the argument's ledgers and port are released, the entry leaves. */
    method Release(i: nat, relay: RelayEntry)
      requires Valid() && i < |table|
      modifies this, pool`freePorts, constraints
      ensures Valid() && constraints.limiters.Values <= old(constraints.limiters.Values)
      ensures forall e :: e in table ==> e in old(table)
      ensures Views(table) == Without(old(Views(table)), i)
      ensures constraints.View() == Forget(old(constraints.View()), relay.Id())
      ensures pool.View() == ReturnPort(old(pool.View()), relay.port)
      ensures trace == old(trace) + [Destroyed(relay.address, relay.port)]
    {
      hide RelayId, Listening, Forget, Without, Views, Constraints.Valid, Constraints.View, UDPSocketPool.Valid,
           Spec.ReturnPort;
      constraints.Destroy(relay);
      pool.ReturnPort(relay.port);
      trace := trace + [Destroyed(relay.address, relay.port)];
      WithoutEntry(table, i);
      table := Without(table, i);
    }

    /** Frees the entry for the argument's address, with the argument's port and ledgers. */
    method FreeRelay(relay: RelayEntry, ghost now: real) returns (freed: bool)
      requires Valid()
      modifies this, pool`freePorts, constraints
      ensures Valid() && constraints.limiters.Values <= old(constraints.limiters.Values)
      ensures forall e :: e in table ==> e in old(table)
      ensures (View(now), freed) == Spec.FreeRelay(old(View(now)), relay.View())
    {
      hide RelayId, Listening, Forget, FindAddress, IndexOf, Without, Views;
      var i := FindAddress(table, relay.address);
      if i == |table| {
        return false;
      }
      Release(i, relay);
      return true;
    }

    /** Timings of a delivered packet. */
    method Touch(i: nat, j: nat, sender: RelayEntry, target: RelayEntry, now: real)
      requires i < |table| && j < |table| && sender == table[i] && target == table[j]
      requires forall i, j :: 0 <= i < j < |table| ==> table[i] != table[j]
      modifies sender`lastReceived, target`lastSent
      ensures Views(table) == Spec.Touch(old(Views(table)), i, j, now)
    {
      sender.lastReceived := now;
      target.lastSent := now;
    }

    /** The constraints are asked about a packet of an entry; nothing else happens. */
    method Ask(i: nat, size: nat, now: real) returns (verdict: Verdict)
      requires Valid() && i < |table|
      modifies constraints, constraints.limiter, constraints.limiters.Values
      ensures Valid() && fresh(constraints.limiters.Values - old(constraints.limiters.Values))
      ensures (constraints.View(), verdict)
              == Vet(constraints.config, old(constraints.View()), old(Views(table))[i], size, now)
      ensures Views(table) == old(Views(table)) && Listening(pool.sockets) == old(Listening(pool.sockets))
    {
      hide RelayId, Vet, Views, Listening, Constraints.Valid, Constraints.View, UDPSocketPool.Valid;
      FoundEntry(i);
      verdict := constraints.Transmit(table[i], size, now);
    }

    /** An accepted packet leaves from the sender's port, and the timings move. */
    method Send(i: nat, j: nat, message: Datagram, now: real)
      requires Valid() && i < |table| && j < |table|
      modifies this`trace, table
      ensures Valid() && Views(table) == Spec.Touch(old(Views(table)), i, j, now)
      ensures constraints.View() == old(constraints.View()) && Listening(pool.sockets) == old(Listening(pool.sockets))
      ensures var sender, target := old(Views(table))[i], old(Views(table))[j];
              trace == old(trace) + [Sent(now, sender.address, sender.port, target.address, message)]
    {
      hide Spec.Touch, Views, Listening, Constraints.Valid, Constraints.View, UDPSocketPool.Valid;
      FoundEntry(i);
      FoundEntry(j);
      trace := trace + [Sent(now, table[i].address, table[i].port, table[j].address, message)];
      Touch(i, j, table[i], table[j], now);
    }

    /** The second half of `relay`: the constraints are asked, the packet is sent, the timings move. */
    method Forward(i: nat, j: nat, message: Datagram, now: real) returns (verdict: Verdict)
      requires Valid() && i < |table| && j < |table|
      modifies this`trace, constraints, constraints.limiter, constraints.limiters.Values, table
      ensures Valid() && fresh(constraints.limiters.Values - old(constraints.limiters.Values))
      ensures (constraints.View(), verdict)
              == Vet(constraints.config, old(constraints.View()), old(Views(table))[i], |message|, now)
      ensures Listening(pool.sockets) == old(Listening(pool.sockets))
      ensures verdict == Accepted ==>
                && Views(table) == Spec.Touch(old(Views(table)), i, j, now)
                && var sender, target := old(Views(table))[i], old(Views(table))[j];
                   trace == old(trace) + [Sent(now, sender.address, sender.port, target.address, message)]
      ensures verdict != Accepted ==> Views(table) == old(Views(table)) && trace == old(trace)
    {
      hide Vet, Spec.Touch, Views, Listening, Constraints.Valid, Constraints.View, UDPSocketPool.Valid,
           UDPRelayHandler.Valid;
      verdict := Ask(i, |message|, now);
      if verdict == Accepted {
        Send(i, j, message, now);
      }
    }

    /** Relays a message between two known parties, subject to the constraints. */
    method Relay(message: Datagram, sender: NetAddress, target: nat, now: real) returns (outcome: Outcome)
      requires Valid()
      modifies this`trace, constraints, constraints.limiter, constraints.limiters.Values, table
      ensures Valid() && fresh(constraints.limiters.Values - old(constraints.limiters.Values))
      ensures (View(now), outcome) == RelayPacket(old(View(now)), message, sender, target)
    {
      hide RelayId, Listening, Vet, Spec.Touch, FindAddress, IndexOf, FindPort, IndexOfPort;
      var i, j := FindAddress(table, sender), FindPort(table, target);
      if i == |table| || j == |table| {
        return Dropped(i < |table|, j < |table|);
      }
      if table[i].port !in pool.sockets {
        return NoSocket;
      }
      var verdict := Forward(i, j, message, now);
      return if verdict == Accepted then Delivered else Rejected;
    }

    /** Frees every entry of a snapshot, while the table shrinks. */
    method FreeEach(entries: seq<RelayEntry>, ghost now: real)
      requires Valid()
      modifies this, pool`freePorts, constraints
      ensures Valid() && constraints.limiters.Values <= old(constraints.limiters.Values)
      ensures forall e :: e in table ==> e in old(table)
      ensures View(now) == FreeAll(old(View(now)), Views(entries))
    {
      hide RelayId, Listening, Forget, Spec.FreeRelay;
      var i := 0;
      while i < |entries|
        invariant forall e :: e in table ==> e in old(table)
        invariant i <= |entries| && Valid() && constraints.limiters.Values <= old(constraints.limiters.Values)
        invariant FreeAll(View(now), Views(entries)[i..]) == FreeAll(old(View(now)), Views(entries))
      {
        ghost var rest := Views(entries)[i..];
        assert rest[0] == entries[i].View() && rest[1..] == Views(entries)[i + 1..];
        var freed := FreeRelay(entries[i], now);
        i := i + 1;
      }
    }

    /** Frees all entries. */
    method Clear(ghost now: real)
      requires Valid()
      modifies this, pool`freePorts, constraints
      ensures Valid() && constraints.limiters.Values <= old(constraints.limiters.Values)
      ensures forall e :: e in table ==> e in old(table)
      ensures View(now) == ClearTable(old(View(now)))
    {
      FreeEach(table, now);
    }
  }

  lemma {:induction false} ExpiredAppend(table: seq<Relay>, r: Relay, cutoff: real)
    ensures Expired(table + [r], cutoff) == Expired(table, cutoff) + if r.LastTraffic() <= cutoff then [r] else []
  {
    if table == [] {
      assert [] + [r] == [r];
    } else {
      ExpiredAppend(table[1..], r, cutoff);
      assert (table + [r])[1..] == table[1..] + [r];
    }
  }

  /** The entries whose last traffic is at or before the cutoff, in order. */
  method Select(entries: seq<RelayEntry>, cutoff: real) returns (expired: seq<RelayEntry>)
    ensures Views(expired) == Expired(Views(entries), cutoff)
  {
    expired := [];
    for i := 0 to |entries|
      invariant Views(expired) == Expired(Views(entries)[..i], cutoff)
    {
      var entry := entries[i];
      ExpiredAppend(Views(entries)[..i], entry.View(), cutoff);
      assert Views(entries)[..i + 1] == Views(entries)[..i] + [entry.View()];
      if Max(entry.lastSent, entry.lastReceived) <= cutoff {
        assert Views(expired + [entry]) == Views(expired) + [entry.View()];
        expired := expired + [entry];
      }
    }
    assert Views(entries)[..|entries|] == Views(entries);
  }

  /** `cleanupUdpRelayTable`: select the idle entries, then free them one by one. */
  method CleanupUdpRelayTable(handler: UDPRelayHandler, timeout: real, now: real)
    requires handler.Valid()
    modifies handler, handler.pool`freePorts, handler.constraints
    ensures handler.Valid() && handler.constraints.limiters.Values <= old(handler.constraints.limiters.Values)
    ensures forall e :: e in handler.table ==> e in old(handler.table)
    ensures var e := old(handler.View(now)); handler.View(now) == FreeAll(e, Expired(e.table, now - timeout))
  {
    hide Views, Expired, FreeAll, Listening, RelayId;
    var expired := Select(handler.table, now - timeout);
    handler.FreeEach(expired, now);
  }
}
