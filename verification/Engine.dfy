/** The relay engine as values: socket pool, relay table, constraint ledgers and the
    trace of what the outside world observes. Each function is one operation of the
    source; the classes of Sockets and Handler refine them. */
module Engine {
  import opened Addresses
  import opened Limiter

  datatype Option<+T> = None | Some(value: T)

  // ------------------------------------------------------------------- data

  datatype Config = Config(
    individualTraffic: real, globalTraffic: real, interval: real,
    lifetime: real, lifetimeTraffic: real, timeout: real)

  /** One entry of the relay table. */
  datatype Relay = Relay(address: NetAddress, port: nat, lastSent: real, lastReceived: real, created: real) {
    function Id(): string {
      RelayId(address, port)
    }

    function LastTraffic(): real {
      Max(lastSent, lastReceived)
    }
  }

  /** Managed ports, free ports (taken from and returned to the end), the ports whose socket has a
      message listener, how often a socket was closed, and the ports that were taken from the free
      list but ended up in no table entry. The last one exists in the model only. */
  datatype Pool = Pool(ports: set<nat>, free: seq<nat>, listening: set<nat>, closed: multiset<nat>, stranded: set<nat>)

  /** Per-relay bandwidth limiters, the global limiter, and lifetime traffic per relay. */
  datatype Ledgers = Ledgers(individual: map<string, Limit>, global: Limit, lifetime: map<string, nat>)

  datatype Event =
    | Created(at: real, address: NetAddress, port: nat)
    | Destroyed(address: NetAddress, port: nat)
    | Sent(at: real, source: NetAddress, via: nat, target: NetAddress, message: Datagram)

  /** `clock` is the reading every operation at this instant gets. */
  datatype Engine = Engine(config: Config, pool: Pool, table: seq<Relay>, ledgers: Ledgers, trace: seq<Event>,
                           clock: real)

  datatype Outcome =
    | Delivered
    | Dropped(senderKnown: bool, targetKnown: bool)
    | NoSocket
    | Rejected

  /** Which constraint listener threw. */
  datatype Verdict = Accepted | OverIndividual | OverGlobal | TooOld | OverLifetime

  // ---------------------------------------------------------------- lookups

  /** `findIndex`: index of the first element that satisfies the predicate, or the length. */
  function First<T>(s: seq<T>, p: T -> bool): (i: nat)
    ensures i <= |s|
    ensures i < |s| ==> p(s[i])
    ensures forall j :: 0 <= j < i ==> !p(s[j])
  {
    if s == [] || p(s[0]) then 0 else 1 + First(s[1..], p)
  }

  /** Index of the first entry for the address, or the length of the table. */
  function IndexOf(table: seq<Relay>, address: NetAddress): (i: nat)
    ensures i <= |table|
    ensures i < |table| ==> table[i].address == address
    ensures forall j :: 0 <= j < i ==> table[j].address != address
  {
    First(table, (r: Relay) => r.address == address)
  }

  /** Index of the first entry using the local port, or the length of the table. */
  function IndexOfPort(table: seq<Relay>, port: nat): (i: nat)
    ensures i <= |table|
    ensures i < |table| ==> table[i].port == port
    ensures forall j :: 0 <= j < i ==> table[j].port != port
  {
    First(table, (r: Relay) => r.port == port)
  }

  predicate Has(table: seq<Relay>, address: NetAddress) {
    IndexOf(table, address) < |table|
  }

  // ------------------------------------------------------------ create, free

  /** `getPort`: the last free port, or nothing when there is none (the source throws). */
  function TakePort(pool: Pool): (Pool, Option<nat>) {
    if pool.free == [] then (pool, None)
    else (pool.(free := pool.free[..|pool.free| - 1]), Some(pool.free[|pool.free| - 1]))
  }

  function ReturnPort(pool: Pool, port: nat): Pool {
    if port in pool.ports then pool.(free := pool.free + [port]) else pool
  }

  /** `createRelay`: the port of the existing or new entry, or nothing when no port is free. */
  function CreateRelay(e: Engine, address: NetAddress): (Engine, Option<nat>) {
    var i := IndexOf(e.table, address);
    if i < |e.table| then (e, Some(e.table[i].port))
    else
      var (pool, taken) := TakePort(e.pool);
      match taken
      case None => (e, None)
      case Some(port) =>
        (e.(pool := pool.(listening := pool.listening + {port}),
            table := e.table + [Relay(address, port, 0.0, e.clock, e.clock)],
            trace := e.trace + [Created(e.clock, address, port)]),
         Some(port))
  }

  /** The two `destroy` listeners. */
  function Forget(l: Ledgers, id: string): Ledgers {
    l.(individual := l.individual - {id}, lifetime := l.lifetime - {id})
  }

  function Without<T>(s: seq<T>, i: nat): (r: seq<T>)
    requires i < |s|
  {
    s[..i] + s[i + 1..]
  }

  /** `freeRelay`: finds the entry by address, but destroys and returns the argument's port. */
  function FreeRelay(e: Engine, relay: Relay): (Engine, bool) {
    var i := IndexOf(e.table, relay.address);
    if i == |e.table| then (e, false)
    else
      (e.(ledgers := Forget(e.ledgers, relay.Id()),
          pool := ReturnPort(e.pool, relay.port),
          table := Without(e.table, i),
          trace := e.trace + [Destroyed(relay.address, relay.port)]),
       true)
  }

  function FreeAll(e: Engine, relays: seq<Relay>): Engine
    decreases |relays|
  {
    if relays == [] then e else FreeAll(FreeRelay(e, relays[0]).0, relays[1..])
  }

  /** Entries whose last traffic is at or before the cutoff, in table order. */
  function Expired(table: seq<Relay>, cutoff: real): seq<Relay> {
    if table == [] then []
    else (if table[0].LastTraffic() <= cutoff then [table[0]] else []) + Expired(table[1..], cutoff)
  }

  function Kept(table: seq<Relay>, cutoff: real): seq<Relay> {
    if table == [] then []
    else (if table[0].LastTraffic() <= cutoff then [] else [table[0]]) + Kept(table[1..], cutoff)
  }

  /** `cleanupUdpRelayTable`: frees the expired entries of a snapshot one by one. */
  function Cleanup(e: Engine): Engine {
    FreeAll(e, Expired(e.table, e.clock - e.config.timeout))
  }

  /** `UDPRelayHandler.clear`. */
  function ClearTable(e: Engine): Engine {
    FreeAll(e, e.table)
  }

  /** `UDPSocketPool.clear`: closes and forgets every socket. */
  function ClosePool(pool: Pool): Pool {
    Pool({}, [], {}, pool.closed + multiset(pool.ports), {})
  }

  // ------------------------------------------------------------- constraints

  function IndividualLimit(config: Config, l: Ledgers, id: string, now: real): Limit {
    if id in l.individual then l.individual[id]
    else Limit(config.individualTraffic, config.interval, 0, now)
  }

  function LifetimeTraffic(l: Ledgers, id: string): nat {
    if id in l.lifetime then l.lifetime[id] else 0
  }

  /** The four `transmit` listeners in registration order. The first one that throws ends the
      sequence; what the earlier ones charged stays charged. */
  function Vet(config: Config, l: Ledgers, source: Relay, size: nat, now: real): (Ledgers, Verdict) {
    var id := source.Id();
    var limit := IndividualLimit(config, l, id, now);
    var l1 := l.(individual := l.individual[id := limit.Validated(size, now, now)]);
    if !limit.Accepts(size, now) then (l1, OverIndividual)
    else
      var l2 := l1.(global := l.global.Validated(size, now, now));
      if !l.global.Accepts(size, now) then (l2, OverGlobal)
      else if !(now - source.created < config.lifetime) then (l2, TooOld)
      else
        var l3 := l2.(lifetime := l.lifetime[id := LifetimeTraffic(l, id) + size]);
        (l3, if (LifetimeTraffic(l, id) + size) as real < config.lifetimeTraffic then Accepted else OverLifetime)
  }

  // ----------------------------------------------------------------- routing

  /** Timings of a delivered packet: the sender received, the target sent. The two may be one entry. */
  function Touch(table: seq<Relay>, sender: nat, target: nat, now: real): seq<Relay>
    requires sender < |table| && target < |table|
  {
    var t := table[sender := table[sender].(lastReceived := now)];
    t[target := t[target].(lastSent := now)]
  }

  /** `relay`, up to the listeners of the `drop` event, which belong to dynamic relaying. */
  function RelayPacket(e: Engine, message: Datagram, sender: NetAddress, target: nat): (Engine, Outcome) {
    var i, j := IndexOf(e.table, sender), IndexOfPort(e.table, target);
    if i == |e.table| || j == |e.table| then (e, Dropped(i < |e.table|, j < |e.table|))
    else if e.table[i].port !in e.pool.ports then (e, NoSocket)
    else
      var (ledgers, verdict) := Vet(e.config, e.ledgers, e.table[i], |message|, e.clock);
      if verdict != Accepted then (e.(ledgers := ledgers), Rejected)
      else
        (e.(ledgers := ledgers,
            table := Touch(e.table, i, j, e.clock),
            trace := e.trace + [Sent(e.clock, sender, e.table[i].port, e.table[j].address, message)]),
         Delivered)
  }

  // -------------------------------------------------------------------- runs

  /** What can happen to the engine. `Strand` is the port that dynamic relaying takes for an entry
      whose port is then overwritten; `Tick` only lets time pass. */
  datatype Op =
    | Create(address: NetAddress)
    | Strand
    | Packet(message: Datagram, sender: NetAddress, target: nat)
    | Clean
    | Clear
    | Close
    | Tick

  datatype Timed = Timed(at: real, op: Op)

  function StrandPort(pool: Pool): Pool {
    var (taken, port) := TakePort(pool);
    match port
    case None => pool
    case Some(p) => taken.(stranded := taken.stranded + {p})
  }

  /** One operation at one instant: every clock reading it makes is `t.at`. */
  function Apply(e: Engine, t: Timed): Engine {
    var now := e.(clock := t.at);
    match t.op
    case Create(address) => CreateRelay(now, address).0
    case Strand => now.(pool := StrandPort(now.pool))
    case Packet(message, sender, target) => RelayPacket(now, message, sender, target).0
    case Clean => Cleanup(now)
    case Clear => ClearTable(now)
    case Close => now.(pool := ClosePool(now.pool))
    case Tick => now
  }

  function Run(e: Engine, ops: seq<Timed>): Engine {
    if ops == [] then e else Apply(Run(e, ops[..|ops| - 1]), ops[|ops| - 1])
  }

  /** Readings of a clock that starts at `clock` and never goes back. */
  ghost predicate Timely(ops: seq<Timed>, clock: real) {
    && (forall i :: 0 <= i < |ops| ==> clock <= ops[i].at)
    && (forall i, j :: 0 <= i < j < |ops| ==> ops[i].at <= ops[j].at)
  }

  predicate NoDuplicates<T(==)>(s: seq<T>) {
    forall i, j :: 0 <= i < j < |s| ==> s[i] != s[j]
  }

  /** The engine after start-up: the bound ports are free, in the order they were bound. */
  function Start(config: Config, bound: seq<nat>, now: real): Engine {
    Engine(config,
           Pool((set p | p in bound), bound, {}, multiset{}, {}),
           [],
           Ledgers(map[], Limit(config.globalTraffic, config.interval, 0, now), map[]),
           [],
           now)
  }

  lemma {:induction false} RunConcat(e: Engine, a: seq<Timed>, b: seq<Timed>)
    ensures Run(e, a + b) == Run(Run(e, a), b)
    decreases |b|
  {
    if b == [] {
      assert a + b == a;
    } else {
      assert (a + b)[..|a + b| - 1] == a + b[..|b| - 1];
      RunConcat(e, a, b[..|b| - 1]);
    }
  }
}
