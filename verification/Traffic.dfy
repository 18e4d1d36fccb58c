/** Bounds on what is actually sent: in real time for the whole engine and for every relay, and
    over the lifetime of a relay. They hold for every run, whatever the interleaving. */
module Traffic {
  import opened Addresses
  import opened Limiter
  import opened Engine
  import opened Invariants
  import opened Routing

  // ------------------------------------------------------- reading the trace

  function Size(ev: Event): nat {
    if ev.Sent? then |ev.message| else 0
  }

  /** Bytes put on the wire with a timestamp in `[a, b]`. */
  function SentBytes(events: seq<Event>, a: real, b: real): nat {
    if events == [] then 0
    else
      var last := events[|events| - 1];
      SentBytes(events[..|events| - 1], a, b) + if last.Sent? && a <= last.at <= b then Size(last) else 0
  }

  function TotalBytes(events: seq<Event>): nat {
    if events == [] then 0 else TotalBytes(events[..|events| - 1]) + Size(events[|events| - 1])
  }

  predicate Concerns(ev: Event, address: NetAddress, port: nat) {
    match ev
    case Created(_, b, q) => b == address && q == port
    case Destroyed(b, q) => b == address && q == port
    case Sent(_, b, q, _, _) => b == address && q == port
  }

  /** What a relay has sent since it was last created or destroyed. */
  function Current(trace: seq<Event>, address: NetAddress, port: nat): seq<Event> {
    if trace == [] then []
    else
      var last := trace[|trace| - 1];
      if !Concerns(last, address, port) then Current(trace[..|trace| - 1], address, port)
      else if last.Sent? then Current(trace[..|trace| - 1], address, port) + [last]
      else []
  }

  lemma TraceAppend(trace: seq<Event>, ev: Event, address: NetAddress, port: nat, a: real, b: real)
    ensures SentBytes(trace + [ev], a, b)
            == SentBytes(trace, a, b) + if ev.Sent? && a <= ev.at <= b then Size(ev) else 0
    ensures TotalBytes(trace + [ev]) == TotalBytes(trace) + Size(ev)
    ensures Current(trace + [ev], address, port)
            == if !Concerns(ev, address, port) then Current(trace, address, port)
               else if ev.Sent? then Current(trace, address, port) + [ev]
               else []
  {
  }

  // ------------------------------------------------------ one relay's account

  /** The largest number of bytes a slice can carry. */
  function SliceCap(budget: real): real {
    Max(budget, MAX_DATAGRAM as real)
  }

  /** The counter of a limiter is at least what was sent in its current slice, and nothing was sent
      after that slice. A packet that a later listener rejects is counted but not sent. */
  ghost predicate CounterCovers(l: Limit, sent: seq<Event>) {
    && l.interval > 0.0
    && SentBytes(sent, l.lastInterval, l.lastInterval + l.interval) <= l.traffic
    && (forall ev :: ev in sent && ev.Sent? ==> ev.at <= l.lastInterval + l.interval)
  }

  lemma {:induction false} NothingSince(events: seq<Event>, a: real, b: real)
    requires forall ev :: ev in events && ev.Sent? ==> ev.at < a
    ensures SentBytes(events, a, b) == 0
  {
    if events != [] {
      assert events[|events| - 1] in events;
      NothingSince(events[..|events| - 1], a, b);
    }
  }

  /** One validation keeps the counter ahead of what is sent, whatever the later listeners decide. */
  lemma CounterStep(l: Limit, sent: seq<Event>, ev: Event, accepted: bool)
    requires CounterCovers(l, sent) && ev.Sent?
    requires accepted ==> l.Accepts(Size(ev), ev.at)
    ensures CounterCovers(l.Validated(Size(ev), ev.at, ev.at), if accepted then sent + [ev] else sent)
  {
    hide Product, SentBytes;
    var l' := l.Validated(Size(ev), ev.at, ev.at);
    TraceAppend(sent, ev, NetAddress("", 0), 0, l'.lastInterval, l'.lastInterval + l'.interval);
    if l.SliceOver(ev.at) {
      NothingSince(sent, l'.lastInterval, l'.lastInterval + l'.interval);
    }
  }

  lemma CounterFresh(l: Limit)
    requires l.interval > 0.0
    ensures CounterCovers(l, [])
  {
  }

  /** A limiter covers what was sent under it: its counter covers the current slice, and in the
      window `[a, a + w]` no more was sent than its slices carry. */
  ghost predicate LimitCovers(l: Limit, interval: real, budget: real, sent: seq<Event>, clock: real, a: real, w: real)
    requires interval > 0.0 && w >= 0.0
  {
    && l.interval == interval
    && Window(l, clock, SentBytes(sent, a, a + w), a, w, SliceCap(budget))
    && CounterCovers(l, sent)
  }

  lemma LimitTick(l: Limit, interval: real, budget: real, sent: seq<Event>, clock: real, later: real, a: real, w: real)
    requires interval > 0.0 && w >= 0.0 && clock <= later
    requires LimitCovers(l, interval, budget, sent, clock, a, w)
    ensures LimitCovers(l, interval, budget, sent, later, a, w)
  {
  }

  lemma LimitFresh(l: Limit, interval: real, clock: real, a: real, w: real)
    requires interval > 0.0 && w >= 0.0 && l.interval == interval && l.traffic == 0 && l.lastInterval <= clock
    ensures LimitCovers(l, interval, l.Budget(), [], clock, a, w)
  {
    CounterFresh(l);
    FreshWindow(l, clock, a, w, SliceCap(l.Budget()));
  }

  lemma KeepsInterval(l: Limit, size: nat, now: real)
    ensures l.Validated(size, now, now).interval == l.interval
  {
  }

  lemma PacketWithinCap(size: nat, budget: real)
    requires size <= MAX_DATAGRAM
    ensures size as real <= SliceCap(budget)
  {
  }

  /** A limiter asked about a packet goes on covering what is sent, whatever later listeners decide. */
  lemma LimitStep(l: Limit, interval: real, budget: real, sent: seq<Event>, clock: real, a: real, w: real,
                  ev: Event, size: nat, accepted: bool)
    requires interval > 0.0 && w >= 0.0 && size <= MAX_DATAGRAM
    requires ev.Sent? && ev.at == clock && Size(ev) == size
    requires LimitCovers(l, interval, budget, sent, clock, a, w)
    requires accepted ==> l.Accepts(size, clock)
    ensures LimitCovers(l.Validated(size, clock, clock), interval, budget,
                        if accepted then sent + [ev] else sent, clock, a, w)
  {
    hide Product, Window, CounterCovers, SliceCap, Size, SentBytes, Limit.Validated, Limit.Accepts;
    KeepsInterval(l, size, clock);
    PacketWithinCap(size, budget);
    TraceAppend(sent, ev, NetAddress("", 0), 0, a, a + w);
    CounterStep(l, sent, ev, accepted);
    WindowStep(l, clock, SentBytes(sent, a, a + w), SentBytes(if accepted then sent + [ev] else sent, a, a + w),
               a, w, SliceCap(budget), size, clock, clock);
  }

  /** The individual ledger of a relay covers what the relay sent in the window `[a, a + w]`. */
  ghost predicate IndividualCovered(config: Config, l: Ledgers, sent: seq<Event>, clock: real, id: string, a: real,
                                    w: real)
    requires config.interval > 0.0 && w >= 0.0
  {
    if id in l.individual then
      LimitCovers(l.individual[id], config.interval, Product(config.individualTraffic, config.interval),
                  sent, clock, a, w)
    else sent == []
  }

  /** The lifetime ledger of a relay covers all it sent, which stays below the cap. */
  ghost predicate LifetimeCovered(config: Config, l: Ledgers, sent: seq<Event>, id: string) {
    && TotalBytes(sent) <= LifetimeTraffic(l, id)
    && (sent != [] ==> TotalBytes(sent) as real < config.lifetimeTraffic)
  }

  ghost predicate Covered(config: Config, l: Ledgers, trace: seq<Event>, clock: real, address: NetAddress, port: nat,
                          a: real, w: real)
    requires config.interval > 0.0 && w >= 0.0
  {
    var sent, id := Current(trace, address, port), RelayId(address, port);
    IndividualCovered(config, l, sent, clock, id, a, w) && LifetimeCovered(config, l, sent, id)
  }

  lemma CoveredTick(config: Config, l: Ledgers, trace: seq<Event>, clock: real, later: real,
                    address: NetAddress, port: nat, a: real, w: real)
    requires config.interval > 0.0 && w >= 0.0 && clock <= later
    requires Covered(config, l, trace, clock, address, port, a, w)
    ensures Covered(config, l, trace, later, address, port, a, w)
  {
  }

  /** Destroying any relay: its own account starts over, the others are untouched. */
  lemma CoveredDestroy(config: Config, l: Ledgers, trace: seq<Event>, clock: real,
                       address: NetAddress, port: nat, a: real, w: real, b: NetAddress, q: nat)
    requires config.interval > 0.0 && w >= 0.0
    requires Covered(config, l, trace, clock, address, port, a, w)
    ensures Covered(config, Forget(l, RelayId(b, q)), trace + [Destroyed(b, q)], clock, address, port, a, w)
  {
    TraceAppend(trace, Destroyed(b, q), address, port, a, a + w);
    RelayIdInjective(address, port, b, q);
    hide RelayId, Product, LimitCovers;
  }

  /** Creating a relay whose identifier has no ledger: its account starts over. */
  lemma CoveredCreate(config: Config, l: Ledgers, trace: seq<Event>, clock: real,
                      address: NetAddress, port: nat, a: real, w: real, b: NetAddress, q: nat)
    requires config.interval > 0.0 && w >= 0.0
    requires Covered(config, l, trace, clock, address, port, a, w)
    requires RelayId(b, q) !in l.individual && RelayId(b, q) !in l.lifetime
    ensures Covered(config, l, trace + [Created(clock, b, q)], clock, address, port, a, w)
  {
  }

  lemma {:induction false} CoveredDestroyAll(config: Config, l: Ledgers, trace: seq<Event>, clock: real,
                                             address: NetAddress, port: nat, a: real, w: real, gone: seq<Relay>)
    requires config.interval > 0.0 && w >= 0.0
    requires Covered(config, l, trace, clock, address, port, a, w)
    ensures Covered(config, ForgetAll(l, gone), trace + DestroyEvents(gone), clock, address, port, a, w)
    decreases |gone|
  {
    hide RelayId, Covered;
    if gone == [] {
      assert trace + [] == trace;
    } else {
      var b, q := gone[0].address, gone[0].port;
      CoveredDestroy(config, l, trace, clock, address, port, a, w, b, q);
      CoveredDestroyAll(config, Forget(l, RelayId(b, q)), trace + [Destroyed(b, q)], clock,
                        address, port, a, w, gone[1..]);
      DestroyEventsHead(trace, gone);
    }
  }

  lemma VetLifetime(config: Config, l: Ledgers, source: Relay, size: nat, now: real)
    ensures var (l', verdict) := Vet(config, l, source, size, now);
            && LifetimeTraffic(l, source.Id()) <= LifetimeTraffic(l', source.Id())
            && (verdict == Accepted ==>
                  LifetimeTraffic(l', source.Id()) == LifetimeTraffic(l, source.Id()) + size
                  && LifetimeTraffic(l', source.Id()) as real < config.lifetimeTraffic)
            && (forall id :: id != source.Id() ==> LifetimeTraffic(l', id) == LifetimeTraffic(l, id))
  {
  }

  /** The limiter a packet meets, whether it exists already or is made for it. */
  lemma LimiterMet(config: Config, l: Ledgers, sent: seq<Event>, clock: real, id: string, a: real, w: real)
    requires config.interval > 0.0 && w >= 0.0
    requires IndividualCovered(config, l, sent, clock, id, a, w)
    ensures LimitCovers(IndividualLimit(config, l, id, clock), config.interval,
                        Product(config.individualTraffic, config.interval), sent, clock, a, w)
  {
    hide Product, LimitCovers;
    if id !in l.individual {
      LimitFresh(IndividualLimit(config, l, id, clock), config.interval, clock, a, w);
    }
  }

  /** A packet the listeners looked at, sent or not, seen from its source's account. */
  lemma CoveredOwn(config: Config, l: Ledgers, trace: seq<Event>, clock: real,
                   a: real, w: real, source: Relay, target: NetAddress, message: Datagram)
    requires config.interval > 0.0 && w >= 0.0
    requires Covered(config, l, trace, clock, source.address, source.port, a, w)
    ensures var (l', verdict) := Vet(config, l, source, |message|, clock);
            var ev := Sent(clock, source.address, source.port, target, message);
            Covered(config, l', if verdict == Accepted then trace + [ev] else trace, clock,
                    source.address, source.port, a, w)
  {
    hide RelayId, Product, Vet, LimitCovers, Limit.Validated, Limit.Accepts, IndividualLimit;
    var (l', verdict) := Vet(config, l, source, |message|, clock);
    var ev := Sent(clock, source.address, source.port, target, message);
    var sent := Current(trace, source.address, source.port);
    TraceAppend(trace, ev, source.address, source.port, a, a + w);
    TraceAppend(sent, ev, source.address, source.port, a, a + w);
    VetKeys(config, l, source, |message|, clock);
    VetLifetime(config, l, source, |message|, clock);
    VetAccepts(config, l, source, |message|, clock);
    LimiterMet(config, l, sent, clock, source.Id(), a, w);
    LimitStep(IndividualLimit(config, l, source.Id(), clock), config.interval,
              Product(config.individualTraffic, config.interval),
              sent, clock, a, w, ev, |message|, verdict == Accepted);
  }

  /** The same packet seen from any other relay's account. */
  lemma CoveredOther(config: Config, l: Ledgers, trace: seq<Event>, clock: real,
                     address: NetAddress, port: nat, a: real, w: real, source: Relay, target: NetAddress,
                     message: Datagram)
    requires config.interval > 0.0 && w >= 0.0
    requires address != source.address || port != source.port
    requires Covered(config, l, trace, clock, address, port, a, w)
    ensures var (l', verdict) := Vet(config, l, source, |message|, clock);
            var ev := Sent(clock, source.address, source.port, target, message);
            Covered(config, l', if verdict == Accepted then trace + [ev] else trace, clock, address, port, a, w)
  {
    var ev := Sent(clock, source.address, source.port, target, message);
    var (l', verdict) := Vet(config, l, source, |message|, clock);
    OtherLedgers(config, l, source, |message|, clock, address, port);
    TraceAppend(trace, ev, address, port, a, a + w);
    assert !Concerns(ev, address, port);
    hide *;
    SameAccount(config, l, l', trace, if verdict == Accepted then trace + [ev] else trace, clock, address, port, a, w);
  }

  lemma OtherLedgers(config: Config, l: Ledgers, source: Relay, size: nat, now: real, address: NetAddress, port: nat)
    requires address != source.address || port != source.port
    ensures var l' := Vet(config, l, source, size, now).0;
            var id := RelayId(address, port);
            && (id in l'.individual <==> id in l.individual)
            && (id in l.individual ==> l'.individual[id] == l.individual[id])
            && LifetimeTraffic(l', id) == LifetimeTraffic(l, id)
  {
    RelayIdInjective(address, port, source.address, source.port);
    VetKeys(config, l, source, size, now);
    VetLifetime(config, l, source, size, now);
    hide Product, Vet, RelayId;
  }

  lemma SameAccount(config: Config, l: Ledgers, l': Ledgers, trace: seq<Event>, trace': seq<Event>, clock: real,
                    address: NetAddress, port: nat, a: real, w: real)
    requires config.interval > 0.0 && w >= 0.0
    requires Covered(config, l, trace, clock, address, port, a, w)
    requires Current(trace', address, port) == Current(trace, address, port)
    requires var id := RelayId(address, port);
             && (id in l'.individual <==> id in l.individual)
             && (id in l.individual ==> l'.individual[id] == l.individual[id])
             && LifetimeTraffic(l', id) == LifetimeTraffic(l, id)
    ensures Covered(config, l', trace', clock, address, port, a, w)
  {
  }

  lemma CoveredVet(config: Config, l: Ledgers, trace: seq<Event>, clock: real,
                   address: NetAddress, port: nat, a: real, w: real, source: Relay, target: NetAddress,
                   message: Datagram)
    requires config.interval > 0.0 && w >= 0.0
    requires Covered(config, l, trace, clock, address, port, a, w)
    ensures var (l', verdict) := Vet(config, l, source, |message|, clock);
            var ev := Sent(clock, source.address, source.port, target, message);
            Covered(config, l', if verdict == Accepted then trace + [ev] else trace, clock, address, port, a, w)
  {
    hide Covered, Vet;
    if address == source.address && port == source.port {
      CoveredOwn(config, l, trace, clock, a, w, source, target, message);
    } else {
      CoveredOther(config, l, trace, clock, address, port, a, w, source, target, message);
    }
  }

  // -------------------------------------------------------------- every run

  ghost predicate Account(e: Engine, address: NetAddress, port: nat, a: real, w: real)
    requires e.config.interval > 0.0 && w >= 0.0
  {
    Covered(e.config, e.ledgers, e.trace, e.clock, address, port, a, w)
  }

  lemma AccountCreate(e: Engine, b: NetAddress, address: NetAddress, port: nat, a: real, w: real)
    requires e.config.interval > 0.0 && w >= 0.0
    requires Inv(e) && Account(e, address, port, a, w)
    ensures Account(CreateRelay(e, b).0, address, port, a, w)
  {
    hide Covered, Inv, RelayId;
    if !Has(e.table, b) && e.pool.free != [] {
      var last := e.pool.free[|e.pool.free| - 1];
      NewIdIsFresh(e, b, last);
      CoveredCreate(e.config, e.ledgers, e.trace, e.clock, address, port, a, w, b, last);
    }
  }

  lemma AccountPacket(e: Engine, message: Datagram, sender: NetAddress, target: nat, address: NetAddress, port: nat,
                      a: real, w: real)
    requires e.config.interval > 0.0 && w >= 0.0
    requires Account(e, address, port, a, w)
    ensures Account(RelayPacket(e, message, sender, target).0, address, port, a, w)
  {
    hide Covered, Vet, Touch;
    var i, j := IndexOf(e.table, sender), IndexOfPort(e.table, target);
    if i < |e.table| && j < |e.table| {
      CoveredVet(e.config, e.ledgers, e.trace, e.clock, address, port, a, w, e.table[i], e.table[j].address, message);
    }
  }

  /** Cleanup and clearing both destroy some of the entries. */
  lemma CleanEffect(e: Engine)
    requires Inv(e)
    ensures var gone, e' := Expired(e.table, e.clock - e.config.timeout), Cleanup(e);
            && e'.ledgers == ForgetAll(e.ledgers, gone) && e'.trace == e.trace + DestroyEvents(gone)
            && e'.config == e.config && e'.clock == e.clock
    ensures var e' := ClearTable(e);
            && e'.ledgers == ForgetAll(e.ledgers, e.table) && e'.trace == e.trace + DestroyEvents(e.table)
            && e'.config == e.config && e'.clock == e.clock
  {
    hide Inv, FreeAll, ReturnAll, ForgetAll, DestroyEvents, Expired, Kept, RelayId;
    assert [] + e.table == e.table;
    FreeExpired(e, [], e.table, e.clock - e.config.timeout);
    AllExpired(e.table, Latest(e.table));
    FreeExpired(e, [], e.table, Latest(e.table));
  }

  lemma AccountStep(e: Engine, t: Timed, address: NetAddress, port: nat, a: real, w: real)
    requires e.config.interval > 0.0 && w >= 0.0
    requires Inv(e) && e.clock <= t.at && Account(e, address, port, a, w)
    ensures Apply(e, t).config == e.config && Account(Apply(e, t), address, port, a, w)
  {
    hide Covered, Inv, CreateRelay, RelayPacket, Cleanup, ClearTable, ForgetAll, DestroyEvents;
    ApplyClock(e, t);
    TickKeeps(e, t.at);
    CoveredTick(e.config, e.ledgers, e.trace, e.clock, t.at, address, port, a, w);
    var now := e.(clock := t.at);
    match t.op {
      case Create(b) => AccountCreate(now, b, address, port, a, w);
      case Packet(message, sender, target) => AccountPacket(now, message, sender, target, address, port, a, w);
      case Clean =>
        CleanEffect(now);
        CoveredDestroyAll(e.config, e.ledgers, e.trace, t.at, address, port, a, w,
                          Expired(e.table, t.at - e.config.timeout));
      case Clear =>
        CleanEffect(now);
        CoveredDestroyAll(e.config, e.ledgers, e.trace, t.at, address, port, a, w, e.table);
      case Strand =>
      case Close =>
      case Tick =>
    }
  }

  lemma {:induction false} AccountRun(e: Engine, ops: seq<Timed>, address: NetAddress, port: nat, a: real, w: real)
    requires e.config.interval > 0.0 && w >= 0.0
    requires Inv(e) && Timely(ops, e.clock) && Account(e, address, port, a, w)
    ensures Run(e, ops).config == e.config && Account(Run(e, ops), address, port, a, w)
  {
    hide Covered, Inv, Apply;
    if ops != [] {
      AccountRun(e, ops[..|ops| - 1], address, port, a, w);
      RunKeeps(e, ops[..|ops| - 1]);
      AccountStep(Run(e, ops[..|ops| - 1]), ops[|ops| - 1], address, port, a, w);
    }
  }

  /** Over any run from start-up, what one relay sends between two destructions stays within
      `SlicesIn(w)` slices in every window of length `w`, and below the lifetime cap in total. */
  lemma RelayTrafficBound(config: Config, bound: seq<nat>, start: real, ops: seq<Timed>,
                          address: NetAddress, port: nat, a: real, w: real)
    requires config.interval > 0.0 && w >= 0.0
    requires NoDuplicates(bound) && Timely(ops, start)
    ensures var sent := Current(Run(Start(config, bound, start), ops).trace, address, port);
            && SentBytes(sent, a, a + w) as real
               <= Product(SlicesIn(w, config.interval) as real,
                          SliceCap(Product(config.individualTraffic, config.interval)))
            && (sent != [] ==> TotalBytes(sent) as real < config.lifetimeTraffic)
  {
    var e := Start(config, bound, start);
    StartInv(config, bound, start);
    AccountRun(e, ops, address, port, a, w);
    hide Inv, Run, Product, SlicesIn, Start;
    var n, cap := SlicesIn(w, config.interval), SliceCap(Product(config.individualTraffic, config.interval));
    TimesIsProduct(n, cap);
    TimesMonotone(0, n, cap);
  }

  // ------------------------------------------------------- the whole engine

  ghost predicate GlobalCovered(e: Engine, a: real, w: real)
    requires e.config.interval > 0.0 && w >= 0.0
  {
    LimitCovers(e.ledgers.global, e.config.interval, Product(e.config.globalTraffic, e.config.interval),
                e.trace, e.clock, a, w)
  }

  /** What a packet does to ledgers and trace. */
  lemma PacketEffect(e: Engine, message: Datagram, sender: NetAddress, target: nat)
    ensures var e' := RelayPacket(e, message, sender, target).0;
            var i, j := IndexOf(e.table, sender), IndexOfPort(e.table, target);
            && e'.config == e.config && e'.clock == e.clock
            && (if i < |e.table| && j < |e.table| && e.table[i].port in e.pool.ports then
                  var (l, verdict) := Vet(e.config, e.ledgers, e.table[i], |message|, e.clock);
                  var ev := Sent(e.clock, sender, e.table[i].port, e.table[j].address, message);
                  e'.ledgers == l && e'.trace == if verdict == Accepted then e.trace + [ev] else e.trace
                else e'.ledgers == e.ledgers && e'.trace == e.trace)
  {
  }

  lemma GlobalPacket(e: Engine, message: Datagram, sender: NetAddress, target: nat, a: real, w: real)
    requires e.config.interval > 0.0 && w >= 0.0
    requires GlobalCovered(e, a, w)
    ensures GlobalCovered(RelayPacket(e, message, sender, target).0, a, w)
  {
    PacketEffect(e, message, sender, target);
    hide RelayPacket, Vet, LimitCovers, Product, Limit.Validated, Limit.Accepts, IndexOf, IndexOfPort;
    var i, j := IndexOf(e.table, sender), IndexOfPort(e.table, target);
    if i < |e.table| && j < |e.table| && e.table[i].port in e.pool.ports {
      var verdict := Vet(e.config, e.ledgers, e.table[i], |message|, e.clock).1;
      var ev := Sent(e.clock, sender, e.table[i].port, e.table[j].address, message);
      VetGlobal(e.config, e.ledgers, e.table[i], |message|, e.clock);
      LimitStep(e.ledgers.global, e.config.interval, Product(e.config.globalTraffic, e.config.interval),
                e.trace, e.clock, a, w, ev, |message|, verdict == Accepted);
    }
  }

  lemma VetGlobal(config: Config, l: Ledgers, source: Relay, size: nat, now: real)
    ensures var (l', verdict) := Vet(config, l, source, size, now);
            && (l'.global == l.global || l'.global == l.global.Validated(size, now, now))
            && (verdict == Accepted ==> l'.global == l.global.Validated(size, now, now) && l.global.Accepts(size, now))
  {
  }

  lemma {:induction false} DestroyQuiet(l: Ledgers, trace: seq<Event>, gone: seq<Relay>, a: real, b: real)
    ensures ForgetAll(l, gone).global == l.global
    ensures SentBytes(trace + DestroyEvents(gone), a, b) == SentBytes(trace, a, b)
    decreases |gone|
  {
    hide RelayId;
    if gone == [] {
      assert trace + [] == trace;
    } else {
      var ev := Destroyed(gone[0].address, gone[0].port);
      TraceAppend(trace, ev, gone[0].address, 0, a, b);
      DestroyQuiet(Forget(l, gone[0].Id()), trace + [ev], gone[1..], a, b);
      hide SentBytes, DestroyEvents;
      DestroyEventsHead(trace, gone);
    }
  }

  lemma {:induction false} DestroyUncounted(gone: seq<Relay>)
    ensures forall ev :: ev in DestroyEvents(gone) ==> !ev.Sent?
  {
    if gone != [] {
      DestroyUncounted(gone[1..]);
    }
  }

  /** Destroying relays leaves the global account alone. */
  lemma GlobalDestroy(e: Engine, e': Engine, gone: seq<Relay>, a: real, w: real)
    requires e.config.interval > 0.0 && w >= 0.0 && GlobalCovered(e, a, w)
    requires e'.ledgers == ForgetAll(e.ledgers, gone) && e'.trace == e.trace + DestroyEvents(gone)
    requires e'.config == e.config && e'.clock == e.clock
    ensures GlobalCovered(e', a, w)
  {
    hide Window, Product, ForgetAll, DestroyEvents, SentBytes;
    var g := e.ledgers.global;
    DestroyUncounted(gone);
    DestroyQuiet(e.ledgers, e.trace, gone, a, a + w);
    DestroyQuiet(e.ledgers, e.trace, gone, g.lastInterval, g.lastInterval + g.interval);
  }

  /** So does creating one. */
  lemma GlobalCreate(e: Engine, b: NetAddress, a: real, w: real)
    requires e.config.interval > 0.0 && w >= 0.0 && GlobalCovered(e, a, w)
    ensures GlobalCovered(CreateRelay(e, b).0, a, w)
  {
    hide Window, Product, Times, SlicesIn;
    if !Has(e.table, b) && e.pool.free != [] {
      var g, ev := e.ledgers.global, Created(e.clock, b, e.pool.free[|e.pool.free| - 1]);
      TraceAppend(e.trace, ev, b, 0, a, a + w);
      TraceAppend(e.trace, ev, b, 0, g.lastInterval, g.lastInterval + g.interval);
    }
  }

  lemma GlobalStep(e: Engine, t: Timed, a: real, w: real)
    requires e.config.interval > 0.0 && w >= 0.0
    requires Inv(e) && e.clock <= t.at && GlobalCovered(e, a, w)
    ensures Apply(e, t).config == e.config && GlobalCovered(Apply(e, t), a, w)
  {
    hide LimitCovers, Inv, RelayPacket, CreateRelay, Cleanup, ClearTable, ForgetAll, DestroyEvents, Product;
    ApplyClock(e, t);
    TickKeeps(e, t.at);
    LimitTick(e.ledgers.global, e.config.interval, Product(e.config.globalTraffic, e.config.interval),
              e.trace, e.clock, t.at, a, w);
    var now := e.(clock := t.at);
    match t.op {
      case Create(b) => GlobalCreate(now, b, a, w);
      case Packet(message, sender, target) => GlobalPacket(now, message, sender, target, a, w);
      case Clean =>
        CleanEffect(now);
        GlobalDestroy(now, Apply(e, t), Expired(e.table, t.at - e.config.timeout), a, w);
      case Clear =>
        CleanEffect(now);
        GlobalDestroy(now, Apply(e, t), e.table, a, w);
      case Strand =>
      case Close =>
      case Tick =>
    }
  }

  lemma {:induction false} GlobalRun(e: Engine, ops: seq<Timed>, a: real, w: real)
    requires e.config.interval > 0.0 && w >= 0.0
    requires Inv(e) && Timely(ops, e.clock) && GlobalCovered(e, a, w)
    ensures Run(e, ops).config == e.config && GlobalCovered(Run(e, ops), a, w)
  {
    hide GlobalCovered, Inv, Apply;
    if ops != [] {
      GlobalRun(e, ops[..|ops| - 1], a, w);
      RunKeeps(e, ops[..|ops| - 1]);
      GlobalStep(Run(e, ops[..|ops| - 1]), ops[|ops| - 1], a, w);
    }
  }

  /** Over any run from start-up, all relays together send no more in a window of length `w` than
      `SlicesIn(w)` slices can carry. */
  lemma GlobalTrafficBound(config: Config, bound: seq<nat>, start: real, ops: seq<Timed>, a: real, w: real)
    requires config.interval > 0.0 && w >= 0.0
    requires NoDuplicates(bound) && Timely(ops, start)
    ensures SentBytes(Run(Start(config, bound, start), ops).trace, a, a + w) as real
            <= Product(SlicesIn(w, config.interval) as real, SliceCap(Product(config.globalTraffic, config.interval)))
  {
    hide Run, Product, SlicesIn;
    var e := Start(config, bound, start);
    var n, cap := SlicesIn(w, config.interval), SliceCap(Product(config.globalTraffic, config.interval));
    StartInv(config, bound, start);
    LimitFresh(e.ledgers.global, config.interval, start, a, w);
    GlobalRun(e, ops, a, w);
    TimesIsProduct(n, cap);
  }

  /** In every reachable state the global counter is at least what all relays sent in its current
      slice, and the counter of a relay at least what that relay sent in its own; nothing was sent
      after the slice a counter stands for. */
  lemma CountersCoverSlices(config: Config, bound: seq<nat>, start: real, ops: seq<Timed>, address: NetAddress,
                            port: nat)
    requires config.interval > 0.0
    requires NoDuplicates(bound) && Timely(ops, start)
    ensures var e := Run(Start(config, bound, start), ops);
            var id := RelayId(address, port);
            && CounterCovers(e.ledgers.global, e.trace)
            && (if id in e.ledgers.individual
                then CounterCovers(e.ledgers.individual[id], Current(e.trace, address, port))
                else Current(e.trace, address, port) == [])
  {
    var e := Start(config, bound, start);
    StartInv(config, bound, start);
    LimitFresh(e.ledgers.global, config.interval, start, 0.0, 0.0);
    GlobalRun(e, ops, 0.0, 0.0);
    AccountRun(e, ops, address, port, 0.0, 0.0);
    hide Inv, Run, Product, Window, CounterCovers, Start;
  }

  // ------------------------------------------------------- permanent blocks

  /** The relay is too old, or its lifetime traffic has reached the cap. */
  ghost predicate Blocked(e: Engine, r: Relay) {
    && r in e.table
    && (e.clock - r.created >= e.config.lifetime
        || LifetimeTraffic(e.ledgers, r.Id()) as real >= e.config.lifetimeTraffic)
  }

  /** A rejection by one of the two lifetime constraints leaves the sender blocked. */
  lemma RejectionBlocks(e: Engine, message: Datagram, r: Relay, target: nat)
    requires Inv(e) && r in e.table
    requires RelayPacket(e, message, r.address, target).1 == Rejected
    requires Vet(e.config, e.ledgers, r, |message|, e.clock).1 in {TooOld, OverLifetime}
    ensures Blocked(RelayPacket(e, message, r.address, target).0, r)
  {
  }

  lemma BlockedPacket(e: Engine, message: Datagram, sender: NetAddress, target: nat, r: Relay)
    requires Inv(e) && Blocked(e, r)
    ensures var e' := RelayPacket(e, message, sender, target).0;
            && (exists r' :: Carried(r, r') && Blocked(e', r'))
            && (e'.trace == e.trace || exists ev :: e'.trace == e.trace + [ev] && !Concerns(ev, r.address, r.port))
  {
    BlockedKept(e, message, sender, target, r);
    BlockedQuiet(e, message, sender, target, r);
    hide *;
  }

  /** A packet does not unblock: its sender's lifetime traffic can only grow. */
  lemma BlockedKept(e: Engine, message: Datagram, sender: NetAddress, target: nat, r: Relay)
    requires Blocked(e, r)
    ensures exists r' :: Carried(r, r') && Blocked(RelayPacket(e, message, sender, target).0, r')
  {
    hide RelayId, Product, Vet, Touch, IndexOf, IndexOfPort, LifetimeTraffic;
    var e' := RelayPacket(e, message, sender, target).0;
    var i, j := IndexOf(e.table, sender), IndexOfPort(e.table, target);
    var k :| 0 <= k < |e.table| && e.table[k] == r;
    PacketEffect(e, message, sender, target);
    if i < |e.table| && j < |e.table| {
      VetLifetime(e.config, e.ledgers, e.table[i], |message|, e.clock);
      TouchShape(e.table, i, j, e.clock);
    }
    assert Carried(r, e'.table[k]) && e'.table[k] in e'.table && e'.table[k].Id() == r.Id();
  }

  /** A packet from a blocked relay is not sent; any other concerns another relay. */
  lemma BlockedQuiet(e: Engine, message: Datagram, sender: NetAddress, target: nat, r: Relay)
    requires Inv(e) && Blocked(e, r)
    ensures var e' := RelayPacket(e, message, sender, target).0;
            e'.trace == e.trace || exists ev :: e'.trace == e.trace + [ev] && !Concerns(ev, r.address, r.port)
  {
    var k :| 0 <= k < |e.table| && e.table[k] == r;
    Found(e.table, k);
    PacketEffect(e, message, sender, target);
    hide Inv, RelayPacket, RelayId, Product, Vet, IndexOf, IndexOfPort, LifetimeTraffic, IndividualLimit, Limit.Accepts;
    var e' := RelayPacket(e, message, sender, target).0;
    var i, j := IndexOf(e.table, sender), IndexOfPort(e.table, target);
    if e'.trace != e.trace {
      VetAccepts(e.config, e.ledgers, e.table[i], |message|, e.clock);
      assert i != k;
      var ev := Sent(e.clock, sender, e.table[i].port, e.table[j].address, message);
      assert e'.trace == e.trace + [ev] && !Concerns(ev, r.address, r.port);
    }
  }

  lemma {:induction false} ForgetOthers(l: Ledgers, gone: seq<Relay>, r: Relay)
    requires Destroyed(r.address, r.port) !in DestroyEvents(gone)
    ensures LifetimeTraffic(ForgetAll(l, gone), r.Id()) == LifetimeTraffic(l, r.Id())
    ensures forall ev :: ev in DestroyEvents(gone) ==> !Concerns(ev, r.address, r.port) && !ev.Sent?
    decreases |gone|
  {
    if gone != [] {
      RelayIdInjective(r.address, r.port, gone[0].address, gone[0].port);
      assert DestroyEvents(gone)[0] == Destroyed(gone[0].address, gone[0].port);
      assert DestroyEvents(gone[1..]) == DestroyEvents(gone)[1..];
      hide RelayId;
      ForgetOthers(Forget(l, gone[0].Id()), gone[1..], r);
    }
  }

  /** What one operation does to a blocked relay: nothing is sent from it, and it stays blocked,
      unless its destruction is announced. */
  ghost predicate StaysBlocked(e: Engine, e': Engine, r: Relay)
    requires Extends(e, e')
  {
    || Destroyed(r.address, r.port) in News(e, e')
    || (&& (exists r' :: Carried(r, r') && Blocked(e', r'))
        && (forall ev :: ev in News(e, e') ==> !(ev.Sent? && ev.source == r.address && ev.via == r.port)))
  }

  lemma BlockedDestroyAll(e: Engine, e': Engine, gone: seq<Relay>, r: Relay)
    requires Blocked(e, r)
    requires e'.ledgers == ForgetAll(e.ledgers, gone) && e'.trace == e.trace + DestroyEvents(gone)
    requires e'.config == e.config && e'.clock == e.clock
    requires r in gone || r in e'.table
    ensures Extends(e, e') && StaysBlocked(e, e', r)
  {
    hide ForgetAll, DestroyEvents, RelayId;
    assert News(e, e') == DestroyEvents(gone);
    if Destroyed(r.address, r.port) !in DestroyEvents(gone) {
      if r in gone {
        DestroyEventsOf(gone, r);
        assert false;
      }
      ForgetOthers(e.ledgers, gone, r);
      assert Carried(r, r) && Blocked(e', r);
    }
  }

  lemma BlockedCreate(e: Engine, address: NetAddress, r: Relay)
    requires Blocked(e, r)
    ensures var e' := CreateRelay(e, address).0; Extends(e, e') && StaysBlocked(e, e', r)
  {
    hide RelayId;
    assert Carried(r, r) && Blocked(CreateRelay(e, address).0, r);
  }

  lemma BlockedStep(e: Engine, t: Timed, r: Relay)
    requires Inv(e) && e.clock <= t.at && Blocked(e, r)
    ensures var e' := Apply(e, t); Extends(e, e') && StaysBlocked(e, e', r)
  {
    hide Inv, CreateRelay, RelayPacket, Cleanup, ClearTable, RelayId;
    TickKeeps(e, t.at);
    TraceGrows(e, t);
    var now, e' := e.(clock := t.at), Apply(e, t);
    assert Blocked(now, r);
    match t.op {
      case Create(address) => BlockedCreate(now, address, r);
      case Packet(message, sender, target) => BlockedPacket(now, message, sender, target, r);
      case Clean =>
        CleanEffect(now);
        CleanupExact(now);
        ExpiredMembers(e.table, t.at - e.config.timeout);
        BlockedDestroyAll(now, e', Expired(e.table, t.at - e.config.timeout), r);
      case Clear =>
        CleanEffect(now);
        BlockedDestroyAll(now, e', e.table, r);
      case Strand => assert Carried(r, r) && Blocked(e', r);
      case Close => assert Carried(r, r) && Blocked(e', r);
      case Tick => assert Carried(r, r) && Blocked(e', r);
    }
    assert News(e, e') == News(now, e');
  }

  /** Permanent block: once a relay is too old or over its lifetime traffic, nothing is sent from
      it in any continuation of the run, until it is destroyed. */
  lemma {:induction false} PermanentBlock(e: Engine, ops: seq<Timed>, r: Relay)
    requires Inv(e) && Timely(ops, e.clock) && Blocked(e, r)
    ensures Extends(e, Run(e, ops)) && StaysBlocked(e, Run(e, ops), r)
  {
    hide Inv, Apply, Blocked;
    RunTraceGrows(e, ops);
    if ops == [] {
      assert Carried(r, r);
    } else {
      var before, last := ops[..|ops| - 1], ops[|ops| - 1];
      PermanentBlock(e, before, r);
      RunKeeps(e, before);
      var mid, end := Run(e, before), Run(e, ops);
      TraceGrows(mid, last);
      assert News(e, end) == News(e, mid) + News(mid, end);
      if Destroyed(r.address, r.port) !in News(e, mid) {
        var r1 :| Carried(r, r1) && Blocked(mid, r1);
        BlockedStep(mid, last, r1);
        if Destroyed(r.address, r.port) !in News(mid, end) {
          var r2 :| Carried(r1, r2) && Blocked(end, r2);
          assert Carried(r, r2);
        }
      }
    }
  }
}
