/** Who holds a port and which sockets are open, over whole runs: the trace tells who has a port, a
    port passes on only after its relay was destroyed, and no socket is closed twice. */
module Holding {
  import opened Addresses
  import opened Engine
  import opened Invariants
  import opened Routing
  import opened System
  import opened Guarantees
  import Reclaim

  // ------------------------------------------------------------ closing sockets

  lemma ApplyCloses(e: Engine, t: Timed)
    requires Inv(e) && e.clock <= t.at
    ensures var pool := Apply(e, t).pool;
            if t.op.Close? then pool.ports == {} && pool.closed == e.pool.closed + multiset(e.pool.ports)
            else pool.ports == e.pool.ports && pool.closed == e.pool.closed
  {
    hide Inv, Cleanup, ClearTable, Vet, Touch, IndexOf, IndexOfPort;
    TickKeeps(e, t.at);
    if t.op.Clean? {
      CleanupExact(e.(clock := t.at));
    } else if t.op.Clear? {
      ClearExact(e.(clock := t.at));
    }
  }

  /** Over any run every managed socket is still open or was closed once; once the pool was closed,
      none is open. */
  lemma {:induction false} RunCloses(e: Engine, ops: seq<Timed>)
    requires Inv(e) && Timely(ops, e.clock)
    ensures var pool := Run(e, ops).pool;
            && pool.closed + multiset(pool.ports) == e.pool.closed + multiset(e.pool.ports)
            && (if exists k :: 0 <= k < |ops| && ops[k].op.Close? then pool.ports == {}
                else pool.ports == e.pool.ports && pool.closed == e.pool.closed)
  {
    hide Inv, Apply;
    if ops != [] {
      var before, last := ops[..|ops| - 1], ops[|ops| - 1];
      RunCloses(e, before);
      RunKeeps(e, before);
      ApplyCloses(Run(e, before), last);
      assert forall k :: 0 <= k < |before| ==> before[k] == ops[k];
    }
  }

  lemma NextCloses(s: System, t: TimedStep)
    requires SysInv(s) && s.engine.clock <= t.at
    ensures var pool := Next(s, t).engine.pool;
            if t.step.Shutdown?
            then pool.ports == {} && pool.closed == s.engine.pool.closed + multiset(s.engine.pool.ports)
            else pool.ports == s.engine.pool.ports && pool.closed == s.engine.pool.closed
  {
    if t.step.Shutdown? {
      TickKeeps(s.engine, t.at);
      ShutdownIsComplete(At(s, t.at).engine, true);
      hide Inv, Routing.Shutdown;
    } else {
      hide Next, Inv, Run;
      var ops := NextOps(s, t);
      assert forall i :: 0 <= i < |ops| ==> ops[i] in ops;
      RunCloses(s.engine, ops);
    }
  }

  ghost predicate WasShutDown(steps: seq<TimedStep>) {
    exists t :: t in steps && t.step.Shutdown?
  }

  /** Every bound socket is managed or was closed exactly once, and all were once the server was shut down. */
  ghost predicate ClosedOnce(pool: Pool, bound: set<nat>, down: bool) {
    && pool.closed + multiset(pool.ports) == multiset(bound)
    && (if down then pool.ports == {} && pool.closed == multiset(bound)
        else pool.ports == bound && pool.closed == multiset{})
  }

  lemma LastShutdown(steps: seq<TimedStep>)
    requires steps != []
    ensures WasShutDown(steps) <==> WasShutDown(steps[..|steps| - 1]) || steps[|steps| - 1].step.Shutdown?
  {
    assert steps == steps[..|steps| - 1] + [steps[|steps| - 1]];
  }

  lemma ClosedNext(s: System, t: TimedStep, bound: set<nat>, down: bool)
    requires SysInv(s) && s.engine.clock <= t.at && ClosedOnce(s.engine.pool, bound, down)
    ensures ClosedOnce(Next(s, t).engine.pool, bound, down || t.step.Shutdown?)
  {
    NextCloses(s, t);
    hide Next, SysInv;
  }

  /** No socket is closed twice, however often the server is shut down: after any run from start-up
      each bound socket is either managed or was closed exactly once, and after a shutdown each was. */
  lemma {:induction false} SocketsClosedOnce(config: Config, bound: seq<nat>, start: real, steps: seq<TimedStep>)
    requires NoDuplicates(bound) && TimelySteps(steps, start)
    ensures ClosedOnce(RunSteps(StartSystem(config, bound, start), steps).engine.pool, Elements(bound),
                       WasShutDown(steps))
  {
    var s := StartSystem(config, bound, start);
    if steps == [] {
      assert s.engine.pool.ports == Elements(bound);
    } else {
      var before := steps[..|steps| - 1];
      StartSysInv(config, bound, start);
      EarlierSteps(steps, start);
      RunStepsLast(s, steps);
      LastShutdown(steps);
      hide *;
      SocketsClosedOnce(config, bound, start, before);
      RunStepsKeep(s, before);
      var ops := RunStepsOps(s, before);
      ClosedNext(RunSteps(s, before), steps[|steps| - 1], Elements(bound), WasShutDown(before));
    }
  }

  // --------------------------------------------------------- who holds a port

  /** The event gives the port to an address or takes it away. */
  predicate Reassigns(ev: Event, port: nat) {
    match ev
    case Created(_, _, q) => q == port
    case Destroyed(_, q) => q == port
    case Sent(_, _, _, _, _) => false
  }

  /** The last event that gave the port away or took it back. */
  function LastOf(trace: seq<Event>, port: nat): (last: Option<Event>)
    ensures last.Some? ==> last.value in trace && Reassigns(last.value, port)
  {
    if trace == [] then None
    else if Reassigns(trace[|trace| - 1], port) then Some(trace[|trace| - 1])
    else LastOf(trace[..|trace| - 1], port)
  }

  /** According to the trace, the port belongs to the address. */
  predicate GivenTo(trace: seq<Event>, address: NetAddress, port: nat) {
    var last := LastOf(trace, port);
    last.Some? && last.value.Created? && last.value.address == address
  }

  /** The trace tells exactly who holds which port. */
  ghost predicate TraceTells(e: Engine) {
    forall b, p :: Holds(e, b, p) <==> GivenTo(e.trace, b, p)
  }

  lemma LastAppend(trace: seq<Event>, ev: Event, port: nat)
    ensures LastOf(trace + [ev], port) == if Reassigns(ev, port) then Some(ev) else LastOf(trace, port)
  {
    assert (trace + [ev])[..|trace|] == trace;
  }

  lemma {:induction false} LastConcat(a: seq<Event>, b: seq<Event>, port: nat)
    ensures LastOf(a + b, port) == if LastOf(b, port).Some? then LastOf(b, port) else LastOf(a, port)
    decreases |b|
  {
    if b == [] {
      assert a + b == a;
    } else {
      var init, last := b[..|b| - 1], b[|b| - 1];
      assert a + b == (a + init) + [last] && b == init + [last];
      LastAppend(a + init, last, port);
      LastAppend(init, last, port);
      LastConcat(a, init, port);
    }
  }

  lemma {:induction false} LastDestroyed(gone: seq<Relay>, port: nat)
    ensures var last := LastOf(DestroyEvents(gone), port);
            && (last.Some? <==> exists r :: r in gone && r.port == port)
            && (last.Some? ==> last.value.Destroyed?)
  {
    if gone != [] {
      var ev := Destroyed(gone[0].address, gone[0].port);
      LastDestroyed(gone[1..], port);
      LastConcat([ev], DestroyEvents(gone[1..]), port);
      LastAppend([], ev, port);
      assert [] + [ev] == [ev];
      assert gone == [gone[0]] + gone[1..];
      hide LastOf;
    }
  }

  lemma CreateTells(e: Engine, address: NetAddress)
    requires Inv(e) && TraceTells(e)
    ensures TraceTells(CreateRelay(e, address).0)
  {
    if !Has(e.table, address) && e.pool.free != [] {
      var e', last := CreateRelay(e, address).0, e.pool.free[|e.pool.free| - 1];
      CreateNew(e, address);
      NobodyHolds(e, last);
      hide CreateRelay, Inv, Has, LastOf;
      var r := Relay(address, last, 0.0, e.clock, e.clock);
      forall b, p
        ensures Holds(e', b, p) <==> GivenTo(e'.trace, b, p)
      {
        HoldsAppend(e, e', r, b, p);
        LastAppend(e.trace, Created(e.clock, address, last), p);
      }
    }
  }

  /** A free port is held by nobody. */
  lemma NobodyHolds(e: Engine, port: nat)
    requires Inv(e) && port in e.pool.free
    ensures forall b :: !Holds(e, b, port)
  {
    assert port in Elements(e.pool.free);
    assert forall r :: r in e.table ==> r.port in PortSet(e.table);
  }

  lemma HoldsAppend(e: Engine, e': Engine, r: Relay, b: NetAddress, p: nat)
    requires e'.table == e.table + [r]
    ensures Holds(e', b, p) <==> Holds(e, b, p) || (r.address == b && r.port == p)
  {
    assert e'.table[|e.table|] == r;
    assert forall x :: x in e'.table <==> x in e.table || x == r;
  }

  lemma PacketTells(e: Engine, message: Datagram, sender: NetAddress, target: nat)
    requires TraceTells(e)
    ensures TraceTells(RelayPacket(e, message, sender, target).0)
  {
    var e' := RelayPacket(e, message, sender, target).0;
    Reclaim.PacketNews(e, message, sender, target);
    assert e'.trace == e.trace + News(e, e');
    forall b, p
      ensures Holds(e', b, p) == Holds(e, b, p)
    {
      PacketHolds(e, message, sender, target, b, p);
    }
    forall p
      ensures LastOf(e'.trace, p) == LastOf(e.trace, p)
    {
      LastConcat(e.trace, News(e, e'), p);
    }
    hide RelayPacket, Holds, LastOf;
  }

  lemma PacketHolds(e: Engine, message: Datagram, sender: NetAddress, target: nat, b: NetAddress, p: nat)
    ensures Holds(RelayPacket(e, message, sender, target).0, b, p) == Holds(e, b, p)
  {
    hide Vet, Touch, IndexOf, IndexOfPort;
    var e' := RelayPacket(e, message, sender, target).0;
    var i, j := IndexOf(e.table, sender), IndexOfPort(e.table, target);
    if e'.table != e.table {
      TouchShape(e.table, i, j, e.clock);
      if Holds(e, b, p) {
        var k :| 0 <= k < |e.table| && e.table[k].address == b && e.table[k].port == p;
        assert e'.table[k] in e'.table;
      }
      if Holds(e', b, p) {
        var k :| 0 <= k < |e'.table| && e'.table[k].address == b && e'.table[k].port == p;
        assert e.table[k] in e.table;
      }
    }
  }

  /** Destroying some of the entries: their ports belong to nobody, the others are as before. */
  lemma DestroyTells(e: Engine, e': Engine, gone: seq<Relay>)
    requires Inv(e) && TraceTells(e) && e'.trace == e.trace + DestroyEvents(gone)
    requires forall r :: r in e.table <==> r in e'.table || r in gone
    requires forall r :: r in e'.table ==> r !in gone
    ensures TraceTells(e')
  {
    hide DestroyEvents, LastOf, Inv, Holds;
    forall b, p
      ensures Holds(e', b, p) <==> GivenTo(e'.trace, b, p)
    {
      LastConcat(e.trace, DestroyEvents(gone), p);
      LastDestroyed(gone, p);
      DestroyHolds(e, e', gone, b, p);
    }
  }

  lemma DestroyHolds(e: Engine, e': Engine, gone: seq<Relay>, b: NetAddress, p: nat)
    requires Inv(e)
    requires forall r :: r in e.table <==> r in e'.table || r in gone
    requires forall r :: r in e'.table ==> r !in gone
    ensures Holds(e', b, p) <==> Holds(e, b, p) && !exists r :: r in gone && r.port == p
  {
    SamePort(e, p);
    hide Inv;
  }

  lemma SamePort(e: Engine, p: nat)
    requires Inv(e)
    ensures forall r, x :: r in e.table && x in e.table && r.port == p && x.port == p ==> r == x
  {
    hide Accounted, Owned, Clocked;
  }

  lemma CleanTells(e: Engine)
    requires Inv(e) && TraceTells(e)
    ensures TraceTells(Cleanup(e))
  {
    hide TraceTells, Inv, Cleanup, DestroyEvents, Expired, Kept, Ports;
    CleanupExact(e);
    ExpiredMembers(e.table, e.clock - e.config.timeout);
    DestroyTells(e, Cleanup(e), Expired(e.table, e.clock - e.config.timeout));
  }

  lemma ClearTells(e: Engine)
    requires Inv(e) && TraceTells(e)
    ensures TraceTells(ClearTable(e))
  {
    hide TraceTells, Inv, ClearTable, DestroyEvents;
    ClearExact(e);
    ClearTrace(e);
    DestroyTells(e, ClearTable(e), e.table);
  }

  lemma ApplyTells(e: Engine, t: Timed)
    requires Inv(e) && e.clock <= t.at && TraceTells(e)
    ensures TraceTells(Apply(e, t))
  {
    hide Inv, TraceTells, CreateRelay, RelayPacket, Cleanup, ClearTable;
    TickKeeps(e, t.at);
    var now := e.(clock := t.at);
    SameTells(e, now);
    match t.op
    case Create(address) => CreateTells(now, address);
    case Packet(message, sender, target) => PacketTells(now, message, sender, target);
    case Clean => CleanTells(now);
    case Clear => ClearTells(now);
    case Strand => SameTells(now, Apply(e, t));
    case Close => SameTells(now, Apply(e, t));
    case Tick =>
  }

  lemma SameTells(e: Engine, e': Engine)
    requires TraceTells(e) && e'.table == e.table && e'.trace == e.trace
    ensures TraceTells(e')
  {
    hide LastOf;
    assert forall b, p :: Holds(e', b, p) == Holds(e, b, p);
  }

  lemma {:induction false} RunTells(e: Engine, ops: seq<Timed>)
    requires Inv(e) && Timely(ops, e.clock) && TraceTells(e)
    ensures TraceTells(Run(e, ops))
  {
    hide Inv, Apply, TraceTells;
    if ops != [] {
      RunTells(e, ops[..|ops| - 1]);
      RunKeeps(e, ops[..|ops| - 1]);
      ApplyTells(Run(e, ops[..|ops| - 1]), ops[|ops| - 1]);
    }
  }

  /** In every reachable state an address holds a port if and only if the last event about the port
      gave it to that address. */
  lemma ServerTells(config: Config, bound: seq<nat>, start: real, steps: seq<TimedStep>)
    requires NoDuplicates(bound) && TimelySteps(steps, start)
    ensures TraceTells(RunSteps(StartSystem(config, bound, start), steps).engine)
  {
    StartSysInv(config, bound, start);
    hide Run, RunSteps, Inv;
    var s := StartSystem(config, bound, start);
    var ops := RunStepsOps(s, steps);
    RunTells(s.engine, ops);
  }

  lemma {:induction false} LastIsLast(trace: seq<Event>, port: nat, i: nat) returns (j: nat)
    requires i < |trace| && Reassigns(trace[i], port)
    ensures i <= j < |trace| && LastOf(trace, port) == Some(trace[j])
  {
    j := |trace| - 1;
    if !Reassigns(trace[j], port) {
      j := LastIsLast(trace[..j], port, i);
    }
  }

  /** A port that was `a`'s belongs to another address `b` later on if and only if the last thing that
      happened to the port since then was that it was given to `b`; and before that `a`'s relay was
      destroyed. */
  lemma PortPassesOn(s: System, steps: seq<TimedStep>, a: NetAddress, p: nat, b: NetAddress)
    requires SysInv(s) && TraceTells(s.engine) && TimelySteps(steps, s.engine.clock)
    requires Holds(s.engine, a, p) && b != a
    ensures var s' := RunSteps(s, steps);
            && Extends(s.engine, s'.engine)
            && (Holds(s'.engine, b, p) <==> GivenTo(News(s.engine, s'.engine), b, p))
            && (Holds(s'.engine, b, p) ==>
                  var news := News(s.engine, s'.engine);
                  exists i, j :: 0 <= i < j < |news| && news[i] == Destroyed(a, p)
                                 && news[j].Created? && news[j].address == b && news[j].port == p)
  {
    RouteKept(s, steps, a, p);
    hide Run, RunSteps, Inv;
    var s' := RunSteps(s, steps);
    var ops := RunStepsOps(s, steps);
    RunTells(s.engine, ops);
    var news := News(s.engine, s'.engine);
    assert s'.engine.trace == s.engine.trace + news;
    LastConcat(s.engine.trace, news, p);
    Tells(s.engine, a, p);
    Tells(s'.engine, b, p);
    hide LastOf, TraceTells, Holds;
    if Holds(s'.engine, b, p) {
      OneHolder(s'.engine, a, b, p);
      DestroyedThenCreated(news, a, p, b);
    }
  }

  lemma Tells(e: Engine, b: NetAddress, p: nat)
    requires TraceTells(e)
    ensures Holds(e, b, p) <==> GivenTo(e.trace, b, p)
  {
    hide Holds, GivenTo;
  }

  lemma DestroyedThenCreated(news: seq<Event>, a: NetAddress, p: nat, b: NetAddress)
    requires Destroyed(a, p) in news && GivenTo(news, b, p)
    ensures exists i, j :: 0 <= i < j < |news| && news[i] == Destroyed(a, p)
                           && news[j].Created? && news[j].address == b && news[j].port == p
  {
    hide LastOf;
    var i :| 0 <= i < |news| && news[i] == Destroyed(a, p);
    var j := LastIsLast(news, p, i);
    assert news[j].Created? && news[j].address == b && news[j].port == p;
  }

  lemma OneHolder(e: Engine, a: NetAddress, b: NetAddress, p: nat)
    requires Inv(e) && Holds(e, b, p) && b != a
    ensures !Holds(e, a, p)
  {
    SamePort(e, p);
    hide Inv;
  }
}
