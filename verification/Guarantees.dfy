/** What the whole server guarantees over every run. */
module Guarantees {
  import opened Addresses
  import opened Limiter
  import opened Engine
  import opened Invariants
  import opened Routing
  import opened Traffic
  import opened Reclaim
  import opened System
  import Dynamic

  // ------------------------------------------------------ runs as engine runs

  lemma TickOp(e: Engine, at: real)
    ensures Apply(e, Timed(at, Tick)) == e.(clock := at)
  {
  }

  lemma NextOps(s: System, t: TimedStep) returns (ops: seq<Timed>)
    ensures Run(s.engine, ops) == Next(s, t).engine && Next(s, t).engine.clock == t.at
    ensures forall o :: o in ops ==> o.at == t.at
    ensures t.step.CleanupDue? ==> Timed(t.at, Clean) in ops
    ensures forall o :: o in ops && o.op.Clean? ==> t.step.CleanupDue?
    ensures forall o :: o in ops && (o.op.Close? || o.op.Clear?) ==> t.step.Shutdown?
  {
    hide Apply, Act, Run;
    var tick := [Timed(t.at, Tick)];
    TickOp(s.engine, t.at);
    RunOne(s.engine, tick[0]);
    var more := ActOps(At(s, t.at), t.step);
    RunConcat(s.engine, tick, more);
    ops := tick + more;
  }

  lemma RunOne(e: Engine, t: Timed)
    ensures Run(e, [t]) == Apply(e, t)
  {
  }

  /** The engine cleans exactly when the server does, and clears or closes only on shutdown. */
  ghost predicate Mirrors(ops: seq<Timed>, steps: seq<TimedStep>) {
    && (forall t :: t in steps && t.step.CleanupDue? ==> Timed(t.at, Clean) in ops)
    && (forall o :: o in ops && o.op.Clean? ==> TimedStep(o.at, CleanupDue) in steps)
    && (forall o :: o in ops && (o.op.Close? || o.op.Clear?) ==> exists t :: t in steps && t.step.Shutdown?)
  }

  lemma MirrorsJoin(a: seq<Timed>, b: seq<Timed>, steps: seq<TimedStep>, last: TimedStep)
    requires Mirrors(a, steps)
    requires last.step.CleanupDue? ==> Timed(last.at, Clean) in b
    requires forall o :: o in b ==> o.at == last.at
    requires forall o :: o in b && o.op.Clean? ==> last.step.CleanupDue?
    requires forall o :: o in b && (o.op.Close? || o.op.Clear?) ==> last.step.Shutdown?
    ensures Mirrors(a + b, steps + [last])
  {
    var all := steps + [last];
    assert all[|steps|] == last;
    assert forall t :: t in all <==> t in steps || t == last;
    assert forall o :: o in a + b <==> o in a || o in b;
  }

  /** Every run of the server is a run of the engine, with a cleanup operation exactly where the
      server had a cleanup, so whatever holds of all engine runs holds of the server. */
  lemma RunStepsOps(s: System, steps: seq<TimedStep>) returns (ops: seq<Timed>)
    requires TimelySteps(steps, s.engine.clock)
    ensures Run(s.engine, ops) == RunSteps(s, steps).engine && Timely(ops, s.engine.clock)
    ensures RunSteps(s, steps).engine.clock == if steps == [] then s.engine.clock else steps[|steps| - 1].at
    ensures forall o :: o in ops ==> o.at <= RunSteps(s, steps).engine.clock
    ensures forall t :: t in steps && t.step.CleanupDue? ==> Timed(t.at, Clean) in ops
    ensures forall o :: o in ops && o.op.Clean? ==> TimedStep(o.at, CleanupDue) in steps
    ensures forall o :: o in ops && (o.op.Close? || o.op.Clear?) ==> exists t :: t in steps && t.step.Shutdown?
  {
    ops := MirroringOps(s, steps);
    hide Run, RunSteps;
  }

  lemma {:induction false} MirroringOps(s: System, steps: seq<TimedStep>) returns (ops: seq<Timed>)
    requires TimelySteps(steps, s.engine.clock)
    ensures Run(s.engine, ops) == RunSteps(s, steps).engine && Timely(ops, s.engine.clock)
    ensures RunSteps(s, steps).engine.clock == if steps == [] then s.engine.clock else steps[|steps| - 1].at
    ensures forall o :: o in ops ==> o.at <= RunSteps(s, steps).engine.clock
    ensures Mirrors(ops, steps)
  {
    if steps == [] {
      ops := [];
    } else {
      var before, last := steps[..|steps| - 1], steps[|steps| - 1];
      EarlierSteps(steps, s.engine.clock);
      RunStepsLast(s, steps);
      hide *;
      var earlier := MirroringOps(s, before);
      var mid := RunSteps(s, before);
      var more := NextOps(mid, last);
      RunConcat(s.engine, earlier, more);
      ops := earlier + more;
      TimelyConcat(earlier, more, s.engine.clock, mid.engine.clock, last.at);
      assert steps == before + [last];
      MirrorsJoin(earlier, more, before, last);
    }
  }

  lemma EarlierSteps(steps: seq<TimedStep>, clock: real)
    requires TimelySteps(steps, clock) && steps != []
    ensures TimelySteps(steps[..|steps| - 1], clock)
    ensures clock <= steps[|steps| - 1].at
    ensures |steps| > 1 ==> steps[|steps| - 2].at <= steps[|steps| - 1].at
  {
  }

  lemma RunStepsLast(s: System, steps: seq<TimedStep>)
    requires steps != []
    ensures RunSteps(s, steps) == Next(RunSteps(s, steps[..|steps| - 1]), steps[|steps| - 1])
  {
  }

  lemma TimelyConcat(a: seq<Timed>, b: seq<Timed>, clock: real, mid: real, at: real)
    requires Timely(a, clock) && clock <= mid <= at
    requires (forall o :: o in a ==> o.at <= mid) && (forall o :: o in b ==> o.at == at)
    ensures Timely(a + b, clock)
  {
  }

  // ---------------------------------------------------------------- invariant

  ghost predicate UniqueOids(hosts: seq<Host>) {
    forall i, j :: 0 <= i < j < |hosts| ==> hosts[i].oid != hosts[j].oid
  }

  ghost predicate SysInv(s: System) {
    && Inv(s.engine)
    && Dynamic.KeysDistinct(s.pending)
    && Dynamic.KeySet(s.pending) <= s.buffers.Keys
    && UniqueOids(s.hosts)
  }

  /** What a packet can do to buffers and waiting handlers: at most its own key is affected, and a
      handler is only added for a key that had no buffer. */
  lemma DeliverFrame(s: System, message: Datagram, sender: NetAddress, target: nat)
    ensures var s' := Deliver(s, message, sender, target).0;
            var key := BufferKey(sender, target);
            && s'.hosts == s.hosts && s'.replies == s.replies
            && (s'.buffers == s.buffers || s'.buffers == s.buffers[key := Dynamic.Buffered(s.buffers, key) + [message]])
            && (s'.pending == s.pending
                || (key !in s.buffers && key in s'.buffers
                    && s'.pending == s.pending + [Dynamic.Pending(sender, target)]))
  {
    hide RelayPacket, CreateRelay, BufferKey;
    assert [] + [message] == [message];
  }

  lemma {:induction false} FlushFrame(s: System, messages: seq<Datagram>, sender: NetAddress, target: nat)
    requires BufferKey(sender, target) in s.buffers
    ensures var s' := Flush(s, messages, sender, target).0;
            && s'.hosts == s.hosts && s'.replies == s.replies && s'.pending == s.pending
            && s'.buffers.Keys == s.buffers.Keys
            && (forall key :: key in s.buffers && key != BufferKey(sender, target) ==>
                  s'.buffers[key] == s.buffers[key])
            && s.buffers[BufferKey(sender, target)] <= s'.buffers[BufferKey(sender, target)]
    decreases |messages|
  {
    hide Deliver, BufferKey;
    if messages != [] {
      DeliverFrame(s, messages[0], sender, target);
      FlushFrame(Deliver(s, messages[0], sender, target).0, messages[1..], sender, target);
    }
  }

  /** Resuming one handler leaves every other buffer and handler alone; its own buffer is gone if
      the loop completed and kept otherwise. */
  lemma ResumeFrame(s: System, i: nat)
    requires Dynamic.KeysDistinct(s.pending) && Dynamic.KeySet(s.pending) <= s.buffers.Keys && i < |s.pending|
    ensures var s' := ResumeHandler(s, i);
            var p := s.pending[i];
            var completed := Flush(s.(pending := Without(s.pending, i)), s.buffers[p.Key()], p.sender, p.target).1;
            && s'.hosts == s.hosts && s'.replies == s.replies && s'.pending == Without(s.pending, i)
            && s'.buffers.Keys == (if completed then s.buffers.Keys - {p.Key()} else s.buffers.Keys)
            && (forall key :: key in s.buffers && key != p.Key() ==> s'.buffers[key] == s.buffers[key])
  {
    hide Flush, BufferKey;
    var p := s.pending[i];
    assert p.Key() in Dynamic.KeySet(s.pending);
    FlushFrame(s.(pending := Without(s.pending, i)), s.buffers[p.Key()], p.sender, p.target);
  }

  /** The same host, but for the relay last announced for it. */
  ghost predicate SameHost(h: Host, h': Host) {
    h'.oid == h.oid && h'.pid == h.pid && h'.socket == h.socket && h'.rinfo == h.rinfo
  }

  /** connect-relay changes announced relays and nothing else about hosts. */
  lemma ConnectHosts(s: System, socket: nat, oid: string)
    ensures var after := Connect(s, socket, oid).hosts;
            |after| == |s.hosts| && forall i :: 0 <= i < |after| ==> SameHost(s.hosts[i], after[i])
  {
    hide GetRelay, FindOid, FindSocket;
  }

  /** Registering an address changes one host, and only if it has none yet. */
  lemma RegisterHosts(s: System, pid: string, rinfo: NetAddress)
    ensures var after := Register(s, pid, rinfo).hosts;
            && |after| == |s.hosts|
            && (forall i :: 0 <= i < |after| ==> after[i].oid == s.hosts[i].oid)
            && (forall i :: 0 <= i < |after| && s.hosts[i].rinfo.Some? ==> SameHost(s.hosts[i], after[i]))
  {
    hide FindPid;
  }

  lemma RemoveHosts(hosts: seq<Host>, oid: string)
    requires UniqueOids(hosts)
    ensures UniqueOids(RemoveHost(hosts, oid))
    ensures forall h :: h in hosts && h.oid != oid ==> h in RemoveHost(hosts, oid)
  {
    hide FindOid;
    var i, after := FindOid(hosts, oid), RemoveHost(hosts, oid);
    if i < |hosts| {
      forall h | h in hosts && h.oid != oid
        ensures h in after
      {
        var k :| 0 <= k < |hosts| && hosts[k] == h;
        assert after[if k < i then k else k - 1] == h;
      }
    }
  }

  /** The hosts with other ids, in their order. */
  function Others(hosts: seq<Host>, oid: string): seq<Host> {
    if hosts == [] then []
    else (if hosts[0].oid == oid then [] else [hosts[0]]) + Others(hosts[1..], oid)
  }

  lemma {:induction false} NoneRemoved(hosts: seq<Host>, oid: string)
    requires forall h :: h in hosts ==> h.oid != oid
    ensures Others(hosts, oid) == hosts
  {
    if hosts != [] {
      NoneRemoved(hosts[1..], oid);
    }
  }

  lemma {:induction false} OthersMembers(hosts: seq<Host>, oid: string)
    ensures forall h :: h in Others(hosts, oid) <==> h in hosts && h.oid != oid
  {
    if hosts != [] {
      OthersMembers(hosts[1..], oid);
    }
  }

  /** Removing an id leaves exactly the hosts with other ids, in their order. */
  lemma RemoveExact(hosts: seq<Host>, oid: string)
    requires UniqueOids(hosts)
    ensures RemoveHost(hosts, oid) == Others(hosts, oid)
    ensures forall h :: h in RemoveHost(hosts, oid) <==> h in hosts && h.oid != oid
  {
    hide FindOid, Others;
    var i := FindOid(hosts, oid);
    OthersMembers(hosts, oid);
    if i < |hosts| {
      OneRemoved(hosts, i);
    } else {
      NoneRemoved(hosts, oid);
    }
  }

  lemma {:induction false} OneRemoved(hosts: seq<Host>, i: nat)
    requires UniqueOids(hosts) && i < |hosts|
    ensures Others(hosts, hosts[i].oid) == Without(hosts, i)
  {
    if i == 0 {
      NoneRemoved(hosts[1..], hosts[0].oid);
    } else {
      OneRemoved(hosts[1..], i - 1);
      assert Without(hosts, i) == [hosts[0]] + Without(hosts[1..], i - 1);
    }
  }

  lemma NotFound(hosts: seq<Host>, oid: string)
    ensures FindOid(hosts, oid) == |hosts| <==> forall h :: h in hosts ==> h.oid != oid
  {
    var i := FindOid(hosts, oid);
    if i < |hosts| {
      assert hosts[i] in hosts;
    }
    hide FindOid;
  }

  /** A step brings in no host with the id, unless it registers one. */
  lemma UnknownStep(s: System, step: Step, oid: string)
    requires SysInv(s) && FindOid(s.hosts, oid) == |s.hosts|
    requires step.RegisterHost? ==> step.oid != oid
    ensures FindOid(Act(s, step).hosts, oid) == |Act(s, step).hosts|
  {
    NotFound(s.hosts, oid);
    NotFound(Act(s, step).hosts, oid);
    match step {
      case Arrive(port, sender, message) => DeliverFrame(s, message, sender, port);
      case Resume(i) => if i < |s.pending| { FlushHosts(s, i); } else { NoHandler(s, i); }
      case Disconnect(other) => RemoveExact(s.hosts, other);
      case RegisterAddress(pid, rinfo) => RegisterHosts(s, pid, rinfo);
      case ConnectRelay(socket, other) => ConnectHosts(s, socket, other);
      case RegisterHost(_, _, _) =>
      case CleanupDue =>
      case Shutdown =>
    }
    hide Deliver, ResumeHandler, RemoveHost, Register, Connect, FindOid, Cleanup, Routing.Shutdown, Inv, BufferKey;
  }

  /** An id nobody has stays unknown until it is registered, and no command can name it until then. */
  lemma {:induction false} UnknownUntilRegistered(s: System, steps: seq<TimedStep>, oid: string)
    requires SysInv(s) && TimelySteps(steps, s.engine.clock) && FindOid(s.hosts, oid) == |s.hosts|
    requires forall t :: t in steps && t.step.RegisterHost? ==> t.step.oid != oid
    ensures var s' := RunSteps(s, steps);
            && FindOid(s'.hosts, oid) == |s'.hosts|
            && forall socket :: Connect(s', socket, oid) == s'.(replies := s'.replies + [CommandFailed(socket)])
  {
    if steps != [] {
      var before, last := steps[..|steps| - 1], steps[|steps| - 1];
      assert (forall t :: t in before ==> t in steps) && last in steps;
      UnknownUntilRegistered(s, before, oid);
      RunStepsKeep(s, before);
      var ops := RunStepsOps(s, before);
      var mid := RunSteps(s, before);
      AtKeeps(mid, last.at);
      UnknownStep(At(mid, last.at), last.step, oid);
    }
    hide SysInv, Act, FindOid, FindSocket, GetRelay, Run;
  }

  /** Once a host disconnects it is gone, and exactly it: the other hosts stay in their order, and until
      its id is registered again no command naming it succeeds. */
  lemma DisconnectedGone(s: System, at: real, oid: string, steps: seq<TimedStep>, socket: nat)
    requires SysInv(s) && s.engine.clock <= at && TimelySteps(steps, at)
    requires forall t :: t in steps && t.step.RegisterHost? ==> t.step.oid != oid
    ensures var after := Next(s, TimedStep(at, Disconnect(oid)));
            var later := RunSteps(after, steps);
            && after == At(s, at).(hosts := Others(s.hosts, oid))
            && (forall h :: h in later.hosts ==> h.oid != oid)
            && Connect(later, socket, oid) == later.(replies := later.replies + [CommandFailed(socket)])
  {
    var t := TimedStep(at, Disconnect(oid));
    var after := Next(s, t);
    RemoveExact(s.hosts, oid);
    NextKeeps(s, t);
    NotFound(after.hosts, oid);
    var ops := NextOps(s, t);
    hide RunSteps, FindOid, RemoveHost, Others, Connect, Inv, Run;
    UnknownUntilRegistered(after, steps, oid);
    NotFound(RunSteps(after, steps).hosts, oid);
  }

  /** What each step leaves alone: traffic the hosts and answers, cleanup and shutdown all but the engine,
      joining and leaving all but the hosts, the registrar all but hosts and answers, and a command the
      buffers and handlers. */
  lemma StepFrame(s: System, step: Step)
    ensures var s' := Act(s, step);
            match step
            case Arrive(_, _, _) => s'.hosts == s.hosts && s'.replies == s.replies
            case Resume(_) => s'.hosts == s.hosts && s'.replies == s.replies
            case RegisterHost(_, _, _) => s' == s.(hosts := s'.hosts)
            case Disconnect(_) => s' == s.(hosts := s'.hosts)
            case RegisterAddress(_, _) => s' == s.(hosts := s'.hosts, replies := s'.replies)
            case ConnectRelay(_, _) => s'.buffers == s.buffers && s'.pending == s.pending && s.replies <= s'.replies
            case CleanupDue => s' == s.(engine := s'.engine)
            case Shutdown => s' == s.(engine := s'.engine)
  {
    hide Deliver, ResumeHandler, GetRelay, FindOid, FindPid, FindSocket, AddHost, RemoveHost, Cleanup, Routing.Shutdown;
    match step {
      case Arrive(port, sender, message) => DeliverFrame(s, message, sender, port);
      case Resume(i) => if i < |s.pending| { FlushHosts(s, i); } else { NoHandler(s, i); }
      case _ =>
    }
  }

  lemma HostsKeep(s: System, step: Step)
    requires UniqueOids(s.hosts)
    ensures UniqueOids(Act(s, step).hosts)
  {
    hide ResumeHandler, Deliver, Connect, Register, RemoveHost, Cleanup, Routing.Shutdown, BufferKey;
    match step
    case Arrive(port, sender, message) => DeliverFrame(s, message, sender, port);
    case Resume(i) => if i < |s.pending| { FlushHosts(s, i); } else { NoHandler(s, i); }
    case Disconnect(oid) => RemoveHosts(s.hosts, oid);
    case RegisterAddress(pid, rinfo) => RegisterHosts(s, pid, rinfo);
    case ConnectRelay(socket, oid) => ConnectHosts(s, socket, oid);
    case _ =>
  }

  lemma FlushHosts(s: System, i: nat)
    requires i < |s.pending|
    ensures ResumeHandler(s, i).hosts == s.hosts && ResumeHandler(s, i).replies == s.replies
  {
    hide Flush, BufferKey;
    var p := s.pending[i];
    FlushOnlyHosts(s.(pending := Without(s.pending, i)), Dynamic.Buffered(s.buffers, p.Key()), p.sender, p.target);
  }

  lemma {:induction false} FlushOnlyHosts(s: System, messages: seq<Datagram>, sender: NetAddress, target: nat)
    ensures Flush(s, messages, sender, target).0.hosts == s.hosts
            && Flush(s, messages, sender, target).0.replies == s.replies
    decreases |messages|
  {
    hide Deliver, BufferKey;
    if messages != [] {
      DeliverFrame(s, messages[0], sender, target);
      FlushOnlyHosts(Deliver(s, messages[0], sender, target).0, messages[1..], sender, target);
    }
  }

  lemma BuffersKeep(s: System, step: Step)
    requires Dynamic.KeysDistinct(s.pending) && Dynamic.KeySet(s.pending) <= s.buffers.Keys
    ensures var s' := Act(s, step); Dynamic.KeysDistinct(s'.pending) && Dynamic.KeySet(s'.pending) <= s'.buffers.Keys
  {
    hide Flush, Deliver, GetRelay, Cleanup, Routing.Shutdown, BufferKey, Dynamic.KeySet, Dynamic.KeysDistinct,
         ResumeHandler;
    match step
    case Arrive(port, sender, message) =>
      DeliverFrame(s, message, sender, port);
      var key := BufferKey(sender, port);
      if key !in s.buffers {
        Dynamic.AddKey(s.pending, Dynamic.Pending(sender, port));
      }
    case Resume(i) =>
      if i < |s.pending| {
        ResumeFrame(s, i);
        Dynamic.RemoveKey(s.pending, i);
      } else {
        assert ResumeHandler(s, i) == s by { NoHandler(s, i); }
      }
    case _ =>
  }

  lemma NoHandler(s: System, i: nat)
    requires i >= |s.pending|
    ensures ResumeHandler(s, i) == s
  {
  }

  lemma NextKeeps(s: System, t: TimedStep)
    requires SysInv(s) && s.engine.clock <= t.at
    ensures SysInv(Next(s, t))
  {
    hide Inv, Act, UniqueOids, Dynamic.KeySet, Dynamic.KeysDistinct, Run;
    var ops := NextOps(s, t);
    RunKeeps(s.engine, ops) by {
      assert forall i :: 0 <= i < |ops| ==> ops[i] in ops;
    }
    BuffersKeep(At(s, t.at), t.step);
    HostsKeep(At(s, t.at), t.step);
  }

  /** In every reachable state the engine's invariants hold, buffers and handlers match up, and
      host identifiers are unique. */
  lemma {:induction false} RunStepsKeep(s: System, steps: seq<TimedStep>)
    requires SysInv(s) && TimelySteps(steps, s.engine.clock)
    ensures SysInv(RunSteps(s, steps))
  {
    hide SysInv, Next;
    if steps != [] {
      var before := steps[..|steps| - 1];
      RunStepsKeep(s, before);
      var ops := RunStepsOps(s, before);
      NextKeeps(RunSteps(s, before), steps[|steps| - 1]);
    }
  }

  lemma StartSysInv(config: Config, bound: seq<nat>, start: real)
    requires NoDuplicates(bound)
    ensures SysInv(StartSystem(config, bound, start))
  {
  }

  /** In particular after any run from start-up. */
  lemma Reachable(config: Config, bound: seq<nat>, start: real, steps: seq<TimedStep>)
    requires NoDuplicates(bound) && TimelySteps(steps, start)
    ensures SysInv(RunSteps(StartSystem(config, bound, start), steps))
  {
    StartSysInv(config, bound, start);
    RunStepsKeep(StartSystem(config, bound, start), steps);
  }

  // ---------------------------------------------- engine theorems, server-wide

  /** However the server is driven, all relays together send no more in any window of length `w`
      than `SlicesIn(w)` slices carry; a single relay keeps to its own bound and to its lifetime cap. */
  lemma ServerTraffic(config: Config, bound: seq<nat>, start: real, steps: seq<TimedStep>,
                      address: NetAddress, port: nat, a: real, w: real)
    requires config.interval > 0.0 && w >= 0.0
    requires NoDuplicates(bound) && TimelySteps(steps, start)
    ensures var trace := RunSteps(StartSystem(config, bound, start), steps).engine.trace;
            var slices := SlicesIn(w, config.interval) as real;
            && SentBytes(trace, a, a + w) as real
               <= Product(slices, SliceCap(Product(config.globalTraffic, config.interval)))
            && SentBytes(Current(trace, address, port), a, a + w) as real
               <= Product(slices, SliceCap(Product(config.individualTraffic, config.interval)))
            && (Current(trace, address, port) != [] ==>
                  TotalBytes(Current(trace, address, port)) as real < config.lifetimeTraffic)
  {
    hide Product, SlicesIn, Run, RunSteps;
    var ops := RunStepsOps(StartSystem(config, bound, start), steps);
    GlobalTrafficBound(config, bound, start, ops, a, w);
    RelayTrafficBound(config, bound, start, ops, address, port, a, w);
  }

  /** If the server's latest cleanup is at most `c` old, an address that has been inactive for the
      timeout plus `c` has no relay. */
  lemma ServerReclaims(config: Config, bound: seq<nat>, start: real, steps: seq<TimedStep>, k: nat, c: real,
                       address: NetAddress)
    requires NoDuplicates(bound) && 0.0 <= start && TimelySteps(steps, start) && config.timeout > 0.0
    requires k < |steps| && steps[k].step.CleanupDue?
    requires var e := RunSteps(StartSystem(config, bound, start), steps).engine;
             e.clock - c <= steps[k].at && LastActivity(e.trace, address) + config.timeout + c <= e.clock
    ensures !Has(RunSteps(StartSystem(config, bound, start), steps).engine.table, address)
  {
    hide Run, RunSteps, LastActivity;
    var ops := RunStepsOps(StartSystem(config, bound, start), steps);
    assert steps[k] in steps;
    var j :| 0 <= j < |ops| && ops[j] == Timed(steps[k].at, Clean);
    ReclamationDeadline(config, bound, start, ops, j, c, address);
  }

  /** However the server is driven, a relay that is too old or over its lifetime traffic sends nothing
      until it is destroyed. */
  lemma ServerBlocks(s: System, steps: seq<TimedStep>, r: Relay)
    requires SysInv(s) && TimelySteps(steps, s.engine.clock) && Blocked(s.engine, r)
    ensures var s' := RunSteps(s, steps); Extends(s.engine, s'.engine) && StaysBlocked(s.engine, s'.engine, r)
  {
    hide Run, RunSteps, Inv;
    var ops := RunStepsOps(s, steps);
    PermanentBlock(s.engine, ops, r);
  }

  /** In every reachable state of the server the counters cover what was sent in their slices. */
  lemma ServerCounters(config: Config, bound: seq<nat>, start: real, steps: seq<TimedStep>, address: NetAddress,
                       port: nat)
    requires config.interval > 0.0
    requires NoDuplicates(bound) && TimelySteps(steps, start)
    ensures var e := RunSteps(StartSystem(config, bound, start), steps).engine;
            var id := RelayId(address, port);
            && CounterCovers(e.ledgers.global, e.trace)
            && (if id in e.ledgers.individual
                then CounterCovers(e.ledgers.individual[id], Current(e.trace, address, port))
                else Current(e.trace, address, port) == [])
  {
    hide Run, RunSteps, CounterCovers, RelayId;
    var ops := RunStepsOps(StartSystem(config, bound, start), steps);
    CountersCoverSlices(config, bound, start, ops, address, port);
  }

  /** Whenever the server cleans up, the address has been active within the timeout. */
  ghost predicate BusyAtCleanups(s: System, steps: seq<TimedStep>, address: NetAddress) {
    forall k :: 0 <= k < |steps| && steps[k].step.CleanupDue? ==>
      LastActivity(RunSteps(s, steps[..k]).engine.trace, address) > steps[k].at - s.engine.config.timeout
  }

  lemma BusyEarlier(s: System, steps: seq<TimedStep>, address: NetAddress)
    requires BusyAtCleanups(s, steps, address) && steps != []
    ensures BusyAtCleanups(s, steps[..|steps| - 1], address)
  {
    hide RunSteps, LastActivity;
    var before := steps[..|steps| - 1];
    assert forall k :: 0 <= k < |before| ==> before[..k] == steps[..k];
  }

  lemma LastCleanup(s: System, steps: seq<TimedStep>, address: NetAddress)
    requires BusyAtCleanups(s, steps, address) && steps != []
    ensures var last := steps[|steps| - 1];
            last.step.CleanupDue? ==>
              LastActivity(RunSteps(s, steps[..|steps| - 1]).engine.trace, address) > last.at - s.engine.config.timeout
  {
    hide RunSteps, LastActivity;
  }

  /** One step of the server does not destroy a relay that is busy enough. */
  lemma BusyNext(s: System, t: TimedStep, r: Relay)
    requires SysInv(s) && Honest(s.engine) && s.engine.clock <= t.at && r in s.engine.table && !t.step.Shutdown?
    requires t.step.CleanupDue? ==> r.LastTraffic() > t.at - s.engine.config.timeout
    ensures Unbroken(s.engine, Next(s, t).engine, r)
  {
    if t.step.CleanupDue? {
      var clean := Timed(t.at, Clean);
      assert Next(s, t).engine == Apply(s.engine, clean);
      hide Apply, Next, Inv;
      BusyStep(s.engine, clean, r);
      RouteStep(s.engine, clean, r);
    } else {
      hide Apply, Next, Inv, Run, Honest;
      var ops := NextOps(s, t);
      assert forall i :: 0 <= i < |ops| ==> ops[i] in ops;
      BusySurvives(s.engine, ops, r);
    }
  }

  /** The route of `r` is in the table of `e'` and was never announced as destroyed in between. */
  ghost predicate Unbroken(e: Engine, e': Engine, r: Relay) {
    && Extends(e, e') && Destroyed(r.address, r.port) !in News(e, e')
    && exists r' :: r' in e'.table && Carried(r, r')
  }

  lemma UnbrokenChain(e: Engine, m: Engine, e': Engine, r: Relay, r1: Relay)
    requires Unbroken(e, m, r) && Carried(r, r1) && Unbroken(m, e', r1)
    ensures Unbroken(e, e', r)
  {
    var r2 :| r2 in e'.table && Carried(r1, r2);
    assert Carried(r, r2);
    assert News(e, e') == News(e, m) + News(m, e');
  }

  /** A relay whose address is active within the timeout of every cleanup of the server keeps its
      port until shutdown. */
  lemma {:induction false} ServerKeepsBusy(s: System, steps: seq<TimedStep>, r: Relay)
    requires SysInv(s) && Honest(s.engine) && TimelySteps(steps, s.engine.clock) && r in s.engine.table
    requires (forall t :: t in steps ==> !t.step.Shutdown?) && BusyAtCleanups(s, steps, r.address)
    ensures Unbroken(s.engine, RunSteps(s, steps).engine, r)
  {
    if steps == [] {
      assert Carried(r, r);
    } else {
      var before, last := steps[..|steps| - 1], steps[|steps| - 1];
      assert (forall t :: t in before ==> t in steps) && last in steps;
      BusyEarlier(s, steps, r.address);
      EarlierSteps(steps, s.engine.clock);
      RunStepsLast(s, steps);
      LastCleanup(s, steps, r.address);
      hide RunSteps, Run, Next, SysInv, Honest, TimelySteps, LastActivity, BusyAtCleanups, Extends, News;
      ServerKeepsBusy(s, before, r);
      RunStepsKeep(s, before);
      var ops := RunStepsOps(s, before);
      var mid := RunSteps(s, before);
      StillHonest(s, ops);
      var r1 :| r1 in mid.engine.table && Carried(r, r1);
      HonestEntry(mid.engine, r1);
      BusyNext(mid, last, r1);
      UnbrokenChain(s.engine, mid.engine, Next(mid, last).engine, r, r1);
    }
  }

  lemma StillHonest(s: System, ops: seq<Timed>)
    requires SysInv(s) && Honest(s.engine) && Timely(ops, s.engine.clock)
    ensures Honest(Run(s.engine, ops)) && Run(s.engine, ops).config == s.engine.config
  {
    hide Inv, Run;
    HonestRun(s.engine, ops);
  }

  /** A dropped packet makes dynamic relaying take a port: its sender has no relay and its target has
      one, nothing is buffered for it yet, and a port is free. */
  ghost predicate Strands(s: System, step: Step) {
    && step.Arrive? && step.port in s.engine.pool.listening
    && !Has(s.engine.table, step.sender) && (exists b :: Holds(s.engine, b, step.port))
    && BufferKey(step.sender, step.port) !in s.buffers
    && |s.engine.pool.free| >= 1
  }

  ghost function StrandCount(s: System, steps: seq<TimedStep>): nat {
    if steps == [] then 0
    else
      StrandCount(s, steps[..|steps| - 1])
      + if Strands(RunSteps(s, steps[..|steps| - 1]), steps[|steps| - 1].step) then 1 else 0
  }

  /** A packet is dropped for dynamic relaying to handle if and only if its sender has no relay and
      its target has one. */
  lemma Dropping(e: Engine, sender: NetAddress, target: nat, message: Datagram)
    requires Inv(e)
    ensures RelayPacket(e, message, sender, target).1 == Dropped(false, true) <==>
              !Has(e.table, sender) && exists b :: Holds(e, b, target)
  {
    SentIff(e, message, sender, target);
    hide RelayPacket, Inv, Has, AllAccept;
    if exists d :: d in e.table && d.port == target {
      var d :| d in e.table && d.port == target;
      assert Holds(e, d.address, target);
    }
  }

  lemma PacketPool(e: Engine, message: Datagram, sender: NetAddress, target: nat)
    ensures var (e', outcome) := RelayPacket(e, message, sender, target);
            e'.pool == e.pool && (outcome.Dropped? || outcome.NoSocket? ==> e' == e)
  {
    hide Vet, Touch, IndexOf, IndexOfPort;
  }

  lemma CreateStrandsNone(e: Engine, address: NetAddress)
    ensures CreateRelay(e, address).0.pool.stranded == e.pool.stranded
  {
    hide IndexOf;
  }

  lemma DeliverStrands(s: System, message: Datagram, sender: NetAddress, target: nat)
    requires Inv(s.engine)
    ensures var pool := s.engine.pool;
            Deliver(s, message, sender, target).0.engine.pool.stranded
            == pool.stranded + if !Has(s.engine.table, sender) && (exists b :: Holds(s.engine, b, target))
                                  && BufferKey(sender, target) !in s.buffers && |pool.free| >= 1
                               then {pool.free[|pool.free| - 1]} else {}
  {
    Dropping(s.engine, sender, target, message);
    PacketPool(s.engine, message, sender, target);
    hide Inv, RelayPacket, CreateRelay, BufferKey, Has, Holds;
    CreateStrandsNone(s.engine.(pool := StrandPort(s.engine.pool)), sender);
  }

  /** Handing buffered messages over strands nothing: their key has a buffer. */
  lemma {:induction false} FlushStrandsNone(s: System, messages: seq<Datagram>, sender: NetAddress, target: nat)
    requires BufferKey(sender, target) in s.buffers
    ensures Flush(s, messages, sender, target).0.engine.pool == s.engine.pool
    decreases |messages|
  {
    if messages != [] {
      PacketPool(s.engine, messages[0], sender, target);
      hide RelayPacket, CreateRelay, BufferKey, StrandPort;
      FlushStrandsNone(Deliver(s, messages[0], sender, target).0, messages[1..], sender, target);
    }
  }

  lemma ResumeStrandsNone(s: System, i: nat)
    requires Dynamic.KeySet(s.pending) <= s.buffers.Keys
    ensures ResumeHandler(s, i).engine.pool == s.engine.pool
  {
    hide Flush, BufferKey;
    if i < |s.pending| {
      var p := s.pending[i];
      assert p.Key() in Dynamic.KeySet(s.pending);
      FlushStrandsNone(s.(pending := Without(s.pending, i)), s.buffers[p.Key()], p.sender, p.target);
    }
  }

  lemma ConnectStrandsNone(s: System, socket: nat, oid: string)
    ensures Connect(s, socket, oid).engine.pool.stranded == s.engine.pool.stranded
  {
    hide CreateRelay, FindOid, FindSocket;
    forall e: Engine, a ensures CreateRelay(e, a).0.pool.stranded == e.pool.stranded {
      CreateStrandsNone(e, a);
    }
  }

  lemma ActStrands(s: System, step: Step)
    requires SysInv(s) && !step.Shutdown?
    ensures var pool := s.engine.pool;
            && Act(s, step).engine.pool.stranded
               == pool.stranded + (if Strands(s, step) then {pool.free[|pool.free| - 1]} else {})
            && (Strands(s, step) ==> pool.free[|pool.free| - 1] !in pool.stranded)
  {
    if Strands(s, step) {
      StrandLeaks(s.engine);
    }
    match step {
      case Arrive(port, sender, message) => DeliverStrands(s, message, sender, port);
      case Resume(i) => ResumeStrandsNone(s, i);
      case ConnectRelay(socket, oid) => ConnectStrandsNone(s, socket, oid);
      case CleanupDue => CleanupExact(s.engine);
      case RegisterHost(_, _, _) =>
      case Disconnect(_) =>
      case RegisterAddress(_, _) =>
    }
    hide Deliver, ResumeHandler, Connect, Cleanup, Inv, BufferKey, Has, Holds, FindPid, AddHost, RemoveHost;
  }

  lemma {:induction false} StrandGrowth(s: System, steps: seq<TimedStep>)
    requires SysInv(s) && TimelySteps(steps, s.engine.clock)
    requires forall t :: t in steps ==> !t.step.Shutdown?
    ensures var before, after := s.engine.pool.stranded, RunSteps(s, steps).engine.pool.stranded;
            before <= after && |after| == |before| + StrandCount(s, steps)
            && (after == before <==> StrandCount(s, steps) == 0)
  {
    hide SysInv, Act, Strands, Run;
    if steps != [] {
      var init, last := steps[..|steps| - 1], steps[|steps| - 1];
      assert (forall t :: t in init ==> t in steps) && last in steps;
      StrandGrowth(s, init);
      RunStepsKeep(s, init);
      var ops := RunStepsOps(s, init);
      var mid := RunSteps(s, init);
      AtKeeps(mid, last.at);
      ActStrands(At(mid, last.at), last.step);
      SameStrands(mid, last.at, last.step);
    }
  }

  lemma {:induction false} NoStrands(s: System, steps: seq<TimedStep>)
    ensures StrandCount(s, steps) == 0
            <==> forall k :: 0 <= k < |steps| ==> !Strands(RunSteps(s, steps[..k]), steps[k].step)
  {
    hide RunSteps, Strands;
    if steps != [] {
      var init, last := steps[..|steps| - 1], steps[|steps| - 1];
      NoStrands(s, init);
      forall k | 0 <= k < |init|
        ensures Strands(RunSteps(s, init[..k]), init[k].step) == Strands(RunSteps(s, steps[..k]), steps[k].step)
      {
        assert init[..k] == steps[..k];
      }
    }
  }

  /** The port a dynamic relay was first given is lost for good: until shutdown the stranded ports
      only grow, by one port for every step that makes dynamic relaying take one. */
  lemma StrandedForGood(s: System, steps: seq<TimedStep>)
    requires SysInv(s) && TimelySteps(steps, s.engine.clock)
    requires forall t :: t in steps ==> !t.step.Shutdown?
    ensures var before, after := s.engine.pool.stranded, RunSteps(s, steps).engine.pool.stranded;
            && before <= after
            && |after| == |before| + StrandCount(s, steps)
            && (after == before <==> forall k :: 0 <= k < |steps| ==> !Strands(RunSteps(s, steps[..k]), steps[k].step))
  {
    StrandGrowth(s, steps);
    NoStrands(s, steps);
    hide *;
  }

  lemma AtKeeps(s: System, at: real)
    requires SysInv(s) && s.engine.clock <= at
    ensures SysInv(At(s, at))
  {
    TickKeeps(s.engine, at);
  }

  lemma SameStrands(s: System, at: real, step: Step)
    ensures Strands(At(s, at), step) == Strands(s, step)
  {
    hide BufferKey, Has;
    assert forall b, p :: Holds(At(s, at).engine, b, p) == Holds(s.engine, b, p);
  }

  /** Until shutdown, every bound port is free, in the table, or stranded by dynamic relaying, and
      the counts add up; as many are stranded as steps made dynamic relaying take one. */
  lemma ServerPorts(config: Config, bound: seq<nat>, start: real, steps: seq<TimedStep>)
    requires NoDuplicates(bound) && TimelySteps(steps, start)
    requires forall t :: t in steps ==> !t.step.Shutdown?
    ensures var e := RunSteps(StartSystem(config, bound, start), steps).engine;
            && NoDuplicates(e.pool.free)
            && Elements(bound) == Elements(e.pool.free) + PortSet(e.table) + e.pool.stranded
            && |bound| == |e.pool.free| + |e.table| + |e.pool.stranded|
    ensures var s := StartSystem(config, bound, start);
            var stranded := RunSteps(s, steps).engine.pool.stranded;
            && |stranded| == StrandCount(s, steps)
            && (stranded == {} <==> forall k :: 0 <= k < |steps| ==> !Strands(RunSteps(s, steps[..k]), steps[k].step))
  {
    StartSysInv(config, bound, start);
    StrandedForGood(StartSystem(config, bound, start), steps);
    hide Run, RunSteps, SysInv, Strands, StrandCount;
    var ops := RunStepsOps(StartSystem(config, bound, start), steps);
    assert forall i :: 0 <= i < |ops| ==> ops[i] in ops;
    PortsAccounted(config, bound, start, ops);
  }

  // ------------------------------------------------------------ later states

  /** A route of a reachable state is still there after any further steps, unless its destruction
      was announced. */
  lemma RouteKept(s: System, steps: seq<TimedStep>, address: NetAddress, port: nat)
    requires SysInv(s) && TimelySteps(steps, s.engine.clock) && Holds(s.engine, address, port)
    ensures var s' := RunSteps(s, steps);
            && SysInv(s') && Extends(s.engine, s'.engine)
            && (Destroyed(address, port) !in News(s.engine, s'.engine) ==> Holds(s'.engine, address, port))
  {
    RunStepsKeep(s, steps);
    var ops := RunStepsOps(s, steps);
    var r :| r in s.engine.table && r.address == address && r.port == port;
    hide Run, RunSteps, Inv;
    RouteRun(s.engine, ops, r);
  }
}
