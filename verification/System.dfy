/** The whole server: relay engine, dynamic relaying, registered hosts and the connect-relay
    command, as one step function over events of the outside world. */
module System {
  import opened Addresses
  import opened Engine
  import opened Invariants
  import opened Routing
  import Dynamic

  // ------------------------------------------------------------------- data

  datatype Host = Host(oid: string, pid: string, socket: nat, rinfo: Option<NetAddress>, relay: Option<nat>)

  /** Answers: a relay port or a failure over TCP, the registrar's answer over UDP. */
  datatype Reply =
    | RelayPort(socket: nat, port: nat)
    | CommandFailed(socket: nat)
    | Registered(to: NetAddress)
    | UnknownPid(to: NetAddress)

  /** `hosts` is the repository in insertion order. */
  datatype System = System(
    engine: Engine,
    buffers: map<string, seq<Datagram>>, pending: seq<Dynamic.Pending>,
    hosts: seq<Host>, replies: seq<Reply>)

  datatype Step =
    | Arrive(port: nat, sender: NetAddress, message: Datagram)
    | Resume(index: nat)
    | RegisterHost(oid: string, pid: string, socket: nat)
    | Disconnect(oid: string)
    | RegisterAddress(pid: string, rinfo: NetAddress)
    | ConnectRelay(socket: nat, oid: string)
    | CleanupDue
    | Shutdown

  datatype TimedStep = TimedStep(at: real, step: Step)

  // -------------------------------------------------------- dynamic relaying

  /** `#handle` up to its `await`: what a dropped packet sets off. Taking a port, and creating the
      relay, may each fail for want of a free port; the buffer entry is made before either. */
  function HandleDrop(s: System, senderKnown: bool, targetKnown: bool, sender: NetAddress, target: nat,
                      message: Datagram): System {
    var key := BufferKey(sender, target);
    if senderKnown || !targetKnown then s
    else if key in s.buffers then s.(buffers := s.buffers[key := s.buffers[key] + [message]])
    else
      var s1 := s.(buffers := s.buffers[key := [message]]);
      if s.engine.pool.free == [] then s1
      else
        var taken := s.engine.(pool := StrandPort(s.engine.pool));
        var (created, port) := CreateRelay(taken, sender);
        if port.None? then s1.(engine := created)
        else s1.(engine := created, pending := s.pending + [Dynamic.Pending(sender, target)])
  }

  /** `relay` with its `drop` listener. */
  function Deliver(s: System, message: Datagram, sender: NetAddress, target: nat): (System, Outcome) {
    var (engine, outcome) := RelayPacket(s.engine, message, sender, target);
    var s1 := s.(engine := engine);
    match outcome
    case Dropped(senderKnown, targetKnown) =>
      (HandleDrop(s1, senderKnown, targetKnown, sender, target, message), outcome)
    case _ => (s1, outcome)
  }

  /** Handing buffered messages over; a rejection throws and ends the loop. */
  function Flush(s: System, messages: seq<Datagram>, sender: NetAddress, target: nat): (System, bool)
    decreases |messages|
  {
    if messages == [] then (s, true)
    else
      var (s1, outcome) := Deliver(s, messages[0], sender, target);
      if outcome == Rejected then (s1, false) else Flush(s1, messages[1..], sender, target)
  }

  /** `#handle` after its `await`. */
  function ResumeHandler(s: System, i: nat): System {
    if i >= |s.pending| then s
    else
      var p := s.pending[i];
      var s1 := s.(pending := Without(s.pending, i));
      var (s2, completed) := Flush(s1, Dynamic.Buffered(s.buffers, p.Key()), p.sender, p.target);
      if completed then s2.(buffers := s2.buffers - {p.Key()}) else s2
  }

  // ------------------------------------------------------- hosts and commands

  function FindOid(hosts: seq<Host>, oid: string): (i: nat)
    ensures i <= |hosts|
    ensures i < |hosts| ==> hosts[i].oid == oid
    ensures forall j :: 0 <= j < i ==> hosts[j].oid != oid
  {
    First(hosts, (h: Host) => h.oid == oid)
  }

  function FindPid(hosts: seq<Host>, pid: string): (i: nat)
    ensures i <= |hosts|
    ensures i < |hosts| ==> hosts[i].pid == pid
    ensures forall j :: 0 <= j < i ==> hosts[j].pid != pid
  {
    First(hosts, (h: Host) => h.pid == pid)
  }

  function FindSocket(hosts: seq<Host>, socket: nat): (i: nat)
    ensures i <= |hosts|
    ensures i < |hosts| ==> hosts[i].socket == socket
    ensures forall j :: 0 <= j < i ==> hosts[j].socket != socket
  {
    First(hosts, (h: Host) => h.socket == socket)
  }

  /** `Repository.add`: refuses an identifier in use. */
  function AddHost(hosts: seq<Host>, host: Host): seq<Host> {
    if FindOid(hosts, host.oid) < |hosts| then hosts else hosts + [host]
  }

  function RemoveHost(hosts: seq<Host>, oid: string): seq<Host> {
    var i := FindOid(hosts, oid);
    if i < |hosts| then Without(hosts, i) else hosts
  }

  /** The registrar: the first address a host reports is the one it keeps. */
  function Register(s: System, pid: string, rinfo: NetAddress): System {
    var i := FindPid(s.hosts, pid);
    if i == |s.hosts| then s.(replies := s.replies + [UnknownPid(rinfo)])
    else
      s.(hosts := if s.hosts[i].rinfo.Some? then s.hosts else s.hosts[i := s.hosts[i].(rinfo := Some(rinfo))],
         replies := s.replies + [Registered(rinfo)])
  }

  /** `getRelay`: fails when the party has no registered address or no port is free. */
  function GetRelay(e: Engine, rinfo: Option<NetAddress>): (Engine, Option<nat>) {
    match rinfo
    case None => (e, None)
    case Some(address) => CreateRelay(e, address)
  }

  /** `connect-relay`. A failure part-way keeps the host's relay. */
  function Connect(s: System, socket: nat, oid: string): System {
    var h, c := FindOid(s.hosts, oid), FindSocket(s.hosts, socket);
    var failed := s.(replies := s.replies + [CommandFailed(socket)]);
    if h == |s.hosts| || c == |s.hosts| then failed
    else
      var (e1, hostRelay) := GetRelay(s.engine, s.hosts[h].rinfo);
      if hostRelay.None? then failed.(engine := e1)
      else
        var hosts1 := s.hosts[h := s.hosts[h].(relay := hostRelay)];
        var (e2, clientRelay) := GetRelay(e1, hosts1[c].rinfo);
        if clientRelay.None? then failed.(engine := e2, hosts := hosts1)
        else
          s.(engine := e2,
             hosts := hosts1[c := hosts1[c].(relay := clientRelay)],
             replies := s.replies
                        + [RelayPort(socket, hostRelay.value), RelayPort(s.hosts[h].socket, clientRelay.value)])
  }

  // -------------------------------------------------------------------- runs

  function Act(s: System, step: Step): System {
    match step
    case Arrive(port, sender, message) =>
      if port in s.engine.pool.listening then Deliver(s, message, sender, port).0 else s
    case Resume(i) => ResumeHandler(s, i)
    case RegisterHost(oid, pid, socket) => s.(hosts := AddHost(s.hosts, Host(oid, pid, socket, None, None)))
    case Disconnect(oid) => s.(hosts := RemoveHost(s.hosts, oid))
    case RegisterAddress(pid, rinfo) => Register(s, pid, rinfo)
    case ConnectRelay(socket, oid) => Connect(s, socket, oid)
    case CleanupDue => s.(engine := Cleanup(s.engine))
    case Shutdown => s.(engine := Routing.Shutdown(s.engine, true))
  }

  function At(s: System, at: real): System {
    s.(engine := s.engine.(clock := at))
  }

  function Next(s: System, t: TimedStep): System {
    Act(At(s, t.at), t.step)
  }

  function RunSteps(s: System, steps: seq<TimedStep>): System {
    if steps == [] then s else Next(RunSteps(s, steps[..|steps| - 1]), steps[|steps| - 1])
  }

  ghost predicate TimelySteps(steps: seq<TimedStep>, clock: real) {
    && (forall i :: 0 <= i < |steps| ==> clock <= steps[i].at)
    && (forall i, j :: 0 <= i < j < |steps| ==> steps[i].at <= steps[j].at)
  }

  function StartSystem(config: Config, bound: seq<nat>, now: real): System {
    System(Start(config, bound, now), map[], [], [], [])
  }

  // ----------------------------------------------- steps are engine operations

  /** `e'` is reached from `e` by operations of the engine, all at the instant `e.clock`. */
  ghost predicate ByOps(e: Engine, e': Engine, ops: seq<Timed>) {
    && Run(e, ops) == e'
    && (forall t :: t in ops ==> t.at == e.clock)
    && e'.clock == e.clock
  }

  /** The operations neither clean, nor clear, nor close. */
  ghost predicate Gentle(ops: seq<Timed>) {
    forall t :: t in ops ==> t.op.Create? || t.op.Strand? || t.op.Packet?
  }

  lemma NoOps(e: Engine)
    ensures ByOps(e, e, [])
  {
  }

  lemma OneOp(e: Engine, op: Op)
    ensures ByOps(e, Apply(e, Timed(e.clock, op)), [Timed(e.clock, op)])
  {
    var ops := [Timed(e.clock, op)];
    ApplyClock(e, ops[0]);
    hide Apply;
    assert ops[..0] == [];
    assert Run(e, ops[..0]) == e;
  }

  lemma ChainOps(e: Engine, m: Engine, e': Engine, a: seq<Timed>, b: seq<Timed>)
    requires ByOps(e, m, a) && ByOps(m, e', b)
    ensures ByOps(e, e', a + b)
  {
    hide Run;
    RunConcat(e, a, b);
  }

  lemma CreateOp(e: Engine, address: NetAddress)
    ensures Apply(e, Timed(e.clock, Create(address))) == CreateRelay(e, address).0
  {
  }

  lemma PacketOp(e: Engine, message: Datagram, sender: NetAddress, target: nat)
    ensures Apply(e, Timed(e.clock, Packet(message, sender, target))) == RelayPacket(e, message, sender, target).0
  {
  }

  lemma DropOps(s: System, senderKnown: bool, targetKnown: bool, sender: NetAddress, target: nat,
                message: Datagram)
    returns (ops: seq<Timed>)
    ensures ByOps(s.engine, HandleDrop(s, senderKnown, targetKnown, sender, target, message).engine, ops) && Gentle(ops)
  {
    hide Apply, CreateRelay, BufferKey, Run;
    var e := s.engine;
    if senderKnown || !targetKnown || BufferKey(sender, target) in s.buffers || e.pool.free == [] {
      NoOps(e);
      ops := [];
    } else {
      var taken := e.(pool := StrandPort(e.pool));
      StrandOp(e);
      OneOp(e, Strand);
      CreateOp(taken, sender);
      OneOp(taken, Create(sender));
      ops := [Timed(e.clock, Strand)] + [Timed(e.clock, Create(sender))];
      ChainOps(e, taken, CreateRelay(taken, sender).0, [Timed(e.clock, Strand)], [Timed(e.clock, Create(sender))]);
    }
  }

  lemma StrandOp(e: Engine)
    ensures Apply(e, Timed(e.clock, Strand)) == e.(pool := StrandPort(e.pool))
  {
  }

  lemma DeliverOps(s: System, message: Datagram, sender: NetAddress, target: nat) returns (ops: seq<Timed>)
    ensures ByOps(s.engine, Deliver(s, message, sender, target).0.engine, ops) && Gentle(ops)
  {
    hide Apply, RelayPacket, HandleDrop, Run;
    var (engine, outcome) := RelayPacket(s.engine, message, sender, target);
    PacketOp(s.engine, message, sender, target);
    OneOp(s.engine, Packet(message, sender, target));
    ops := [Timed(s.engine.clock, Packet(message, sender, target))];
    if outcome.Dropped? {
      var more := DropOps(s.(engine := engine), outcome.senderKnown, outcome.targetKnown, sender, target, message);
      ChainOps(s.engine, engine, Deliver(s, message, sender, target).0.engine, ops, more);
      ops := ops + more;
    }
  }

  lemma {:induction false} FlushOps(s: System, messages: seq<Datagram>, sender: NetAddress, target: nat)
    returns (ops: seq<Timed>)
    ensures ByOps(s.engine, Flush(s, messages, sender, target).0.engine, ops) && Gentle(ops)
    decreases |messages|
  {
    hide Deliver, Run;
    if messages == [] {
      NoOps(s.engine);
      ops := [];
    } else {
      var (s1, outcome) := Deliver(s, messages[0], sender, target);
      ops := DeliverOps(s, messages[0], sender, target);
      if outcome != Rejected {
        var more := FlushOps(s1, messages[1..], sender, target);
        ChainOps(s.engine, s1.engine, Flush(s, messages, sender, target).0.engine, ops, more);
        ops := ops + more;
      }
    }
  }

  lemma GetRelayOps(e: Engine, rinfo: Option<NetAddress>) returns (ops: seq<Timed>)
    ensures ByOps(e, GetRelay(e, rinfo).0, ops) && Gentle(ops)
  {
    hide Apply, CreateRelay, Run;
    match rinfo
    case None =>
      NoOps(e);
      ops := [];
    case Some(address) =>
      CreateOp(e, address);
      OneOp(e, Create(address));
      ops := [Timed(e.clock, Create(address))];
  }

  lemma ConnectOps(s: System, socket: nat, oid: string) returns (ops: seq<Timed>)
    ensures ByOps(s.engine, Connect(s, socket, oid).engine, ops) && Gentle(ops)
  {
    hide Apply, GetRelay, Run;
    var h, c := FindOid(s.hosts, oid), FindSocket(s.hosts, socket);
    if h == |s.hosts| || c == |s.hosts| {
      NoOps(s.engine);
      ops := [];
    } else {
      ops := GetRelayOps(s.engine, s.hosts[h].rinfo);
      var (e1, hostRelay) := GetRelay(s.engine, s.hosts[h].rinfo);
      if hostRelay.Some? {
        var hosts1 := s.hosts[h := s.hosts[h].(relay := hostRelay)];
        var more := GetRelayOps(e1, hosts1[c].rinfo);
        ChainOps(s.engine, e1, GetRelay(e1, hosts1[c].rinfo).0, ops, more);
        ops := ops + more;
      }
    }
  }

  lemma CleanOp(e: Engine)
    ensures Apply(e, Timed(e.clock, Clean)) == Cleanup(e)
  {
  }

  lemma ShutdownOps(e: Engine) returns (ops: seq<Timed>)
    ensures ByOps(e, Routing.Shutdown(e, true), ops)
    ensures forall t :: t in ops ==> !t.op.Clean?
  {
    var closed := e.(pool := ClosePool(e.pool));
    assert e.(clock := e.clock) == e && closed.(clock := closed.clock) == closed;
    assert Apply(e, Timed(e.clock, Close)) == closed;
    assert Apply(closed, Timed(e.clock, Clear)) == ClearTable(closed);
    hide Apply, ClearTable, Run;
    OneOp(e, Close);
    OneOp(closed, Clear);
    ops := [Timed(e.clock, Close)] + [Timed(e.clock, Clear)];
    ChainOps(e, closed, Routing.Shutdown(e, true), [Timed(e.clock, Close)], [Timed(e.clock, Clear)]);
  }

  /** Every step of the server is a sequence of engine operations at one instant. */
  lemma ActOps(s: System, step: Step) returns (ops: seq<Timed>)
    ensures ByOps(s.engine, Act(s, step).engine, ops)
    ensures !step.CleanupDue? && !step.Shutdown? ==> Gentle(ops)
    ensures step.CleanupDue? ==> ops == [Timed(s.engine.clock, Clean)]
    ensures forall t :: t in ops && t.op.Clean? ==> step.CleanupDue?
  {
    hide Apply, Deliver, Flush, Connect, Cleanup, Routing.Shutdown, Run;
    NoOps(s.engine);
    ops := [];
    match step
    case Arrive(port, sender, message) =>
      if port in s.engine.pool.listening {
        ops := DeliverOps(s, message, sender, port);
      }
    case Resume(i) =>
      if i < |s.pending| {
        var p := s.pending[i];
        ops := FlushOps(s.(pending := Without(s.pending, i)), Dynamic.Buffered(s.buffers, p.Key()), p.sender, p.target);
      }
    case RegisterHost(_, _, _) =>
    case Disconnect(_) =>
    case RegisterAddress(_, _) =>
    case ConnectRelay(socket, oid) => ops := ConnectOps(s, socket, oid);
    case CleanupDue =>
      CleanOp(s.engine);
      OneOp(s.engine, Clean);
      ops := [Timed(s.engine.clock, Clean)];
    case Shutdown => ops := ShutdownOps(s.engine);
  }
}
