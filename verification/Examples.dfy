/** Concrete runs from start-up in which ports are lost, a buffer gets stuck, and a port that was
    announced for one host ends up with another: what the conditions elsewhere exclude does happen. */
module Examples {
  import opened Addresses
  import opened Engine
  import opened Invariants
  import opened Routing
  import opened System
  import opened Guarantees
  import opened Connecting
  import opened Buffering
  import Dynamic

  /** A newcomer registers, announces its address, and connects to itself. */
  function Joining(at: real, oid: string, pid: string, socket: nat, address: NetAddress): seq<TimedStep> {
    [TimedStep(at, RegisterHost(oid, pid, socket)),
     TimedStep(at, RegisterAddress(pid, address)),
     TimedStep(at, ConnectRelay(socket, oid))]
  }

  lemma RunAppend(s: System, steps: seq<TimedStep>, t: TimedStep)
    ensures RunSteps(s, steps + [t]) == Next(RunSteps(s, steps), t)
  {
    hide Next;
    assert (steps + [t])[..|steps|] == steps;
  }

  lemma {:induction false} RunStepsConcat(s: System, a: seq<TimedStep>, b: seq<TimedStep>)
    ensures RunSteps(s, a + b) == RunSteps(RunSteps(s, a), b)
    decreases |b|
  {
    if b == [] {
      assert a + b == a;
    } else {
      var init, last := b[..|b| - 1], b[|b| - 1];
      hide Next;
      assert a + b == (a + init) + [last] && b == init + [last];
      RunAppend(s, a + init, last);
      RunStepsConcat(s, a, init);
    }
  }

  lemma RunThree(s: System, t1: TimedStep, t2: TimedStep, t3: TimedStep)
    ensures RunSteps(s, [t1, t2, t3]) == Next(Next(Next(s, t1), t2), t3)
  {
    hide Next;
    RunAppend(s, [], t1);
    RunAppend(s, [t1], t2);
    RunAppend(s, [t1, t2], t3);
    assert [] + [t1] == [t1] && [t1] + [t2] == [t1, t2] && [t1, t2] + [t3] == [t1, t2, t3];
  }

  /** The ids and the connection are not in use. */
  predicate Unknown(hosts: seq<Host>, oid: string, pid: string, socket: nat) {
    FindOid(hosts, oid) == |hosts| && FindPid(hosts, pid) == |hosts| && FindSocket(hosts, socket) == |hosts|
  }

  lemma FoundLast(hosts: seq<Host>, host: Host)
    requires Unknown(hosts, host.oid, host.pid, host.socket)
    ensures var all := hosts + [host];
            && FindOid(all, host.oid) == |hosts| && FindPid(all, host.pid) == |hosts|
            && FindSocket(all, host.socket) == |hosts|
  {
    var all := hosts + [host];
    assert all[|hosts|] == host;
    assert forall j :: 0 <= j < |hosts| ==> all[j] == hosts[j];
    hide FindOid, FindPid, FindSocket;
  }

  lemma HostAdded(s: System, at: real, host: Host)
    requires Unknown(s.hosts, host.oid, host.pid, host.socket)
             && host == Host(host.oid, host.pid, host.socket, None, None)
    ensures Next(s, TimedStep(at, RegisterHost(host.oid, host.pid, host.socket)))
            == At(s, at).(hosts := s.hosts + [host])
  {
    hide FindOid, FindPid, FindSocket;
  }

  lemma AddressAnnounced(s: System, at: real, hosts: seq<Host>, host: Host, address: NetAddress)
    requires s.hosts == hosts + [host] && host.rinfo.None? && FindPid(s.hosts, host.pid) == |hosts|
    ensures Next(s, TimedStep(at, RegisterAddress(host.pid, address)))
            == At(s, at).(hosts := hosts + [host.(rinfo := Some(address))],
                          replies := s.replies + [Registered(address)])
  {
    hide FindPid;
    assert (hosts + [host])[|hosts| := host.(rinfo := Some(address))] == hosts + [host.(rinfo := Some(address))];
  }

  lemma ConnectedToItself(s: System, at: real, hosts: seq<Host>, host: Host, address: NetAddress)
    requires s.hosts == hosts + [host] && host.rinfo == Some(address)
    requires FindOid(s.hosts, host.oid) == |hosts| && FindSocket(s.hosts, host.socket) == |hosts|
    requires !Has(s.engine.table, address) && s.engine.pool.free != []
    ensures var port := s.engine.pool.free[|s.engine.pool.free| - 1];
            Next(s, TimedStep(at, ConnectRelay(host.socket, host.oid)))
            == At(s, at).(engine := CreateRelay(At(s, at).engine, address).0,
                          hosts := hosts + [host.(relay := Some(port))],
                          replies := s.replies + [RelayPort(host.socket, port), RelayPort(host.socket, port)])
  {
    var now := At(s, at);
    var port := s.engine.pool.free[|s.engine.pool.free| - 1];
    var h := host.(relay := Some(port));
    CreateNew(now.engine, address);
    CreateAgain(now.engine, address);
    hide CreateRelay, Has, FindOid, FindSocket;
    assert (hosts + [host])[|hosts| := h] == hosts + [h] && (hosts + [h])[|hosts| := h] == hosts + [h];
  }

  /** A newcomer gets the last free port, and is told so on both sides of its connection to itself. */
  lemma Joined(s: System, at: real, oid: string, pid: string, socket: nat, address: NetAddress)
    requires Unknown(s.hosts, oid, pid, socket) && !Has(s.engine.table, address) && s.engine.pool.free != []
    ensures var port := s.engine.pool.free[|s.engine.pool.free| - 1];
            RunSteps(s, Joining(at, oid, pid, socket, address))
            == At(s, at).(
               engine := CreateRelay(At(s, at).engine, address).0,
               hosts := s.hosts + [Host(oid, pid, socket, Some(address), Some(port))],
               replies := s.replies + [Registered(address), RelayPort(socket, port), RelayPort(socket, port)])
  {
    var steps := Joining(at, oid, pid, socket, address);
    var h0 := Host(oid, pid, socket, None, None);
    var h1 := h0.(rinfo := Some(address));
    RunThree(s, steps[0], steps[1], steps[2]);
    FoundLast(s.hosts, h0);
    FoundLast(s.hosts, h1);
    hide RunSteps, Next, FindOid, FindPid, FindSocket, CreateRelay, Has, Unknown;
    HostAdded(s, at, h0);
    var s1 := Next(s, steps[0]);
    AddressAnnounced(s1, at, s.hosts, h0, address);
    var s2 := Next(s1, steps[1]);
    ConnectedToItself(s2, at, s.hosts, h1, address);
    var port := s.engine.pool.free[|s.engine.pool.free| - 1];
    assert (s.replies + [Registered(address)]) + [RelayPort(socket, port), RelayPort(socket, port)]
        == s.replies + [Registered(address), RelayPort(socket, port), RelayPort(socket, port)];
  }

  lemma CreateAgain(e: Engine, address: NetAddress)
    requires !Has(e.table, address) && e.pool.free != []
    ensures var (e', port) := CreateRelay(e, address); CreateRelay(e', address) == (e', port)
  {
    var (e', port) := CreateRelay(e, address);
    NewEntryFound(e.table, Relay(address, port.value, 0.0, e.clock, e.clock));
  }

  // ---------------------------------------------------- a lost port, a stuck buffer

  /** Two ports are bound and a host has one of them; then a stranger writes to the host's port. */
  function StrangerArrives(stranger: NetAddress, message: Datagram): seq<TimedStep> {
    Joining(0.0, "host", "pid", 1, HOST_ADDRESS) + [TimedStep(0.0, Arrive(8, stranger, message))]
  }

  lemma HostJoined(config: Config)
    ensures var s := RunSteps(StartSystem(config, [7, 8], 0.0), Joining(0.0, "host", "pid", 1, HOST_ADDRESS));
            && s.engine.pool == Pool({7, 8}, [7], {8}, multiset{}, {})
            && s.engine.table == [Relay(HOST_ADDRESS, 8, 0.0, 0.0, 0.0)]
            && s.engine.clock == 0.0 && s.buffers == map[] && s.pending == []
  {
    var s := StartSystem(config, [7, 8], 0.0);
    Joined(s, 0.0, "host", "pid", 1, HOST_ADDRESS);
    CreateNew(s.engine, HOST_ADDRESS);
    hide RunSteps;
    assert [7, 8][..1] == [7];
    assert s.engine.pool.ports == {7, 8};
  }

  lemma JoiningTimely(at: real, oid: string, pid: string, socket: nat, address: NetAddress)
    ensures TimelySteps(Joining(at, oid, pid, socket, address), at)
  {
  }

  /** After that the port 7 is lost, no port is free although one relay only uses one of the two, and
      the stranger's packet sits in a buffer that will never be drained. */
  lemma LostAndStuck(config: Config, stranger: NetAddress, message: Datagram)
    requires stranger != HOST_ADDRESS
    ensures var s := RunSteps(StartSystem(config, [7, 8], 0.0), StrangerArrives(stranger, message));
            && s.engine.table == [Relay(HOST_ADDRESS, 8, 0.0, 0.0, 0.0)]
            && s.engine.pool.free == [] && s.engine.pool.stranded == {7}
            && s.buffers == map[BufferKey(stranger, 8) := [message]] && Stuck(s, BufferKey(stranger, 8))
  {
    var s0, joining := StartSystem(config, [7, 8], 0.0), Joining(0.0, "host", "pid", 1, HOST_ADDRESS);
    var s := RunSteps(s0, joining);
    StartSysInv(config, [7, 8], 0.0);
    JoiningTimely(0.0, "host", "pid", 1, HOST_ADDRESS);
    RunStepsKeep(s0, joining);
    HostJoined(config);
    RunAppend(s0, joining, TimedStep(0.0, Arrive(8, stranger, message)));
    hide RunSteps, Inv, BufferKey, Dynamic.KeySet, Dynamic.KeysDistinct;
    assert s.engine.table[0] in s.engine.table;
    assert Holds(s.engine, HOST_ADDRESS, 8);
    assert At(s, 0.0) == s;
    DropHandled(s, stranger, 8, message);
    OnePortLeft(s, stranger, 8, message);
  }

  lemma OnePortLeft(s: System, sender: NetAddress, target: nat, message: Datagram)
    requires !Has(s.engine.table, sender) && |s.engine.pool.free| == 1 && BufferKey(sender, target) !in s.buffers
    requires exists b :: Holds(s.engine, b, target)
    ensures Deliver(s, message, sender, target).0.engine.pool.free == []
  {
    Unrouted(s.engine, message, sender, target);
    Exhausted(s.engine, sender);
    hide RelayPacket, CreateRelay, BufferKey, Has;
  }

  // -------------------------------------------------------- a port passes on

  const OTHER_ADDRESS := NetAddress("198.51.100.1", 1000)

  /** A host gets the only port, stays silent for the timeout and is cleaned up; then another joins. */
  function PortReused(timeout: real): seq<TimedStep> {
    Joining(0.0, "host", "pid", 1, HOST_ADDRESS)
    + [TimedStep(timeout, CleanupDue)]
    + Joining(timeout, "other", "pid of other", 2, OTHER_ADDRESS)
  }

  /** The only relay has been silent for the timeout. */
  lemma OnlyRelayExpires(e: Engine, r: Relay)
    requires Inv(e) && e.table == [r] && e.pool.free == [] && r.port in e.pool.ports
    requires r.LastTraffic() <= e.clock - e.config.timeout
    ensures Cleanup(e).table == [] && Cleanup(e).pool.free == [r.port]
  {
    CleanupExact(e);
    hide Inv, Cleanup;
    var cutoff := e.clock - e.config.timeout;
    assert Expired([r], cutoff) == [r] && Kept([r], cutoff) == [] && Ports([r]) == [r.port];
  }

  lemma FirstJoined(config: Config)
    ensures var s := RunSteps(StartSystem(config, [7], 0.0), Joining(0.0, "host", "pid", 1, HOST_ADDRESS));
            && SysInv(s) && s.engine.config == config && s.engine.clock == 0.0
            && s.engine.table == [Relay(HOST_ADDRESS, 7, 0.0, 0.0, 0.0)]
            && s.engine.pool.ports == {7} && s.engine.pool.free == []
            && s.hosts == [Host("host", "pid", 1, Some(HOST_ADDRESS), Some(7))]
  {
    var s0, joining := StartSystem(config, [7], 0.0), Joining(0.0, "host", "pid", 1, HOST_ADDRESS);
    StartSysInv(config, [7], 0.0);
    JoiningTimely(0.0, "host", "pid", 1, HOST_ADDRESS);
    RunStepsKeep(s0, joining);
    Joined(s0, 0.0, "host", "pid", 1, HOST_ADDRESS);
    CreateNew(s0.engine, HOST_ADDRESS);
    hide RunSteps, SysInv;
    assert [7][..0] == [] && s0.engine.pool.ports == {7};
  }

  lemma FirstGone(config: Config)
    requires config.timeout >= 0.0
    ensures var s := RunSteps(StartSystem(config, [7], 0.0),
                              Joining(0.0, "host", "pid", 1, HOST_ADDRESS) + [TimedStep(config.timeout, CleanupDue)]);
            && s.engine.table == [] && s.engine.pool.free == [7] && s.engine.clock == config.timeout
            && s.hosts == [Host("host", "pid", 1, Some(HOST_ADDRESS), Some(7))]
  {
    var s0, joining := StartSystem(config, [7], 0.0), Joining(0.0, "host", "pid", 1, HOST_ADDRESS);
    var s, t := RunSteps(s0, joining), TimedStep(config.timeout, CleanupDue);
    FirstJoined(config);
    RunAppend(s0, joining, t);
    AtKeeps(s, t.at);
    hide RunSteps, Inv, Cleanup;
    OnlyRelayExpires(At(s, t.at).engine, Relay(HOST_ADDRESS, 7, 0.0, 0.0, 0.0));
    ApplyClock(s.engine, Timed(t.at, Clean));
    assert Next(s, t).engine == Apply(s.engine, Timed(t.at, Clean));
  }

  /** Port 7 was announced for the host and is on record for it, but what is sent to it now reaches
      the other. */
  lemma PortReusedExample(config: Config)
    requires config.timeout >= 0.0
    ensures var s := RunSteps(StartSystem(config, [7], 0.0), PortReused(config.timeout));
            && s.hosts == [Host("host", "pid", 1, Some(HOST_ADDRESS), Some(7)),
                           Host("other", "pid of other", 2, Some(OTHER_ADDRESS), Some(7))]
            && s.engine.table == [Relay(OTHER_ADDRESS, 7, 0.0, config.timeout, config.timeout)]
            && s.engine.pool.free == []
  {
    var s0 := StartSystem(config, [7], 0.0);
    var first := Joining(0.0, "host", "pid", 1, HOST_ADDRESS) + [TimedStep(config.timeout, CleanupDue)];
    var second := Joining(config.timeout, "other", "pid of other", 2, OTHER_ADDRESS);
    var s := RunSteps(s0, first);
    FirstGone(config);
    RunStepsConcat(s0, first, second);
    assert "host" != "other" && "pid" != "pid of other";
    OneHost(s.hosts[0], "other", "pid of other", 2);
    Joined(s, config.timeout, "other", "pid of other", 2, OTHER_ADDRESS);
    CreateNew(At(s, config.timeout).engine, OTHER_ADDRESS);
    hide RunSteps;
  }

  lemma OneHost(h: Host, oid: string, pid: string, socket: nat)
    requires h.oid != oid && h.pid != pid && h.socket != socket
    ensures Unknown([h], oid, pid, socket)
  {
  }
}
