/** The connect-relay command from end to end: when it succeeds, which ports it announces, and
    where packets sent to those ports arrive. */
module Connecting {
  import opened Addresses
  import opened Engine
  import opened Invariants
  import opened Routing
  import opened System
  import opened Guarantees

  /** How many of two addresses still need a relay. */
  function Needed(table: seq<Relay>, a: NetAddress, b: NetAddress): nat {
    (if Has(table, a) then 0 else 1) + (if Has(table, b) || a == b then 0 else 1)
  }

  /** Creating a relay succeeds if and only if the address has one already or a port is free. */
  lemma CreateIff(e: Engine, a: NetAddress)
    requires Inv(e)
    ensures var (e', port) := CreateRelay(e, a);
            && (port.Some? <==> Has(e.table, a) || |e.pool.free| > 0)
            && (port.Some? ==> Holds(e', a, port.value) && Has(e'.table, a))
            && (port.None? ==> e' == e)
            && (forall b :: Has(e'.table, b) <==> Has(e.table, b) || (port.Some? && a == b))
            && |e'.pool.free| == |e.pool.free| - (if port.Some? && !Has(e.table, a) then 1 else 0)
            && (forall b, q :: Holds(e, b, q) ==> Holds(e', b, q))
            && Extends(e, e')
  {
    hide Inv;
    var (e', port) := CreateRelay(e, a);
    var i := IndexOf(e.table, a);
    if i < |e.table| {
      assert e.table[i] in e.table;
    } else if e.pool.free != [] {
      var r := Relay(a, port.value, 0.0, e.clock, e.clock);
      assert e'.table == e.table + [r];
      assert e'.table[|e.table|] == r && r in e'.table;
      assert forall x :: x in e.table ==> x in e'.table;
      forall b ensures Has(e'.table, b) <==> Has(e.table, b) || a == b {
        HasAppend(e.table, r, b);
      }
    }
  }

  lemma HasMember(table: seq<Relay>, b: NetAddress)
    ensures Has(table, b) <==> exists x :: x in table && x.address == b
  {
  }

  lemma HasAppend(table: seq<Relay>, r: Relay, b: NetAddress)
    ensures Has(table + [r], b) <==> Has(table, b) || r.address == b
  {
    HasMember(table, b);
    HasMember(table + [r], b);
    assert (table + [r])[|table|] == r;
    hide Has;
    assert forall x :: x in table + [r] <==> x in table || x == r;
  }

  /** The command was answered with a relay port on both sides. */
  ghost predicate Paired(s: System, s': System, socket: nat, oid: string, a: NetAddress, p: nat, b: NetAddress,
                         q: nat) {
    var h, c := FindOid(s.hosts, oid), FindSocket(s.hosts, socket);
    && h < |s.hosts| && c < |s.hosts|
    && s.hosts[h].rinfo == Some(a) && s.hosts[c].rinfo == Some(b)
    && s'.replies == s.replies + [RelayPort(socket, p), RelayPort(s.hosts[h].socket, q)]
    && Holds(s'.engine, a, p) && Holds(s'.engine, b, q)
  }

  /** Creating the two relays one after the other. */
  lemma CreateBoth(e: Engine, a: NetAddress, b: NetAddress)
    requires Inv(e)
    ensures var (e1, p) := CreateRelay(e, a);
            var (e2, q) := CreateRelay(e1, b);
            && (p.Some? && q.Some? <==> Needed(e.table, a, b) <= |e.pool.free|)
            && (p.Some? && q.Some? ==> Holds(e2, a, p.value) && Holds(e2, b, q.value))
            && Inv(e1) && Inv(e2)
            && (forall x, y :: Holds(e, x, y) ==> Holds(e1, x, y) && Holds(e2, x, y))
  {
    CreateKeeps(e, a);
    CreateIff(e, a);
    hide Inv, CreateRelay, Has, Holds;
    var e1 := CreateRelay(e, a).0;
    CreateKeeps(e1, b);
    CreateIff(e1, b);
  }

  /** `connect-relay` succeeds if and only if both parties are known and have registered their
      addresses and there are enough free ports for the relays still missing. On success both are
      in the table under the announced ports; otherwise the caller is told of the failure. Either
      way every route there was is kept. */
  lemma ConnectIff(s: System, socket: nat, oid: string)
    requires SysInv(s)
    ensures var s' := Connect(s, socket, oid);
            var h, c := FindOid(s.hosts, oid), FindSocket(s.hosts, socket);
            if h < |s.hosts| && c < |s.hosts| && s.hosts[h].rinfo.Some? && s.hosts[c].rinfo.Some?
               && Needed(s.engine.table, s.hosts[h].rinfo.value, s.hosts[c].rinfo.value) <= |s.engine.pool.free|
            then exists p, q :: Paired(s, s', socket, oid, s.hosts[h].rinfo.value, p, s.hosts[c].rinfo.value, q)
            else s'.replies == s.replies + [CommandFailed(socket)]
    ensures forall x, y :: Holds(s.engine, x, y) ==> Holds(Connect(s, socket, oid).engine, x, y)
  {
    hide Inv, CreateRelay, Has, Holds, Needed;
    var h, c := FindOid(s.hosts, oid), FindSocket(s.hosts, socket);
    if h < |s.hosts| && c < |s.hosts| && s.hosts[h].rinfo.Some? && s.hosts[c].rinfo.Some? {
      var a, b := s.hosts[h].rinfo.value, s.hosts[c].rinfo.value;
      CreateBoth(s.engine, a, b);
      var (e1, p) := CreateRelay(s.engine, a);
      var q := CreateRelay(e1, b).1;
      assert Connect(s, socket, oid).engine in {e1, CreateRelay(e1, b).0};
      if p.Some? && q.Some? {
        assert Paired(s, Connect(s, socket, oid), socket, oid, a, p.value, b, q.value);
      }
    } else if h < |s.hosts| && c < |s.hosts| && s.hosts[h].rinfo.Some? {
      CreateBoth(s.engine, s.hosts[h].rinfo.value, s.hosts[h].rinfo.value);
    }
  }

  /** What the command leaves behind, spelled out in the two creations. */
  lemma ConnectEffect(s: System, socket: nat, oid: string)
    ensures Connect(s, socket, oid).buffers == s.buffers && Connect(s, socket, oid).pending == s.pending
    ensures Connect(s, socket, oid).replies == s.replies + [CommandFailed(socket)]
            || |Connect(s, socket, oid).replies| == |s.replies| + 2
    ensures var s' := Connect(s, socket, oid);
            var h, c := FindOid(s.hosts, oid), FindSocket(s.hosts, socket);
            if h == |s.hosts| || c == |s.hosts| || s.hosts[h].rinfo.None?
            then s'.engine == s.engine && s'.hosts == s.hosts
            else
              var (e1, p) := CreateRelay(s.engine, s.hosts[h].rinfo.value);
              if p.None? then s'.engine == e1 && s'.hosts == s.hosts
              else if s.hosts[c].rinfo.None? then s'.engine == e1 && s'.hosts == s.hosts[h := s.hosts[h].(relay := p)]
              else
                var (e2, q) := CreateRelay(e1, s.hosts[c].rinfo.value);
                && s'.engine == e2
                && var hosts1 := s.hosts[h := s.hosts[h].(relay := p)];
                && s'.hosts == (if q.None? then hosts1 else hosts1[c := hosts1[c].(relay := q)])
                && (q.Some? ==>
                      s'.replies == s.replies + [RelayPort(socket, p.value), RelayPort(s.hosts[h].socket, q.value)])
  {
    hide CreateRelay, FindOid, FindSocket;
  }

  /** A successful command records for each party the port that was announced for it: the host's entry
      gets the port told to the client and the client's entry the one told to the host. Nothing else
      about hosts changes, and no other host does; a host that connects to itself is both. */
  lemma ConnectRecords(s: System, socket: nat, oid: string, p: nat, q: nat)
    requires SysInv(s)
    requires var h := FindOid(s.hosts, oid);
             h < |s.hosts|
             && Connect(s, socket, oid).replies == s.replies + [RelayPort(socket, p), RelayPort(s.hosts[h].socket, q)]
    ensures var s' := Connect(s, socket, oid);
            var h, c := FindOid(s.hosts, oid), FindSocket(s.hosts, socket);
            && c < |s.hosts| && |s'.hosts| == |s.hosts|
            && s'.hosts[h] == s.hosts[h].(relay := Some(p))
            && s'.hosts[c] == s.hosts[c].(relay := Some(q))
            && (forall k :: 0 <= k < |s.hosts| && k != h && k != c ==> s'.hosts[k] == s.hosts[k])
            && s'.buffers == s.buffers && s'.pending == s.pending
  {
    ConnectEffect(s, socket, oid);
    Answered(s, socket, oid);
    hide Inv, Connect, CreateRelay, FindOid, FindSocket;
    var s' := Connect(s, socket, oid);
    var h, c := FindOid(s.hosts, oid), FindSocket(s.hosts, socket);
    assert s'.replies[|s.replies|] == RelayPort(socket, p);
    assert s'.replies[|s.replies| + 1] == RelayPort(s.hosts[h].socket, q);
    SamePort(s.engine, s.hosts[h].rinfo.value);
  }

  /** Two answers mean that both parties were given a relay. */
  lemma Answered(s: System, socket: nat, oid: string)
    requires |Connect(s, socket, oid).replies| == |s.replies| + 2
    ensures var h, c := FindOid(s.hosts, oid), FindSocket(s.hosts, socket);
            && h < |s.hosts| && c < |s.hosts| && s.hosts[h].rinfo.Some? && s.hosts[c].rinfo.Some?
            && var (e1, p) := CreateRelay(s.engine, s.hosts[h].rinfo.value);
               p.Some? && CreateRelay(e1, s.hosts[c].rinfo.value).1.Some?
  {
    hide CreateRelay, FindOid, FindSocket;
    var h, c := FindOid(s.hosts, oid), FindSocket(s.hosts, socket);
    if h < |s.hosts| && c < |s.hosts| && s.hosts[h].rinfo.Some? {
      var p := CreateRelay(s.engine, s.hosts[h].rinfo.value).1;
      assert s.hosts[h := s.hosts[h].(relay := p)][c].rinfo == s.hosts[c].rinfo;
    }
  }

  /** Creating a relay for one address twice gives one port. */
  lemma SamePort(e: Engine, a: NetAddress)
    requires Inv(e)
    ensures var (e', p) := CreateRelay(e, a); CreateRelay(e', a) == (e', p)
  {
    CreateIff(e, a);
    CreateKeeps(e, a);
    var (e', p) := CreateRelay(e, a);
    hide Inv, Has, Holds;
    if p.Some? {
      CreateIsIdempotent(e', a, p.value);
    }
    hide CreateRelay;
  }

  // -------------------------------------------------------- failing half-way

  /** The host can be given a relay: it is known and registered, and it has a relay or a port is free. */
  predicate HostServed(s: System, socket: nat, oid: string) {
    var h, c := FindOid(s.hosts, oid), FindSocket(s.hosts, socket);
    && h < |s.hosts| && c < |s.hosts| && s.hosts[h].rinfo.Some?
    && (Has(s.engine.table, s.hosts[h].rinfo.value) || |s.engine.pool.free| > 0)
  }

  /** The host takes a new relay, and the client then cannot get one: it has not registered, or it
      needs a port of its own and the host took the last one. */
  predicate TakesForHostOnly(s: System, socket: nat, oid: string) {
    var h, c := FindOid(s.hosts, oid), FindSocket(s.hosts, socket);
    && h < |s.hosts| && c < |s.hosts| && s.hosts[h].rinfo.Some?
    && var a, b := s.hosts[h].rinfo.value, s.hosts[c].rinfo;
       && !Has(s.engine.table, a) && |s.engine.pool.free| > 0
       && (b.None? || (b.value != a && !Has(s.engine.table, b.value) && |s.engine.pool.free| == 1))
  }

  lemma CreateChanges(e: Engine, a: NetAddress)
    ensures CreateRelay(e, a).0 != e <==> !Has(e.table, a) && e.pool.free != []
  {
    hide IndexOf;
    if !Has(e.table, a) && e.pool.free != [] {
      CreateNew(e, a);
      assert |CreateRelay(e, a).0.table| == |e.table| + 1;
    }
  }

  /** A failed `connect-relay` is not undone. It changes the engine if and only if it took a relay for
      the host alone, which then has the last free port; and it records a relay for the host if and
      only if the host could be given one, whether new or there before. Nothing else changes. */
  lemma FailedConnect(s: System, socket: nat, oid: string)
    requires SysInv(s)
    requires Connect(s, socket, oid).replies == s.replies + [CommandFailed(socket)]
    ensures var s' := Connect(s, socket, oid);
            var h := FindOid(s.hosts, oid);
            && (s'.engine != s.engine <==> TakesForHostOnly(s, socket, oid))
            && (s'.engine != s.engine ==> s'.engine == CreateRelay(s.engine, s.hosts[h].rinfo.value).0)
            && (if HostServed(s, socket, oid) then
                  var p := CreateRelay(s.engine, s.hosts[h].rinfo.value).1;
                  && p.Some? && Holds(s'.engine, s.hosts[h].rinfo.value, p.value)
                  && s'.hosts == s.hosts[h := s.hosts[h].(relay := p)]
                else s'.hosts == s.hosts)
            && s'.buffers == s.buffers && s'.pending == s.pending
  {
    ConnectEffect(s, socket, oid);
    var h, c := FindOid(s.hosts, oid), FindSocket(s.hosts, socket);
    if h < |s.hosts| && c < |s.hosts| && s.hosts[h].rinfo.Some? {
      var a := s.hosts[h].rinfo.value;
      var e1 := CreateRelay(s.engine, a).0;
      CreateIff(s.engine, a);
      CreateChanges(s.engine, a);
      if s.hosts[c].rinfo.Some? {
        CreateKeeps(s.engine, a);
        CreateIff(e1, s.hosts[c].rinfo.value);
      }
    }
    hide Inv, CreateRelay, Has, Holds, FindOid, FindSocket;
    assert |s.replies + [CommandFailed(socket)]| == |s.replies| + 1;
  }

  const HOST_ADDRESS := NetAddress("192.0.2.1", 1000)

  /** A host and a client register, the host announces its address, the client does not. */
  function HalfRegistered(config: Config): System {
    var s0 := StartSystem(config, [7], 0.0);
    var s1 := Next(s0, TimedStep(0.0, RegisterHost("host", "pid of host", 1)));
    var s2 := Next(s1, TimedStep(0.0, RegisterHost("client", "pid of client", 2)));
    Next(s2, TimedStep(0.0, RegisterAddress("pid of host", HOST_ADDRESS)))
  }

  lemma HalfRegisteredState(config: Config)
    ensures HalfRegistered(config)
            == StartSystem(config, [7], 0.0).(
               hosts := [Host("host", "pid of host", 1, Some(HOST_ADDRESS), None),
                         Host("client", "pid of client", 2, None, None)],
               replies := [Registered(HOST_ADDRESS)])
  {
    var host, client := Host("host", "pid of host", 1, None, None), Host("client", "pid of client", 2, None, None);
    assert AddHost([], host) == [host];
    assert AddHost([host], client) == [host, client];
    assert FindPid([host, client], "pid of host") == 0;
  }

  /** A concrete command that fails and leaves a relay behind, in a state reached from start-up. */
  lemma FailedConnectExample(config: Config)
    ensures var s := HalfRegistered(config);
            var s' := Connect(s, 2, "host");
            && s'.replies == s.replies + [CommandFailed(2)]
            && s.engine.table == [] && s'.engine.table == [Relay(HOST_ADDRESS, 7, 0.0, 0.0, 0.0)]
            && s'.engine.pool.free == []
  {
    HalfRegisteredState(config);
    var s := HalfRegistered(config);
    hide HalfRegistered;
    assert FindOid(s.hosts, "host") == 0;
    assert s.hosts[0].socket != 2 && s.hosts[1].socket == 2;
    assert FindSocket(s.hosts, 2) == 1;
    CreateNew(s.engine, HOST_ADDRESS);
  }

  /** A packet of `b` arriving on port `p` is sent to `a` from port `q` exactly when all four
      constraints accept it; otherwise nothing is observed. */
  ghost predicate Reaches(s: System, p: nat, b: NetAddress, q: nat, a: NetAddress, message: Datagram, at: real) {
    exists r :: r in s.engine.table && r.address == b && r.port == q &&
      Next(s, TimedStep(at, Arrive(p, b, message))).engine.trace
      == s.engine.trace
         + if AllAccept(s.engine.config, s.engine.ledgers, r, |message|, at) then [Sent(at, b, q, a, message)] else []
  }

  /** With relays for `a` on `p` and for `b` on `q`, what `b` sends to `p` reaches `a` from `q`. */
  lemma ArrivalRouted(s: System, a: NetAddress, p: nat, b: NetAddress, q: nat, message: Datagram, at: real)
    requires SysInv(s) && s.engine.clock <= at
    requires Holds(s.engine, a, p) && Holds(s.engine, b, q) && q in s.engine.pool.ports
    ensures Reaches(s, p, b, q, a, message, at)
  {
    hide Inv, RelayPacket, AllAccept, HandleDrop, BufferKey;
    var e := At(s, at).engine;
    TickKeeps(s.engine, at);
    Listening(e, a, p, q);
    var r :| r in e.table && r.address == b && r.port == q;
    var d :| d in e.table && d.address == a && d.port == p;
    PacketRoute(e, message, b, q, a, p);
    SentIff(e, message, b, p);
    OneSender(e, r);
    assert e.trace + [] == e.trace;
  }

  lemma OneSender(e: Engine, r: Relay)
    requires Inv(e) && r in e.table
    ensures forall x :: x in e.table && x.address == r.address ==> x == r
  {
  }

  lemma Listening(e: Engine, a: NetAddress, p: nat, q: nat)
    requires Inv(e) && Holds(e, a, p) && q in e.pool.ports
    ensures p in e.pool.listening
  {
  }

  /** End to end: after a successful connect-relay, and for as long as neither relay is destroyed,
      whatever else the server does, what the client sends to the port it was given reaches the
      host from the port the host was given, and what the host sends to that port reaches the
      client from the port the client was given; each exactly when the constraints accept it. */
  lemma ConnectedBothWays(s: System, t: TimedStep, a: NetAddress, p: nat, b: NetAddress, q: nat,
                          steps: seq<TimedStep>, message: Datagram, at: real)
    requires SysInv(s) && s.engine.clock <= t.at && t.step.ConnectRelay?
    requires Paired(At(s, t.at), Next(s, t), t.step.socket, t.step.oid, a, p, b, q)
    requires TimelySteps(steps, t.at) && RunSteps(Next(s, t), steps).engine.clock <= at
    ensures var connected := Next(s, t);
            var later := RunSteps(connected, steps);
            && Extends(connected.engine, later.engine)
            && (&& Destroyed(a, p) !in News(connected.engine, later.engine)
                && Destroyed(b, q) !in News(connected.engine, later.engine)
                && p in later.engine.pool.ports && q in later.engine.pool.ports
                ==> Reaches(later, p, b, q, a, message, at) && Reaches(later, q, a, p, b, message, at))
  {
    NextKeeps(s, t);
    var ops := NextOps(s, t);
    hide Next, RunSteps, Run, Reaches, Inv;
    var connected := Next(s, t);
    var later := RunSteps(connected, steps);
    RouteKept(connected, steps, a, p);
    RouteKept(connected, steps, b, q);
    if && Destroyed(a, p) !in News(connected.engine, later.engine)
       && Destroyed(b, q) !in News(connected.engine, later.engine)
       && p in later.engine.pool.ports && q in later.engine.pool.ports {
      ArrivalRouted(later, a, p, b, q, message, at);
      ArrivalRouted(later, b, q, a, p, message, at);
    }
  }

  /** A packet that was sent when it arrived was routed between two entries that are still there. */
  lemma SentOnArrival(s: System, t: TimedStep, a: NetAddress, p: nat, b: NetAddress, q: nat, message: Datagram)
    requires SysInv(s) && s.engine.clock <= t.at && t.step == Arrive(q, a, message)
    requires Next(s, t).engine.trace == s.engine.trace + [Sent(t.at, a, p, b, message)]
    ensures Holds(Next(s, t).engine, a, p) && Holds(Next(s, t).engine, b, q)
  {
    var e := At(s, t.at).engine;
    TickKeeps(s.engine, t.at);
    PacketPool(e, message, a, q);
    var (e', outcome) := RelayPacket(e, message, a, q);
    assert Next(s, t).engine.trace[|e.trace|] == Sent(t.at, a, p, b, message);
    hide Inv, RelayPacket, BufferKey, Has, Holds;
    if !outcome.Dropped? {
      SentTable(e, message, a, p, b, q);
    }
  }

  /** Replies find their way back through the server: after a packet of `a` to port `q` was sent to `b`
      from port `p`, and for as long as neither relay is destroyed, whatever else happens, what `b`
      sends to the port it saw reaches `a` from the port `a` addressed, exactly when the constraints
      accept it. */
  lemma ServerReplies(s: System, t: TimedStep, a: NetAddress, p: nat, b: NetAddress, q: nat, message: Datagram,
                      steps: seq<TimedStep>, reply: Datagram, at: real)
    requires SysInv(s) && s.engine.clock <= t.at && t.step == Arrive(q, a, message)
    requires Next(s, t).engine.trace == s.engine.trace + [Sent(t.at, a, p, b, message)]
    requires TimelySteps(steps, t.at) && RunSteps(Next(s, t), steps).engine.clock <= at
    ensures var sent := Next(s, t);
            var later := RunSteps(sent, steps);
            && Extends(sent.engine, later.engine)
            && (&& Destroyed(a, p) !in News(sent.engine, later.engine)
                && Destroyed(b, q) !in News(sent.engine, later.engine)
                && q in later.engine.pool.ports
                ==> Reaches(later, p, b, q, a, reply, at))
  {
    SentOnArrival(s, t, a, p, b, q, message);
    NextKeeps(s, t);
    var ops := NextOps(s, t);
    hide Next, RunSteps, Run, Reaches, Inv;
    var sent := Next(s, t);
    var later := RunSteps(sent, steps);
    RouteKept(sent, steps, a, p);
    RouteKept(sent, steps, b, q);
    if && Destroyed(a, p) !in News(sent.engine, later.engine)
       && Destroyed(b, q) !in News(sent.engine, later.engine)
       && q in later.engine.pool.ports {
      ArrivalRouted(later, a, p, b, q, reply, at);
    }
  }

  // ---------------------------------------------------------- stable identity

  /** The registrar answers that the pid is known if and only if some host has it; then the first such
      host has an address, the reported one unless it had one before. No other host changes, and
      reporting again, from whatever address, changes no host. */
  lemma RegisterExact(s: System, pid: string, rinfo: NetAddress, again: NetAddress)
    ensures var s' := Register(s, pid, rinfo);
            var i := FindPid(s.hosts, pid);
            && s'.replies == s.replies
               + [if exists h :: h in s.hosts && h.pid == pid then Registered(rinfo) else UnknownPid(rinfo)]
            && |s'.hosts| == |s.hosts|
            && (forall k :: 0 <= k < |s.hosts| && k != i ==> s'.hosts[k] == s.hosts[k])
            && (i < |s.hosts| ==>
                  s'.hosts[i] == if s.hosts[i].rinfo.Some? then s.hosts[i] else s.hosts[i].(rinfo := Some(rinfo)))
            && Register(s', pid, again).hosts == s'.hosts
            && s'.engine == s.engine && s'.buffers == s.buffers && s'.pending == s.pending
  {
    var s' := Register(s, pid, rinfo);
    var i := FindPid(s.hosts, pid);
    if i < |s.hosts| {
      assert s.hosts[i] in s.hosts;
      PidFound(s'.hosts, pid, i);
    }
    hide FindPid;
  }

  lemma PidFound(hosts: seq<Host>, pid: string, i: nat)
    requires i < |hosts| && hosts[i].pid == pid && forall j :: 0 <= j < i ==> hosts[j].pid != pid
    ensures FindPid(hosts, pid) == i
  {
  }

  /** A host with a new oid is found under it, no other lookup changes, and removing it again
      restores the repository; an oid in use is refused. */
  lemma HostLifecycle(hosts: seq<Host>, host: Host, oid: string)
    ensures var after := AddHost(hosts, host);
            if FindOid(hosts, host.oid) < |hosts| then after == hosts
            else && FindOid(after, host.oid) < |after| && after[FindOid(after, host.oid)] == host
                 && (FindOid(hosts, oid) < |hosts| ==> FindOid(after, oid) == FindOid(hosts, oid))
                 && RemoveHost(after, host.oid) == hosts
  {
    var after := AddHost(hosts, host);
    if FindOid(hosts, host.oid) == |hosts| {
      assert after == hosts + [host] && after[|hosts|] == host;
      assert forall j :: 0 <= j < |hosts| ==> after[j] == hosts[j];
      OidFound(after, host.oid, |hosts|);
      if FindOid(hosts, oid) < |hosts| {
        OidFound(after, oid, FindOid(hosts, oid));
      }
      assert Without(after, |hosts|) == hosts;
    }
  }

  lemma OidFound(hosts: seq<Host>, oid: string, i: nat)
    requires i < |hosts| && hosts[i].oid == oid && forall j :: 0 <= j < i ==> hosts[j].oid != oid
    ensures FindOid(hosts, oid) == i
  {
  }

  /** One step keeps a registered address, unless the host itself disconnects. */
  lemma AddressStep(s: System, step: Step, h: Host)
    requires SysInv(s) && h in s.hosts && h.rinfo.Some? && step != Disconnect(h.oid)
    ensures exists h' :: h' in Act(s, step).hosts && SameHost(h, h')
  {
    hide Inv, Deliver, Connect, Register, RemoveHost, BufferKey, Cleanup, Routing.Shutdown, ResumeHandler;
    var k :| 0 <= k < |s.hosts| && s.hosts[k] == h;
    assert SameHost(h, h);
    match step
    case Arrive(port, sender, message) => DeliverFrame(s, message, sender, port);
    case Resume(i) => if i < |s.pending| { FlushHosts(s, i); } else { NoHandler(s, i); }
    case RegisterHost(oid, pid, socket) => assert Act(s, step).hosts[k] == h;
    case Disconnect(oid) => RemoveHosts(s.hosts, oid);
    case RegisterAddress(pid, rinfo) =>
      RegisterHosts(s, pid, rinfo);
      assert SameHost(h, Act(s, step).hosts[k]);
    case ConnectRelay(socket, oid) =>
      ConnectHosts(s, socket, oid);
      assert SameHost(h, Act(s, step).hosts[k]);
    case CleanupDue =>
    case Shutdown =>
  }

  /** A host's address is written once: over any run in which the host does not disconnect, the
      address it registered first is the address it has. */
  lemma {:induction false} AddressWrittenOnce(s: System, steps: seq<TimedStep>, h: Host)
    requires SysInv(s) && TimelySteps(steps, s.engine.clock) && h in s.hosts && h.rinfo.Some?
    requires forall t :: t in steps ==> t.step != Disconnect(h.oid)
    ensures exists h' :: h' in RunSteps(s, steps).hosts && SameHost(h, h')
  {
    hide SysInv, Act;
    if steps == [] {
      assert SameHost(h, h);
    } else {
      var before, last := steps[..|steps| - 1], steps[|steps| - 1];
      assert forall t :: t in before ==> t in steps;
      AddressWrittenOnce(s, before, h);
      RunStepsKeep(s, before);
      var ops := RunStepsOps(s, before);
      var mid := RunSteps(s, before);
      var h1 :| h1 in mid.hosts && SameHost(h, h1);
      AtKeeps(mid, last.at);
      AddressStep(At(mid, last.at), last.step, h1);
      var h2 :| h2 in Act(At(mid, last.at), last.step).hosts && SameHost(h1, h2);
      assert SameHost(h, h2);
    }
  }

  /** Until the host's relay is destroyed, every successful connect-relay naming the host announces
      the same port. */
  lemma SamePortAnnounced(s: System, a: NetAddress, p: nat, steps: seq<TimedStep>, socket: nat, oid: string,
                          p': nat, b: NetAddress, q: nat)
    requires SysInv(s) && TimelySteps(steps, s.engine.clock) && Holds(s.engine, a, p)
    requires var later := RunSteps(s, steps);
             Paired(later, Connect(later, socket, oid), socket, oid, a, p', b, q)
    ensures var later := RunSteps(s, steps);
            Extends(s.engine, later.engine) && (Destroyed(a, p) in News(s.engine, later.engine) || p' == p)
  {
    RouteKept(s, steps, a, p);
    hide RunSteps;
    var later := RunSteps(s, steps);
    if Destroyed(a, p) !in News(s.engine, later.engine) {
      HostPortKept(later, socket, oid, a, p);
      OnePort(Connect(later, socket, oid), a, p, p');
    }
  }

  lemma HostPortKept(s: System, socket: nat, oid: string, a: NetAddress, p: nat)
    requires SysInv(s) && Holds(s.engine, a, p)
    ensures Holds(Connect(s, socket, oid).engine, a, p) && Inv(Connect(s, socket, oid).engine)
  {
    hide Inv, CreateRelay, Has, Holds;
    var h, c := FindOid(s.hosts, oid), FindSocket(s.hosts, socket);
    if h < |s.hosts| && c < |s.hosts| && s.hosts[h].rinfo.Some? {
      var x := s.hosts[h].rinfo.value;
      CreateBoth(s.engine, x, if s.hosts[c].rinfo.Some? then s.hosts[c].rinfo.value else x);
    }
  }

  lemma OnePort(s: System, a: NetAddress, p: nat, p': nat)
    requires Inv(s.engine) && Holds(s.engine, a, p) && Holds(s.engine, a, p')
    ensures p == p'
  {
  }
}
