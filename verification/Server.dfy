/** Dynamic relaying, the host repository, the registrar and the connect-relay command as objects,
    wired together as the relay module wires them. */
module Server {
  import opened Addresses
  import opened Spec = Engine
  import opened Sockets
  import opened Handler
  import opened Behaviour = System
  import Dynamic

  /** Every object the handler may change, now. */
  ghost function Footprint(handler: UDPRelayHandler): set<object>
    reads handler, handler.pool, handler.constraints
  {
    {handler, handler.pool, handler.constraints, handler.constraints.limiter}
    + handler.pool.sockets.Values + handler.constraints.limiters.Values + set e | e in handler.table
  }

  /** `createRelay` of a newly made entry. */
  method CreateFor(handler: UDPRelayHandler, address: NetAddress, port: nat, now: real) returns (result: Option<nat>)
    requires handler.Valid()
    modifies Footprint(handler)
    ensures handler.Valid() && fresh(Footprint(handler) - old(Footprint(handler)))
    ensures (handler.View(now), result) == Spec.CreateRelay(old(handler.View(now)), address)
  {
    hide UDPRelayHandler.View, Views, Constraints.Valid, UDPSocketPool.Valid, Spec.CreateRelay;
    var relay := new RelayEntry(address, port, now);
    var entry := handler.CreateRelay(relay, now);
    return if entry == null then None else Some(entry.port);
  }

  /** `relay` of the handler, its `drop` listener aside. */
  method RelayOn(handler: UDPRelayHandler, message: Datagram, sender: NetAddress, target: nat, now: real)
    returns (outcome: Outcome)
    requires handler.Valid()
    modifies Footprint(handler)
    ensures handler.Valid() && fresh(Footprint(handler) - old(Footprint(handler)))
    ensures (handler.View(now), outcome) == RelayPacket(old(handler.View(now)), message, sender, target)
  {
    hide UDPRelayHandler.View, RelayPacket, Constraints.Valid, UDPSocketPool.Valid;
    outcome := handler.Relay(message, sender, target, now);
  }

  /** `clear` of the handler's socket pool. */
  method ClosePoolOf(handler: UDPRelayHandler, ghost now: real)
    requires handler.Valid()
    modifies Footprint(handler)
    ensures handler.Valid() && Footprint(handler) <= old(Footprint(handler))
    ensures var e := old(handler.View(now)); handler.View(now) == e.(pool := ClosePool(e.pool))
  {
    hide Constraints.Valid, Constraints.View, UDPSocketPool.View, Views, ClosePool;
    handler.pool.Clear();
  }

  /** `clear` of the handler. */
  method ClearFor(handler: UDPRelayHandler, ghost now: real)
    requires handler.Valid()
    modifies Footprint(handler)
    ensures handler.Valid() && Footprint(handler) <= old(Footprint(handler))
    ensures handler.View(now) == ClearTable(old(handler.View(now)))
  {
    hide Constraints.Valid, UDPSocketPool.Valid, UDPRelayHandler.View, ClearTable;
    handler.Clear(now);
  }

  /** The cleanup job on the handler. */
  method CleanupFor(handler: UDPRelayHandler, now: real)
    requires handler.Valid()
    modifies Footprint(handler)
    ensures handler.Valid() && Footprint(handler) <= old(Footprint(handler))
    ensures handler.View(now) == Cleanup(old(handler.View(now)))
  {
    hide Constraints.Valid, Constraints.View, UDPSocketPool.Valid, UDPSocketPool.View, Views, FreeAll, Expired;
    CleanupUdpRelayTable(handler, handler.constraints.config.timeout, now);
  }

  class DynamicRelaying {
    var buffers: map<string, seq<Datagram>>
    var pending: seq<Dynamic.Pending>

    ghost predicate Valid(handler: UDPRelayHandler)
      reads this, handler, handler.pool, handler.pool.sockets.Values, Listeners(handler.pool.sockets),
            handler.constraints
    {
      handler.Valid()
    }

    /** The part of the server's state that dynamic relaying works on. */
    ghost function View(handler: UDPRelayHandler, now: real): Behaviour.System
      reads this, handler, handler.pool, handler.pool.sockets.Values
      reads handler.constraints, handler.constraints.limiter, handler.constraints.limiters.Values, handler.table
    {
      System(handler.View(now), buffers, pending, [], [])
    }

    constructor ()
      ensures buffers == map[] && pending == []
    {
      buffers, pending := map[], [];
    }

    /** The port taken for a new entry; it is lost, because creating the relay assigns another. */
    method TakePort(handler: UDPRelayHandler, ghost now: real) returns (port: Option<nat>)
      requires handler.Valid()
      modifies handler.pool`freePorts, handler.pool`stranded
      ensures handler.Valid() && Footprint(handler) == old(Footprint(handler))
      ensures var e := old(handler.View(now));
              && port.Some? == (e.pool.free != [])
              && handler.View(now) == if port.Some? then e.(pool := StrandPort(e.pool)) else e
    {
      hide Views, Listening, RelayId, Constraints.View, Constraints.Valid;
      port := handler.pool.GetPort();
      if port.Some? {
        handler.pool.stranded := handler.pool.stranded + {port.value};
      }
    }

    /** Creates the relay of a sender, as far as there are ports for it. */
    method Start(handler: UDPRelayHandler, sender: NetAddress, now: real) returns (created: bool)
      requires Valid(handler)
      modifies Footprint(handler)
      ensures Valid(handler) && fresh(Footprint(handler) - old(Footprint(handler)))
      ensures var e := old(handler.View(now));
              if e.pool.free == [] then !created && handler.View(now) == e
              else var (e', port) := Spec.CreateRelay(e.(pool := StrandPort(e.pool)), sender);
                   handler.View(now) == e' && created == port.Some?
    {
      hide UDPRelayHandler.View, Constraints.Valid, UDPSocketPool.Valid, Spec.CreateRelay, StrandPort;
      var port := TakePort(handler, now);
      if port.None? {
        return false;
      }
      var result := CreateFor(handler, sender, port.value, now);
      return result.Some?;
    }

    /** `#handle` up to its `await`. */
    method Handle(handler: UDPRelayHandler, senderKnown: bool, targetKnown: bool,
                  sender: NetAddress, target: nat, message: Datagram, now: real)
      requires Valid(handler) && this !in Footprint(handler)
      modifies this, Footprint(handler)
      ensures Valid(handler) && fresh(Footprint(handler) - old(Footprint(handler)))
      ensures View(handler, now)
              == HandleDrop(old(View(handler, now)), senderKnown, targetKnown, sender, target, message)
    {
      hide BufferKey, UDPRelayHandler.View, Spec.CreateRelay, StrandPort, Constraints.Valid, UDPSocketPool.Valid,
           Footprint;
      if senderKnown || !targetKnown {
        return;
      }
      var key := BufferKey(sender, target);
      if key in buffers {
        buffers := buffers[key := buffers[key] + [message]];
        return;
      }
      buffers := buffers[key := [message]];
      var created := Start(handler, sender, now);
      ghost var e, started := old(handler.View(now)), handler.View(now);
      ghost var result := Spec.CreateRelay(e.(pool := StrandPort(e.pool)), sender);
      assert e.pool.free != [] ==> started == result.0 && created == result.1.Some?;
      if created {
        pending := pending + [Dynamic.Pending(sender, target)];
      }
      assert handler.View(now) == started;
      assert allocated(Footprint(handler));
    }

    /** The handler's `relay` with the `drop` listener applied. */
    method Relay(handler: UDPRelayHandler, message: Datagram, sender: NetAddress, target: nat, now: real)
      returns (outcome: Outcome)
      requires Valid(handler) && this !in Footprint(handler)
      modifies this, Footprint(handler)
      ensures Valid(handler) && fresh(Footprint(handler) - old(Footprint(handler)))
      ensures (View(handler, now), outcome) == Deliver(old(View(handler, now)), message, sender, target)
    {
      hide BufferKey, UDPRelayHandler.View, RelayPacket, HandleDrop, Constraints.Valid, UDPSocketPool.Valid, Footprint;
      outcome := RelayOn(handler, message, sender, target, now);
      if outcome.Dropped? {
        Handle(handler, outcome.senderKnown, outcome.targetKnown, sender, target, message, now);
      }
      assert allocated(Footprint(handler));
    }

    /** The loop over the buffered messages; a rejection throws out of it. */
    method FlushEach(handler: UDPRelayHandler, messages: seq<Datagram>, sender: NetAddress, target: nat, now: real)
      returns (completed: bool)
      requires Valid(handler) && this !in Footprint(handler)
      modifies this, Footprint(handler)
      ensures Valid(handler) && fresh(Footprint(handler) - old(Footprint(handler)))
      ensures (View(handler, now), completed) == Flush(old(View(handler, now)), messages, sender, target)
    {
      hide Deliver, Constraints.Valid, UDPSocketPool.Valid, DynamicRelaying.View, Footprint;
      var i := 0;
      while i < |messages|
        invariant i <= |messages| && Valid(handler) && this !in Footprint(handler)
        invariant fresh(Footprint(handler) - old(Footprint(handler)))
        invariant Flush(View(handler, now), messages[i..], sender, target)
                  == Flush(old(View(handler, now)), messages, sender, target)
      {
        assert messages[i..][1..] == messages[i + 1..];
        var outcome := Relay(handler, messages[i], sender, target, now);
        assert allocated(Footprint(handler));
        if outcome == Rejected {
          return false;
        }
        i := i + 1;
      }
      return true;
    }

    /** `#handle` after its `await`. */
    method Resume(handler: UDPRelayHandler, index: nat, now: real)
      requires Valid(handler) && this !in Footprint(handler)
      modifies this, Footprint(handler)
      ensures Valid(handler) && fresh(Footprint(handler) - old(Footprint(handler)))
      ensures View(handler, now) == ResumeHandler(old(View(handler, now)), index)
    {
      hide Flush, BufferKey, UDPRelayHandler.View, Constraints.Valid, UDPSocketPool.Valid, Footprint;
      if index >= |pending| {
        return;
      }
      var p := pending[index];
      pending := Without(pending, index);
      var messages := if p.Key() in buffers then buffers[p.Key()] else [];
      var completed := FlushEach(handler, messages, p.sender, p.target, now);
      if completed {
        buffers := buffers - {p.Key()};
      }
      assert allocated(Footprint(handler));
    }
  }

  // ------------------------------------------------------------------- hosts

  /** A registered host. Its address and its relay port are filled in later, in place. */
  class HostEntity {
    const oid: string
    const pid: string
    const socket: nat
    var rinfo: Option<NetAddress>
    var relay: Option<nat>

    ghost function View(): Host
      reads this
    {
      Host(oid, pid, socket, rinfo, relay)
    }

    constructor (oid: string, pid: string, socket: nat)
      ensures View() == Host(oid, pid, socket, None, None)
    {
      this.oid, this.pid, this.socket := oid, pid, socket;
      rinfo, relay := None, None;
    }
  }

  ghost function HostViews(items: seq<HostEntity>): (r: seq<Host>)
    reads items
    ensures |r| == |items| && forall i :: 0 <= i < |r| ==> r[i] == items[i].View()
  {
    seq(|items|, i requires 0 <= i < |items| reads items => items[i].View())
  }

  /** Searches over the listed items: the first match, or the length. */
  function IndexOfOid(items: seq<HostEntity>, oid: string): (i: nat)
    ensures i == FindOid(HostViews(items), oid)
    reads items
  {
    if items == [] || items[0].oid == oid then 0
    else
      assert HostViews(items)[1..] == HostViews(items[1..]);
      1 + IndexOfOid(items[1..], oid)
  }

  function IndexOfPid(items: seq<HostEntity>, pid: string): (i: nat)
    ensures i == FindPid(HostViews(items), pid)
    reads items
  {
    if items == [] || items[0].pid == pid then 0
    else
      assert HostViews(items)[1..] == HostViews(items[1..]);
      1 + IndexOfPid(items[1..], pid)
  }

  function IndexOfSocket(items: seq<HostEntity>, socket: nat): (i: nat)
    ensures i == FindSocket(HostViews(items), socket)
    reads items
  {
    if items == [] || items[0].socket == socket then 0
    else
      assert HostViews(items)[1..] == HostViews(items[1..]);
      1 + IndexOfSocket(items[1..], socket)
  }

  lemma ViewsWithout(items: seq<HostEntity>, i: nat)
    requires i < |items|
    ensures HostViews(Without(items, i)) == Without(HostViews(items), i)
    ensures forall h :: h in Without(items, i) ==> h in items
    ensures NoDuplicates(items) ==> NoDuplicates(Without(items, i))
  {
  }

  /** The repository: a map from oid to host, listed in insertion order. */
  class HostRepository {
    var items: seq<HostEntity>

    ghost predicate Valid()
      reads this
    {
      NoDuplicates(items)
    }

    constructor ()
      ensures Valid() && items == []
    {
      items := [];
    }

    /** Refuses a host whose oid is in use. */
    method Add(host: HostEntity) returns (added: bool)
      requires Valid() && host !in items
      modifies this
      ensures Valid() && (items == old(items) || items == old(items) + [host])
      ensures HostViews(items) == AddHost(old(HostViews(items)), host.View())
    {
      if IndexOfOid(items, host.oid) < |items| {
        return false;
      }
      assert HostViews(items + [host]) == HostViews(items) + [host.View()];
      items := items + [host];
      return true;
    }

    /** Writes into the stored host; no other host is the same object. */
    method AssignRelay(i: nat, host: HostEntity, relay: Option<nat>)
      requires Valid() && i < |items| && host == items[i]
      modifies host`relay
      ensures HostViews(items) == old(HostViews(items))[i := old(HostViews(items))[i].(relay := relay)]
    {
      host.relay := relay;
    }

    method AssignRinfo(i: nat, host: HostEntity, rinfo: NetAddress)
      requires Valid() && i < |items| && host == items[i]
      modifies host`rinfo
      ensures HostViews(items) == old(HostViews(items))[i := old(HostViews(items))[i].(rinfo := Some(rinfo))]
    {
      host.rinfo := Some(rinfo);
    }

    method Remove(oid: string) returns (removed: bool)
      requires Valid()
      modifies this
      ensures Valid() && (forall h :: h in items ==> h in old(items))
      ensures HostViews(items) == RemoveHost(old(HostViews(items)), oid)
    {
      hide HostViews, Without, FindOid;
      var i := IndexOfOid(items, oid);
      if i == |items| {
        return false;
      }
      ViewsWithout(items, i);
      items := Without(items, i);
      return true;
    }
  }

  // ------------------------------------------------------------------ server

  /** Dynamic relaying neither reads nor changes hosts and replies. */
  lemma DeliverApart(s: Behaviour.System, hosts: seq<Host>, replies: seq<Reply>, message: Datagram, sender: NetAddress,
                     target: nat)
    ensures var (s1, outcome) := Deliver(s, message, sender, target);
            Deliver(s.(hosts := hosts, replies := replies), message, sender, target)
            == (s1.(hosts := hosts, replies := replies), outcome)
  {
  }

  lemma {:induction false} FlushApart(s: Behaviour.System, hosts: seq<Host>, replies: seq<Reply>,
                                      messages: seq<Datagram>, sender: NetAddress, target: nat)
    ensures var (s1, completed) := Flush(s, messages, sender, target);
            Flush(s.(hosts := hosts, replies := replies), messages, sender, target)
            == (s1.(hosts := hosts, replies := replies), completed)
    decreases |messages|
  {
    hide Deliver;
    if messages != [] {
      DeliverApart(s, hosts, replies, messages[0], sender, target);
      FlushApart(Deliver(s, messages[0], sender, target).0, hosts, replies, messages[1..], sender, target);
    }
  }

  lemma ResumeApart(s: Behaviour.System, hosts: seq<Host>, replies: seq<Reply>, i: nat)
    ensures ResumeHandler(s.(hosts := hosts, replies := replies), i)
            == ResumeHandler(s, i).(hosts := hosts, replies := replies)
  {
    hide Flush, BufferKey;
    if i < |s.pending| {
      var p := s.pending[i];
      FlushApart(s.(pending := Without(s.pending, i)), hosts, replies,
                 Dynamic.Buffered(s.buffers, p.Key()), p.sender, p.target);
    }
  }

  class NorayServer {
    const handler: UDPRelayHandler
    const dynamic: DynamicRelaying
    const hosts: HostRepository
    var replies: seq<Reply>

    ghost predicate Valid()
      reads this, handler, handler.pool, handler.pool.sockets.Values, Listeners(handler.pool.sockets),
            handler.constraints
      reads dynamic, hosts
    {
      && dynamic.Valid(handler) && hosts.Valid()
      && {this, dynamic, hosts} !! Footprint(handler)
      && (forall h :: h in hosts.items ==> h !in Footprint(handler))
    }

    /** Every object the server may change, now. */
    ghost function Repr(): set<object>
      reads this, hosts, handler, handler.pool, handler.constraints
    {
      {this, dynamic, hosts} + (set h | h in hosts.items) + Footprint(handler)
    }

    ghost function View(now: real): Behaviour.System
      reads this, dynamic, hosts, hosts.items
      reads handler, handler.pool, handler.pool.sockets.Values
      reads handler.constraints, handler.constraints.limiter, handler.constraints.limiters.Values, handler.table
    {
      dynamic.View(handler, now).(hosts := HostViews(hosts.items), replies := replies)
    }

    constructor (handler: UDPRelayHandler)
      requires handler.Valid()
      ensures this.handler == handler && Valid() && fresh(dynamic) && fresh(hosts)
      ensures hosts.items == [] && dynamic.buffers == map[] && dynamic.pending == [] && replies == []
    {
      this.handler := handler;
      dynamic := new DynamicRelaying();
      hosts := new HostRepository();
      replies := [];
    }

    lemma ListenerAt(port: nat, now: real)
      requires Valid()
      ensures port in View(now).engine.pool.listening
              <==> port in handler.pool.sockets && handler.pool.sockets[port].listener != null
      ensures port in handler.pool.sockets && handler.pool.sockets[port].listener != null ==>
                handler.pool.sockets[port].listener.port == port
    {
    }

    method Relay(message: Datagram, sender: NetAddress, target: nat, now: real) returns (outcome: Outcome)
      requires Valid()
      modifies dynamic, Footprint(handler)
      ensures Valid() && (View(now), outcome) == Deliver(old(View(now)), message, sender, target)
      ensures fresh(Repr() - old(Repr()))
    {
      hide Deliver, HostViews, Constraints.Valid, UDPSocketPool.Valid, DynamicRelaying.View, Footprint;
      DeliverApart(dynamic.View(handler, now), HostViews(hosts.items), replies, message, sender, target);
      outcome := dynamic.Relay(handler, message, sender, target, now);
    }

    /** A packet arrives on one of the relay sockets; a socket without listener ignores it. */
    method Arrive(port: nat, sender: NetAddress, message: Datagram, now: real)
      requires Valid()
      modifies dynamic, Footprint(handler)
      ensures Valid() && View(now) == Act(old(View(now)), Step.Arrive(port, sender, message))
      ensures fresh(Repr() - old(Repr()))
    {
      hide Deliver, NorayServer.View, Constraints.Valid, UDPSocketPool.Valid, Footprint;
      ListenerAt(port, now);
      if port in handler.pool.sockets {
        var listener := handler.pool.sockets[port].listener;
        if listener != null {
          var outcome := Relay(message, sender, listener.port, now);
        }
      }
    }

    /** A waiting handler goes on after its relay was created. */
    method Resume(index: nat, now: real)
      requires Valid()
      modifies dynamic, Footprint(handler)
      ensures Valid() && View(now) == Act(old(View(now)), Step.Resume(index))
      ensures fresh(Repr() - old(Repr()))
    {
      hide ResumeHandler, HostViews, Constraints.Valid, UDPSocketPool.Valid, DynamicRelaying.View, Footprint;
      ResumeApart(dynamic.View(handler, now), HostViews(hosts.items), replies, index);
      dynamic.Resume(handler, index, now);
    }

    /** `register-host`, with the generated identifiers. */
    method RegisterHost(oid: string, pid: string, socket: nat, ghost now: real)
      requires Valid()
      modifies hosts
      ensures Valid() && View(now) == Act(old(View(now)), Step.RegisterHost(oid, pid, socket))
      ensures fresh(Repr() - old(Repr()))
    {
      hide HostViews, AddHost, DynamicRelaying.View, Constraints.Valid, UDPSocketPool.Valid, Footprint;
      ghost var footprint := Footprint(handler);
      assert allocated(footprint);
      var host := new HostEntity(oid, pid, socket);
      var added := hosts.Add(host);
    }

    /** The host's TCP connection closes. */
    method Disconnect(oid: string, ghost now: real)
      requires Valid()
      modifies hosts
      ensures Valid() && View(now) == Act(old(View(now)), Step.Disconnect(oid))
      ensures fresh(Repr() - old(Repr()))
    {
      hide HostViews, RemoveHost, UDPRelayHandler.View, Constraints.Valid, UDPSocketPool.Valid, Footprint;
      var removed := hosts.Remove(oid);
    }

    /** `getRelay`: the port of the relay for a registered address. */
    method GetRelay(rinfo: Option<NetAddress>, now: real) returns (port: Option<nat>)
      requires Valid()
      modifies Footprint(handler)
      ensures Valid() && fresh(Repr() - old(Repr())) && fresh(Footprint(handler) - old(Footprint(handler)))
      ensures var (e, p) := Behaviour.GetRelay(old(View(now)).engine, rinfo);
              View(now) == old(View(now)).(engine := e) && port == p
    {
      hide UDPRelayHandler.View, Constraints.Valid, UDPSocketPool.Valid, Spec.CreateRelay, HostViews, Footprint;
      if rinfo.None? {
        return None;
      }
      port := CreateFor(handler, rinfo.value, 0, now);
    }

    /** Remembers the relay announced for a host. */
    method AssignRelay(i: nat, relay: Option<nat>, ghost now: real)
      requires Valid() && i < |hosts.items|
      modifies hosts.items[i]
      ensures Valid() && fresh(Repr() - old(Repr()))
      ensures var s := old(View(now)); View(now) == s.(hosts := s.hosts[i := s.hosts[i].(relay := relay)])
    {
      hide UDPRelayHandler.View, Constraints.Valid, UDPSocketPool.Valid, HostViews, Footprint;
      hosts.AssignRelay(i, hosts.items[i], relay);
    }

    method Answer(answers: seq<Reply>, ghost now: real)
      requires Valid()
      modifies this
      ensures Valid() && View(now) == old(View(now)).(replies := old(replies) + answers)
      ensures fresh(Repr() - old(Repr()))
    {
      replies := replies + answers;
    }

    method AssignRinfo(i: nat, rinfo: NetAddress, ghost now: real)
      requires Valid() && i < |hosts.items|
      modifies hosts.items[i]
      ensures Valid() && fresh(Repr() - old(Repr()))
      ensures var s := old(View(now)); View(now) == s.(hosts := s.hosts[i := s.hosts[i].(rinfo := Some(rinfo))])
    {
      hide UDPRelayHandler.View, Constraints.Valid, UDPSocketPool.Valid, HostViews, Footprint;
      hosts.AssignRinfo(i, hosts.items[i], rinfo);
    }

    /** The registrar: the first address a host reports is kept. */
    method RegisterAddress(pid: string, rinfo: NetAddress, ghost now: real)
      requires Valid()
      modifies this, hosts.items
      ensures Valid() && View(now) == Act(old(View(now)), Step.RegisterAddress(pid, rinfo))
      ensures fresh(Repr() - old(Repr()))
    {
      hide DynamicRelaying.View, Constraints.Valid, UDPSocketPool.Valid, FindPid, Footprint;
      var i := IndexOfPid(hosts.items, pid);
      if i == |hosts.items| {
        Answer([UnknownPid(rinfo)], now);
        return;
      }
      if hosts.items[i].rinfo.None? {
        AssignRinfo(i, rinfo, now);
      }
      Answer([Registered(rinfo)], now);
    }

    /** The second half of `connect-relay`: the client's relay, and the answers. */
    method ServeClient(socket: nat, h: nat, c: nat, hostPort: nat, now: real)
      requires Valid() && h < |hosts.items| && c < |hosts.items|
      modifies this, hosts.items, Footprint(handler)
      ensures Valid() && fresh(Repr() - old(Repr()))
      ensures var s := old(View(now));
              var (e, port) := Behaviour.GetRelay(s.engine, s.hosts[c].rinfo);
              View(now) == if port.None? then s.(engine := e, replies := s.replies + [CommandFailed(socket)])
                           else s.(engine := e,
                                   hosts := s.hosts[c := s.hosts[c].(relay := port)],
                                   replies := s.replies
                                              + [RelayPort(socket, hostPort), RelayPort(s.hosts[h].socket, port.value)])
    {
      hide DynamicRelaying.View, Constraints.Valid, UDPSocketPool.Valid, Behaviour.GetRelay, Footprint,
           NorayServer.Repr;
      var clientRelay := GetRelay(hosts.items[c].rinfo, now);
      if clientRelay.None? {
        Answer([CommandFailed(socket)], now);
      } else {
        AssignRelay(c, clientRelay, now);
        Answer([RelayPort(socket, hostPort), RelayPort(hosts.items[h].socket, clientRelay.value)], now);
      }
      assert allocated(Repr());
    }

    lemma HostsViewed(now: real)
      ensures View(now).hosts == HostViews(hosts.items) && View(now).replies == replies
    {
      hide DynamicRelaying.View;
    }

    /** `connect-relay`: ensures a relay for both parties and tells each the other's port. The two
        may be the same host. */
    method ConnectRelay(socket: nat, oid: string, now: real)
      requires Valid()
      modifies this, hosts.items, Footprint(handler)
      ensures Valid() && View(now) == Act(old(View(now)), Step.ConnectRelay(socket, oid))
      ensures fresh(Repr() - old(Repr()))
    {
      HostsViewed(now);
      hide NorayServer.View, Constraints.Valid, UDPSocketPool.Valid, Behaviour.GetRelay, FindOid, FindSocket, Footprint,
           NorayServer.Repr;
      var h, c := IndexOfOid(hosts.items, oid), IndexOfSocket(hosts.items, socket);
      if h == |hosts.items| || c == |hosts.items| {
        Answer([CommandFailed(socket)], now);
        return;
      }
      var hostRelay := GetRelay(hosts.items[h].rinfo, now);
      if hostRelay.None? {
        Answer([CommandFailed(socket)], now);
      } else {
        AssignRelay(h, hostRelay, now);
        ServeClient(socket, h, c, hostRelay.value, now);
      }
      assert allocated(Repr());
    }

    /** The cleanup job comes due. */
    method CleanupDue(now: real)
      requires Valid()
      modifies Footprint(handler)
      ensures Valid() && View(now) == Act(old(View(now)), Step.CleanupDue)
      ensures Repr() <= old(Repr())
    {
      hide UDPRelayHandler.View, Constraints.Valid, UDPSocketPool.Valid, HostViews, Cleanup, Footprint;
      CleanupFor(handler, now);
    }

    /** `udpSocketPool.clear()`. */
    method CloseSockets(ghost now: real)
      requires Valid()
      modifies Footprint(handler)
      ensures Valid() && Repr() <= old(Repr()) && Footprint(handler) <= old(Footprint(handler))
      ensures var s := old(View(now)); View(now) == s.(engine := s.engine.(pool := ClosePool(s.engine.pool)))
    {
      hide Constraints.Valid, UDPSocketPool.Valid, UDPRelayHandler.View, ClosePool, HostViews, Footprint;
      ClosePoolOf(handler, now);
    }

    /** `udpRelayHandler.clear()`. */
    method ClearHandler(ghost now: real)
      requires Valid()
      modifies Footprint(handler)
      ensures Valid() && Repr() <= old(Repr())
      ensures var s := old(View(now)); View(now) == s.(engine := ClearTable(s.engine))
    {
      hide Constraints.Valid, UDPSocketPool.Valid, UDPRelayHandler.View, ClearTable, HostViews, Footprint;
      ClearFor(handler, now);
    }

    lemma ShutdownAct(s: Behaviour.System)
      ensures Act(s, Step.Shutdown) == s.(engine := ClearTable(s.engine.(pool := ClosePool(s.engine.pool))))
    {
      hide ClearTable, ClosePool;
    }

    /** Shutdown closes the socket pool, then clears the handler. */
    method Shutdown(ghost now: real)
      requires Valid()
      modifies Footprint(handler)
      ensures Valid() && View(now) == Act(old(View(now)), Step.Shutdown)
      ensures Repr() <= old(Repr())
    {
      ShutdownAct(View(now));
      hide NorayServer.Valid, NorayServer.View, ClearTable, ClosePool, Footprint, NorayServer.Repr;
      CloseSockets(now);
      ClearHandler(now);
    }

    /** The clock moving on changes nothing but the clock. */
    lemma ViewAt(now: real, at: real)
      ensures View(at) == At(View(now), at)
    {
      hide HostViews, Views, Constraints.View, UDPSocketPool.View;
    }

    /** Whatever comes from outside. */
    method Perform(step: Step, now: real)
      requires Valid()
      modifies Repr()
      ensures Valid() && View(now) == Act(old(View(now)), step)
      ensures fresh(Repr() - old(Repr()))
    {
      hide NorayServer.Valid, NorayServer.View, Act, Footprint;
      match step
      case Arrive(port, sender, message) => Arrive(port, sender, message, now);
      case Resume(i) => Resume(i, now);
      case RegisterHost(oid, pid, socket) => RegisterHost(oid, pid, socket, now);
      case Disconnect(oid) => Disconnect(oid, now);
      case RegisterAddress(pid, rinfo) => RegisterAddress(pid, rinfo, now);
      case ConnectRelay(socket, oid) => ConnectRelay(socket, oid, now);
      case CleanupDue => CleanupDue(now);
      case Shutdown => Shutdown(now);
    }
  }
}
