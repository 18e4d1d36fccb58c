/** The socket pool as objects: sockets, their message listeners, and the free list. */
module Sockets {
  import opened Addresses
  import opened Spec = Engine

  /** A relay-table entry. The handler assigns its port and moves its timestamps in place. */
  class RelayEntry {
    const address: NetAddress
    var port: nat
    var lastSent: real
    var lastReceived: real
    var created: real

    ghost function View(): Relay
      reads this
    {
      Relay(address, port, lastSent, lastReceived, created)
    }

    function Id(): string
      reads this
    {
      RelayId(address, port)
    }

    constructor (address: NetAddress, port: nat, now: real)
      ensures View() == Relay(address, port, 0.0, 0.0, now)
    {
      this.address, this.port := address, port;
      lastSent, lastReceived, created := 0.0, 0.0, now;
    }
  }

  /** A bound UDP socket. A packet arriving on it is relayed to the port of its listener. */
  class UdpSocket {
    const port: nat
    var listener: RelayEntry?
    var closes: nat

    constructor (port: nat)
      ensures this.port == port && listener == null && closes == 0
    {
      this.port, listener, closes := port, null, 0;
    }
  }

  /** Ports whose socket has a message listener. */
  ghost function Listening(sockets: map<nat, UdpSocket>): set<nat>
    reads sockets.Values
  {
    set p | p in sockets && sockets[p].listener != null
  }

  class UDPSocketPool {
    var sockets: map<nat, UdpSocket>
    var freePorts: seq<nat>
    /** Model only: ports closed so far, and ports that dynamic relaying took and lost. */
    ghost var closed: multiset<nat>
    ghost var stranded: set<nat>

    ghost predicate Valid()
      reads this, sockets.Values
    {
      && (forall p :: p in sockets ==> sockets[p].port == p && sockets[p].closes == 0)
      && (forall p, q :: p in sockets && q in sockets && p != q ==> sockets[p] != sockets[q])
      && (forall p :: p in freePorts ==> p in sockets)
      && stranded <= sockets.Keys
    }

    ghost function View(): Pool
      reads this, sockets.Values
    {
      Pool(sockets.Keys, freePorts, Listening(sockets), closed, stranded)
    }

    constructor ()
      ensures Valid() && View() == Pool({}, [], {}, multiset{}, {})
      ensures sockets == map[]
    {
      sockets, freePorts, closed, stranded := map[], [], multiset{}, {};
    }

    /** Adds a bound socket; the operating system never binds a port twice. */
    method AddSocket(socket: UdpSocket) returns (port: nat)
      requires Valid() && socket.port !in sockets && socket !in sockets.Values && socket.listener == null
               && socket.closes == 0
      modifies this
      ensures Valid() && port == socket.port && sockets == old(sockets)[port := socket]
      ensures View() == old(View()).(ports := old(View()).ports + {port}, free := old(freePorts) + [port])
    {
      port := socket.port;
      sockets := sockets[port := socket];
      freePorts := freePorts + [port];
    }

    method DeallocatePort(port: nat)
      requires Valid()
      modifies this, if port in sockets then {sockets[port]} else {}
      ensures Valid() && sockets == old(sockets) - {port} && stranded == old(stranded) - {port}
      ensures freePorts == old(Keep(freePorts, port))
      ensures closed == if port in old(sockets) then old(closed) + multiset{port} else old(closed)
      ensures port in old(sockets) ==> old(sockets)[port].closes == 1
    {
      if port in sockets {
        sockets[port].closes := sockets[port].closes + 1;
        closed := closed + multiset{port};
      }
      sockets := sockets - {port};
      freePorts := Keep(freePorts, port);
      stranded := stranded - {port};
    }

    method GetPort() returns (port: Option<nat>)
      requires Valid()
      modifies this`freePorts
      ensures Valid() && (View(), port) == TakePort(old(View()))
    {
      if |freePorts| == 0 {
        return None;
      }
      port := Some(freePorts[|freePorts| - 1]);
      freePorts := freePorts[..|freePorts| - 1];
    }

    method ReturnPort(port: nat)
      requires Valid()
      modifies this`freePorts
      ensures Valid() && View() == Spec.ReturnPort(old(View()), port)
    {
      if port !in sockets {
        return;
      }
      freePorts := freePorts + [port];
    }

    /** The pool still manages some of the sockets it had and has closed the others, each once. */
    ghost predicate Closing(before: map<nat, UdpSocket>)
      reads this, sockets.Values, before.Values
    {
      && Valid()
      && (forall p, q :: p in before && q in before && p != q ==> before[p] != before[q])
      && (forall p :: p in sockets ==> p in before && sockets[p] == before[p])
      && (forall p :: p in before && p !in sockets ==> before[p].closes == 1)
    }

    method DeallocateNext(port: nat, ghost before: map<nat, UdpSocket>)
      requires Closing(before) && port in sockets
      modifies this, sockets[port]
      ensures Closing(before) && sockets == old(sockets) - {port} && closed == old(closed) + multiset{port}
    {
      hide Keep;
      DeallocatePort(port);
    }

    /** Deallocates every managed port, in whatever order; each socket, open until then, is closed once. */
    method Clear()
      requires Valid()
      modifies this, sockets.Values
      ensures Valid() && sockets == map[] && View() == ClosePool(old(View()))
      ensures forall p :: p in old(sockets) ==> old(sockets)[p].closes == 1
    {
      hide Keep;
      var ports := sockets.Keys;
      ghost var before, count := sockets, closed;
      while ports != {}
        invariant Closing(before) && ports == sockets.Keys
        invariant closed + multiset(ports) == count + multiset(before.Keys)
        decreases ports
      {
        var port :| port in ports;
        DeallocateNext(port, before);
        TakeOne(ports, port);
        ports := ports - {port};
      }
      FirstLeft(freePorts, ports);
      Emptied();
    }

    lemma Emptied()
      requires sockets == map[] && freePorts == [] && stranded == {}
      ensures View() == Pool({}, [], {}, closed, {})
    {
    }
  }

  lemma FirstLeft(s: seq<nat>, ports: set<nat>)
    requires forall p :: p in s ==> p in ports
    ensures s != [] ==> s[0] in ports
  {
  }

  lemma TakeOne(ports: set<nat>, port: nat)
    requires port in ports
    ensures multiset(ports) == multiset(ports - {port}) + multiset{port}
  {
  }

  /** The list without one port. */
  function Keep(ports: seq<nat>, port: nat): (r: seq<nat>)
    ensures forall p :: p in r <==> p in ports && p != port
  {
    if ports == [] then [] else (if ports[0] == port then [] else [ports[0]]) + Keep(ports[1..], port)
  }
}
