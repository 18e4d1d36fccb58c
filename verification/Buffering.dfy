/** Dynamic relaying inside the server: when a dropped packet gets its sender a relay, what the
    waiting handler then delivers, and exactly when a buffer is never drained. */
module Buffering {
  import opened Addresses
  import opened Limiter
  import opened Engine
  import opened Invariants
  import opened Routing
  import opened System
  import opened Guarantees
  import opened Connecting
  import Dynamic
  import Traffic

  /** A buffer no handler waits for. */
  ghost predicate Stuck(s: System, key: string) {
    key in s.buffers && key !in Dynamic.KeySet(s.pending)
  }

  /** A packet from an unknown sender to a relay, when nothing is buffered for it yet: a handler
      starts waiting if and only if two ports are free. One free port or more strands exactly one;
      with fewer than two, the new buffer is stuck from the start. */
  lemma DropHandled(s: System, sender: NetAddress, target: nat, message: Datagram)
    requires SysInv(s) && !Has(s.engine.table, sender) && BufferKey(sender, target) !in s.buffers
    requires exists b :: Holds(s.engine, b, target)
    ensures var s' := Deliver(s, message, sender, target).0;
            var free, key := s.engine.pool.free, BufferKey(sender, target);
            && s'.buffers == s.buffers[key := [message]]
            && (|free| >= 2 <==> s'.pending == s.pending + [Dynamic.Pending(sender, target)])
            && (|free| < 2 <==> s'.pending == s.pending)
            && (|free| < 2 <==> Stuck(s', key))
            && s'.engine.pool.stranded == s.engine.pool.stranded + (if |free| >= 1 then {free[|free| - 1]} else {})
            && (|free| >= 2 ==>
                  && s'.engine.table
                     == s.engine.table + [Relay(sender, free[|free| - 2], 0.0, s.engine.clock, s.engine.clock)]
                  && s'.engine.trace == s.engine.trace + [Created(s.engine.clock, sender, free[|free| - 2])]
                  && s'.engine.ledgers == s.engine.ledgers)
            && (|free| < 2 ==> s'.engine.table == s.engine.table && s'.engine.trace == s.engine.trace)
  {
    SentIff(s.engine, message, sender, target);
    Unrouted(s.engine, message, sender, target);
    hide Inv, RelayPacket, BufferKey, Has, Dynamic.KeysDistinct;
    var free, key := s.engine.pool.free, BufferKey(sender, target);
    var p := Dynamic.Pending(sender, target);
    if |free| >= 2 {
      var taken := s.engine.(pool := StrandPort(s.engine.pool));
      CreateNew(taken, sender);
      hide CreateRelay;
      assert (s.pending + [p])[|s.pending|].Key() == key;
    } else if |free| == 1 {
      Exhausted(s.engine, sender);
    }
  }

  lemma Unrouted(e: Engine, message: Datagram, sender: NetAddress, target: nat)
    requires !Has(e.table, sender) && exists b :: Holds(e, b, target)
    ensures RelayPacket(e, message, sender, target) == (e, Dropped(false, true))
  {
  }

  lemma Exhausted(e: Engine, sender: NetAddress)
    requires !Has(e.table, sender) && |e.pool.free| == 1
    ensures var taken := e.(pool := StrandPort(e.pool));
            CreateRelay(taken, sender) == (taken, None) && taken.pool.stranded == e.pool.stranded + {e.pool.free[0]}
  {
  }

  /** Everything a dropped packet sets off, up to the `await`. */
  lemma DropExact(s: System, senderKnown: bool, targetKnown: bool, sender: NetAddress, target: nat, message: Datagram)
    ensures var s' := HandleDrop(s, senderKnown, targetKnown, sender, target, message);
            var e, free, key := s.engine, s.engine.pool.free, BufferKey(sender, target);
            if senderKnown || !targetKnown then s' == s
            else if key in s.buffers then s' == s.(buffers := s.buffers[key := s.buffers[key] + [message]])
            else if |free| == 0 then s' == s.(buffers := s.buffers[key := [message]])
            else if !Has(e.table, sender) then
              var lost := e.pool.(free := free[..|free| - 1], stranded := e.pool.stranded + {free[|free| - 1]});
              if |free| == 1 then s' == s.(buffers := s.buffers[key := [message]], engine := e.(pool := lost))
              else
                var port := free[|free| - 2];
                s' == s.(buffers := s.buffers[key := [message]],
                         pending := s.pending + [Dynamic.Pending(sender, target)],
                         engine := e.(pool := lost.(free := free[..|free| - 2], listening := e.pool.listening + {port}),
                                      table := e.table + [Relay(sender, port, 0.0, e.clock, e.clock)],
                                      trace := e.trace + [Created(e.clock, sender, port)]))
            else true
  {
    hide BufferKey, First, Has;
    var e, free := s.engine, s.engine.pool.free;
    StrandExact(e.pool);
    if !Has(e.table, sender) && |free| >= 1 {
      var taken := e.(pool := StrandPort(e.pool));
      if |free| >= 2 {
        CreateNew(taken, sender);
        assert free[..|free| - 1][..|free| - 2] == free[..|free| - 2];
      } else {
        Exhausted(e, sender);
        assert free[..0] == [];
      }
      hide CreateRelay, StrandPort;
    }
  }

  /** A packet on a port nobody listens on changes nothing. */
  lemma Unheard(s: System, port: nat, sender: NetAddress, message: Datagram)
    requires port !in s.engine.pool.listening
    ensures Act(s, Arrive(port, sender, message)) == s
  {
  }

  // -------------------------------------------------------- stuck for good

  /** One step never drains a stuck buffer, it can only grow. */
  lemma StuckStep(s: System, step: Step, key: string)
    requires SysInv(s) && Stuck(s, key)
    ensures var s' := Act(s, step); Stuck(s', key) && s.buffers[key] <= s'.buffers[key]
  {
    BuffersKeep(s, step);
    hide Inv, Flush, Deliver, GetRelay, Cleanup, Routing.Shutdown, BufferKey, Dynamic.KeySet, Dynamic.KeysDistinct,
         ResumeHandler;
    match step
    case Arrive(port, sender, message) =>
      DeliverFrame(s, message, sender, port);
      if BufferKey(sender, port) !in s.buffers {
        Dynamic.AddKey(s.pending, Dynamic.Pending(sender, port));
      }
    case Resume(i) =>
      if i < |s.pending| {
        KeyOf(s.pending, i);
        ResumeFrame(s, i);
        Dynamic.RemoveKey(s.pending, i);
      } else {
        NoHandler(s, i);
      }
    case _ =>
  }

  lemma KeyOf(pending: seq<Dynamic.Pending>, i: nat)
    requires i < |pending|
    ensures pending[i].Key() in Dynamic.KeySet(pending)
  {
  }

  /** A buffer without a handler is never drained: in every continuation its messages are still
      buffered, in order, and no handler waits for them, even when ports become free again. */
  lemma {:induction false} StuckForever(s: System, steps: seq<TimedStep>, key: string)
    requires SysInv(s) && TimelySteps(steps, s.engine.clock) && Stuck(s, key)
    ensures var s' := RunSteps(s, steps); Stuck(s', key) && s.buffers[key] <= s'.buffers[key]
  {
    hide SysInv, Act, BufferKey, Dynamic.KeySet;
    if steps != [] {
      var before, last := steps[..|steps| - 1], steps[|steps| - 1];
      StuckForever(s, before, key);
      RunStepsKeep(s, before);
      var ops := RunStepsOps(s, before);
      var mid := RunSteps(s, before);
      AtKeeps(mid, last.at);
      StuckStep(At(mid, last.at), last.step, key);
    }
  }

  // ---------------------------------------------------------------- delivery

  function SentAll(at: real, a: NetAddress, p: nat, b: NetAddress, messages: seq<Datagram>): seq<Event> {
    seq(|messages|, i requires 0 <= i < |messages| => Sent(at, a, p, b, messages[i]))
  }

  lemma SentAllHead(trace: seq<Event>, at: real, a: NetAddress, p: nat, b: NetAddress, messages: seq<Datagram>, m: nat)
    requires m < |messages|
    ensures (trace + [Sent(at, a, p, b, messages[0])]) + SentAll(at, a, p, b, messages[1..][..m])
            == trace + SentAll(at, a, p, b, messages[..m + 1])
  {
  }

  lemma PacketTable(e: Engine, message: Datagram, a: NetAddress, q: nat)
    ensures var e' := RelayPacket(e, message, a, q).0;
            var i, j := IndexOf(e.table, a), IndexOfPort(e.table, q);
            && e'.clock == e.clock && e'.pool == e.pool
            && (e'.table == e.table || (i < |e.table| && j < |e.table| && e'.table == Touch(e.table, i, j, e.clock)))
  {
    hide Vet, Touch, IndexOf, IndexOfPort;
  }

  lemma TouchHolds(table: seq<Relay>, i: nat, j: nat, now: real, a: NetAddress, p: nat)
    requires i < |table| && j < |table|
    requires exists r :: r in table && r.address == a && r.port == p
    ensures exists r :: r in Touch(table, i, j, now) && r.address == a && r.port == p
  {
    TouchShape(table, i, j, now);
    hide Touch;
    var r :| r in table && r.address == a && r.port == p;
    var k :| 0 <= k < |table| && table[k] == r;
    assert Touch(table, i, j, now)[k] in Touch(table, i, j, now);
  }

  lemma DeliveredHolds(e: Engine, message: Datagram, a: NetAddress, p: nat, b: NetAddress, q: nat)
    requires Inv(e) && Holds(e, a, p) && Holds(e, b, q) && p in e.pool.ports
    ensures var e' := RelayPacket(e, message, a, q).0;
            e'.clock == e.clock && e'.pool == e.pool && Holds(e', a, p) && Holds(e', b, q)
  {
    PacketTable(e, message, a, q);
    hide Inv, RelayPacket, Touch;
    var i, j, now := IndexOf(e.table, a), IndexOfPort(e.table, q), e.clock;
    if i < |e.table| && j < |e.table| {
      TouchHolds(e.table, i, j, now, a, p);
      TouchHolds(e.table, i, j, now, b, q);
    }
  }

  // ---------------------------------------------- which messages get through

  /** How many of the messages the listeners accept one after the other, each on the ledgers the one
      before it left; the first rejection ends the count. */
  function Passing(config: Config, l: Ledgers, source: Relay, messages: seq<Datagram>, now: real): (n: nat)
    ensures n <= |messages|
    decreases |messages|
  {
    if messages == [] then 0
    else
      var (charged, verdict) := Vet(config, l, source, |messages[0]|, now);
      if verdict == Accepted then 1 + Passing(config, charged, source, messages[1..], now) else 0
  }

  /** The ledgers once the listeners looked at all of the messages. */
  function Charged(config: Config, l: Ledgers, source: Relay, messages: seq<Datagram>, now: real): Ledgers
    decreases |messages|
  {
    if messages == [] then l
    else Charged(config, Vet(config, l, source, |messages[0]|, now).0, source, messages[1..], now)
  }

  /** All four constraints accept message `k` after the messages before it. */
  ghost predicate AcceptedAt(config: Config, l: Ledgers, source: Relay, messages: seq<Datagram>, now: real, k: nat)
    requires k < |messages|
  {
    AllAccept(config, Charged(config, l, source, messages[..k], now), source, |messages[k]|, now)
  }

  lemma AcceptedShift(config: Config, l: Ledgers, source: Relay, messages: seq<Datagram>, now: real, k: nat)
    requires 0 < k < |messages|
    ensures AcceptedAt(config, l, source, messages, now, k)
            == AcceptedAt(config, Vet(config, l, source, |messages[0]|, now).0, source, messages[1..], now, k - 1)
  {
    assert messages[..k][1..] == messages[1..][..k - 1];
    hide Vet, AllAccept;
  }

  /** The count stops at the first message that some constraint rejects. */
  lemma {:induction false} PassingExact(config: Config, l: Ledgers, source: Relay, messages: seq<Datagram>, now: real)
    ensures var n := Passing(config, l, source, messages, now);
            && (forall k :: 0 <= k < n ==> AcceptedAt(config, l, source, messages, now, k))
            && (n < |messages| ==> !AcceptedAt(config, l, source, messages, now, n))
    decreases |messages|
  {
    if messages != [] {
      var charged := Vet(config, l, source, |messages[0]|, now).0;
      VetAccepts(config, l, source, |messages[0]|, now);
      PassingExact(config, charged, source, messages[1..], now);
      assert AcceptedAt(config, l, source, messages, now, 0) == AllAccept(config, l, source, |messages[0]|, now) by {
        assert messages[..0] == [];
      }
      var n := Passing(config, l, source, messages, now);
      hide Vet, AllAccept, AcceptedAt;
      forall k | 0 < k < |messages|
        ensures AcceptedAt(config, l, source, messages, now, k)
                == AcceptedAt(config, charged, source, messages[1..], now, k - 1)
      {
        AcceptedShift(config, l, source, messages, now, k);
      }
    }
  }

  /** The listeners look at a relay's identity and age only, not at its timings. */
  lemma {:induction false} PassingCarried(config: Config, l: Ledgers, r: Relay, r': Relay, messages: seq<Datagram>,
                                          now: real)
    requires Carried(r, r')
    ensures Passing(config, l, r, messages, now) == Passing(config, l, r', messages, now)
    decreases |messages|
  {
    if messages != [] {
      VetCarried(config, l, r, r', |messages[0]|, now);
      hide Vet;
      PassingCarried(config, Vet(config, l, r, |messages[0]|, now).0, r, r', messages[1..], now);
    }
  }

  lemma {:induction false} ChargedCarried(config: Config, l: Ledgers, r: Relay, r': Relay, messages: seq<Datagram>,
                                          now: real)
    requires Carried(r, r')
    ensures Charged(config, l, r, messages, now) == Charged(config, l, r', messages, now)
    decreases |messages|
  {
    if messages != [] {
      VetCarried(config, l, r, r', |messages[0]|, now);
      hide Vet;
      ChargedCarried(config, Vet(config, l, r, |messages[0]|, now).0, r, r', messages[1..], now);
    }
  }

  lemma ChargedHead(config: Config, l: Ledgers, source: Relay, messages: seq<Datagram>, k: nat, now: real)
    requires 0 < k <= |messages|
    ensures Charged(config, l, source, messages[..k], now)
            == Charged(config, Vet(config, l, source, |messages[0]|, now).0, source, messages[1..][..k - 1], now)
  {
    assert messages[..k][1..] == messages[1..][..k - 1];
    hide Vet;
  }

  lemma VetCarried(config: Config, l: Ledgers, r: Relay, r': Relay, size: nat, now: real)
    requires Carried(r, r')
    ensures Vet(config, l, r, size, now) == Vet(config, l, r', size, now)
  {
    hide Product, RelayId;
  }

  /** One message of a relay to another: the listeners decide, and both relays stay. */
  lemma DeliverOne(e: Engine, message: Datagram, r: Relay, b: NetAddress, q: nat) returns (r': Relay)
    requires Inv(e) && r in e.table && Holds(e, b, q) && r.port in e.pool.ports
    ensures var (e', outcome) := RelayPacket(e, message, r.address, q);
            var (charged, verdict) := Vet(e.config, e.ledgers, r, |message|, e.clock);
            && outcome == (if verdict == Accepted then Delivered else Rejected)
            && e'.ledgers == charged && e'.config == e.config && e'.clock == e.clock && e'.pool == e.pool
            && e'.trace == (if verdict == Accepted then e.trace + [Sent(e.clock, r.address, r.port, b, message)]
                            else e.trace)
            && Inv(e') && Holds(e', b, q)
            && r' in e'.table && Carried(r, r')
  {
    var k :| 0 <= k < |e.table| && e.table[k] == r;
    Found(e.table, k);
    PacketRoute(e, message, r.address, r.port, b, q);
    PacketKeeps(e, message, r.address, q);
    Traffic.PacketEffect(e, message, r.address, q);
    DeliveredHolds(e, message, r.address, r.port, b, q);
    PacketKeepsEntry(e, message, r.address, q, k);
    r' := RelayPacket(e, message, r.address, q).0.table[k];
    hide Inv, RelayPacket, Vet, IndexOf, IndexOfPort;
    assert e.trace + [Sent(e.clock, r.address, r.port, b, message)] != e.trace;
  }

  lemma PacketKeepsEntry(e: Engine, message: Datagram, a: NetAddress, q: nat, k: nat)
    requires k < |e.table|
    ensures var e' := RelayPacket(e, message, a, q).0;
            |e'.table| == |e.table| && Carried(e.table[k], e'.table[k])
  {
    PacketTable(e, message, a, q);
    hide RelayPacket, Touch, IndexOf, IndexOfPort;
    var i, j := IndexOf(e.table, a), IndexOfPort(e.table, q);
    if i < |e.table| && j < |e.table| {
      TouchShape(e.table, i, j, e.clock);
    }
  }

  lemma SameAddress(r: Relay, r': Relay)
    requires Carried(r, r')
    ensures r'.address == r.address && r'.port == r.port
  {
  }

  lemma FlushHead(s: System, messages: seq<Datagram>, sender: NetAddress, target: nat)
    requires messages != [] && !RelayPacket(s.engine, messages[0], sender, target).1.Dropped?
    ensures var (e, outcome) := RelayPacket(s.engine, messages[0], sender, target);
            var s1 := s.(engine := e);
            Flush(s, messages, sender, target)
            == if outcome == Rejected then (s1, false) else Flush(s1, messages[1..], sender, target)
  {
    hide RelayPacket, HandleDrop;
  }

  /** With both relays in place, a handler sends its buffered messages in order, each once, from the
      sender's port to the target, up to the first one a constraint rejects; its loop completes if
      and only if none is rejected. The ledgers are charged for the messages sent and the one rejected. */
  lemma {:induction false} FlushDelivers(s: System, messages: seq<Datagram>, r: Relay, b: NetAddress, q: nat)
    requires Inv(s.engine) && r in s.engine.table && Holds(s.engine, b, q) && r.port in s.engine.pool.ports
    ensures var e := s.engine;
            var n := Passing(e.config, e.ledgers, r, messages, e.clock);
            var (s', completed) := Flush(s, messages, r.address, q);
            && s'.engine.trace == e.trace + SentAll(e.clock, r.address, r.port, b, messages[..n])
            && (completed <==> n == |messages|)
            && s'.engine.ledgers
               == Charged(e.config, e.ledgers, r, messages[..if n < |messages| then n + 1 else n], e.clock)
            && s'.buffers == s.buffers && s'.pending == s.pending
    decreases |messages|
  {
    hide Inv, RelayPacket, Deliver, Holds, Vet, Carried;
    var e := s.engine;
    if messages == [] {
      assert e.trace + [] == e.trace;
    } else {
      var (e1, outcome) := RelayPacket(e, messages[0], r.address, q);
      var r1 := DeliverOne(e, messages[0], r, b, q);
      FlushHead(s, messages, r.address, q);
      hide Flush;
      SameAddress(r, r1);
      if outcome == Delivered {
        FlushDelivers(s.(engine := e1), messages[1..], r1, b, q);
        var rest := messages[1..];
        PassingCarried(e.config, e1.ledgers, r, r1, rest, e.clock);
        var m := Passing(e.config, e1.ledgers, r, rest, e.clock);
        SentAllHead(e.trace, e.clock, r.address, r.port, b, messages, m);
        var asked := if m < |rest| then m + 1 else m;
        ChargedCarried(e.config, e1.ledgers, r, r1, rest[..asked], e.clock);
        ChargedHead(e.config, e.ledgers, r, messages, asked + 1, e.clock);
      } else {
        ChargedHead(e.config, e.ledgers, r, messages, 1, e.clock);
        assert e.trace + SentAll(e.clock, r.address, r.port, b, []) == e.trace;
      }
    }
  }

  /** The packets from a sender to a port are put to the constraints. */
  predicate Routed(e: Engine, sender: NetAddress, target: nat) {
    var i := IndexOf(e.table, sender);
    i < |e.table| && IndexOfPort(e.table, target) < |e.table| && e.table[i].port in e.pool.ports
  }

  /** No constraint rejects any of the messages in turn, if they come to be asked at all. */
  predicate AllPass(e: Engine, messages: seq<Datagram>, sender: NetAddress, target: nat) {
    Routed(e, sender, target) ==>
      Passing(e.config, e.ledgers, e.table[IndexOf(e.table, sender)], messages, e.clock) == |messages|
  }

  /** Messages that are not routed change nothing outside their own buffer, and none is rejected. */
  lemma {:induction false} FlushUnrouted(s: System, messages: seq<Datagram>, sender: NetAddress, target: nat)
    requires !Routed(s.engine, sender, target) && BufferKey(sender, target) in s.buffers
    ensures Flush(s, messages, sender, target).1 && Flush(s, messages, sender, target).0.engine == s.engine
    decreases |messages|
  {
    if messages != [] {
      Unasked(s.engine, messages[0], sender, target);
      hide RelayPacket, Routed, BufferKey, CreateRelay;
      FlushUnrouted(Deliver(s, messages[0], sender, target).0, messages[1..], sender, target);
    }
  }

  lemma Unasked(e: Engine, message: Datagram, sender: NetAddress, target: nat)
    requires !Routed(e, sender, target)
    ensures var (e', outcome) := RelayPacket(e, message, sender, target);
            e' == e && (outcome.Dropped? || outcome.NoSocket?)
  {
    hide IndexOf, IndexOfPort;
  }

  /** Handing the messages of a buffer over completes if and only if the constraints would let all of
      them pass; what it sends is the messages before the first that they would not. */
  lemma FlushIff(s: System, messages: seq<Datagram>, sender: NetAddress, target: nat)
    requires Inv(s.engine) && BufferKey(sender, target) in s.buffers
    ensures var e := s.engine;
            var (s', completed) := Flush(s, messages, sender, target);
            && (completed <==> AllPass(e, messages, sender, target))
            && (if Routed(e, sender, target) then
                  var r, d := e.table[IndexOf(e.table, sender)], e.table[IndexOfPort(e.table, target)];
                  var n := Passing(e.config, e.ledgers, r, messages, e.clock);
                  s'.engine.trace == e.trace + SentAll(e.clock, sender, r.port, d.address, messages[..n])
                else s'.engine == e)
  {
    hide Inv, Flush, IndexOf, IndexOfPort, BufferKey, Passing;
    var e := s.engine;
    if Routed(e, sender, target) {
      var r, d := e.table[IndexOf(e.table, sender)], e.table[IndexOfPort(e.table, target)];
      assert r in e.table && d in e.table;
      FlushDelivers(s, messages, r, d.address, target);
    } else {
      FlushUnrouted(s, messages, sender, target);
    }
  }

  /** First packet: an unknown sender writes to a relay's port, two ports are free and nothing is
      buffered for it. The sender gets a relay on the second-last free port at once, the table gains
      that entry and no other, and if the waiting handler runs next the packet reaches the target
      through the new port if and only if the constraints accept it; if they do not, the buffer is
      stuck. */
  lemma FirstPacket(s: System, a: NetAddress, b: NetAddress, q: nat, message: Datagram, at1: real, at2: real)
    requires SysInv(s) && s.engine.clock <= at1 <= at2
    requires Holds(s.engine, b, q) && !Has(s.engine.table, a)
    requires |s.engine.pool.free| >= 2 && BufferKey(a, q) !in s.buffers
    ensures var e, key := s.engine, BufferKey(a, q);
            var p := e.pool.free[|e.pool.free| - 2];
            var r := Relay(a, p, 0.0, at1, at1);
            var arrived := Next(s, TimedStep(at1, Arrive(q, a, message)));
            var resumed := Next(arrived, TimedStep(at2, Resume(|s.pending|)));
            && arrived.engine.table == e.table + [r]
            && |resumed.engine.table| == |e.table| + 1
            && resumed.pending == s.pending
            && (if AllAccept(e.config, e.ledgers, r, |message|, at2)
                then resumed.engine.trace == e.trace + [Created(at1, a, p), Sent(at2, a, p, b, message)]
                     && resumed.buffers == s.buffers
                else resumed.engine.trace == e.trace + [Created(at1, a, p)] && Stuck(resumed, key))
  {
    var s0 := At(s, at1);
    AtKeeps(s, at1);
    assert Holds(s0.engine, b, q);
    OpenPool(s0.engine);
    Listening(s0.engine, b, q, s0.engine.pool.free[0]);
    DropHandled(s0, a, q, message);
    NextKeeps(s, TimedStep(at1, Arrive(q, a, message)));
    hide SysInv, Deliver, BufferKey, Act;
    ActArrive(s0, q, a, message);
    var arrived := Next(s, TimedStep(at1, Arrive(q, a, message)));
    FirstResume(s, arrived, a, b, q, message, at1, at2);
  }

  lemma ActArrive(s: System, port: nat, sender: NetAddress, message: Datagram)
    requires port in s.engine.pool.listening
    ensures Act(s, Arrive(port, sender, message)) == Deliver(s, message, sender, port).0
  {
  }

  lemma OpenPool(e: Engine)
    requires Inv(e) && e.pool.free != []
    ensures e.pool.free[0] in e.pool.ports && |e.pool.free| >= 2 ==> e.pool.free[|e.pool.free| - 2] in e.pool.ports
  {
  }

  /** The second half: the handler resumes in the state the arrival left. */
  lemma FirstResume(s: System, arrived: System, a: NetAddress, b: NetAddress, q: nat, message: Datagram, at1: real,
                    at2: real)
    requires SysInv(s) && SysInv(arrived) && at1 <= at2 && arrived.engine.clock == at1
    requires Holds(s.engine, b, q) && !Has(s.engine.table, a) && |s.engine.pool.free| >= 2
             && BufferKey(a, q) !in s.buffers
    requires var p := s.engine.pool.free[|s.engine.pool.free| - 2];
             && arrived.engine.table == s.engine.table + [Relay(a, p, 0.0, at1, at1)]
             && arrived.engine.trace == s.engine.trace + [Created(at1, a, p)]
             && arrived.engine.ledgers == s.engine.ledgers && arrived.engine.config == s.engine.config
             && p in arrived.engine.pool.ports
    requires arrived.buffers == s.buffers[BufferKey(a, q) := [message]]
    requires arrived.pending == s.pending + [Dynamic.Pending(a, q)]
    ensures var e, key := s.engine, BufferKey(a, q);
            var p := e.pool.free[|e.pool.free| - 2];
            var r := Relay(a, p, 0.0, at1, at1);
            var resumed := Next(arrived, TimedStep(at2, Resume(|s.pending|)));
            && |resumed.engine.table| == |e.table| + 1
            && resumed.pending == s.pending
            && (if AllAccept(e.config, e.ledgers, r, |message|, at2)
                then resumed.engine.trace == e.trace + [Created(at1, a, p), Sent(at2, a, p, b, message)]
                     && resumed.buffers == s.buffers
                else resumed.engine.trace == e.trace + [Created(at1, a, p)] && Stuck(resumed, key))
  {
    hide Inv, RelayPacket, AllAccept, BufferKey, HandleDrop, Flush, Dynamic.KeySet, Dynamic.KeysDistinct;
    var p := s.engine.pool.free[|s.engine.pool.free| - 2];
    var r := Relay(a, p, 0.0, at1, at1);
    var now := At(arrived, at2);
    AtKeeps(arrived, at2);
    assert now.engine.table[|s.engine.table|] == r;
    FirstSent(now.engine, s.engine.table, r, b, q, message);
    var k, key := |s.pending|, BufferKey(a, q);
    LastPending(s.pending, Dynamic.Pending(a, q));
    FlushOne(now.(pending := s.pending), message, a, q);
    assert s.buffers[key := [message]] - {key} == s.buffers;
    assert s.engine.trace + [Created(at1, a, p)] + [Sent(at2, a, p, b, message)]
        == s.engine.trace + [Created(at1, a, p), Sent(at2, a, p, b, message)];
    StillStuck(s, key);
  }

  lemma StillStuck(s: System, key: string)
    requires SysInv(s) && key !in s.buffers
    ensures key !in Dynamic.KeySet(s.pending)
  {
  }

  lemma LastPending(pending: seq<Dynamic.Pending>, p: Dynamic.Pending)
    ensures (pending + [p])[|pending|] == p && Without(pending + [p], |pending|) == pending
  {
  }

  /** The packet of a relay that was just added to the table. */
  lemma FirstSent(e: Engine, table: seq<Relay>, r: Relay, b: NetAddress, q: nat, message: Datagram)
    requires Inv(e) && e.table == table + [r] && r.port in e.pool.ports
    requires exists d :: d in table && d.address == b && d.port == q
    ensures var (e', outcome) := RelayPacket(e, message, r.address, q);
            && |e'.table| == |table| + 1
            && (if AllAccept(e.config, e.ledgers, r, |message|, e.clock)
                then outcome == Delivered && e'.trace == e.trace + [Sent(e.clock, r.address, r.port, b, message)]
                else outcome == Rejected && e'.trace == e.trace)
  {
    var d :| d in table && d.address == b && d.port == q;
    assert e.table[|table|] == r && r in e.table && d in e.table;
    PacketRoute(e, message, r.address, r.port, b, q);
    SentIff(e, message, r.address, q);
    OneSender(e, r);
    PacketTableSize(e, message, r.address, q);
    hide Inv, RelayPacket, AllAccept;
  }

  lemma PacketTableSize(e: Engine, message: Datagram, a: NetAddress, q: nat)
    ensures |RelayPacket(e, message, a, q).0.table| == |e.table|
  {
  }

  lemma FlushOne(s: System, message: Datagram, sender: NetAddress, target: nat)
    ensures var (s1, outcome) := Deliver(s, message, sender, target);
            Flush(s, [message], sender, target) == (s1, outcome != Rejected)
  {
  }
}
