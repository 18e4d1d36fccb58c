/** Start-up of the relay module: the configured ports are bound one after the other, then the
    constraints and dynamic relaying are put in place. */
module Startup {
  import opened Spec = Engine
  import opened Sockets
  import opened Handler
  import opened Behaviour = System
  import opened Server

  /** The ports that were bound, in order; a port that could not be bound is ignored. */
  function Bound(answers: seq<Option<nat>>): seq<nat> {
    if answers == [] then []
    else
      var last := answers[|answers| - 1];
      Bound(answers[..|answers| - 1]) + if last.Some? then [last.value] else []
  }

  /** A configured port is bound as asked for; for 0 the operating system chooses a port that is not
      bound, and it stays bound. */
  ghost predicate Answers(ports: seq<nat>, answers: seq<Option<nat>>) {
    && |answers| == |ports|
    && (forall i :: 0 <= i < |ports| && answers[i].Some? && ports[i] != 0 ==> answers[i].value == ports[i])
    && (forall i, j :: 0 <= i < |ports| && 0 <= j < |ports| && i != j && ports[i] == 0 && answers[i].Some? ==>
          answers[i] != answers[j])
  }

  lemma {:induction false} BoundMember(answers: seq<Option<nat>>, p: nat)
    ensures p in Bound(answers) ==> Some(p) in answers
  {
    if answers != [] {
      BoundMember(answers[..|answers| - 1], p);
    }
  }

  /** Configured ports without repetition are bound without repetition. */
  lemma {:induction false} BoundDistinct(ports: seq<nat>, answers: seq<Option<nat>>)
    requires Answers(ports, answers) && NoDuplicates(ports)
    ensures NoDuplicates(Bound(answers))
  {
    if answers != [] {
      var before, last := answers[..|answers| - 1], answers[|answers| - 1];
      BoundDistinct(ports[..|ports| - 1], before);
      if last.Some? {
        BoundMember(before, last.value);
        forall i | 0 <= i < |before|
          ensures before[i] != last
        {
          assert ports[i] != ports[|ports| - 1];
        }
      }
    }
  }

  lemma {:induction false} BoundPrefix(answers: seq<Option<nat>>, k: nat)
    requires k <= |answers|
    ensures Bound(answers[..k]) <= Bound(answers)
  {
    if k < |answers| {
      BoundPrefix(answers[..|answers| - 1], k);
      assert answers[..|answers| - 1][..k] == answers[..k];
    } else {
      assert answers[..k] == answers;
    }
  }

  lemma BoundAppend(answers: seq<Option<nat>>, k: nat)
    requires k < |answers|
    ensures Bound(answers[..k + 1]) == Bound(answers[..k]) + if answers[k].Some? then [answers[k].value] else []
  {
    assert answers[..k + 1][..k] == answers[..k];
  }

  lemma LastIsNew(all: seq<nat>, before: seq<nat>, port: nat)
    requires NoDuplicates(all) && before + [port] <= all
    ensures port !in before
  {
    assert all[|before|] == port;
    assert forall i :: 0 <= i < |before| ==> all[i] == before[i];
  }

  /** The next bound port is none of those bound before it. */
  lemma BoundNext(answers: seq<Option<nat>>, k: nat)
    requires k < |answers| && NoDuplicates(Bound(answers))
    ensures answers[k].Some? ==> answers[k].value !in Bound(answers[..k])
    ensures Bound(answers[..k + 1]) == Bound(answers[..k]) + if answers[k].Some? then [answers[k].value] else []
  {
    hide Bound, NoDuplicates;
    BoundPrefix(answers, k + 1);
    BoundAppend(answers, k);
    if answers[k].Some? {
      LastIsNew(Bound(answers), Bound(answers[..k]), answers[k].value);
    }
  }

  /** The loop over the configured ports. */
  method BindPorts(answers: seq<Option<nat>>) returns (pool: UDPSocketPool)
    requires NoDuplicates(Bound(answers))
    ensures fresh(pool) && fresh(pool.sockets.Values) && pool.Valid()
    ensures forall p :: p in pool.sockets ==> pool.sockets[p].listener == null
    ensures pool.View() == Pool((set p | p in Bound(answers)), Bound(answers), {}, multiset{}, {})
  {
    pool := new UDPSocketPool();
    for i := 0 to |answers|
      invariant fresh(pool) && fresh(pool.sockets.Values) && pool.Valid()
      invariant forall p :: p in pool.sockets ==> pool.sockets[p].listener == null
      invariant pool.View() == Pool((set p | p in Bound(answers[..i])), Bound(answers[..i]), {}, multiset{}, {})
    {
      BoundNext(answers, i);
      if answers[i].Some? {
        var socket := new UdpSocket(answers[i].value);
        ghost var others := pool.sockets;
        var port := pool.AddSocket(socket);
        assert pool.sockets.Values <= others.Values + {socket};
      }
    }
    assert answers[..|answers|] == answers;
  }

  /** The handler with its constraints, on the ports that could be bound. */
  method MakeHandler(config: Config, answers: seq<Option<nat>>, now: real) returns (handler: UDPRelayHandler)
    requires NoDuplicates(Bound(answers))
    ensures handler.Valid() && fresh(Footprint(handler))
    ensures handler.View(now) == Start(config, Bound(answers), now)
  {
    hide Bound, UDPSocketPool.Valid, UDPSocketPool.View;
    var pool := BindPorts(answers);
    var constraints := new Constraints(config, now);
    handler := new UDPRelayHandler(pool, constraints);
  }

  /** Start-up: bind, register the constraints, apply dynamic relaying. */
  method Startup(config: Config, answers: seq<Option<nat>>, now: real) returns (server: NorayServer)
    requires NoDuplicates(Bound(answers))
    ensures fresh(server.Repr()) && server.Valid()
    ensures server.View(now) == StartSystem(config, Bound(answers), now)
  {
    hide Bound, Start, Footprint, UDPRelayHandler.Valid, UDPRelayHandler.View;
    var handler := MakeHandler(config, answers, now);
    server := new NorayServer(handler);
    assert allocated(Footprint(handler));
  }

  /** The whole program: start-up, then whatever comes from outside, step by step. What is proved
      about `RunSteps` holds of the objects. */
  method Serve(config: Config, answers: seq<Option<nat>>, start: real, steps: seq<TimedStep>)
    returns (server: NorayServer, clock: real)
    requires NoDuplicates(Bound(answers))
    ensures fresh(server.Repr()) && server.Valid()
    ensures server.View(clock) == RunSteps(StartSystem(config, Bound(answers), start), steps)
    ensures clock == if steps == [] then start else steps[|steps| - 1].at
  {
    hide Bound, Act, NorayServer.Valid, NorayServer.View, NorayServer.Repr, StartSystem;
    server := Startup(config, answers, start);
    clock := start;
    for i := 0 to |steps|
      invariant fresh(server.Repr()) && server.Valid()
      invariant server.View(clock) == RunSteps(StartSystem(config, Bound(answers), start), steps[..i])
      invariant clock == if i == 0 then start else steps[i - 1].at
    {
      assert steps[..i + 1][..i] == steps[..i];
      server.ViewAt(clock, steps[i].at);
      clock := steps[i].at;
      server.Perform(steps[i].step, clock);
      assert allocated(server.Repr());
    }
    assert steps[..|steps|] == steps;
  }
}
