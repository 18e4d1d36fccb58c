/** Dynamic relaying in the server refines the queues of module Dynamic, up to the two ways in which
    a handler can fail; and those two are the only ways to get a buffer stuck. */
module Queues {
  import opened Addresses
  import opened Engine
  import opened Invariants
  import opened System
  import opened Guarantees
  import opened Buffering
  import Dynamic

  /** What a step of the server is for dynamic relaying. */
  function StepOf(s: System, step: Step): seq<Dynamic.Step> {
    match step
    case Arrive(port, sender, message) =>
      if port in s.engine.pool.listening && RelayPacket(s.engine, message, sender, port).1 == Dropped(false, true)
      then [Dynamic.Drop(sender, port, message)] else []
    case Resume(i) => if i < |s.pending| then [Dynamic.Resume(i)] else []
    case _ => []
  }

  /** Neither failure happens: a handler that starts finds two free ports, and the constraints would
      let all the packets pass, in turn, that a resuming handler has buffered. */
  predicate Smooth(s: System, step: Step) {
    match step
    case Arrive(port, sender, _) =>
      StepOf(s, step) != [] && BufferKey(sender, port) !in s.buffers ==> |s.engine.pool.free| >= 2
    case Resume(i) =>
      i < |s.pending| ==>
        var p := s.pending[i];
        AllPass(s.engine, Dynamic.Buffered(s.buffers, p.Key()), p.sender, p.target)
    case _ => true
  }

  /** The steps of dynamic relaying in a run of the server. */
  function QueueSteps(s: System, steps: seq<TimedStep>): seq<Dynamic.Step> {
    if steps == [] then []
    else
      var before, last := steps[..|steps| - 1], steps[|steps| - 1];
      QueueSteps(s, before) + StepOf(At(RunSteps(s, before), last.at), last.step)
  }

  predicate SmoothRun(s: System, steps: seq<TimedStep>) {
    steps != [] ==>
      var before, last := steps[..|steps| - 1], steps[|steps| - 1];
      SmoothRun(s, before) && Smooth(At(RunSteps(s, before), last.at), last.step)
  }

  /** The packets a step passes to `relay` out of a buffer, each with its sender and targeted port. */
  function HandedBy(s: System, step: Step): seq<Dynamic.Call> {
    match step
    case Resume(i) =>
      if i < |s.pending| then
        var p := s.pending[i];
        Dynamic.Calls(Dynamic.Buffered(s.buffers, p.Key()), p.sender, p.target)
      else []
    case _ => []
  }

  function HandedIn(s: System, steps: seq<TimedStep>): seq<Dynamic.Call> {
    if steps == [] then []
    else HandedIn(s, steps[..|steps| - 1]) + HandedBy(RunSteps(s, steps[..|steps| - 1]), steps[|steps| - 1].step)
  }

  /** What a resumed handler sends: the packets of its buffer, in order, from its sender's port to the
      target, before the first that the constraints would not let pass; nothing if they are not routed. */
  lemma ResumeSends(s: System, i: nat)
    requires SysInv(s) && i < |s.pending|
    ensures var e, p, s' := s.engine, s.pending[i], ResumeHandler(s, i);
            var messages := Dynamic.Buffered(s.buffers, p.Key());
            && Dynamic.Calls(messages, p.sender, p.target) == HandedBy(s, Resume(i))
            && (if Routed(e, p.sender, p.target) then
                  var r, d := e.table[IndexOf(e.table, p.sender)], e.table[IndexOfPort(e.table, p.target)];
                  var n := Passing(e.config, e.ledgers, r, messages, e.clock);
                  && s'.engine.trace == e.trace + SentAll(e.clock, p.sender, r.port, d.address, messages[..n])
                  && (Smooth(s, Resume(i)) <==> messages[..n] == messages)
                else s'.engine == e && Smooth(s, Resume(i)))
  {
    var p := s.pending[i];
    KeyOf(s.pending, i);
    FlushIff(s.(pending := Without(s.pending, i)), s.buffers[p.Key()], p.sender, p.target);
    hide Inv, Flush, Passing, IndexOf, IndexOfPort, BufferKey, Dynamic.KeySet, Dynamic.KeysDistinct;
  }

  /** The server's buffers and waiting handlers are those of the queues. */
  ghost predicate Matches(s: System, d: Dynamic.Dynamic) {
    d.buffers == s.buffers && d.pending == s.pending
  }

  lemma ArriveRefines(s: System, port: nat, sender: NetAddress, message: Datagram, d: Dynamic.Dynamic)
    requires SysInv(s) && Matches(s, d)
    ensures var step := Arrive(port, sender, message);
            var s' := Act(s, step);
            && (StepOf(s, step) == [] ==> Matches(s', d))
            && (StepOf(s, step) != [] && Smooth(s, step) ==>
                  Matches(s', Dynamic.Next(d, Dynamic.Drop(sender, port, message))))
            && (!Smooth(s, step) ==> Stuck(s', BufferKey(sender, port)))
  {
    Dropping(s.engine, sender, port, message);
    if port in s.engine.pool.listening {
      if RelayPacket(s.engine, message, sender, port).1 == Dropped(false, true)
         && BufferKey(sender, port) !in s.buffers {
        DropHandled(s, sender, port, message);
      }
      hide SysInv, RelayPacket, BufferKey, CreateRelay, StrandPort, Dynamic.KeySet;
      assert [] + [message] == [message];
    }
  }

  lemma ResumeRefines(s: System, i: nat, d: Dynamic.Dynamic)
    requires SysInv(s) && Matches(s, d)
    ensures var s' := Act(s, Resume(i));
            && (i >= |s.pending| ==> Matches(s', d))
            && (i < |s.pending| && Smooth(s, Resume(i)) ==> Matches(s', Dynamic.Next(d, Dynamic.Resume(i))))
            && (!Smooth(s, Resume(i)) ==> Stuck(s', s.pending[i].Key()))
  {
    if i < |s.pending| {
      var p := s.pending[i];
      KeyOf(s.pending, i);
      ResumeFrame(s, i);
      Dynamic.RemoveKey(s.pending, i);
      FlushIff(s.(pending := Without(s.pending, i)), s.buffers[p.Key()], p.sender, p.target);
      hide Flush, AllPass, BufferKey, Dynamic.KeySet, Dynamic.KeysDistinct, Inv;
    }
  }

  lemma OtherRefines(s: System, step: Step, d: Dynamic.Dynamic)
    requires Matches(s, d) && !step.Arrive? && !step.Resume?
    ensures Matches(Act(s, step), d)
  {
    hide GetRelay, Cleanup, Routing.Shutdown;
  }

  /** One step of the server is a step of the queues, or none, unless it fails and leaves a buffer
      stuck. */
  lemma StepRefines(s: System, step: Step, d: Dynamic.Dynamic)
    requires SysInv(s) && Matches(s, d)
    ensures Smooth(s, step) ==>
              var q := StepOf(s, step);
              Matches(Act(s, step), if q == [] then d else Dynamic.Next(d, q[0]))
    ensures !Smooth(s, step) ==> exists key :: Stuck(Act(s, step), key)
    ensures |StepOf(s, step)| <= 1
  {
    match step {
      case Arrive(port, sender, message) => ArriveRefines(s, port, sender, message, d);
      case Resume(i) => ResumeRefines(s, i, d);
      case _ => OtherRefines(s, step, d);
    }
    hide SysInv, Act, RelayPacket, Flush, Dynamic.Next, Stuck;
  }

  lemma HandedStep(s: System, step: Step, d: Dynamic.Dynamic)
    requires Matches(s, d)
    ensures var q := StepOf(s, step);
            (if q == [] then d else Dynamic.Next(d, q[0])).handed == d.handed + HandedBy(s, step)
  {
    hide RelayPacket, BufferKey;
  }

  lemma SameHanded(s: System, at: real, step: Step)
    ensures HandedBy(At(s, at), step) == HandedBy(s, step)
  {
  }

  lemma {:induction false} QueuesRefined(s: System, steps: seq<TimedStep>)
    requires SysInv(s) && TimelySteps(steps, s.engine.clock) && s.buffers == map[] && s.pending == []
    requires SmoothRun(s, steps)
    ensures Matches(RunSteps(s, steps), Dynamic.Run(QueueSteps(s, steps)))
    ensures Dynamic.Run(QueueSteps(s, steps)).handed == HandedIn(s, steps)
  {
    hide SysInv, Act, Smooth, StepOf, HandedBy, Dynamic.Next;
    if steps != [] {
      var before, last := steps[..|steps| - 1], steps[|steps| - 1];
      QueuesRefined(s, before);
      RunStepsKeep(s, before);
      var ops := RunStepsOps(s, before);
      var mid := At(RunSteps(s, before), last.at);
      AtKeeps(RunSteps(s, before), last.at);
      StepRefines(mid, last.step, Dynamic.Run(QueueSteps(s, before)));
      HandedStep(mid, last.step, Dynamic.Run(QueueSteps(s, before)));
      SameHanded(RunSteps(s, before), last.at, last.step);
      RunAppend(QueueSteps(s, before), StepOf(mid, last.step));
    }
  }

  lemma RunAppend(steps: seq<Dynamic.Step>, more: seq<Dynamic.Step>)
    requires |more| <= 1
    ensures Dynamic.Run(steps + more)
            == if more == [] then Dynamic.Run(steps) else Dynamic.Next(Dynamic.Run(steps), more[0])
  {
    hide Dynamic.Next;
    if more == [] {
      assert steps + more == steps;
    } else {
      assert (steps + more)[..|steps|] == steps;
    }
  }

  /** As long as neither failure happens, the server's dynamic relaying is a bundle of first-in
      first-out queues: what was dropped from a sender for a port is what resumed handlers passed to
      `relay` with that sender and port, followed by what is still buffered, each packet once and in
      order, and a handler waits for every buffer. */
  lemma ServerQueues(config: Config, bound: seq<nat>, start: real, steps: seq<TimedStep>, sender: NetAddress,
                     target: nat)
    requires NoDuplicates(bound) && TimelySteps(steps, start)
    requires SmoothRun(StartSystem(config, bound, start), steps)
    ensures var s := StartSystem(config, bound, start);
            var q := QueueSteps(s, steps);
            var s' := RunSteps(s, steps);
            && Matches(s', Dynamic.Run(q))
            && Dynamic.DroppedFor(q, sender, target)
               == Dynamic.HandedFor(HandedIn(s, steps), sender, target)
               + Dynamic.Buffered(s'.buffers, BufferKey(sender, target))
            && s'.buffers.Keys == Dynamic.KeySet(s'.pending)
  {
    var s := StartSystem(config, bound, start);
    StartSysInv(config, bound, start);
    QueuesRefined(s, steps);
    Dynamic.FirstInFirstOut(QueueSteps(s, steps), sender, target);
    Dynamic.HandlersMatchBuffers(QueueSteps(s, steps));
    hide RunSteps, QueueSteps, HandedIn, Dynamic.Run, Dynamic.DroppedFor, Dynamic.HandedFor, BufferKey, Dynamic.KeySet;
  }

  /** A buffer gets stuck if and only if one of the two failures happens somewhere in the run. */
  lemma {:induction false} StuckIff(config: Config, bound: seq<nat>, start: real, steps: seq<TimedStep>)
    requires NoDuplicates(bound) && TimelySteps(steps, start)
    ensures (exists key :: Stuck(RunSteps(StartSystem(config, bound, start), steps), key))
            <==> !SmoothRun(StartSystem(config, bound, start), steps)
  {
    var s := StartSystem(config, bound, start);
    if SmoothRun(s, steps) {
      ServerQueues(config, bound, start, steps, NetAddress("", 0), 0);
    } else {
      StartSysInv(config, bound, start);
      FailureSticks(s, steps);
    }
  }

  lemma {:induction false} FailureSticks(s: System, steps: seq<TimedStep>)
    requires SysInv(s) && TimelySteps(steps, s.engine.clock) && s.buffers == map[] && s.pending == []
    requires !SmoothRun(s, steps)
    ensures exists key :: Stuck(RunSteps(s, steps), key)
  {
    hide SysInv, Act, Smooth, StepOf, Stuck, Dynamic.Next, Dynamic.Run;
    var before, last := steps[..|steps| - 1], steps[|steps| - 1];
    RunStepsKeep(s, before);
    var ops := RunStepsOps(s, before);
    var mid := RunSteps(s, before);
    AtKeeps(mid, last.at);
    if SmoothRun(s, before) {
      QueuesRefined(s, before);
      StepRefines(At(mid, last.at), last.step, Dynamic.Run(QueueSteps(s, before)));
      var key :| Stuck(Act(At(mid, last.at), last.step), key);
      assert Stuck(RunSteps(s, steps), key);
    } else {
      FailureSticks(s, before);
      var key :| Stuck(mid, key);
      SameStuck(mid, last.at, key);
      StuckStep(At(mid, last.at), last.step, key);
      assert Stuck(RunSteps(s, steps), key);
    }
  }

  lemma SameStuck(s: System, at: real, key: string)
    ensures Stuck(At(s, at), key) == Stuck(s, key)
  {
  }
}
