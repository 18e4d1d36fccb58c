/** At most once: over every run of the server, failures included, nothing is sent that did not arrive
    from the same address, and nothing is sent more often than it arrived. */
module Delivery {
  import opened Addresses
  import opened Engine
  import opened Invariants
  import opened Routing
  import opened System
  import opened Guarantees
  import opened Buffering
  import Dynamic
  import Reclaim
  import Traffic

  // -------------------------------------------------- what is sent, what arrives

  /** The messages sent on behalf of the address. */
  function SentFrom(trace: seq<Event>, a: NetAddress): multiset<Datagram> {
    if trace == [] then multiset{}
    else
      var last := trace[|trace| - 1];
      SentFrom(trace[..|trace| - 1], a) + if last.Sent? && last.source == a then multiset{last.message} else multiset{}
  }

  /** The messages a step brings in from the address. */
  function ArrivesFrom(step: Step, a: NetAddress): multiset<Datagram> {
    if step.Arrive? && step.sender == a then multiset{step.message} else multiset{}
  }

  function ArrivedFrom(steps: seq<TimedStep>, a: NetAddress): multiset<Datagram> {
    if steps == [] then multiset{}
    else ArrivedFrom(steps[..|steps| - 1], a) + ArrivesFrom(steps[|steps| - 1].step, a)
  }

  /** What one waiting handler has to hand over for the address. */
  function Owed(buffers: map<string, seq<Datagram>>, p: Dynamic.Pending, a: NetAddress): multiset<Datagram> {
    if p.sender == a then multiset(Dynamic.Buffered(buffers, p.Key())) else multiset{}
  }

  /** What all waiting handlers have to hand over for the address; stuck buffers do not count. */
  function Waiting(buffers: map<string, seq<Datagram>>, pending: seq<Dynamic.Pending>,
                   a: NetAddress): multiset<Datagram> {
    if pending == [] then multiset{}
    else Waiting(buffers, pending[..|pending| - 1], a) + Owed(buffers, pending[|pending| - 1], a)
  }

  /** Sent or still to be handed over. */
  function Due(s: System, a: NetAddress): multiset<Datagram> {
    SentFrom(s.engine.trace, a) + Waiting(s.buffers, s.pending, a)
  }

  // ------------------------------------------------------------ reading the trace

  lemma SentAppend(trace: seq<Event>, ev: Event, a: NetAddress)
    ensures SentFrom(trace + [ev], a)
            == SentFrom(trace, a) + if ev.Sent? && ev.source == a then multiset{ev.message} else multiset{}
  {
    assert (trace + [ev])[..|trace|] == trace;
  }

  lemma {:induction false} SentNothing(trace: seq<Event>, news: seq<Event>, a: NetAddress)
    requires forall ev :: ev in news ==> !ev.Sent?
    ensures SentFrom(trace + news, a) == SentFrom(trace, a)
    decreases |news|
  {
    if news == [] {
      assert trace + news == trace;
    } else {
      var init, last := news[..|news| - 1], news[|news| - 1];
      SentNothing(trace, init, a);
      assert trace + news == (trace + init) + [last] && last in news;
      SentAppend(trace + init, last, a);
    }
  }

  lemma {:induction false} SentMany(trace: seq<Event>, at: real, sender: NetAddress, p: nat, b: NetAddress,
                                    messages: seq<Datagram>, a: NetAddress)
    ensures SentFrom(trace + SentAll(at, sender, p, b, messages), a)
            == SentFrom(trace, a) + if sender == a then multiset(messages) else multiset{}
    decreases |messages|
  {
    if messages == [] {
      assert trace + SentAll(at, sender, p, b, messages) == trace;
    } else {
      var init, last := messages[..|messages| - 1], messages[|messages| - 1];
      SentAllLast(trace, at, sender, p, b, messages);
      hide SentAll, SentFrom;
      SentMany(trace, at, sender, p, b, init, a);
      SentAppend(trace + SentAll(at, sender, p, b, init), Sent(at, sender, p, b, last), a);
      assert messages == init + [last];
      MultisetAppend(init, last);
    }
  }

  lemma SentAllLast(trace: seq<Event>, at: real, sender: NetAddress, p: nat, b: NetAddress, messages: seq<Datagram>)
    requires messages != []
    ensures var init, last := messages[..|messages| - 1], messages[|messages| - 1];
            trace + SentAll(at, sender, p, b, messages)
            == (trace + SentAll(at, sender, p, b, init)) + [Sent(at, sender, p, b, last)]
  {
  }

  lemma MultisetAppend(messages: seq<Datagram>, m: Datagram)
    ensures multiset(messages + [m]) == multiset(messages) + multiset{m}
  {
  }

  // ------------------------------------------------------------ waiting handlers

  /** Only the buffers of waiting handlers matter. */
  lemma {:induction false} WaitingSame(buffers: map<string, seq<Datagram>>, buffers': map<string, seq<Datagram>>,
                                       pending: seq<Dynamic.Pending>, a: NetAddress)
    requires forall i :: 0 <= i < |pending| ==>
               Dynamic.Buffered(buffers', pending[i].Key()) == Dynamic.Buffered(buffers, pending[i].Key())
    ensures Waiting(buffers', pending, a) == Waiting(buffers, pending, a)
  {
    hide BufferKey, Dynamic.Buffered;
    if pending != [] {
      WaitingSame(buffers, buffers', pending[..|pending| - 1], a);
    }
  }

  lemma WaitingAppend(buffers: map<string, seq<Datagram>>, pending: seq<Dynamic.Pending>, p: Dynamic.Pending,
                      a: NetAddress)
    ensures Waiting(buffers, pending + [p], a) == Waiting(buffers, pending, a) + Owed(buffers, p, a)
  {
    assert (pending + [p])[..|pending|] == pending;
  }

  lemma {:induction false} WaitingWithout(buffers: map<string, seq<Datagram>>, pending: seq<Dynamic.Pending>, i: nat,
                                          a: NetAddress)
    requires i < |pending|
    ensures Waiting(buffers, pending, a) == Waiting(buffers, Without(pending, i), a) + Owed(buffers, pending[i], a)
    decreases |pending|
  {
    var init, last := pending[..|pending| - 1], pending[|pending| - 1];
    assert pending == init + [last];
    assert Without(pending, i) == if i == |init| then init else Without(init, i) + [last];
    hide Owed, Waiting, Without;
    WaitingAppend(buffers, init, last, a);
    if i < |init| {
      WaitingWithout(buffers, init, i, a);
      WaitingAppend(buffers, Without(init, i), last, a);
      assert pending[i] == init[i];
    }
  }

  /** One more packet in one buffer: at most one handler waits for it, and only for its sender. */
  lemma WaitingPush(buffers: map<string, seq<Datagram>>, pending: seq<Dynamic.Pending>,
                    sender: NetAddress, target: nat, m: Datagram, a: NetAddress)
    requires Dynamic.KeysDistinct(pending)
    ensures var key := BufferKey(sender, target);
            Waiting(buffers[key := Dynamic.Buffered(buffers, key) + [m]], pending, a)
            <= Waiting(buffers, pending, a) + if sender == a then multiset{m} else multiset{}
  {
    var key := BufferKey(sender, target);
    var buffers' := buffers[key := Dynamic.Buffered(buffers, key) + [m]];
    if i :| 0 <= i < |pending| && pending[i].Key() == key {
      BufferKeyInjective(pending[i].sender, pending[i].target, sender, target);
      hide BufferKey, Waiting;
      Dynamic.RemoveKey(pending, i);
      var rest := Without(pending, i);
      OtherKeys(pending, i, buffers, buffers');
      WaitingSame(buffers, buffers', rest, a);
      WaitingWithout(buffers, pending, i, a);
      WaitingWithout(buffers', pending, i, a);
      MultisetAppend(Dynamic.Buffered(buffers, key), m);
    } else {
      hide BufferKey;
      WaitingSame(buffers, buffers', pending, a);
    }
  }

  lemma OtherKeys(pending: seq<Dynamic.Pending>, i: nat, buffers: map<string, seq<Datagram>>,
                  buffers': map<string, seq<Datagram>>)
    requires Dynamic.KeysDistinct(pending) && i < |pending|
    requires forall key :: key != pending[i].Key() ==> Dynamic.Buffered(buffers', key) == Dynamic.Buffered(buffers, key)
    ensures var rest := Without(pending, i);
            forall j :: 0 <= j < |rest| ==>
              Dynamic.Buffered(buffers', rest[j].Key()) == Dynamic.Buffered(buffers, rest[j].Key())
  {
    hide BufferKey, Dynamic.Buffered;
    var rest := Without(pending, i);
    forall j | 0 <= j < |rest|
      ensures rest[j].Key() != pending[i].Key()
    {
      assert rest[j] == pending[if j < i then j else j + 1];
    }
  }

  // ---------------------------------------------------------------------- steps

  /** A packet that is dropped sends nothing at once, and is owed at most once. */
  lemma DropDue(s: System, senderKnown: bool, targetKnown: bool, sender: NetAddress, target: nat, m: Datagram,
                a: NetAddress)
    requires Dynamic.KeysDistinct(s.pending) && Dynamic.KeySet(s.pending) <= s.buffers.Keys
    ensures Due(HandleDrop(s, senderKnown, targetKnown, sender, target, m), a)
            <= Due(s, a) + if sender == a then multiset{m} else multiset{}
  {
    var s' := HandleDrop(s, senderKnown, targetKnown, sender, target, m);
    var key := BufferKey(sender, target);
    HandleDropEffect(s, senderKnown, targetKnown, sender, target, m);
    SentNothing(s.engine.trace, News(s.engine, s'.engine), a);
    assert s'.engine.trace == s.engine.trace + News(s.engine, s'.engine);
    WaitingPush(s.buffers, s.pending, sender, target, m, a);
    if s'.pending != s.pending {
      var p := Dynamic.Pending(sender, target);
      NotWaiting(s.pending, key, s.buffers, s'.buffers);
      WaitingSame(s.buffers, s'.buffers, s.pending, a);
      WaitingAppend(s'.buffers, s.pending, p, a);
      assert Dynamic.Buffered(s'.buffers, p.Key()) == [m];
    }
    hide HandleDrop, BufferKey, Waiting, SentFrom, Dynamic.KeySet, Dynamic.KeysDistinct;
  }

  lemma HandleDropEffect(s: System, senderKnown: bool, targetKnown: bool, sender: NetAddress, target: nat, m: Datagram)
    ensures var s' := HandleDrop(s, senderKnown, targetKnown, sender, target, m);
            var key := BufferKey(sender, target);
            && Extends(s.engine, s'.engine) && (forall ev :: ev in News(s.engine, s'.engine) ==> !ev.Sent?)
            && (s'.buffers == s.buffers || s'.buffers == s.buffers[key := Dynamic.Buffered(s.buffers, key) + [m]])
            && (s'.pending == s.pending
                || (key !in s.buffers && s'.buffers == s.buffers[key := [m]]
                    && s'.pending == s.pending + [Dynamic.Pending(sender, target)]))
  {
    var taken := s.engine.(pool := StrandPort(s.engine.pool));
    Reclaim.CreateNews(taken, sender);
    hide BufferKey, StrandPort, CreateRelay;
    assert [] + [m] == [m];
    assert News(s.engine, s.engine) == []
           && News(taken, CreateRelay(taken, sender).0) == News(s.engine, CreateRelay(taken, sender).0);
  }

  lemma NotWaiting(pending: seq<Dynamic.Pending>, key: string, buffers: map<string, seq<Datagram>>,
                   buffers': map<string, seq<Datagram>>)
    requires Dynamic.KeySet(pending) <= buffers.Keys && key !in buffers
    requires forall other :: other != key ==> Dynamic.Buffered(buffers', other) == Dynamic.Buffered(buffers, other)
    ensures forall i :: 0 <= i < |pending| ==>
              Dynamic.Buffered(buffers', pending[i].Key()) == Dynamic.Buffered(buffers, pending[i].Key())
  {
    hide BufferKey;
    forall i | 0 <= i < |pending|
      ensures pending[i].Key() in buffers
    {
      assert pending[i].Key() in Dynamic.KeySet(pending);
    }
  }

  lemma DeliverDue(s: System, m: Datagram, sender: NetAddress, target: nat, a: NetAddress)
    requires Dynamic.KeysDistinct(s.pending) && Dynamic.KeySet(s.pending) <= s.buffers.Keys
    ensures Due(Deliver(s, m, sender, target).0, a) <= Due(s, a) + if sender == a then multiset{m} else multiset{}
  {
    var (e, outcome) := RelayPacket(s.engine, m, sender, target);
    PacketSends(s.engine, m, sender, target, a);
    PacketPool(s.engine, m, sender, target);
    if outcome.Dropped? {
      DropDue(s, outcome.senderKnown, outcome.targetKnown, sender, target, m, a);
    }
    hide RelayPacket, HandleDrop, Waiting, SentFrom, BufferKey, Dynamic.KeySet, Dynamic.KeysDistinct;
  }

  lemma PacketSends(e: Engine, m: Datagram, sender: NetAddress, target: nat, a: NetAddress)
    ensures SentFrom(RelayPacket(e, m, sender, target).0.trace, a)
            <= SentFrom(e.trace, a) + if sender == a then multiset{m} else multiset{}
  {
    Traffic.PacketEffect(e, m, sender, target);
    var i, j := IndexOf(e.table, sender), IndexOfPort(e.table, target);
    if i < |e.table| && j < |e.table| {
      SentAppend(e.trace, Sent(e.clock, sender, e.table[i].port, e.table[j].address, m), a);
    }
    hide RelayPacket, Vet, IndexOf, IndexOfPort, SentFrom;
  }

  /** A resumed handler sends part of what it owed, and owes nothing afterwards. */
  lemma ResumeDue(s: System, i: nat, a: NetAddress)
    requires SysInv(s) && i < |s.pending|
    ensures Due(ResumeHandler(s, i), a) <= Due(s, a)
  {
    var s', p, rest := ResumeHandler(s, i), s.pending[i], Without(s.pending, i);
    var e, messages := s.engine, Dynamic.Buffered(s.buffers, p.Key());
    KeyOf(s.pending, i);
    ResumeFrame(s, i);
    FlushIff(s.(pending := rest), messages, p.sender, p.target);
    WaitingWithout(s.buffers, s.pending, i, a);
    RestBuffers(s, i);
    WaitingSame(s.buffers, s'.buffers, rest, a);
    hide Inv, Flush, IndexOf, IndexOfPort, BufferKey, Passing, Waiting, SentFrom, Dynamic.KeySet, Dynamic.KeysDistinct;
    if Routed(e, p.sender, p.target) {
      var r, d := e.table[IndexOf(e.table, p.sender)], e.table[IndexOfPort(e.table, p.target)];
      var n := Passing(e.config, e.ledgers, r, messages, e.clock);
      SentMany(e.trace, e.clock, p.sender, r.port, d.address, messages[..n], a);
      PrefixOf(messages, n);
    }
  }

  lemma PrefixOf(messages: seq<Datagram>, n: nat)
    requires n <= |messages|
    ensures multiset(messages[..n]) <= multiset(messages)
  {
    assert messages == messages[..n] + messages[n..];
  }

  /** The other handlers' buffers are as they were. */
  lemma RestBuffers(s: System, i: nat)
    requires SysInv(s) && i < |s.pending|
    ensures var rest := Without(s.pending, i);
            forall j :: 0 <= j < |rest| ==>
              Dynamic.Buffered(ResumeHandler(s, i).buffers, rest[j].Key()) == Dynamic.Buffered(s.buffers, rest[j].Key())
  {
    ResumeFrame(s, i);
    hide Inv, BufferKey, ResumeHandler, Flush;
    var rest := Without(s.pending, i);
    forall j | 0 <= j < |rest|
      ensures rest[j].Key() != s.pending[i].Key() && rest[j].Key() in s.buffers
    {
      var k := if j < i then j else j + 1;
      assert rest[j] == s.pending[k];
      KeyOf(s.pending, k);
    }
  }

  /** Nothing was sent in between. */
  ghost predicate Quiet(e: Engine, e': Engine) {
    Extends(e, e') && forall ev :: ev in News(e, e') ==> !ev.Sent?
  }

  lemma CleanQuiet(e: Engine)
    requires Inv(e)
    ensures Quiet(e, Cleanup(e)) && Quiet(e, Routing.Shutdown(e, true))
  {
    CleanupExact(e);
    ShutdownIsComplete(e, true);
    Traffic.DestroyUncounted(Expired(e.table, e.clock - e.config.timeout));
    Traffic.DestroyUncounted(e.table);
    hide Inv, Cleanup, Routing.Shutdown, Expired, DestroyEvents;
  }

  lemma StillQuiet(e: Engine)
    ensures Quiet(e, e)
  {
  }

  /** The remaining steps send nothing and leave buffers and handlers alone. */
  lemma QuietStep(s: System, step: Step)
    requires SysInv(s) && !step.Arrive? && !step.Resume?
    ensures var s' := Act(s, step);
            Quiet(s.engine, s'.engine) && s'.buffers == s.buffers && s'.pending == s.pending
  {
    CleanQuiet(s.engine);
    StillQuiet(s.engine);
    hide Quiet, Connect, Cleanup, Routing.Shutdown, FindPid, AddHost, RemoveHost, Inv;
    if step.ConnectRelay? {
      ConnectQuiet(s, step.socket, step.oid);
    }
  }

  lemma CreateQuiet(e: Engine, x: NetAddress)
    ensures Quiet(e, CreateRelay(e, x).0)
  {
    Reclaim.CreateNews(e, x);
    hide CreateRelay;
  }

  lemma QuietChain(e: Engine, m: Engine, e': Engine)
    requires Quiet(e, m) && Quiet(m, e')
    ensures Quiet(e, e')
  {
    assert News(e, e') == News(e, m) + News(m, e');
  }

  lemma ConnectQuiet(s: System, socket: nat, oid: string)
    ensures var s' := Connect(s, socket, oid);
            Quiet(s.engine, s'.engine) && s'.buffers == s.buffers && s'.pending == s.pending
  {
    hide CreateRelay, FindOid, FindSocket, Quiet;
    StillQuiet(s.engine);
    var h, c := FindOid(s.hosts, oid), FindSocket(s.hosts, socket);
    if h < |s.hosts| && c < |s.hosts| && s.hosts[h].rinfo.Some? {
      var e1 := CreateRelay(s.engine, s.hosts[h].rinfo.value).0;
      CreateQuiet(s.engine, s.hosts[h].rinfo.value);
      if s.hosts[c].rinfo.Some? {
        CreateQuiet(e1, s.hosts[c].rinfo.value);
        QuietChain(s.engine, e1, CreateRelay(e1, s.hosts[c].rinfo.value).0);
      }
    }
  }

  lemma ActDue(s: System, step: Step, a: NetAddress)
    requires SysInv(s)
    ensures Due(Act(s, step), a) <= Due(s, a) + ArrivesFrom(step, a)
  {
    match step {
      case Arrive(port, sender, message) => DeliverDue(s, message, sender, port, a);
      case Resume(i) =>
        if i < |s.pending| {
          ResumeDue(s, i, a);
        } else {
          NoHandler(s, i);
        }
      case _ =>
        QuietStep(s, step);
        var s' := Act(s, step);
        SentNothing(s.engine.trace, News(s.engine, s'.engine), a);
        assert s'.engine.trace == s.engine.trace + News(s.engine, s'.engine);
        hide Act;
    }
    hide Deliver, ResumeHandler, Due, Inv;
  }

  lemma SameDue(s: System, at: real, a: NetAddress)
    ensures Due(At(s, at), a) == Due(s, a)
  {
  }

  lemma {:induction false} RunDue(s: System, steps: seq<TimedStep>, a: NetAddress)
    requires SysInv(s) && TimelySteps(steps, s.engine.clock)
    ensures Due(RunSteps(s, steps), a) <= Due(s, a) + ArrivedFrom(steps, a)
  {
    hide SysInv, Act, Due, ArrivesFrom, Run;
    if steps != [] {
      var before, last := steps[..|steps| - 1], steps[|steps| - 1];
      RunDue(s, before, a);
      RunStepsKeep(s, before);
      var ops := RunStepsOps(s, before);
      var mid := RunSteps(s, before);
      AtKeeps(mid, last.at);
      SameDue(mid, last.at, a);
      ActDue(At(mid, last.at), last.step, a);
    }
  }

  /** At most once: after any run from start-up, whatever failed in it, the messages sent on behalf of an
      address, together with those its waiting handlers still hold, are among the messages that
      arrived from that address, each no more often than it arrived. */
  lemma AtMostOnce(config: Config, bound: seq<nat>, start: real, steps: seq<TimedStep>, a: NetAddress)
    requires NoDuplicates(bound) && TimelySteps(steps, start)
    ensures var s := RunSteps(StartSystem(config, bound, start), steps);
            SentFrom(s.engine.trace, a) + Waiting(s.buffers, s.pending, a) <= ArrivedFrom(steps, a)
  {
    var s := StartSystem(config, bound, start);
    StartSysInv(config, bound, start);
    assert Due(s, a) == multiset{};
    RunDue(s, steps, a);
    hide RunSteps, SentFrom, Waiting, ArrivedFrom;
  }
}
