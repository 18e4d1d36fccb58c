/** Dynamic relaying on its own: packets are buffered per (sender, targeted port) while a relay is
    being created and handed over when the creation completes, at any later moment and in any
    order between different senders. */
module Dynamic {
  import opened Addresses
  import Engine

  /** A `#handle` that waits for its relay. */
  datatype Pending = Pending(sender: NetAddress, target: nat) {
    function Key(): string {
      BufferKey(sender, target)
    }
  }

  datatype Call = Call(sender: NetAddress, target: nat, message: Datagram)

  /** The buffers, the waiting handlers, and the calls to `relay` made so far. */
  datatype Dynamic = Dynamic(buffers: map<string, seq<Datagram>>, pending: seq<Pending>, handed: seq<Call>)

  datatype Step =
    | Drop(sender: NetAddress, target: nat, message: Datagram)
    | Resume(index: nat)

  function Buffered(buffers: map<string, seq<Datagram>>, key: string): seq<Datagram> {
    if key in buffers then buffers[key] else []
  }

  function Calls(messages: seq<Datagram>, sender: NetAddress, target: nat): seq<Call> {
    seq(|messages|, i requires 0 <= i < |messages| => Call(sender, target, messages[i]))
  }

  /** One turn of the event loop, when creating relays succeeds and `relay` does not throw. */
  function Next(d: Dynamic, step: Step): Dynamic {
    match step
    case Drop(sender, target, message) =>
      var key := BufferKey(sender, target);
      d.(buffers := d.buffers[key := Buffered(d.buffers, key) + [message]],
         pending := if key in d.buffers then d.pending else d.pending + [Pending(sender, target)])
    case Resume(i) =>
      if i >= |d.pending| then d
      else
        var p := d.pending[i];
        d.(buffers := d.buffers - {p.Key()},
           pending := Engine.Without(d.pending, i),
           handed := d.handed + Calls(Buffered(d.buffers, p.Key()), p.sender, p.target))
  }

  function Run(steps: seq<Step>): Dynamic {
    if steps == [] then Dynamic(map[], [], []) else Next(Run(steps[..|steps| - 1]), steps[|steps| - 1])
  }

  /** The messages dropped from `sender` for `target`, in order of arrival. */
  function DroppedFor(steps: seq<Step>, sender: NetAddress, target: nat): seq<Datagram> {
    if steps == [] then []
    else
      var last := steps[|steps| - 1];
      DroppedFor(steps[..|steps| - 1], sender, target)
      + if last.Drop? && last.sender == sender && last.target == target then [last.message] else []
  }

  /** The messages handed to `relay` as coming from `sender` for `target`, in order. */
  function HandedFor(calls: seq<Call>, sender: NetAddress, target: nat): seq<Datagram> {
    if calls == [] then []
    else
      var last := calls[|calls| - 1];
      HandedFor(calls[..|calls| - 1], sender, target)
      + if last.sender == sender && last.target == target then [last.message] else []
  }

  function KeySet(pending: seq<Pending>): set<string> {
    set i | 0 <= i < |pending| :: pending[i].Key()
  }

  ghost predicate KeysDistinct(pending: seq<Pending>) {
    forall i, j :: 0 <= i < j < |pending| ==> pending[i].Key() != pending[j].Key()
  }

  /** Exactly one handler waits for each buffer. */
  ghost predicate OneHandlerEach(d: Dynamic) {
    KeysDistinct(d.pending) && d.buffers.Keys == KeySet(d.pending)
  }

  lemma RemoveKey(pending: seq<Pending>, i: nat)
    requires KeysDistinct(pending) && i < |pending|
    ensures KeysDistinct(Engine.Without(pending, i))
    ensures KeySet(Engine.Without(pending, i)) == KeySet(pending) - {pending[i].Key()}
  {
    hide BufferKey;
    var rest := Engine.Without(pending, i);
    assert forall j :: 0 <= j < |rest| ==> rest[j] == pending[if j < i then j else j + 1];
    forall key | key in KeySet(pending) - {pending[i].Key()}
      ensures key in KeySet(rest)
    {
      var j :| 0 <= j < |pending| && pending[j].Key() == key;
      assert rest[if j < i then j else j - 1].Key() == key;
    }
  }

  lemma AddKey(pending: seq<Pending>, p: Pending)
    requires KeysDistinct(pending) && p.Key() !in KeySet(pending)
    ensures KeysDistinct(pending + [p]) && KeySet(pending + [p]) == KeySet(pending) + {p.Key()}
  {
    hide BufferKey;
    var all := pending + [p];
    assert forall j :: 0 <= j < |pending| ==> all[j] == pending[j] && pending[j].Key() in KeySet(pending);
    forall key | key in KeySet(pending) + {p.Key()}
      ensures key in KeySet(all)
    {
      if key == p.Key() {
        assert all[|pending|].Key() == key;
      } else {
        var j :| 0 <= j < |pending| && pending[j].Key() == key;
        assert all[j].Key() == key;
      }
    }
  }

  lemma {:induction false} HandedAppend(calls: seq<Call>, messages: seq<Datagram>, b: NetAddress, q: nat,
                                        sender: NetAddress, target: nat)
    ensures HandedFor(calls + Calls(messages, b, q), sender, target)
            == HandedFor(calls, sender, target) + if b == sender && q == target then messages else []
    decreases |messages|
  {
    var all := calls + Calls(messages, b, q);
    if messages == [] {
      assert all == calls;
    } else {
      var init := messages[..|messages| - 1];
      HandedAppend(calls, init, b, q, sender, target);
      assert all[..|all| - 1] == calls + Calls(init, b, q);
      assert all[|all| - 1] == Call(b, q, messages[|messages| - 1]);
      assert init + [messages[|messages| - 1]] == messages;
    }
  }

  lemma {:induction false} HandlersMatchBuffers(steps: seq<Step>)
    ensures OneHandlerEach(Run(steps))
  {
    hide BufferKey, KeySet, KeysDistinct;
    if steps == [] {
      NoKeys();
    } else {
      var d, last := Run(steps[..|steps| - 1]), steps[|steps| - 1];
      HandlersMatchBuffers(steps[..|steps| - 1]);
      match last
      case Drop(sender, target, message) =>
        if BufferKey(sender, target) !in d.buffers {
          AddKey(d.pending, Pending(sender, target));
        }
      case Resume(i) => if i < |d.pending| { RemoveKey(d.pending, i); }
    }
  }

  lemma NoKeys()
    ensures KeysDistinct([]) && KeySet([]) == {}
  {
  }

  /** What is buffered for a sender and a port after one step. */
  lemma BufferedNext(d: Dynamic, step: Step, sender: NetAddress, target: nat)
    requires OneHandlerEach(d)
    ensures var d' := Next(d, step);
            HandedFor(d'.handed, sender, target) + Buffered(d'.buffers, BufferKey(sender, target))
            == HandedFor(d.handed, sender, target) + Buffered(d.buffers, BufferKey(sender, target))
               + if step.Drop? && step.sender == sender && step.target == target then [step.message] else []
  {
    hide HandedFor, KeySet, KeysDistinct;
    match step
    case Drop(b, q, message) =>
      BufferKeyInjective(b, q, sender, target);
      hide BufferKey;
      if b == sender && q == target {
        assert HandedFor(d.handed, sender, target) + (Buffered(d.buffers, BufferKey(sender, target)) + [message])
            == HandedFor(d.handed, sender, target) + Buffered(d.buffers, BufferKey(sender, target)) + [message];
      }
    case Resume(i) =>
      if i < |d.pending| {
        var p := d.pending[i];
        BufferKeyInjective(p.sender, p.target, sender, target);
        hide BufferKey;
        HandedAppend(d.handed, Buffered(d.buffers, p.Key()), p.sender, p.target, sender, target);
      }
  }

  /** Dynamic relaying is a bundle of first-in first-out queues: under any interleaving of drops
      and resumptions, what was dropped from a sender for a port is what was handed to `relay` with
      that sender and port, followed by what is still buffered, each message once and in order. */
  lemma {:induction false} FirstInFirstOut(steps: seq<Step>, sender: NetAddress, target: nat)
    ensures var d := Run(steps);
            DroppedFor(steps, sender, target)
            == HandedFor(d.handed, sender, target) + Buffered(d.buffers, BufferKey(sender, target))
  {
    if steps != [] {
      var before, last := steps[..|steps| - 1], steps[|steps| - 1];
      FirstInFirstOut(before, sender, target);
      HandlersMatchBuffers(before);
      BufferedNext(Run(before), last, sender, target);
      hide BufferKey, HandedFor, Next, Buffered, OneHandlerEach;
    }
  }

  /** When no handler waits, nothing is buffered and every dropped message has been handed over. */
  lemma NothingLeftBehind(steps: seq<Step>, sender: NetAddress, target: nat)
    requires Run(steps).pending == []
    ensures Run(steps).buffers == map[]
    ensures DroppedFor(steps, sender, target) == HandedFor(Run(steps).handed, sender, target)
  {
    HandlersMatchBuffers(steps);
    FirstInFirstOut(steps, sender, target);
    hide BufferKey, Run;
    NoKeys();
  }
}
