/** Timed reclamation: when an idle relay is gone, and why a busy one never is. */
module Reclaim {
  import opened Addresses
  import opened Engine
  import opened Invariants
  import opened Routing

  /** The event is traffic of the address: it was given a relay, or a packet went from or to it. */
  predicate Active(ev: Event, address: NetAddress) {
    match ev
    case Created(_, b, _) => b == address
    case Destroyed(_, _) => false
    case Sent(_, b, _, target, _) => b == address || target == address
  }

  /** When the address was last active, according to what was observed. */
  function LastActivity(trace: seq<Event>, address: NetAddress): real {
    if trace == [] then 0.0
    else if Active(trace[|trace| - 1], address) then trace[|trace| - 1].at
    else LastActivity(trace[..|trace| - 1], address)
  }

  lemma ActivityAppend(trace: seq<Event>, ev: Event, address: NetAddress)
    ensures LastActivity(trace + [ev], address) == if Active(ev, address) then ev.at else LastActivity(trace, address)
  {
  }

  /** The timestamps in the table are the times of the traffic that was observed. */
  ghost predicate Honest(e: Engine) {
    && 0.0 <= e.clock
    && (forall r :: r in e.table ==> r.LastTraffic() == LastActivity(e.trace, r.address))
  }

  lemma {:induction false} DestroyInactive(trace: seq<Event>, gone: seq<Relay>, address: NetAddress)
    ensures LastActivity(trace + DestroyEvents(gone), address) == LastActivity(trace, address)
    decreases |gone|
  {
    if gone == [] {
      assert trace + [] == trace;
    } else {
      var ev := Destroyed(gone[0].address, gone[0].port);
      ActivityAppend(trace, ev, address);
      DestroyInactive(trace + [ev], gone[1..], address);
      hide LastActivity, DestroyEvents;
      DestroyEventsHead(trace, gone);
    }
  }

  lemma HonestCreate(e: Engine, address: NetAddress)
    requires Inv(e) && Honest(e)
    ensures Honest(CreateRelay(e, address).0)
  {
  }

  lemma HonestPacket(e: Engine, message: Datagram, sender: NetAddress, target: nat)
    requires Inv(e) && Honest(e)
    ensures Honest(RelayPacket(e, message, sender, target).0)
  {
    hide Vet, RelayId, Touch, Owned, Accounted;
    var (e', outcome) := RelayPacket(e, message, sender, target);
    if outcome == Delivered {
      var i, j := IndexOf(e.table, sender), IndexOfPort(e.table, target);
      var ev := Sent(e.clock, sender, e.table[i].port, e.table[j].address, message);
      TouchShape(e.table, i, j, e.clock);
      forall k | 0 <= k < |e'.table|
        ensures e'.table[k].LastTraffic() == LastActivity(e'.trace, e'.table[k].address)
      {
        assert e.table[k] in e.table;
        ActivityAppend(e.trace, ev, e.table[k].address);
      }
    }
  }

  lemma HonestStep(e: Engine, t: Timed)
    requires Inv(e) && e.clock <= t.at && Honest(e)
    ensures Honest(Apply(e, t))
  {
    hide Inv, CreateRelay, RelayPacket, Cleanup, ClearTable, ForgetAll, DestroyEvents;
    ApplyClock(e, t);
    TickKeeps(e, t.at);
    var now := e.(clock := t.at);
    assert Honest(now);
    match t.op {
      case Create(address) => HonestCreate(now, address);
      case Packet(message, sender, target) => HonestPacket(now, message, sender, target);
      case Clean =>
        CleanupExact(now);
        forall r | r in Apply(e, t).table
          ensures r.LastTraffic() == LastActivity(Apply(e, t).trace, r.address)
        {
          DestroyInactive(e.trace, Expired(e.table, t.at - e.config.timeout), r.address);
        }
      case Clear =>
        ClearExact(now);
      case Strand =>
      case Close =>
      case Tick =>
    }
  }

  lemma {:induction false} HonestRun(e: Engine, ops: seq<Timed>)
    requires Inv(e) && Timely(ops, e.clock) && Honest(e)
    ensures Honest(Run(e, ops)) && Run(e, ops).config == e.config
  {
    hide Inv, Apply, Honest;
    if ops != [] {
      HonestRun(e, ops[..|ops| - 1]);
      RunKeeps(e, ops[..|ops| - 1]);
      HonestStep(Run(e, ops[..|ops| - 1]), ops[|ops| - 1]);
      ApplyClock(Run(e, ops[..|ops| - 1]), ops[|ops| - 1]);
    }
  }

  // --------------------------------------------------------------- deadlines

  /** Every table entry was active after `since`. */
  ghost predicate Fresh(e: Engine, since: real) {
    forall r :: r in e.table ==> r.LastTraffic() > since
  }

  lemma FreshCreate(e: Engine, address: NetAddress, since: real)
    requires Fresh(e, since) && since < e.clock
    ensures Fresh(CreateRelay(e, address).0, since)
  {
  }

  lemma FreshPacket(e: Engine, message: Datagram, sender: NetAddress, target: nat, since: real)
    requires Fresh(e, since) && since < e.clock
    ensures Fresh(RelayPacket(e, message, sender, target).0, since)
  {
  }

  lemma FreshStep(e: Engine, t: Timed, since: real)
    requires Inv(e) && e.clock <= t.at && Fresh(e, since) && since < t.at
    ensures Fresh(Apply(e, t), since)
  {
    hide Inv, CreateRelay, RelayPacket, Cleanup, ClearTable;
    TickKeeps(e, t.at);
    var now := e.(clock := t.at);
    match t.op {
      case Create(address) => FreshCreate(now, address, since);
      case Packet(message, sender, target) => FreshPacket(now, message, sender, target, since);
      case Clean => CleanupExact(now);
      case Clear => ClearExact(now);
      case Strand =>
      case Close =>
      case Tick =>
    }
  }

  /** In every state after a cleanup at time `T`, each entry was active after `T - timeout`. */
  lemma {:induction false} CleanedSince(e: Engine, ops: seq<Timed>, k: nat)
    requires Inv(e) && Timely(ops, e.clock) && k < |ops| && ops[k].op.Clean?
    requires e.config.timeout > 0.0
    ensures Fresh(Run(e, ops), ops[k].at - e.config.timeout)
  {
    hide Inv, Apply, Fresh;
    var before, last := ops[..|ops| - 1], ops[|ops| - 1];
    RunKeeps(e, before);
    var mid := Run(e, before);
    RunConfig(e, before);
    if k == |ops| - 1 {
      TickKeeps(mid, last.at);
      CleanFresh(mid, last);
    } else {
      CleanedSince(e, before, k);
      FreshStep(mid, last, ops[k].at - e.config.timeout);
    }
  }

  lemma {:induction false} RunConfig(e: Engine, ops: seq<Timed>)
    ensures Run(e, ops).config == e.config
  {
    hide Apply;
    if ops != [] {
      RunConfig(e, ops[..|ops| - 1]);
      ApplyClock(Run(e, ops[..|ops| - 1]), ops[|ops| - 1]);
    }
  }

  lemma CleanFresh(e: Engine, t: Timed)
    requires Inv(e) && e.clock <= t.at && t.op.Clean?
    ensures Fresh(Apply(e, t), t.at - e.config.timeout)
  {
    hide Inv, Cleanup;
    TickKeeps(e, t.at);
    CleanupExact(e.(clock := t.at));
  }

  /** Reclamation deadline: if the latest cleanup is at most `c` old, an address that has not been
      active for the timeout plus `c` has no relay. */
  lemma ReclamationDeadline(config: Config, bound: seq<nat>, start: real, ops: seq<Timed>, k: nat, c: real,
                            address: NetAddress)
    requires NoDuplicates(bound) && 0.0 <= start && Timely(ops, start) && config.timeout > 0.0
    requires k < |ops| && ops[k].op.Clean? && Run(Start(config, bound, start), ops).clock - c <= ops[k].at
    requires var e := Run(Start(config, bound, start), ops);
             LastActivity(e.trace, address) + config.timeout + c <= e.clock
    ensures !Has(Run(Start(config, bound, start), ops).table, address)
  {
    StartInv(config, bound, start);
    var s := Start(config, bound, start);
    HonestRun(s, ops);
    CleanedSince(s, ops, k);
    hide Inv, Run;
    var e := Run(s, ops);
    assert forall i :: 0 <= i < |e.table| ==> e.table[i] in e.table;
  }

  // ---------------------------------------------------------------- survival

  /** One operation does not destroy a relay that is busy enough. */
  lemma BusyStep(e: Engine, t: Timed, r: Relay)
    requires Inv(e) && e.clock <= t.at && r in e.table
    requires !t.op.Clear?
    requires t.op.Clean? ==> r.LastTraffic() > t.at - e.config.timeout
    ensures var e' := Apply(e, t); Extends(e, e') && Destroyed(r.address, r.port) !in News(e, e')
  {
    hide Inv, RelayPacket, CreateRelay, Cleanup;
    TraceGrows(e, t);
    TickKeeps(e, t.at);
    var now, e' := e.(clock := t.at), Apply(e, t);
    match t.op {
      case Create(address) => CreateNews(now, address);
      case Packet(message, sender, target) => PacketNews(now, message, sender, target);
      case Clean =>
        CleanupExact(now);
        NotExpired(now, r);
      case Strand =>
      case Close =>
      case Tick =>
    }
    assert News(e, e') == News(now, e');
  }

  lemma CreateNews(e: Engine, address: NetAddress)
    ensures Extends(e, CreateRelay(e, address).0)
    ensures forall ev :: ev in News(e, CreateRelay(e, address).0) ==> ev.Created?
  {
  }

  lemma PacketNews(e: Engine, message: Datagram, sender: NetAddress, target: nat)
    ensures Extends(e, RelayPacket(e, message, sender, target).0)
    ensures forall ev :: ev in News(e, RelayPacket(e, message, sender, target).0) ==> ev.Sent?
  {
  }

  lemma NotExpired(e: Engine, r: Relay)
    requires Inv(e) && r in e.table && r.LastTraffic() > e.clock - e.config.timeout
    ensures Destroyed(r.address, r.port) !in DestroyEvents(Expired(e.table, e.clock - e.config.timeout))
  {
    var gone := Expired(e.table, e.clock - e.config.timeout);
    ExpiredMembers(e.table, e.clock - e.config.timeout);
    if Destroyed(r.address, r.port) in DestroyEvents(gone) {
      DestroyEventsBack(gone, r.address, r.port);
      hide Inv;
      var g :| g in gone && g.address == r.address && g.port == r.port;
      SameEntry(e, g, r);
    }
  }

  lemma SameEntry(e: Engine, g: Relay, r: Relay)
    requires Inv(e) && g in e.table && r in e.table && g.address == r.address
    ensures g == r
  {
  }

  lemma {:induction false} DestroyEventsBack(gone: seq<Relay>, address: NetAddress, port: nat)
    requires Destroyed(address, port) in DestroyEvents(gone)
    ensures exists g :: g in gone && g.address == address && g.port == port
  {
    if gone[0].address != address || gone[0].port != port {
      assert DestroyEvents(gone)[1..] == DestroyEvents(gone[1..]);
      DestroyEventsBack(gone[1..], address, port);
    } else {
      assert gone[0] in gone;
    }
  }

  /** At every cleanup of the run, the address has been active within the timeout. */
  ghost predicate KeptBusy(e: Engine, ops: seq<Timed>, address: NetAddress) {
    forall k :: 0 <= k < |ops| && ops[k].op.Clean? ==>
      LastActivity(Run(e, ops[..k]).trace, address) > ops[k].at - e.config.timeout
  }

  /** A relay whose address is active within the timeout of every cleanup is never destroyed by
      cleanup: short of clearing the whole table, it keeps its port for the whole run. */
  lemma {:induction false} BusySurvives(e: Engine, ops: seq<Timed>, r: Relay)
    requires Inv(e) && Honest(e) && Timely(ops, e.clock) && r in e.table
    requires forall k :: 0 <= k < |ops| ==> !ops[k].op.Clear?
    requires KeptBusy(e, ops, r.address)
    ensures Extends(e, Run(e, ops)) && Destroyed(r.address, r.port) !in News(e, Run(e, ops))
    ensures exists r' :: r' in Run(e, ops).table && Carried(r, r')
  {
    hide Inv, Apply, Honest;
    RunTraceGrows(e, ops);
    RouteRun(e, ops, r);
    if ops != [] {
      var before, last := ops[..|ops| - 1], ops[|ops| - 1];
      forall k | 0 <= k < |before| && before[k].op.Clean?
        ensures LastActivity(Run(e, before[..k]).trace, r.address) > before[k].at - e.config.timeout
      {
        assert before[..k] == ops[..k];
      }
      BusySurvives(e, before, r);
      RunKeeps(e, before);
      RunConfig(e, before);
      HonestRun(e, before);
      var mid, end := Run(e, before), Run(e, ops);
      var r1 :| r1 in mid.table && Carried(r, r1);
      HonestEntry(mid, r1);
      assert ops[..|ops| - 1] == before;
      BusyStep(mid, last, r1);
      TraceGrows(mid, last);
      assert News(e, end) == News(e, mid) + News(mid, end);
    }
  }

  lemma HonestEntry(e: Engine, r: Relay)
    requires Honest(e) && r in e.table
    ensures r.LastTraffic() == LastActivity(e.trace, r.address)
  {
  }
}
