/** The time-sliced bandwidth limiter and what it guarantees over real time. */
module Limiter {

  function Max(x: real, y: real): real {
    if x < y then y else x
  }

  function Product(x: real, y: real): real {
    x * y
  }

  /** The limiter's fields. Traffic is counted in bytes, time in seconds. */
  datatype Limit = Limit(maxTraffic: real, interval: real, traffic: nat, lastInterval: real) {

    /** Bytes allotted to one slice. */
    function Budget(): real {
      Product(maxTraffic, interval)
    }

    predicate SliceOver(now: real) {
      now > lastInterval + interval
    }

    /** A packet that opens a slice is accepted whatever its size. */
    predicate Accepts(size: nat, now: real) {
      SliceOver(now) || (traffic + size) as real <= Budget()
    }

    /** Fields after one validation; `stamp` is the second clock reading, taken when a slice opens. */
    function Validated(size: nat, now: real, stamp: real): Limit {
      if SliceOver(now) then
        this.(lastInterval := stamp, traffic := size)
      else if (traffic + size) as real <= Budget() then
        this.(traffic := traffic + size)
      else
        this
    }
  }

  /** The check in the open: a packet is rejected if and only if the slice is not over and the packet
      would take it over the budget. A rejected packet leaves no trace, an accepted one is counted. */
  lemma LimitExact(l: Limit, size: nat, now: real, stamp: real)
    ensures !l.Accepts(size, now) <==>
              now <= l.lastInterval + l.interval && (l.traffic + size) as real > l.maxTraffic * l.interval
    ensures var l' := l.Validated(size, now, stamp);
            && l'.maxTraffic == l.maxTraffic && l'.interval == l.interval
            && l'.lastInterval == (if now > l.lastInterval + l.interval then stamp else l.lastInterval)
            && l'.traffic == (if now > l.lastInterval + l.interval then size
                              else if (l.traffic + size) as real <= l.maxTraffic * l.interval then l.traffic + size
                              else l.traffic)
  {
  }

  /** The limiter as an object: `Validate` reports a failed assertion as `false`. */
  class BandwidthLimiter {
    const interval: real
    const maxTraffic: real
    var traffic: nat
    var lastInterval: real

    ghost function View(): Limit
      reads this
    {
      Limit(maxTraffic, interval, traffic, lastInterval)
    }

    constructor (maxTraffic: real, interval: real, now: real)
      ensures View() == Limit(maxTraffic, interval, 0, now)
    {
      this.maxTraffic, this.interval := maxTraffic, interval;
      this.traffic, this.lastInterval := 0, now;
    }

    method Validate(size: nat, now: real, stamp: real) returns (accepted: bool)
      modifies this
      ensures accepted == old(View()).Accepts(size, now)
      ensures !accepted <==>
                now <= old(lastInterval) + interval && (old(traffic) + size) as real > maxTraffic * interval
      ensures View() == old(View()).Validated(size, now, stamp)
    {
      if now > lastInterval + interval {
        lastInterval := stamp;
        traffic := size;
        return true;
      }
      var limit := maxTraffic * interval;
      if !((traffic + size) as real <= limit) {
        return false;
      }
      traffic := traffic + size;
      return true;
    }
  }

  // ---------------------------------------------------------------- windows

  /** `x` added up `n` times. */
  function Times(n: nat, x: real): real {
    if n == 0 then 0.0 else Times(n - 1, x) + x
  }

  lemma {:induction false} TimesIsProduct(n: nat, x: real)
    ensures Times(n, x) == Product(n as real, x)
  {
    if n > 0 {
      TimesIsProduct(n - 1, x);
    }
  }

  lemma {:induction false} TimesMonotone(m: nat, n: nat, x: real)
    requires m <= n && x >= 0.0
    ensures 0.0 <= Times(m, x) <= Times(n, x)
  {
    if m < n {
      TimesMonotone(m, n - 1, x);
    } else if m > 0 {
      TimesMonotone(m - 1, n - 1, x);
    }
  }

  /** How many slices can carry traffic inside a window of length `w`. */
  function SlicesIn(w: real, interval: real): nat
    requires interval > 0.0 && w >= 0.0
  {
    (w / interval).Floor + 2
  }

  /** `bytes` were accepted since `a`, during which `k` slices were opened. */
  ghost predicate Slices(l: Limit, bytes: nat, a: real, cap: real, k: nat) {
    && bytes as real <= Times(k, cap) + l.traffic as real
    && (k >= 1 ==> a + Times(k - 1, l.interval) <= l.lastInterval)
  }

  /** What holds of a limiter and of the bytes accepted so far in the window `[a, a + w]`:
      each slice carries at most `cap`. */
  ghost predicate Window(l: Limit, clock: real, bytes: nat, a: real, w: real, cap: real)
    requires l.interval > 0.0 && w >= 0.0
  {
    && l.lastInterval <= clock
    && l.Budget() <= cap
    && l.traffic as real <= cap
    && (clock < a ==> bytes == 0)
    && bytes as real <= Times(SlicesIn(w, l.interval), cap)
    && (clock <= a + w ==> exists k: nat :: Slices(l, bytes, a, cap, k))
  }

  /** Slice openings inside a window are an interval apart or more, so there are few of them. */
  lemma CountBound(k: nat, w: real, interval: real)
    requires interval > 0.0 && w >= 0.0
    requires k as real * interval <= w
    ensures k < SlicesIn(w, interval) - 1
  {
    var q := w / interval;
    assert q * interval == w;
    assert (k as real - q) * interval <= 0.0;
    assert k as real <= q;
  }

  lemma SlicesWithinCap(l: Limit, bytes: nat, a: real, x: real, w: real, cap: real, k: nat)
    requires l.interval > 0.0 && w >= 0.0
    requires 0.0 <= l.traffic as real <= cap
    requires Slices(l, bytes, a, cap, k)
    requires k >= 1 ==> a + Times(k - 1, l.interval) <= x
    requires x <= a + w
    ensures bytes as real <= Times(SlicesIn(w, l.interval), cap)
  {
    if k >= 1 {
      TimesIsProduct(k - 1, l.interval);
      CountBound(k - 1, w, l.interval);
    } else {
      assert w / l.interval >= 0.0;
    }
    TimesMonotone(k + 1, SlicesIn(w, l.interval), cap);
  }

  lemma FreshWindow(l: Limit, clock: real, a: real, w: real, cap: real)
    requires l.interval > 0.0 && w >= 0.0
    requires l.lastInterval <= clock && l.Budget() <= cap && l.traffic == 0 && 0.0 <= cap
    ensures Window(l, clock, 0, a, w, cap)
  {
    assert Slices(l, 0, a, cap, 0);
    TimesMonotone(0, SlicesIn(w, l.interval), cap);
  }

  /** One validation keeps the window, whether or not the accepted packet is counted in the end. */
  lemma WindowStep(l: Limit, clock: real, bytes: nat, bytes': nat, a: real, w: real, cap: real,
                   size: nat, now: real, stamp: real)
    requires l.interval > 0.0 && w >= 0.0
    requires Window(l, clock, bytes, a, w, cap)
    requires clock <= now <= stamp
    requires size as real <= cap
    requires bytes' == bytes || (bytes' == bytes + size && l.Accepts(size, now) && a <= now <= a + w)
    ensures Window(l.Validated(size, now, stamp), stamp, bytes', a, w, cap)
  {
    hide Product;
    var l' := l.Validated(size, now, stamp);
    if now <= a + w {
      var k: nat :| Slices(l, bytes, a, cap, k);
      if l.SliceOver(now) {
        if now < a {
          assert Slices(l', bytes', a, cap, 0);
        } else {
          assert Slices(l', bytes', a, cap, k + 1);
          SlicesWithinCap(l', bytes', a, now, w, cap, k + 1);
        }
      } else {
        assert Slices(l', bytes', a, cap, k);
        SlicesWithinCap(l', bytes', a, now, w, cap, k);
      }
    }
  }

  // ------------------------------------------------------------------- runs

  datatype Call = Call(size: nat, now: real, stamp: real)

  /** Readings of a clock that never goes back. */
  ghost predicate TimelyCalls(calls: seq<Call>, clock: real) {
    && (forall i :: 0 <= i < |calls| ==> clock <= calls[i].now <= calls[i].stamp)
    && (forall i, j :: 0 <= i < j < |calls| ==> calls[i].stamp <= calls[j].now)
  }

  function RunCalls(l: Limit, calls: seq<Call>): Limit {
    if calls == [] then l
    else
      var last := calls[|calls| - 1];
      RunCalls(l, calls[..|calls| - 1]).Validated(last.size, last.now, last.stamp)
  }

  /** Bytes of the calls accepted with a reading in `[a, b]`. */
  function AcceptedBytes(l: Limit, calls: seq<Call>, a: real, b: real): nat {
    if calls == [] then 0
    else
      var last := calls[|calls| - 1];
      var before := calls[..|calls| - 1];
      AcceptedBytes(l, before, a, b)
      + if RunCalls(l, before).Accepts(last.size, last.now) && a <= last.now <= b then last.size else 0
  }

  lemma {:induction false} RunKeepsParameters(l: Limit, calls: seq<Call>)
    ensures RunCalls(l, calls).interval == l.interval && RunCalls(l, calls).maxTraffic == l.maxTraffic
  {
    if calls != [] {
      RunKeepsParameters(l, calls[..|calls| - 1]);
    }
  }

  lemma {:induction false} RunKeepsWindow(l: Limit, calls: seq<Call>, clock: real, a: real, w: real, cap: real)
    requires l.interval > 0.0 && w >= 0.0
    requires TimelyCalls(calls, clock)
    requires l.lastInterval <= clock && l.Budget() <= cap && l.traffic == 0 && 0.0 <= cap
    requires forall i :: 0 <= i < |calls| ==> calls[i].size as real <= cap
    ensures RunCalls(l, calls).interval == l.interval
    ensures Window(RunCalls(l, calls), if calls == [] then clock else calls[|calls| - 1].stamp,
                   AcceptedBytes(l, calls, a, a + w), a, w, cap)
  {
    RunKeepsParameters(l, calls);
    if calls == [] {
      FreshWindow(l, clock, a, w, cap);
    } else {
      var last, before := calls[|calls| - 1], calls[..|calls| - 1];
      RunKeepsWindow(l, before, clock, a, w, cap);
      RunKeepsParameters(l, before);
      WindowStep(RunCalls(l, before), if before == [] then clock else before[|before| - 1].stamp,
                 AcceptedBytes(l, before, a, a + w), AcceptedBytes(l, calls, a, a + w), a, w, cap,
                 last.size, last.now, last.stamp);
    }
  }

  /** Over any run of a limiter, on any clock that does not go back, no window of length `w`
      carries more than `floor(w / interval) + 2` times the larger of the slice budget and the
      largest packet. */
  lemma BandwidthBound(l: Limit, calls: seq<Call>, clock: real, largest: nat, a: real, w: real)
    requires l.interval > 0.0 && w >= 0.0
    requires l.traffic == 0 && l.lastInterval <= clock && TimelyCalls(calls, clock)
    requires forall i :: 0 <= i < |calls| ==> calls[i].size <= largest
    ensures AcceptedBytes(l, calls, a, a + w) as real
            <= Product(SlicesIn(w, l.interval) as real, Max(l.Budget(), largest as real))
  {
    hide Product, SlicesIn;
    RunKeepsWindow(l, calls, clock, a, w, Max(l.Budget(), largest as real));
    TimesIsProduct(SlicesIn(w, l.interval), Max(l.Budget(), largest as real));
  }

  // ------------------------------------------------------- the nominal budget

  /** When the current slice started: at the last call whose reading was past the end of the one before. */
  function SliceStart(l: Limit, calls: seq<Call>): real {
    if calls == [] then l.lastInterval
    else
      var last := calls[|calls| - 1];
      var start := SliceStart(l, calls[..|calls| - 1]);
      if last.now > start + l.interval then last.stamp else start
  }

  /** Sizes accepted into the current slice, first the packet that opened it (0 for the initial slice). */
  function SliceLog(l: Limit, calls: seq<Call>): (log: seq<nat>)
    ensures |log| > 0
  {
    if calls == [] then [l.traffic]
    else
      var last := calls[|calls| - 1];
      var before := calls[..|calls| - 1];
      if last.now > SliceStart(l, before) + l.interval then [last.size]
      else if RunCalls(l, before).Accepts(last.size, last.now) then SliceLog(l, before) + [last.size]
      else SliceLog(l, before)
  }

  function Total(sizes: seq<nat>): nat {
    if sizes == [] then 0 else Total(sizes[..|sizes| - 1]) + sizes[|sizes| - 1]
  }

  lemma TotalAppend(sizes: seq<nat>, size: nat)
    ensures Total(sizes + [size]) == Total(sizes) + size
  {
    assert (sizes + [size])[..|sizes|] == sizes;
  }

  lemma LogAppend(l: Limit, calls: seq<Call>, last: Call)
    requires last.now <= SliceStart(l, calls) + l.interval
    ensures SliceStart(l, calls + [last]) == SliceStart(l, calls)
    ensures SliceLog(l, calls + [last])
            == SliceLog(l, calls) + if RunCalls(l, calls).Accepts(last.size, last.now) then [last.size] else []
  {
    assert (calls + [last])[..|calls|] == calls;
  }

  /** The counter is the total of the log, and past the opening packet the budget holds. */
  ghost predicate Tallied(l: Limit, log: seq<nat>) {
    && log != [] && l.traffic == Total(log)
    && log[0] <= Total(log) && Total(log) as real <= Max(l.Budget(), log[0] as real)
  }

  lemma TalliedStep(l: Limit, log: seq<nat>, size: nat, now: real, stamp: real)
    requires Tallied(l, log)
    ensures Tallied(l.Validated(size, now, stamp),
                    if l.SliceOver(now) then [size] else if l.Accepts(size, now) then log + [size] else log)
  {
    hide Product, Total;
    TotalAppend(log, size);
    TotalAppend([], size);
    assert [] + [size] == [size];
    assert Total([]) == 0 by { NoTotal(); }
  }

  lemma NoTotal()
    ensures Total([]) == 0
  {
  }

  lemma {:induction false} RunTallied(l: Limit, calls: seq<Call>)
    ensures Tallied(RunCalls(l, calls), SliceLog(l, calls))
    ensures RunCalls(l, calls).lastInterval == SliceStart(l, calls)
  {
    RunKeepsParameters(l, calls);
    if calls == [] {
      TotalAppend([], l.traffic);
      assert [] + [l.traffic] == [l.traffic];
    } else {
      var before, last := calls[..|calls| - 1], calls[|calls| - 1];
      RunTallied(l, before);
      RunKeepsParameters(l, before);
      TalliedStep(RunCalls(l, before), SliceLog(l, before), last.size, last.now, last.stamp);
      hide Tallied, Product, Total;
    }
  }

  /** The counter is the traffic of the current slice. A slice carries at most the larger of its
      budget and the packet that opened it, so it stays within its budget if and only if that packet
      does: the opening packet is the only one not checked. */
  lemma SliceWithinBudget(l: Limit, calls: seq<Call>)
    ensures RunCalls(l, calls).lastInterval == SliceStart(l, calls)
    ensures RunCalls(l, calls).traffic == Total(SliceLog(l, calls))
    ensures Total(SliceLog(l, calls)) as real <= l.Budget() <==> SliceLog(l, calls)[0] as real <= l.Budget()
    ensures SliceLog(l, calls)[0] <= Total(SliceLog(l, calls))
    ensures Total(SliceLog(l, calls)) as real <= Max(l.Budget(), SliceLog(l, calls)[0] as real)
  {
    RunTallied(l, calls);
    RunKeepsParameters(l, calls);
    hide RunCalls, SliceLog, SliceStart, Total, Product;
  }

  /** After any run of calls a packet is rejected if and only if its reading is within the interval of
      the slice's start and the bytes accepted in the slice and its own together exceed the budget. */
  lemma RejectedIff(l: Limit, calls: seq<Call>, size: nat, now: real)
    ensures !RunCalls(l, calls).Accepts(size, now) <==>
              && now <= SliceStart(l, calls) + l.interval
              && (Total(SliceLog(l, calls)) + size) as real > l.maxTraffic * l.interval
  {
    RunKeepsParameters(l, calls);
    SliceWithinBudget(l, calls);
    LimitExact(RunCalls(l, calls), size, now, now);
    hide RunCalls, SliceLog, SliceStart, Limit.Accepts, Limit.Validated;
  }

  function Bytes(calls: seq<Call>): nat {
    if calls == [] then 0 else Bytes(calls[..|calls| - 1]) + calls[|calls| - 1].size
  }

  /** Calls that stay within the current slice and fit into what is left of its budget. */
  ghost predicate Fits(l: Limit, calls: seq<Call>, more: seq<Call>) {
    && (forall k :: 0 <= k < |more| ==> more[k].now <= SliceStart(l, calls) + l.interval)
    && (Total(SliceLog(l, calls)) + Bytes(more)) as real <= Product(l.maxTraffic, l.interval)
  }

  /** A call that stays within the slice and fits is accepted. */
  lemma OneFits(l: Limit, calls: seq<Call>, size: nat, now: real, room: nat)
    requires now <= SliceStart(l, calls) + l.interval && size <= room
    requires (Total(SliceLog(l, calls)) + room) as real <= Product(l.maxTraffic, l.interval)
    ensures RunCalls(l, calls).Accepts(size, now)
  {
    RejectedIff(l, calls, size, now);
    hide RunCalls, SliceLog, SliceStart, Limit.Accepts, Total;
  }

  lemma {:induction false} FittingCounted(l: Limit, calls: seq<Call>, more: seq<Call>)
    requires Fits(l, calls, more)
    ensures SliceStart(l, calls + more) == SliceStart(l, calls)
    ensures Total(SliceLog(l, calls + more)) == Total(SliceLog(l, calls)) + Bytes(more)
    decreases |more|
  {
    hide RunCalls, Limit.Accepts, SliceLog, SliceStart, Total, Product;
    if more == [] {
      assert calls + more == calls;
    } else {
      var init, last := more[..|more| - 1], more[|more| - 1];
      assert calls + more == (calls + init) + [last];
      FittingCounted(l, calls, init);
      OneFits(l, calls + init, last.size, last.now, last.size);
      LogAppend(l, calls + init, last);
      TotalAppend(SliceLog(l, calls + init), last.size);
    }
  }

  /** What fits is accepted: of calls within one slice whose sizes together fit into what is left of the
      budget, none is rejected. */
  lemma FittingAccepted(l: Limit, calls: seq<Call>, more: seq<Call>, k: nat)
    requires Fits(l, calls, more) && k < |more|
    ensures RunCalls(l, calls + more[..k]).Accepts(more[k].size, more[k].now)
  {
    hide RunCalls, SliceLog, SliceStart, Limit.Accepts, Total, Product;
    BytesPrefix(more, k);
    FittingCounted(l, calls, more[..k]);
    OneFits(l, calls + more[..k], more[k].size, more[k].now, more[k].size);
  }

  lemma {:induction false} BytesPrefix(calls: seq<Call>, k: nat)
    requires k < |calls|
    ensures Bytes(calls[..k]) + calls[k].size <= Bytes(calls)
  {
    if k < |calls| - 1 {
      BytesPrefix(calls[..|calls| - 1], k);
      assert calls[..|calls| - 1][..k] == calls[..k];
    }
  }

  /** A concrete overrun: one packet twice the budget is accepted when it opens a slice. */
  lemma OpeningPacketOverrun()
    ensures exists l: Limit, size: nat, now: real ::
              l.Accepts(size, now) && l.Validated(size, now, now).traffic as real > l.Budget()
  {
    var l := Limit(10.0, 1.0, 0, 0.0);
    assert l.Accepts(20, 2.0) && l.Validated(20, 2.0, 2.0).traffic as real > l.Budget();
  }
}
