/** Expanding configured port ranges. The sort compares decimal strings, so its order is not the
    numeric one; removing adjacent duplicates still removes all of them. */
module PortRanges {
  import opened Addresses

  /** The longest array JavaScript allows. */
  const MAX_ARRAY: int := 0xFFFF_FFFF

  /** A parsed range, both ends included. */
  datatype Range = Range(from: int, to: int) {
    predicate Contains(p: int) {
      from <= p <= to
    }

    predicate Expandable() {
      0 <= to - from + 1 <= MAX_ARRAY
    }
  }

  /** `Malformed` is the RangeError of an array length out of bounds, `Undefined` the empty result. */
  datatype Parsed = Ports(ports: seq<int>) | Undefined | Malformed

  // ------------------------------------------------------------ string order

  /** A whole number in decimal notation, as JavaScript prints it below 10^21. */
  function Text(n: int): string {
    if n < 0 then "-" + Decimal(-n) else Decimal(n)
  }

  /** Code-unit order of strings: a proper prefix comes first. */
  predicate Precedes(s: string, t: string) {
    t != [] && (s == [] || s[0] < t[0] || (s[0] == t[0] && Precedes(s[1..], t[1..])))
  }

  lemma TextInjective(m: int, n: int)
    requires Text(m) == Text(n)
    ensures m == n
  {
    assert m < 0 <==> Text(m)[0] == '-';
    assert n < 0 <==> Text(n)[0] == '-';
    if m < 0 {
      assert Decimal(-m) == Text(m)[1..] == Text(n)[1..] == Decimal(-n);
      DecimalInjective(-m, -n);
    } else {
      DecimalInjective(m, n);
    }
  }

  lemma {:induction false} Total(s: string, t: string)
    ensures Precedes(s, t) || s == t || Precedes(t, s)
    ensures !(Precedes(s, t) && Precedes(t, s)) && !Precedes(s, s)
  {
    if s != [] {
      Total(s[1..], if t == [] then [] else t[1..]);
      if t != [] && s[0] == t[0] && s[1..] == t[1..] {
        assert s == [s[0]] + s[1..] == t;
      }
    }
  }

  lemma {:induction false} Transitive(s: string, t: string, u: string)
    requires Precedes(s, t) && Precedes(t, u)
    ensures Precedes(s, u)
  {
    if s != [] && s[0] == t[0] == u[0] {
      Transitive(s[1..], t[1..], u[1..]);
    }
  }

  // ---------------------------------------------------------------- the parser

  ghost predicate InRanges(p: int, ranges: seq<Range>) {
    exists r :: r in ranges && r.Contains(p)
  }

  function Expand(r: Range): (ports: seq<int>)
    requires r.Expandable()
    ensures forall p :: p in ports <==> r.Contains(p)
  {
    var ports := seq(r.to - r.from + 1, i => r.from + i);
    assert forall p :: r.Contains(p) ==> ports[p - r.from] == p;
    ports
  }

  function ExpandAll(ranges: seq<Range>): (ports: seq<int>)
    requires forall r :: r in ranges ==> r.Expandable()
    ensures forall p :: p in ports <==> InRanges(p, ranges)
  {
    if ranges == [] then [] else Expand(ranges[0]) + ExpandAll(ranges[1..])
  }

  /** `p` goes before the first element it does not come after. */
  function Insert(p: int, sorted: seq<int>): seq<int> {
    if sorted == [] then [p]
    else if Precedes(Text(sorted[0]), Text(p)) then [sorted[0]] + Insert(p, sorted[1..])
    else [p] + sorted
  }

  /** `sort()` without a comparator. */
  function Sort(ports: seq<int>): seq<int> {
    if ports == [] then [] else Insert(ports[0], Sort(ports[1..]))
  }

  /** Keeps an element unless it equals the one before it. */
  function Dedup(ports: seq<int>): seq<int> {
    if |ports| <= 1 then ports
    else Dedup(ports[..|ports| - 1]) + if ports[|ports| - 1] != ports[|ports| - 2] then [ports[|ports| - 1]] else []
  }

  function Parse(ranges: seq<Range>): Parsed {
    if exists r :: r in ranges && !r.Expandable() then Malformed
    else
      var ports := Dedup(Sort(ExpandAll(ranges)));
      if ports == [] then Undefined else Ports(ports)
  }

  // ------------------------------------------------------------------ sorting

  /** In string order, repetitions allowed. */
  ghost predicate InOrder(ports: seq<int>) {
    forall i, j :: 0 <= i < j < |ports| ==> ports[i] == ports[j] || Precedes(Text(ports[i]), Text(ports[j]))
  }

  /** In string order, without repetition. */
  ghost predicate Increasing(ports: seq<int>) {
    forall i, j :: 0 <= i < j < |ports| ==> Precedes(Text(ports[i]), Text(ports[j]))
  }

  lemma {:induction false} InsertContents(p: int, sorted: seq<int>)
    ensures multiset(Insert(p, sorted)) == multiset(sorted) + multiset{p}
    ensures forall q :: q in Insert(p, sorted) <==> q == p || q in sorted
  {
    if sorted != [] && Precedes(Text(sorted[0]), Text(p)) {
      assert sorted == [sorted[0]] + sorted[1..];
      InsertContents(p, sorted[1..]);
    }
  }

  lemma {:induction false} InsertOrder(p: int, sorted: seq<int>)
    requires InOrder(sorted)
    ensures InOrder(Insert(p, sorted))
  {
    if sorted != [] {
      var head, rest := sorted[0], sorted[1..];
      if Precedes(Text(head), Text(p)) {
        InsertOrder(p, rest);
        InsertContents(p, rest);
        Prepend(head, Insert(p, rest));
      } else {
        Total(Text(head), Text(p));
        if Text(head) == Text(p) {
          TextInjective(head, p);
        }
        forall q | q in sorted && q != p
          ensures Precedes(Text(p), Text(q))
        {
          if q != head && p != head {
            Transitive(Text(p), Text(head), Text(q));
          }
        }
        Prepend(p, sorted);
      }
    }
  }

  lemma Prepend(p: int, sorted: seq<int>)
    requires InOrder(sorted) && forall q :: q in sorted ==> p == q || Precedes(Text(p), Text(q))
    ensures InOrder([p] + sorted)
  {
  }

  lemma {:induction false} SortCorrect(ports: seq<int>)
    ensures InOrder(Sort(ports)) && multiset(Sort(ports)) == multiset(ports)
    ensures forall p :: p in Sort(ports) <==> p in ports
  {
    if ports != [] {
      assert ports == [ports[0]] + ports[1..];
      SortCorrect(ports[1..]);
      InsertOrder(ports[0], Sort(ports[1..]));
      InsertContents(ports[0], Sort(ports[1..]));
    }
  }

  /** Whatever algorithm sorts, the result is the same: only one arrangement is in order. */
  lemma {:induction false} OneArrangement(s: seq<int>, t: seq<int>)
    requires InOrder(s) && InOrder(t) && multiset(s) == multiset(t)
    ensures s == t
  {
    hide InOrder, Text, Precedes;
    assert |s| == |multiset(s)| == |multiset(t)| == |t|;
    if s != [] {
      SameHead(s, t);
      assert s == [s[0]] + s[1..] && t == [t[0]] + t[1..];
      assert multiset(s[1..]) == multiset(s) - multiset{s[0]};
      assert multiset(t[1..]) == multiset(t) - multiset{t[0]};
      TailOrder(s);
      TailOrder(t);
      OneArrangement(s[1..], t[1..]);
    }
  }

  lemma TailOrder(s: seq<int>)
    requires InOrder(s) && s != []
    ensures InOrder(s[1..])
  {
  }

  lemma SameHead(s: seq<int>, t: seq<int>)
    requires InOrder(s) && InOrder(t) && multiset(s) == multiset(t) && s != [] && t != []
    ensures s[0] == t[0]
  {
    hide Precedes, Text;
    assert s[0] in multiset(t) && t[0] in multiset(s);
    var i :| 0 <= i < |t| && t[i] == s[0];
    var j :| 0 <= j < |s| && s[j] == t[0];
    Total(Text(s[0]), Text(t[0]));
  }

  /** What comes at or after the top of an increasing list comes after all of it. */
  lemma TopPrecedes(d: seq<int>, last: int)
    requires d != [] && Increasing(d) && Precedes(Text(d[|d| - 1]), Text(last))
    ensures forall i :: 0 <= i < |d| ==> Precedes(Text(d[i]), Text(last))
  {
    hide Precedes, Text;
    forall i | 0 <= i < |d|
      ensures Precedes(Text(d[i]), Text(last))
    {
      if i < |d| - 1 {
        Transitive(Text(d[i]), Text(d[|d| - 1]), Text(last));
      }
    }
  }

  lemma Extend(d: seq<int>, last: int)
    requires Increasing(d) && forall i :: 0 <= i < |d| ==> Precedes(Text(d[i]), Text(last))
    ensures Increasing(d + [last])
  {
    hide Precedes, Text;
  }

  /** The last two elements of a sorted list, and what removing repetitions does about them. */
  lemma LastStep(ports: seq<int>)
    requires InOrder(ports) && |ports| > 1
    ensures var before, last := ports[..|ports| - 1], ports[|ports| - 1];
            && InOrder(before) && ports == before + [last]
            && (last != before[|before| - 1] ==> Precedes(Text(before[|before| - 1]), Text(last)))
            && Dedup(ports) == Dedup(before) + if last != before[|before| - 1] then [last] else []
  {
    hide Precedes, Text;
  }

  /** Equal elements of a sorted list are adjacent, so removing adjacent repetitions leaves none. */
  lemma {:induction false} DedupCorrect(ports: seq<int>)
    requires InOrder(ports)
    ensures var d := Dedup(ports);
            && Increasing(d)
            && (forall p :: p in d <==> p in ports)
            && (ports != [] ==> d != [] && d[|d| - 1] == ports[|ports| - 1])
  {
    if |ports| > 1 {
      hide Precedes, Text, Dedup, InOrder, Increasing;
      var before, last := ports[..|ports| - 1], ports[|ports| - 1];
      LastStep(ports);
      DedupCorrect(before);
      if last != before[|before| - 1] {
        TopPrecedes(Dedup(before), last);
        Extend(Dedup(before), last);
      }
    }
  }

  // ----------------------------------------------------------------- the result

  /** The parser fails exactly on a range that ends more than one before it starts, or that has more than
      2^32 - 1 numbers, the most an array holds; otherwise the ports are exactly those of the ranges, each once, in
      increasing string order. */
  lemma ParseExact(ranges: seq<Range>)
    ensures Parse(ranges) == Malformed <==> exists r :: r in ranges && !(0 <= r.to - r.from + 1 <= 4294967295)
    ensures Parse(ranges) == Undefined <==> forall r :: r in ranges ==> r.from == r.to + 1
    ensures Parse(ranges).Ports? ==>
              && Increasing(Parse(ranges).ports)
              && (forall i, j :: 0 <= i < j < |Parse(ranges).ports| ==>
                    Parse(ranges).ports[i] != Parse(ranges).ports[j])
              && (forall p :: p in Parse(ranges).ports <==> InRanges(p, ranges))
  {
    if forall r :: r in ranges ==> r.Expandable() {
      var all := ExpandAll(ranges);
      SortCorrect(all);
      DedupCorrect(Sort(all));
      hide Sort, Dedup, ExpandAll, Precedes;
      var d := Dedup(Sort(all));
      forall i, j | 0 <= i < j < |d|
        ensures d[i] != d[j]
      {
        Total(Text(d[i]), Text(d[j]));
      }
      if d == [] {
        forall r | r in ranges ensures r.from == r.to + 1 {
          assert r.from <= r.to ==> r.Contains(r.from) && r.from in all;
        }
      } else {
        assert d[0] in d;
      }
    }
  }

  /** Ranges of port numbers that are not reversed never fail, and are expanded unless all are empty. */
  lemma PortNumbersParse(ranges: seq<Range>)
    requires forall r :: r in ranges ==> 0 <= r.from <= r.to + 1 && r.to <= 65535
    ensures Parse(ranges) != Malformed
    ensures (exists r :: r in ranges && r.from <= r.to) ==> Parse(ranges).Ports?
  {
    ParseExact(ranges);
    hide Parse, Increasing, InRanges;
  }

  lemma {:induction false} OneSequence(s: seq<int>, t: seq<int>)
    requires Increasing(s) && Increasing(t) && forall p :: p in s <==> p in t
    ensures s == t
  {
    hide Precedes, Text;
    assert t != [] ==> t[0] in t && t[0] in s;
    if s != [] {
      assert s[0] in s && s[0] in t;
      Total(Text(s[0]), Text(t[0]));
      Total(Text(s[0]), Text(s[0]));
      forall p ensures p in s[1..] <==> p in t[1..] {
        assert p in s <==> p in t;
        Total(Text(s[0]), Text(p));
        assert s == [s[0]] + s[1..] && t == [t[0]] + t[1..];
        assert p in s[1..] ==> Precedes(Text(s[0]), Text(p));
        assert p in t[1..] ==> Precedes(Text(t[0]), Text(p));
      }
      OneSequence(s[1..], t[1..]);
    }
  }

  /** Only the set of ports matters: however it is split into ranges, in whatever order and with
      whatever overlaps, the parser gives the same sequence. */
  lemma SameSetSamePorts(a: seq<Range>, b: seq<Range>)
    requires Parse(a).Ports? && Parse(b).Ports?
    requires forall p :: InRanges(p, a) <==> InRanges(p, b)
    ensures Parse(a) == Parse(b)
  {
    ParseExact(a);
    ParseExact(b);
    hide Parse, Increasing;
    OneSequence(Parse(a).ports, Parse(b).ports);
  }

  // --------------------------------------------------- string and numeric order

  /** `n` without its last `k` digits. */
  function Leading(n: nat, k: nat): nat {
    if k == 0 then n else Leading(n, k - 1) / 10
  }

  /** Appending characters to two strings of one length compares the strings first. */
  lemma {:induction false} AppendOrder(s: string, t: string, x: string, y: string)
    requires |s| == |t|
    ensures Precedes(s + x, t + y) <==> Precedes(s, t) || (s == t && Precedes(x, y))
  {
    if s == [] {
      assert s + x == x && t + y == y;
    } else {
      AppendOrder(s[1..], t[1..], x, y);
      assert (s + x)[1..] == s[1..] + x && (t + y)[1..] == t[1..] + y;
      Total(s, t);
      assert s[0] == t[0] && s[1..] == t[1..] ==> s == [s[0]] + s[1..] == t;
    }
  }

  /** Numbers with equally many digits are ordered as their strings are. */
  lemma {:induction false} SameLength(m: nat, n: nat)
    requires |Decimal(m)| == |Decimal(n)|
    ensures Precedes(Decimal(m), Decimal(n)) <==> m < n
    decreases m
  {
    LastDigit(m);
    LastDigit(n);
    DigitOrder(m % 10, n % 10);
    hide Decimal, Precedes;
    if m >= 10 && n >= 10 {
      SameLength(m / 10, n / 10);
      AppendOrder(Decimal(m / 10), Decimal(n / 10), [Digit(m % 10)], [Digit(n % 10)]);
      if Decimal(m / 10) == Decimal(n / 10) {
        DecimalInjective(m / 10, n / 10);
      }
    }
  }

  lemma LastDigit(n: nat)
    ensures Decimal(n) == if n < 10 then [Digit(n % 10)] else Decimal(n / 10) + [Digit(n % 10)]
  {
  }

  lemma DigitOrder(a: nat, b: nat)
    requires a < 10 && b < 10
    ensures Precedes([Digit(a)], [Digit(b)]) <==> a < b
  {
    assert [Digit(a)][1..] == [Digit(b)][1..] == [];
  }

  lemma {:induction false} LeadingDigits(n: nat, k: nat)
    requires k < |Decimal(n)|
    ensures Decimal(Leading(n, k)) == Decimal(n)[..|Decimal(n)| - k]
  {
    if k > 0 {
      LeadingDigits(n, k - 1);
      var l := Leading(n, k - 1);
      assert |Decimal(l)| > 1;
    }
  }

  /** A number precedes one with more digits exactly when it is at most that number's leading digits. */
  lemma ShorterPrecedes(m: nat, n: nat)
    requires |Decimal(m)| < |Decimal(n)|
    ensures Precedes(Decimal(m), Decimal(n)) <==> m <= Leading(n, |Decimal(n)| - |Decimal(m)|)
  {
    hide Decimal, Leading;
    var s, t, k := Decimal(m), Decimal(n), |Decimal(n)| - |Decimal(m)|;
    var l := Leading(n, k);
    LeadingDigits(n, k);
    SameLength(m, l);
    assert s + [] == s && t[..|s|] + t[|s|..] == t;
    AppendOrder(s, t[..|s|], [], t[|s|..]);
    if s == Decimal(l) {
      DecimalInjective(m, l);
    }
  }

  lemma {:induction false} MoreDigits(m: nat, n: nat)
    requires m <= n
    ensures |Decimal(m)| <= |Decimal(n)|
    decreases n
  {
    if m >= 10 {
      MoreDigits(m / 10, n / 10);
    }
  }

  /** The smaller number is also first in string order: a number without sign when it is at most the
      leading digits of the larger one, as many digits as it has itself; a negative number always
      before one without sign, and before another negative one when it has more digits and their
      leading ones are less than those of the other. */
  ghost predicate Agrees(m: int, n: int)
    requires m < n
  {
    if m < 0 <= n then true
    else if m >= 0 then
      |Decimal(m)| == |Decimal(n)| || (|Decimal(m)| < |Decimal(n)| && m <= Leading(n, |Decimal(n)| - |Decimal(m)|))
    else
      |Decimal(-n)| < |Decimal(-m)| && Leading(-m, |Decimal(-m)| - |Decimal(-n)|) < -n
  }

  ghost predicate Ascending(ports: seq<int>) {
    forall i, j :: 0 <= i < j < |ports| ==> ports[i] < ports[j]
  }

  /** The ports come out in numeric order if and only if every smaller port of the ranges agrees with
      every larger one. */
  lemma AscendingIff(ranges: seq<Range>)
    requires Parse(ranges).Ports?
    ensures Ascending(Parse(ranges).ports)
            <==> forall m, n :: m < n && InRanges(m, ranges) && InRanges(n, ranges) ==> Agrees(m, n)
  {
    ParseExact(ranges);
    hide Parse, Precedes, Leading, Decimal, Text, Agrees, InRanges;
    var ports := Parse(ranges).ports;
    if Ascending(ports) {
      forall m, n | m < n && InRanges(m, ranges) && InRanges(n, ranges)
        ensures Agrees(m, n)
      {
        var i :| 0 <= i < |ports| && ports[i] == m;
        var j :| 0 <= j < |ports| && ports[j] == n;
        assert Precedes(Text(m), Text(n));
        AgreesIff(m, n);
      }
    }
    if forall m, n :: m < n && InRanges(m, ranges) && InRanges(n, ranges) ==> Agrees(m, n) {
      forall i, j | 0 <= i < j < |ports|
        ensures ports[i] < ports[j]
      {
        assert ports[i] in ports && ports[j] in ports;
        if ports[j] < ports[i] {
          AgreesIff(ports[j], ports[i]);
          Total(Text(ports[i]), Text(ports[j]));
        }
      }
    }
  }

  lemma AgreesIff(m: int, n: int)
    requires m < n
    ensures Agrees(m, n) <==> Precedes(Text(m), Text(n))
  {
    if m >= 0 {
      AgreesUnsigned(m, n);
    } else if n < 0 {
      AgreesSigned(m, n);
    } else {
      assert Text(m)[0] == '-' && IsDigit(Text(n)[0]);
      hide Text;
    }
  }

  /** The sign in front changes nothing. */
  lemma SignPrecedes(s: string, t: string)
    ensures Precedes("-" + s, "-" + t) <==> Precedes(s, t)
  {
    AppendOrder("-", "-", s, t);
    Total("-", "-");
  }

  lemma AgreesSigned(m: int, n: int)
    requires m < n < 0
    ensures Agrees(m, n) <==> Precedes(Text(m), Text(n))
  {
    hide Decimal, Leading, Precedes;
    MoreDigits(-n, -m);
    SignPrecedes(Decimal(-m), Decimal(-n));
    if |Decimal(-m)| == |Decimal(-n)| {
      SameLength(-m, -n);
    } else {
      ShorterPrecedes(-n, -m);
      Total(Decimal(-m), Decimal(-n));
    }
  }

  lemma AgreesUnsigned(m: nat, n: nat)
    requires m < n
    ensures Agrees(m, n) <==> Precedes(Text(m), Text(n))
  {
    hide Decimal, Leading, Precedes;
    MoreDigits(m, n);
    if |Decimal(m)| == |Decimal(n)| {
      SameLength(m, n);
    } else {
      ShorterPrecedes(m, n);
    }
  }

  /** In particular ports of one digit count come out in numeric order. */
  lemma OneDigitCount(ranges: seq<Range>, digits: nat)
    requires Parse(ranges).Ports?
    requires forall p :: InRanges(p, ranges) ==> p >= 0
    requires forall p: nat :: InRanges(p, ranges) ==> |Decimal(p)| == digits
    ensures Ascending(Parse(ranges).ports)
  {
    hide Parse, Decimal, Leading, InRanges;
    AscendingIff(ranges);
  }

  lemma Spelled()
    ensures Decimal(999) == "999" && Decimal(1000) == "1000" && Decimal(1001) == "1001"
  {
  }

  lemma Alphabetic()
    ensures Precedes("1000", "1001") && Precedes("1001", "999") && Precedes("1000", "999")
  {
  }

  /** The order is not numeric in general: 999-1001 gives 1000, 1001, 999. */
  lemma NotAscending()
    ensures Parse([Range(999, 1001)]) == Ports([1000, 1001, 999])
  {
    var ranges, expected := [Range(999, 1001)], [1000, 1001, 999];
    Spelled();
    Alphabetic();
    ParseExact(ranges);
    hide Precedes, Decimal, Parse;
    assert Increasing(expected);
    assert ranges[0] in ranges;
    assert forall p :: InRanges(p, ranges) <==> 999 <= p <= 1001;
    OneSequence(Parse(ranges).ports, expected);
  }
}
