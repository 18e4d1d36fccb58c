/** Enumerating the combinations of several arrays: counting in a mixed radix, whose digits index
    the arrays. */
module Combine {

  /** The double tilde of JavaScript on a non-negative whole number: the low 32 bits, signed. */
  function Truncate(x: nat): int {
    (x + 0x8000_0000) % 0x1_0000_0000 - 0x8000_0000
  }

  /** Number of combinations for these array lengths. */
  function Count(lengths: seq<nat>): nat {
    if lengths == [] then 1 else lengths[0] * Count(lengths[1..])
  }

  function Quotient(i: nat, n: nat): nat
    requires n > 0
  {
    i / n
  }

  function Remainder(i: nat, n: nat): (r: nat)
    requires n > 0
    ensures r < n
  {
    i % n
  }

  /** The digits of `i`, the one for the first array changing fastest. */
  function Digits(lengths: seq<nat>, i: nat): (digits: seq<nat>)
    requires Count(lengths) > 0
    ensures |digits| == |lengths| && forall d :: 0 <= d < |digits| ==> digits[d] < lengths[d]
  {
    if lengths == [] then []
    else
      FactorsPositive(lengths);
      [Remainder(i, lengths[0])] + Digits(lengths[1..], Quotient(i, lengths[0]))
  }

  /** The number that has these digits. */
  function Value(lengths: seq<nat>, digits: seq<nat>): nat
    requires |digits| == |lengths|
  {
    if lengths == [] then 0 else digits[0] + lengths[0] * Value(lengths[1..], digits[1..])
  }

  /** One index into each array. */
  ghost predicate Indexes(lengths: seq<nat>, digits: seq<nat>) {
    |digits| == |lengths| && forall d :: 0 <= d < |digits| ==> digits[d] < lengths[d]
  }

  lemma FactorsPositive(lengths: seq<nat>)
    requires lengths != [] && Count(lengths) > 0
    ensures lengths[0] > 0 && Count(lengths[1..]) > 0
  {
  }

  // --------------------------------------------------------------- bijection

  lemma Multiple(n: nat, k: int)
    ensures k >= 1 ==> n * k >= n
    ensures k <= 0 ==> n * k <= 0
    ensures k <= -1 ==> n * k + n <= 0
  {
  }

  lemma Divided(n: nat, q: nat, r: nat)
    requires r < n
    ensures (r + n * q) % n == r && (r + n * q) / n == q
  {
    var x := r + n * q;
    var quotient, remainder := x / n, x % n;
    assert x == n * quotient + remainder;
    assert n * (quotient - q) == r - remainder;
    Multiple(n, quotient - q);
  }

  lemma Cancel(n: nat, a: nat, b: nat)
    ensures a < b ==> n * a + n <= n * b
    ensures n * a < n * b ==> a < b
  {
    Multiple(n, b - a);
    assert n * (b - a) == n * b - n * a;
  }

  lemma Digit(n: nat, q: nat, r: nat, m: nat)
    requires r < n && q < m
    ensures r + n * q < n * m && (r + n * q) % n == r && (r + n * q) / n == q
  {
    Cancel(n, q, m);
    Divided(n, q, r);
  }

  /** Every tuple of indexes is the digits of one number below the count. */
  lemma {:induction false} ValueDigits(lengths: seq<nat>, digits: seq<nat>)
    requires Indexes(lengths, digits)
    ensures Value(lengths, digits) < Count(lengths)
    ensures Digits(lengths, Value(lengths, digits)) == digits
  {
    if lengths != [] {
      var n, rest := lengths[0], Value(lengths[1..], digits[1..]);
      ValueDigits(lengths[1..], digits[1..]);
      Digit(n, rest, digits[0], Count(lengths[1..]));
      assert [digits[0]] + digits[1..] == digits;
    }
  }

  lemma QuotientBelow(i: nat, n: nat, m: nat)
    requires n > 0 && i < n * m
    ensures Quotient(i, n) < m
  {
  }

  lemma Division(i: nat, n: nat)
    requires n > 0
    ensures Remainder(i, n) + n * Quotient(i, n) == i
  {
  }

  /** And no two numbers below the count have the same digits. */
  lemma {:induction false} DigitsValue(lengths: seq<nat>, i: nat)
    requires i < Count(lengths)
    ensures Value(lengths, Digits(lengths, i)) == i
  {
    hide Quotient, Remainder;
    if lengths != [] {
      FactorsPositive(lengths);
      QuotientBelow(i, lengths[0], Count(lengths[1..]));
      DigitsValue(lengths[1..], Quotient(i, lengths[0]));
      var digits := Digits(lengths, i);
      assert digits[1..] == Digits(lengths[1..], Quotient(i, lengths[0]));
      Division(i, lengths[0]);
    }
  }

  /** The first array changes fastest: until its elements are used up, the next combination differs
      in it alone. */
  lemma FirstChangesFastest(lengths: seq<nat>, i: nat)
    requires Count(lengths) > 0 && lengths != [] && Digits(lengths, i)[0] + 1 < lengths[0]
    ensures Digits(lengths, i + 1) == Digits(lengths, i)[0 := Digits(lengths, i)[0] + 1]
  {
    FactorsPositive(lengths);
    var n := lengths[0];
    Division(i, n);
    Divided(n, Quotient(i, n), Remainder(i, n) + 1);
    hide Count, Digits;
    FirstDigit(lengths, i);
    FirstDigit(lengths, i + 1);
  }

  lemma FirstDigit(lengths: seq<nat>, i: nat)
    requires Count(lengths) > 0 && lengths != []
    ensures lengths[0] > 0 && Count(lengths[1..]) > 0
    ensures Digits(lengths, i) == [Remainder(i, lengths[0])] + Digits(lengths[1..], Quotient(i, lengths[0]))
  {
  }

  lemma QuotientTwice(i: nat, n: nat, m: nat)
    requires n > 0 && m > 0
    ensures n * m > 0 && Quotient(Quotient(i, n), m) == Quotient(i, n * m)
  {
    var q, r := Quotient(i, n), Remainder(i, n);
    var q2, r2 := Quotient(q, m), Remainder(q, m);
    Division(i, n);
    Division(q, m);
    Cancel(n, r2, m);
    Regroup(n, m, r, r2, q2);
    Divided(n * m, q2, r + n * r2);
  }

  lemma Regroup(n: nat, m: nat, r: nat, r2: nat, q2: nat)
    ensures r + n * (r2 + m * q2) == (r + n * r2) + (n * m) * q2
    ensures n > 0 && m > 0 ==> n * m > 0
  {
  }

  /** Digit `d` in closed form: the number divided by the count of the arrays before it, reduced to the
      length of its own. */
  lemma {:induction false} DigitAt(lengths: seq<nat>, i: nat, d: nat)
    requires Count(lengths) > 0 && d < |lengths|
    ensures Count(lengths[..d]) > 0 && lengths[d] > 0
    ensures Digits(lengths, i)[d] == i / Count(lengths[..d]) % lengths[d]
  {
    FactorsPositive(lengths);
    if d == 0 {
      assert lengths[..0] == [];
    } else {
      var n, rest := lengths[0], lengths[1..];
      DigitAt(rest, Quotient(i, n), d - 1);
      assert lengths[..d][0] == n && lengths[..d][1..] == rest[..d - 1];
      QuotientTwice(i, n, Count(rest[..d - 1]));
      assert Count(lengths[..d]) == n * Count(rest[..d - 1]);
    }
  }

  /** The truncation: a number from -2^31 to 2^31 - 1 that differs by a multiple of 2^32. */
  lemma TruncateExact(x: nat)
    ensures -2147483648 <= Truncate(x) < 2147483648 && (x - Truncate(x)) % 4294967296 == 0
  {
  }

  // -------------------------------------------------------------- combinations

  function Lengths<T>(arrays: seq<seq<T>>): (lengths: seq<nat>)
    ensures |lengths| == |arrays| && forall d :: 0 <= d < |arrays| ==> lengths[d] == |arrays[d]|
  {
    seq(|arrays|, d requires 0 <= d < |arrays| => |arrays[d]|)
  }

  /** One element of each array. */
  function Pick<T>(arrays: seq<seq<T>>, digits: seq<nat>): (item: seq<T>)
    requires Indexes(Lengths(arrays), digits)
    ensures |item| == |arrays| && forall d :: 0 <= d < |arrays| ==> item[d] == arrays[d][digits[d]]
  {
    seq(|arrays|, d requires 0 <= d < |arrays| => arrays[d][digits[d]])
  }

  function Combined<T>(arrays: seq<seq<T>>): seq<seq<T>> {
    var lengths := Lengths(arrays);
    seq(Count(lengths), i requires 0 <= i < Count(lengths) => Pick(arrays, Digits(lengths, i)))
  }

  /** The combinations are in one-to-one correspondence with the tuples of indexes: each tuple is
      picked at exactly one place. */
  lemma EveryTupleOnce<T>(arrays: seq<seq<T>>, digits: seq<nat>)
    requires Indexes(Lengths(arrays), digits)
    ensures var lengths := Lengths(arrays);
            exists i: nat ::
              && i < |Combined(arrays)| && Digits(lengths, i) == digits
              && Combined(arrays)[i] == Pick(arrays, digits)
              && forall j: nat :: j < |Combined(arrays)| && Digits(lengths, j) == digits ==> j == i
  {
    var lengths := Lengths(arrays);
    var i := Value(lengths, digits);
    ValueDigits(lengths, digits);
    forall j: nat | j < Count(lengths) && Digits(lengths, j) == digits
      ensures j == i
    {
      DigitsValue(lengths, j);
    }
    hide Digits, Value, Count;
    assert Combined(arrays)[i] == Pick(arrays, digits);
  }

  /** The item picks one element of every array. */
  ghost predicate Selects<T>(item: seq<T>, arrays: seq<seq<T>>) {
    |item| == |arrays| && forall d :: 0 <= d < |item| ==> item[d] in arrays[d]
  }

  lemma {:induction false} Selection<T>(item: seq<T>, arrays: seq<seq<T>>) returns (digits: seq<nat>)
    requires Selects(item, arrays)
    ensures Indexes(Lengths(arrays), digits) && Pick(arrays, digits) == item
  {
    digits := [];
    for k := 0 to |item|
      invariant |digits| == k && forall d :: 0 <= d < k ==> digits[d] < |arrays[d]| && arrays[d][digits[d]] == item[d]
    {
      assert item[k] in arrays[k];
      var i :| 0 <= i < |arrays[k]| && arrays[k][i] == item[k];
      digits := digits + [i];
    }
  }

  ghost predicate Distinct<T>(s: seq<T>) {
    forall i, j :: 0 <= i < j < |s| ==> s[i] != s[j]
  }

  /** The combinations are exactly the ways of choosing one element of each array, and when no array
      repeats an element none of them comes twice. */
  lemma CombinedExact<T>(arrays: seq<seq<T>>, item: seq<T>)
    ensures item in Combined(arrays) <==> Selects(item, arrays)
    ensures (forall a :: a in arrays ==> Distinct(a)) ==> Distinct(Combined(arrays))
  {
    hide Count, Digits;
    var lengths := Lengths(arrays);
    if Selects(item, arrays) {
      var digits := Selection(item, arrays);
      EveryTupleOnce(arrays, digits);
    }
    if forall a :: a in arrays ==> Distinct(a) {
      forall i, j | 0 <= i < j < |Combined(arrays)|
        ensures Combined(arrays)[i] != Combined(arrays)[j]
      {
        DigitsValue(lengths, i);
        DigitsValue(lengths, j);
        var x, y := Digits(lengths, i), Digits(lengths, j);
        if Pick(arrays, x) == Pick(arrays, y) {
          SamePick(arrays, x, y);
        }
      }
    }
  }

  lemma SamePick<T>(arrays: seq<seq<T>>, x: seq<nat>, y: seq<nat>)
    requires Indexes(Lengths(arrays), x) && Indexes(Lengths(arrays), y)
    requires forall a :: a in arrays ==> Distinct(a)
    requires Pick(arrays, x) == Pick(arrays, y)
    ensures x == y
  {
    forall d | 0 <= d < |x|
      ensures x[d] == y[d]
    {
      assert Pick(arrays, x)[d] == Pick(arrays, y)[d];
      assert arrays[d] in arrays;
    }
  }

  /** An empty array leaves nothing to combine. */
  lemma {:induction false} EmptyCount(lengths: seq<nat>)
    ensures Count(lengths) == 0 <==> 0 in lengths
  {
    if lengths != [] {
      EmptyCount(lengths[1..]);
    }
  }

  // --------------------------------------------------------------------- loops

  lemma TailCount(lengths: seq<nat>, d: nat)
    requires Count(lengths) > 0 && d < |lengths|
    ensures lengths[d] > 0 && Count(lengths[d + 1..]) > 0
    ensures Count(lengths[d..]) == lengths[d] * Count(lengths[d + 1..])
    ensures Count(lengths[d + 1..]) <= Count(lengths[1..])
  {
    TailPositive(lengths, d);
    assert lengths[d..][1..] == lengths[d + 1..];
    FactorsPositive(lengths[d..]);
    if d > 0 {
      TailCount(lengths, d - 1);
      assert Count(lengths[d..]) <= Count(lengths[1..]);
      Factor(lengths[d], Count(lengths[d + 1..]));
    }
  }

  lemma Factor(n: nat, m: nat)
    requires n > 0
    ensures m <= n * m
  {
  }

  lemma {:induction false} TailPositive(lengths: seq<nat>, d: nat)
    requires Count(lengths) > 0 && d <= |lengths|
    ensures Count(lengths[d..]) > 0
  {
    if d == 0 {
      assert lengths[0..] == lengths;
    } else {
      TailPositive(lengths, d - 1);
      FactorsPositive(lengths[d - 1..]);
      assert lengths[d - 1..][1..] == lengths[d..];
    }
  }

  lemma SmallQuotient(lengths: seq<nat>, d: nat, idx: nat)
    requires Count(lengths) > 0 && d < |lengths| && idx < Count(lengths[d..])
    requires Count(lengths[1..]) <= 0x8000_0000
    ensures lengths[d] > 0 && Quotient(idx, lengths[d]) < Count(lengths[d + 1..])
    ensures Truncate(Quotient(idx, lengths[d])) == Quotient(idx, lengths[d])
  {
    hide Count, Truncate, Quotient;
    TailCount(lengths, d);
    QuotientBelow(idx, lengths[d], Count(lengths[d + 1..]));
    Small(Quotient(idx, lengths[d]));
  }

  lemma Small(x: nat)
    requires x < 0x8000_0000
    ensures Truncate(x) == x
  {
  }

  /** The digit for array `d` is the first one of what is left of the number there. */
  lemma NextDigit(lengths: seq<nat>, d: nat, idx: nat)
    requires Count(lengths) > 0 && d < |lengths|
    ensures lengths[d] > 0 && Count(lengths[d..]) > 0 && Count(lengths[d + 1..]) > 0
    ensures Digits(lengths[d..], idx)
            == [Remainder(idx, lengths[d])] + Digits(lengths[d + 1..], Quotient(idx, lengths[d]))
  {
    TailPositive(lengths, d);
    TailPositive(lengths, d + 1);
    FactorsPositive(lengths[d..]);
    assert lengths[d..][1..] == lengths[d + 1..];
  }

  /** What one turn of the inner loop reads and leaves. */
  lemma InnerTurn<T>(arrays: seq<seq<T>>, i: nat, d: nat, idx: nat)
    requires i < Count(Lengths(arrays)) && d < |arrays|
    requires Count(Lengths(arrays)[1..]) <= 0x8000_0000
    requires 0 < Count(Lengths(arrays)[d..]) && idx < Count(Lengths(arrays)[d..])
    requires Digits(Lengths(arrays)[d..], idx) == Digits(Lengths(arrays), i)[d..]
    ensures |arrays[d]| > 0 && Remainder(idx, |arrays[d]|) == Digits(Lengths(arrays), i)[d]
    ensures var rest := Truncate(Quotient(idx, |arrays[d]|));
            && 0 <= rest < Count(Lengths(arrays)[d + 1..])
            && Digits(Lengths(arrays)[d + 1..], rest) == Digits(Lengths(arrays), i)[d + 1..]
  {
    hide Count, Truncate, Quotient, Remainder, Digits, Lengths;
    var lengths := Lengths(arrays);
    var digits := Digits(lengths, i);
    SmallQuotient(lengths, d, idx);
    NextDigit(lengths, d, idx);
    assert digits[d] == digits[d..][0] && digits[d + 1..] == digits[d..][1..];
  }

  /** One combination, divided out of its number. */
  method Item<T>(arrays: seq<seq<T>>, i: nat) returns (item: seq<T>)
    requires i < Count(Lengths(arrays))
    requires arrays != [] ==> Count(Lengths(arrays)[1..]) <= 0x8000_0000
    ensures item == Pick(arrays, Digits(Lengths(arrays), i))
  {
    hide Count, Truncate, Quotient, Remainder, Digits, Pick, Lengths;
    ghost var lengths := Lengths(arrays);
    ghost var digits := Digits(lengths, i);
    item := [];
    var idx: nat := i;
    assert lengths[0..] == lengths && digits[0..] == digits;
    for d := 0 to |arrays|
      invariant |item| == d && forall k :: 0 <= k < d ==> item[k] == arrays[k][digits[k]]
      invariant 0 < Count(lengths[d..]) && idx < Count(lengths[d..])
      invariant Digits(lengths[d..], idx) == digits[d..]
    {
      InnerTurn(arrays, i, d, idx);
      var divisor := |arrays[d]|;
      item := item + [arrays[d][Remainder(idx, divisor)]];
      idx := Truncate(Quotient(idx, divisor));
    }
  }

  /** All combinations. */
  method CombineArrays<T>(arrays: seq<seq<T>>) returns (result: seq<seq<T>>)
    requires arrays != [] ==> Count(Lengths(arrays)[1..]) <= 0x8000_0000
    ensures result == Combined(arrays)
  {
    hide Digits, Count;
    var count := Count(Lengths(arrays));
    result := [];
    for i := 0 to count
      invariant |result| == i && forall k :: 0 <= k < i ==> result[k] == Combined(arrays)[k]
    {
      var item := Item(arrays, i);
      result := result + [item];
    }
  }
}
