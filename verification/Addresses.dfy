/** Remote addresses, relay identifiers and buffer keys.
    The constraint ledgers and the dynamic-relay buffers are keyed by strings, so
    everything they promise rests on those strings being unambiguous. */
module Addresses {

  /** The largest payload an IPv4 UDP datagram can carry. */
  const MAX_DATAGRAM: nat := 65507

  type Datagram = m: seq<bv8> | |m| <= MAX_DATAGRAM witness []

  datatype NetAddress = NetAddress(address: string, port: nat) {
    function ToString(): string {
      address + ":" + Decimal(port)
    }
  }

  predicate IsDigit(c: char) {
    '0' <= c <= '9'
  }

  function Digit(d: nat): (c: char)
    requires d < 10
    ensures IsDigit(c)
  {
    ['0', '1', '2', '3', '4', '5', '6', '7', '8', '9'][d]
  }

  function Decimal(n: nat): (s: string)
    ensures |s| > 0 && forall i :: 0 <= i < |s| ==> IsDigit(s[i])
  {
    if n < 10 then [Digit(n)] else Decimal(n / 10) + [Digit(n % 10)]
  }

  /** Identifier of a relay: the remote address and the local port. */
  function RelayId(address: NetAddress, port: nat): string {
    address.ToString() + "@" + Decimal(port)
  }

  /** Key under which packets are buffered: the sender and the targeted port. */
  function BufferKey(sender: NetAddress, target: nat): string {
    sender.ToString() + ">" + Decimal(target)
  }

  /** How the strings look. */
  lemma Spelling()
    ensures NetAddress("192.0.2.1", 1000).ToString() == "192.0.2.1:1000"
    ensures RelayId(NetAddress("192.0.2.1", 1000), 49152) == "192.0.2.1:1000@49152"
    ensures BufferKey(NetAddress("192.0.2.1", 1000), 49152) == "192.0.2.1:1000>49152"
  {
    assert Decimal(1000) == "1000" by {
      assert Decimal(100) == "100";
    }
    assert Decimal(49152) == "49152" by {
      assert Decimal(491) == "491" && Decimal(4915) == "4915";
    }
  }

  lemma {:induction false} DecimalInjective(m: nat, n: nat)
    requires Decimal(m) == Decimal(n)
    ensures m == n
    decreases m
  {
    var s, t := Decimal(m), Decimal(n);
    assert s[|s| - 1] == Digit(m % 10) && t[|t| - 1] == Digit(n % 10);
    if m < 10 || n < 10 {
      assert |s| == 1 && |t| == 1;
    } else {
      assert s[..|s| - 1] == Decimal(m / 10) && t[..|t| - 1] == Decimal(n / 10);
      DecimalInjective(m / 10, n / 10);
    }
  }

  /** A decimal suffix can be split off from the right, whatever precedes the separator. */
  lemma {:induction false} SuffixUnique(x: string, m: nat, y: string, n: nat, separator: char)
    requires !IsDigit(separator)
    requires x + [separator] + Decimal(m) == y + [separator] + Decimal(n)
    ensures x == y && m == n
  {
    var s, t := x + [separator] + Decimal(m), y + [separator] + Decimal(n);
    assert s[|x|] == separator && t[|y|] == separator;
    assert forall k :: |x| < k < |s| ==> s[k] == Decimal(m)[k - |x| - 1];
    assert forall k :: |y| < k < |t| ==> t[k] == Decimal(n)[k - |y| - 1];
    assert |x| == |y|;
    assert x == s[..|x|] == t[..|y|] == y;
    assert Decimal(m) == s[|x| + 1..] == t[|y| + 1..] == Decimal(n);
    DecimalInjective(m, n);
  }

  lemma AddressStringInjective(a: NetAddress, b: NetAddress)
    requires a.ToString() == b.ToString()
    ensures a == b
  {
    SuffixUnique(a.address, a.port, b.address, b.port, ':');
  }

  /** Two relays share an identifier only if they agree on address and port. */
  lemma RelayIdInjective(a: NetAddress, p: nat, b: NetAddress, q: nat)
    ensures RelayId(a, p) == RelayId(b, q) <==> a == b && p == q
  {
    if RelayId(a, p) == RelayId(b, q) {
      SuffixUnique(a.ToString(), p, b.ToString(), q, '@');
      AddressStringInjective(a, b);
    }
  }

  /** Two drops share a buffer only if they agree on sender and targeted port. */
  lemma BufferKeyInjective(a: NetAddress, p: nat, b: NetAddress, q: nat)
    ensures BufferKey(a, p) == BufferKey(b, q) <==> a == b && p == q
  {
    if BufferKey(a, p) == BufferKey(b, q) {
      SuffixUnique(a.ToString(), p, b.ToString(), q, '>');
      AddressStringInjective(a, b);
    }
  }
}
