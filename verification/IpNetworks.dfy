/** Sizes of finite sets and of the duplicate-free part of a sequence. */
module Counting {
  import opened Options

  lemma {:induction false} SubsetSize<T>(a: set<T>, b: set<T>)
    requires a <= b
    ensures |a| <= |b|
  {
    if a != {} {
      var x :| x in a;
      SubsetSize(a - {x}, b - {x});
    }
  }

  /** Fewer blocked values than candidates leave a candidate free. */
  lemma Pigeonhole<T>(candidates: set<T>, blocked: set<T>)
    requires |blocked| < |candidates|
    ensures candidates - blocked != {}
  {
    if candidates - blocked == {} {
      forall x | x in candidates ensures x in blocked {
        assert x !in candidates - blocked;
      }
      SubsetSize(candidates, blocked);
    }
  }

  /** The values that parsed. */
  ghost function Parsed<T>(xs: seq<Option<T>>): set<T> {
    set i | 0 <= i < |xs| && xs[i].Some? :: xs[i].value
  }

  ghost predicate Distinct<T>(xs: seq<Option<T>>) {
    forall i, j :: 0 <= i < j < |xs| ==> xs[i] != xs[j]
  }

  ghost predicate AllParsedIn<T>(xs: seq<Option<T>>, s: set<T>) {
    forall i :: 0 <= i < |xs| ==> xs[i].Some? && xs[i].value in s
  }

  lemma ParsedCons<T>(xs: seq<Option<T>>)
    requires xs != []
    ensures Parsed(xs) == (if xs[0].Some? then {xs[0].value} else {}) + Parsed(xs[1..])
  {
    assert forall i :: 0 < i < |xs| ==> xs[i] == xs[1..][i - 1];
    forall x | x in Parsed(xs) ensures x in (if xs[0].Some? then {xs[0].value} else {}) + Parsed(xs[1..]) {
      var i :| 0 <= i < |xs| && xs[i] == Some(x);
      if i > 0 { assert xs[1..][i - 1] == Some(x); }
    }
  }

  /** Entry by entry: each parses into s and does not come again. */
  ghost predicate EachNew<T>(xs: seq<Option<T>>, s: set<T>) {
    xs == [] || (xs[0].Some? && xs[0].value in s && xs[0].value !in Parsed(xs[1..]) && EachNew(xs[1..], s))
  }

  lemma {:induction false} EachNewIsDistinct<T>(xs: seq<Option<T>>, s: set<T>)
    ensures EachNew(xs, s) <==> AllParsedIn(xs, s) && Distinct(xs)
  {
    if xs != [] {
      var rest := xs[1..];
      EachNewIsDistinct(rest, s);
      assert forall i :: 0 < i < |xs| ==> xs[i] == rest[i - 1];
      assert forall i :: 0 <= i < |rest| ==> rest[i] == xs[i + 1];
    }
  }

  lemma AddOne<T>(x: T, s: set<T>)
    ensures |{x} + s| == |s| + (if x in s then 0 else 1)
  {
    if x in s { assert {x} + s == s; }
  }

  lemma {:induction false} EachNewSize<T>(xs: seq<Option<T>>, s: set<T>)
    ensures |Parsed(xs) * s| <= |xs|
    ensures |Parsed(xs) * s| == |xs| <==> EachNew(xs, s)
  {
    if xs == [] {
      assert Parsed(xs) * s == {};
    } else {
      var tail := Parsed(xs[1..]) * s;
      ParsedCons(xs);
      EachNewSize(xs[1..], s);
      if xs[0].Some? && xs[0].value in s {
        assert Parsed(xs) * s == {xs[0].value} + tail;
        AddOne(xs[0].value, tail);
      } else {
        assert Parsed(xs) * s == tail;
      }
    }
  }

  /**
   * At most one value of s per entry, and one per entry exactly when every entry parses into s
   * and no two are equal.
   */
  lemma ParsedSize<T>(xs: seq<Option<T>>, s: set<T>)
    ensures |Parsed(xs) * s| <= |xs|
    ensures |Parsed(xs) * s| == |xs| <==> AllParsedIn(xs, s) && Distinct(xs)
  {
    EachNewSize(xs, s);
    EachNewIsDistinct(xs, s);
  }
}

/** Addresses as naturals, networks as an address with a prefix length. */
module IpNetworks {
  datatype Family = V4 | V6

  function Bits(f: Family): nat {
    if f == V4 then 32 else 128
  }

  function Pow2(n: nat): (r: nat)
    ensures 0 < r
  {
    if n == 0 then 1 else 2 * Pow2(n - 1)
  }

  /** Where the block of size m that holds x begins. */
  function BlockStart(x: nat, m: nat): (r: nat)
    requires 0 < m
    ensures r <= x < r + m
  {
    x - x % m
  }

  datatype IpAddr = IpAddr(family: Family, value: nat)

  datatype IpNetwork = IpNetwork(ip: IpAddr, prefix: nat) {
    /** What the parser accepts: an address of its family, and a prefix that is not longer. */
    predicate Valid() {
      prefix <= Bits(ip.family) && ip.value < Pow2(Bits(ip.family))
    }

    function Size(): (r: nat)
      requires Valid()
      ensures 0 < r
    {
      Pow2(Bits(ip.family) - prefix)
    }

    /** The network address: the host bits cleared. */
    function First(): (r: nat)
      requires Valid()
      ensures r <= ip.value < r + Size()
    {
      BlockStart(ip.value, Size())
    }

    function Last(): nat
      requires Valid()
    {
      First() + Size() - 1
    }

    predicate Contains(a: IpAddr)
      requires Valid()
    {
      a.family == ip.family && First() <= a.value < First() + Size()
    }

    /** Every address the network iterates over, from the network address to the last one. */
    ghost function Addresses(): set<IpAddr>
      requires Valid()
    {
      set v | First() <= v < First() + Size() :: IpAddr(ip.family, v)
    }

    function Nth(n: nat): IpAddr
      requires Valid()
    {
      IpAddr(ip.family, First() + n)
    }
  }

  lemma {:induction false} SpanSize(f: Family, lo: nat, n: nat, s: set<IpAddr>)
    requires s == set v | lo <= v < lo + n :: IpAddr(f, v)
    ensures |s| == n
  {
    if n == 0 {
      assert s == {};
    } else {
      var last := IpAddr(f, lo + n - 1);
      var init := set v | lo <= v < lo + n - 1 :: IpAddr(f, v);
      assert s == init + {last} && last !in init;
      SpanSize(f, lo, n - 1, init);
    }
  }

  lemma AddressCount(net: IpNetwork)
    requires net.Valid()
    ensures |net.Addresses()| == net.Size()
  {
    SpanSize(net.ip.family, net.First(), net.Size(), net.Addresses());
  }

  // ----- prefixes nest -----

  lemma {:induction false} Pow2Splits(a: nat, b: nat)
    ensures Pow2(a + b) == Pow2(a) * Pow2(b)
    decreases b
  {
    if b > 0 {
      Pow2Splits(a, b - 1);
      assert Pow2(a + b) == 2 * Pow2(a + (b - 1));
      assert Pow2(a) * (2 * Pow2(b - 1)) == 2 * (Pow2(a) * Pow2(b - 1));
    }
  }

  /** x lies in the block of size m that holds y exactly when both have the same quotient. */
  lemma SameBlock(x: nat, y: nat, m: nat)
    requires 0 < m
    ensures BlockStart(y, m) <= x < BlockStart(y, m) + m <==> x / m == y / m
  {
    assert y == m * (y / m) + y % m;
    assert x == m * (x / m) + x % m;
    var q, p := y / m, x / m;
    if p == q {
    } else if p < q {
      assert m * p + m <= m * q by { assert m * (p + 1) <= m * q; }
    } else {
      assert m * q + m <= m * p by { assert m * (q + 1) <= m * p; }
    }
  }

  lemma CoarserQuotient(x: nat, m: nat, n: nat)
    requires 0 < m && 0 < n
    ensures x / (m * n) == x / m / n
  {
    var q := x / m;
    assert x == m * q + x % m;
    assert q == n * (q / n) + q % n;
    assert x == m * n * (q / n) + (m * (q % n) + x % m) by {
      assert m * q == m * (n * (q / n)) + m * (q % n);
      assert m * (n * (q / n)) == m * n * (q / n);
    }
    assert 0 <= m * (q % n) + x % m < m * n by {
      assert m * (q % n) <= m * (n - 1);
      assert m * (n - 1) == m * n - m;
    }
    QuotientIs(x, m * n, q / n, m * (q % n) + x % m);
  }

  lemma QuotientIs(x: int, d: int, q: int, r: int)
    requires 0 < d && 0 <= r < d && x == d * q + r
    ensures x / d == q
  {
    var p := x / d;
    assert x == d * p + x % d;
    SmallMultiple(d, q - p, x % d - r);
  }

  lemma SmallMultiple(d: int, k: int, m: int)
    requires 0 < d && m == d * k && -d < m < d
    ensures k == 0
  {
  }

  /** Sharing a block under a longer prefix means sharing one under every shorter prefix. */
  lemma SharedBlockWidens(x: nat, y: nat, bits: nat, long: nat, short: nat)
    requires short <= long <= bits
    requires x / Pow2(bits - long) == y / Pow2(bits - long)
    ensures x / Pow2(bits - short) == y / Pow2(bits - short)
  {
    Pow2Splits(bits - long, long - short);
    assert (bits - long) + (long - short) == bits - short;
    CoarserQuotient(x, Pow2(bits - long), Pow2(long - short));
    CoarserQuotient(y, Pow2(bits - long), Pow2(long - short));
  }
}
