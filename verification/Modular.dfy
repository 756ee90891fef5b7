/**
 Remainders and pigeonholes: what ring indices, bit fields and page counts need.
 */
module Modular {

  /** Multiples of the divisor do not matter. */
  lemma {:induction false} AddMultiple(q: nat, d: nat, r: nat)
    requires d > 0
    ensures (q * d + r) % d == r % d
    decreases q
  {
    if q > 0 {
      var x := (q - 1) * d + r;
      AddMultiple(q - 1, d, r);
      assert q * d + r == x + d;
      AddDivisor(x, d);
    }
  }

  lemma AddDivisor(x: nat, d: nat)
    requires d > 0
    ensures (x + d) % d == x % d
  {
    assert x == x / d * d + x % d;
    assert x + d == (x / d + 1) * d + x % d;
    Unique(x + d, d, x / d + 1, x % d);
  }

  lemma Unique(x: nat, d: nat, q: nat, r: nat)
    requires d > 0 && x == q * d + r && r < d
    ensures x % d == r
  {
    var p := x / d;
    assert x == p * d + x % d;
    assert p < q ==> (p + 1) * d <= q * d;
    assert q < p ==> (q + 1) * d <= p * d;
  }

  /** A counter that wraps at a multiple of d has the same remainder by d as the count. */
  lemma WrapsAt(n: nat, d: nat, k: nat)
    requires d > 0 && k > 0
    ensures d * k > 0 && (n % (d * k)) % d == n % d
  {
    var m := d * k;
    assert m > 0;
    assert n == n / m * m + n % m;
    assert n / m * m == (n / m * k) * d;
    AddMultiple(n / m * k, d, n % m);
  }

  /** Numbers less than d apart have different remainders by d. */
  lemma DifferentResidues(a: nat, b: nat, d: nat)
    requires d > 0 && a < b < a + d
    ensures a % d != b % d
  {
    var q, r := a / d, a % d + (b - a);
    assert a == q * d + a % d;
    if r < d {
      Unique(b, d, q, r);
    } else {
      assert b == (q + 1) * d + (r - d);
      Unique(b, d, q + 1, r - d);
    }
  }

  /** Distinct numbers below a bound are at most that many. */
  lemma {:induction false} DistinctFit(s: seq<nat>, bound: nat)
    requires forall i :: 0 <= i < |s| ==> s[i] < bound
    requires forall i, j :: 0 <= i < j < |s| ==> s[i] != s[j]
    ensures |s| <= bound
  {
    if s == [] {
    } else if s[0] == bound - 1 || bound - 1 in s {
      var k :| 0 <= k < |s| && s[k] == bound - 1;
      var t := s[..k] + s[k + 1..];
      forall i | 0 <= i < |t| ensures t[i] < bound - 1 {
        assert t[i] == if i < k then s[i] else s[i + 1];
      }
      DistinctFit(t, bound - 1);
    } else {
      forall i | 0 <= i < |s| ensures s[i] < bound - 1 {
        assert s[i] in s;
      }
      DistinctFit(s, bound - 1);
    }
  }
}
