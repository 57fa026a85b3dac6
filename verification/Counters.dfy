/** Big-endian octet counters (inc_byte_array). */
module Counters {
  import opened Bits

  function Power(b: nat, e: nat): (r: nat)
    ensures b > 0 ==> r > 0
  {
    if e == 0 then 1 else b * Power(b, e - 1)
  }

  /** The number an octet string denotes, most significant octet first. */
  function BeValue(s: Octets): nat
  {
    if s == [] then 0 else 256 * BeValue(s[..|s| - 1]) + s[|s| - 1] as nat
  }

  /** The octet string one greater, rolling over into more significant octets. */
  function Incremented(s: Octets): (r: Octets)
    ensures |r| == |s|
  {
    if s == [] then []
    else if s[|s| - 1] == 0xff then Incremented(s[..|s| - 1]) + [0]
    else s[..|s| - 1] + [s[|s| - 1] + 1]
  }

  lemma {:induction false} BeValueBound(s: Octets)
    ensures BeValue(s) < Power(256, |s|)
  {
    if s != [] {
      BeValueBound(s[..|s| - 1]);
    }
  }

  lemma ModSmall(x: nat, p: nat)
    requires x < p
    ensures x % p == x
  {
  }

  lemma MulAtLeast(k: int, p: int)
    requires k >= 1 && p >= 0
    ensures k * p >= p && (-k) * p <= -p
  {
    assert k * p == (k - 1) * p + p;
  }

  lemma SmallMultiple(k: int, p: int)
    requires -p < k * p < p
    ensures k == 0
  {
    if k >= 1 {
      MulAtLeast(k, p);
    } else if k <= -1 {
      MulAtLeast(-k, p);
    }
  }

  lemma ModUnique(x: int, p: nat, q: int, r: nat)
    requires r < p && x == q * p + r
    ensures x % p == r && x / p == q
  {
    var q', r' := x / p, x % p;
    assert x == q' * p + r';
    assert (q - q') * p == r' - r;
    SmallMultiple(q - q', p);
  }

  lemma CarryValue(v: nat, p: nat)
    requires v < p
    ensures 256 * ((v + 1) % p) == (256 * v + 256) % (256 * p)
  {
    if v + 1 == p {
      ModUnique(v + 1, p, 1, 0);
      ModUnique(256 * p, 256 * p, 1, 0);
    } else {
      ModSmall(v + 1, p);
      ModSmall(256 * v + 256, 256 * p);
    }
  }

  lemma NextOctet(b: bv8)
    requires b != 0xff
    ensures (b + 1) as nat == b as nat + 1
  {
  }

  /** Incrementing adds one modulo 2^(8*len). */
  lemma {:induction false} IncrementedValue(s: Octets)
    ensures BeValue(Incremented(s)) == (BeValue(s) + 1) % Power(256, |s|)
  {
    if s != [] {
      var init, last := s[..|s| - 1], s[|s| - 1];
      BeValueBound(init);
      if last == 0xff {
        IncrementedValue(init);
        assert Incremented(s)[..|s| - 1] == Incremented(init);
        CarryValue(BeValue(init), Power(256, |init|));
      } else {
        NextOctet(last);
        assert Incremented(s)[..|s| - 1] == init;
        ModSmall(BeValue(s) + 1, Power(256, |s|));
      }
    }
  }

  lemma OctetInjective(a: bv8, b: bv8)
    requires a as nat == b as nat
    ensures a == b
  {
  }

  lemma OctetRange(x: bv8)
    ensures x as nat < 256
  {
  }

  lemma DigitsEqual(u: nat, x: bv8, v: nat, y: bv8)
    requires 256 * u + x as nat == 256 * v + y as nat
    ensures u == v && x == y
  {
    OctetRange(x);
    OctetRange(y);
    OctetInjective(x, y);
  }

  /** Octet strings of one length denote different numbers when they differ. */
  lemma {:induction false} BeValueInjective(a: Octets, b: Octets)
    requires |a| == |b| && BeValue(a) == BeValue(b)
    ensures a == b
  {
    if a != [] {
      var x, y := a[|a| - 1], b[|b| - 1];
      DigitsEqual(BeValue(a[..|a| - 1]), x, BeValue(b[..|b| - 1]), y);
      BeValueInjective(a[..|a| - 1], b[..|b| - 1]);
      assert a == a[..|a| - 1] + [x] && b == b[..|b| - 1] + [y];
    }
  }

  /** n increments in a row. */
  function Advanced(s: Octets, n: nat): (r: Octets)
    ensures |r| == |s|
  {
    if n == 0 then s else Incremented(Advanced(s, n - 1))
  }

  lemma ModStep(x: nat, p: nat)
    requires p > 0
    ensures (x % p + 1) % p == (x + 1) % p
  {
    var q, r := x / p, x % p;
    assert x == q * p + r;
    if r + 1 == p {
      assert x + 1 == (q + 1) * p;
      ModUnique(x + 1, p, q + 1, 0);
      ModUnique(r + 1, p, 1, 0);
    } else {
      ModUnique(x + 1, p, q, r + 1);
      ModSmall(r + 1, p);
    }
  }

  lemma {:induction false} AdvancedValue(s: Octets, n: nat)
    ensures BeValue(Advanced(s, n)) == (BeValue(s) + n) % Power(256, |s|)
  {
    var p := Power(256, |s|);
    if n == 0 {
      BeValueBound(s);
      ModSmall(BeValue(s), p);
    } else {
      AdvancedValue(s, n - 1);
      IncrementedValue(Advanced(s, n - 1));
      ModStep(BeValue(s) + n - 1, p);
    }
  }

  lemma MulAssoc(x: int, y: int, z: int)
    ensures (x * y) * z == x * (y * z)
  {
  }

  lemma DivMod(x: nat, p: nat)
    requires p > 0
    ensures x / p >= 0 && x == (x / p) * p + x % p && x % p < p
  {
  }

  lemma PowerUp(b: nat, m: nat)
    requires m > 0
    ensures Power(b, m) == b * Power(b, m - 1)
  {
  }

  lemma {:induction false} PowerAdd(b: nat, m: nat, n: nat)
    ensures Power(b, m) * Power(b, n) == Power(b, m + n)
  {
    if m > 0 {
      hide Power;
      PowerAdd(b, m - 1, n);
      PowerUp(b, m);
      PowerUp(b, m + n);
      MulAssoc(b, Power(b, m - 1), Power(b, n));
    }
  }

  lemma SplitParts(v: nat, q: nat, t: nat, r: nat, p: nat)
    requires v == 256 * (q * p + t) + r && t < p && r < 256
    ensures v == q * (256 * p) + (256 * t + r) && 256 * t + r < 256 * p
  {
    MulAssoc(256, q, p);
    MulAssoc(q, 256, p);
  }

  lemma SplitMod(v: nat, p: nat)
    requires p > 0
    ensures v % 256 + 256 * ((v / 256) % p) == v % (256 * p)
  {
    var u, r := v / 256, v % 256;
    DivMod(u, p);
    SplitParts(v, u / p, u % p, r, p);
    ModUnique(v, 256 * p, u / p, 256 * (u % p) + r);
  }

  /** Equal remainders mean a difference that the modulus divides. */
  lemma ModEqual(x: nat, y: nat, p: nat)
    requires p > 0 && x <= y
    ensures x % p == y % p <==> (y - x) % p == 0
  {
    var a, b, d := x / p, y / p, (y - x) / p;
    assert x == a * p + x % p && y == b * p + y % p && y - x == d * p + (y - x) % p;
    if x % p == y % p {
      assert y - x == (b - a) * p;
      ModUnique(y - x, p, b - a, 0);
    }
    if (y - x) % p == 0 {
      assert y == (a + d) * p + x % p;
      ModUnique(y, p, a + d, x % p);
    }
  }

  /** Two counts of increments give the same octets exactly when the counter wraps between them. */
  lemma AdvancedEqual(s: Octets, m: nat, n: nat)
    requires m <= n
    ensures Advanced(s, m) == Advanced(s, n) <==> (n - m) % Power(256, |s|) == 0
  {
    hide Advanced, BeValue, Power;
    AdvancedValue(s, m);
    AdvancedValue(s, n);
    var p := Power(256, |s|);
    ModEqual(BeValue(s) + m, BeValue(s) + n, p);
    if BeValue(Advanced(s, m)) == BeValue(Advanced(s, n)) {
      BeValueInjective(Advanced(s, m), Advanced(s, n));
    }
  }

  /** inc_byte_array: the loop from the last octet towards the first. */
  method IncByteArray(counter: array<bv8>)
    modifies counter
    ensures counter[..] == Incremented(old(counter[..]))
  {
    ghost var was := counter[..];
    var pos := counter.Length - 1;
    assert was[..pos + 1] == was;
    while pos >= 0
      invariant -1 <= pos < counter.Length
      invariant counter[..pos + 1] == was[..pos + 1]
      invariant Incremented(was) == Incremented(was[..pos + 1]) + counter[pos + 1..]
    {
      ghost var head := was[..pos + 1];
      assert head[..|head| - 1] == was[..pos];
      counter[pos] := counter[pos] + 1;
      if counter[pos] != 0 {
        assert counter[..] == counter[..pos] + [counter[pos]] + counter[pos + 1..];
        return;
      }
      assert was[pos] == 0xff;
      assert counter[pos..] == [0] + counter[pos + 1..];
      pos := pos - 1;
    }
    assert counter[..] == counter[0..];
  }
}
