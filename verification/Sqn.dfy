/** AuC sequence numbers: SEQ and IND in one 48-bit number (3GPP TS 33.102 Annex C.3.2, Profile 2). */
module Sqn {
  import opened Bits
  import opened Counters

  const SQN_BITS: nat := 48

  /** Widths of IND for which the source's 32-bit mask shift is defined. */
  type IndLen = k: nat | k <= 30

  /** 2^IND-length and 2^SEQ-length. */
  function IndSpace(k: IndLen): (p: nat)
    ensures p > 0
  {
    Power(2, k)
  }

  function SeqSpace(k: IndLen): (p: nat)
    ensures p > 0
  {
    Power(2, SQN_BITS - k)
  }

  const SQN_SPACE: nat := 0x1_0000_0000_0000

  function Seq(v: nat, k: IndLen): nat
  {
    DivMod(v, IndSpace(k));
    v / IndSpace(k)
  }

  function Ind(v: nat, k: IndLen): nat
  {
    v % IndSpace(k)
  }

  /** inc_sqn on the number: both parts plus one, put together, cut to 48 bits. */
  function Incremented(v: nat, k: IndLen): nat
  {
    (IndSpace(k) * (Seq(v, k) + 1) + Ind(v + 1, k)) % SQN_SPACE
  }

  lemma {:induction false} Power2Of8(n: nat)
    ensures Power(2, 8 * n) == Power(256, n)
  {
    if n > 0 {
      Power2Of8(n - 1);
      PowerAdd(2, 8, 8 * (n - 1));
      assert Power(2, 8) == 256;
    }
  }

  lemma Space()
    ensures Power(256, 6) == SQN_SPACE == Power(2, SQN_BITS)
  {
    assert Power(256, 3) == 0x100_0000;
    PowerAdd(256, 3, 3);
    Power2Of8(6);
  }

  lemma Split(k: IndLen)
    ensures IndSpace(k) * SeqSpace(k) == SQN_SPACE
  {
    PowerAdd(2, k, SQN_BITS - k);
    Space();
  }

  /** p*(s) + i modulo p*q keeps i and wraps s. */
  lemma WrapHigh(p: nat, q: nat, s: nat, i: nat)
    requires p > 0 && q > 0 && i < p
    ensures (p * s + i) % (p * q) == p * (s % q) + i
    ensures (p * (s % q) + i) / p == s % q && (p * (s % q) + i) % p == i
  {
    var d, r := s / q, s % q;
    assert s == d * q + r;
    assert p * s == d * (p * q) + p * r;
    assert p * r + i < p * q by {
      assert p * r <= p * (q - 1);
    }
    ModUnique(p * s + i, p * q, d, p * r + i);
    ModUnique(p * r + i, p, r, i);
  }

  /** One increment adds one to SEQ modulo 2^(48-k) and one to IND modulo 2^k. */
  lemma IncrementedParts(v: nat, k: IndLen)
    ensures Incremented(v, k) < SQN_SPACE
    ensures Seq(Incremented(v, k), k) == (Seq(v, k) + 1) % SeqSpace(k)
    ensures Ind(Incremented(v, k), k) == (Ind(v, k) + 1) % IndSpace(k)
  {
    Split(k);
    WrapHigh(IndSpace(k), SeqSpace(k), Seq(v, k) + 1, Ind(v + 1, k));
    ModStep(v, IndSpace(k));
  }

  /** The number after n requests. */
  function After(v: nat, k: IndLen, n: nat): nat
  {
    if n == 0 then v else Incremented(After(v, k, n - 1), k)
  }

  lemma QuotientBound(v: nat, p: nat, q: nat)
    requires p > 0 && v < p * q
    ensures v / p < q
  {
    var s := v / p;
    assert s * p <= v;
    assert (s - q) * p < 0;
  }

  lemma SeqBound(v: nat, k: IndLen)
    requires v < SQN_SPACE
    ensures Seq(v, k) < SeqSpace(k)
  {
    Split(k);
    QuotientBound(v, IndSpace(k), SeqSpace(k));
  }

  /** n requests add n to each part, modulo its width. */
  lemma {:induction false} AfterParts(v: nat, k: IndLen, n: nat)
    requires v < SQN_SPACE
    ensures After(v, k, n) < SQN_SPACE
    ensures Seq(After(v, k, n), k) == (Seq(v, k) + n) % SeqSpace(k)
    ensures Ind(After(v, k, n), k) == (Ind(v, k) + n) % IndSpace(k)
  {
    if n == 0 {
      SeqBound(v, k);
      ModSmall(Seq(v, k), SeqSpace(k));
      ModSmall(Ind(v, k), IndSpace(k));
    } else {
      AfterParts(v, k, n - 1);
      IncrementedParts(After(v, k, n - 1), k);
      ModStep(Seq(v, k) + n - 1, SeqSpace(k));
      ModStep(Ind(v, k) + n - 1, IndSpace(k));
    }
  }

  /** The longer of the two parts decides how long the numbers go without repeating. */
  function Period(k: IndLen): (p: nat)
    ensures p > 0
  {
    if k <= 24 then SeqSpace(k) else IndSpace(k)
  }

  lemma Divides(d: nat, m: nat, n: nat)
    requires m <= n && d % Power(2, n) == 0
    ensures d % Power(2, m) == 0
  {
    hide Power;
    var p, q := Power(2, m), Power(2, n - m);
    PowerAdd(2, n - m, m);
    DivMod(d, q * p);
    var e := d / (q * p);
    MulAssoc(e, q, p);
    ModUnique(d, p, e * q, 0);
  }

  lemma SamePair(v: nat, w: nat, k: IndLen)
    ensures v == w <==> Seq(v, k) == Seq(w, k) && Ind(v, k) == Ind(w, k)
  {
    var p := IndSpace(k);
    assert v == p * Seq(v, k) + Ind(v, k) && w == p * Seq(w, k) + Ind(w, k);
  }

  /** Two requests get the same number exactly when a whole number of periods lies between them. */
  lemma Repeats(v: nat, k: IndLen, m: nat, n: nat)
    requires v < SQN_SPACE && m <= n
    ensures After(v, k, m) == After(v, k, n) <==> (n - m) % Period(k) == 0
  {
    AfterParts(v, k, m);
    AfterParts(v, k, n);
    SamePair(After(v, k, m), After(v, k, n), k);
    ModEqual(Seq(v, k) + m, Seq(v, k) + n, SeqSpace(k));
    ModEqual(Ind(v, k) + m, Ind(v, k) + n, IndSpace(k));
    if (n - m) % Period(k) == 0 {
      if k <= 24 {
        Divides(n - m, k, SQN_BITS - k);
      } else {
        Divides(n - m, SQN_BITS - k, k);
      }
    }
  }

  // Octets ------------------------------------------------------------------------------------

  function BeOctets(v: nat, n: nat): (r: Octets)
    ensures |r| == n
  {
    if n == 0 then [] else BeOctets(v / 256, n - 1) + [(v % 256) as bv8]
  }

  lemma ModByOne(v: nat)
    ensures BeValue(BeOctets(v, 0)) == v % Power(256, 0)
  {
  }

  lemma BeOctetsLast(v: nat, n: nat)
    requires n > 0
    ensures BeValue(BeOctets(v, n)) == 256 * BeValue(BeOctets(v / 256, n - 1)) + v % 256
  {
    ByteOf(v % 256);
    assert BeOctets(v, n)[..n - 1] == BeOctets(v / 256, n - 1);
  }

  lemma {:induction false} BeOctetsValue(v: nat, n: nat)
    ensures BeValue(BeOctets(v, n)) == v % Power(256, n)
  {
    if n == 0 {
      ModByOne(v);
    } else {
      hide BeValue, BeOctets, Power;
      BeOctetsLast(v, n);
      BeOctetsValue(v / 256, n - 1);
      PowerUp(256, n);
      SplitMod(v, Power(256, n - 1));
    }
  }

  lemma Scaled(x: nat, y: nat, u: nat, d: nat)
    ensures 256 * (x * y + u) + d == x * (256 * y) + (256 * u + d)
  {
    assert 256 * (x * y) == x * (256 * y);
  }

  lemma {:induction false} BeValueAppend(a: Octets, b: Octets)
    ensures BeValue(a + b) == BeValue(a) * Power(256, |b|) + BeValue(b)
  {
    if b == [] {
      assert a + b == a;
    } else {
      var init := b[..|b| - 1];
      BeValueAppend(a, init);
      assert (a + b)[..|a + b| - 1] == a + init;
      Scaled(BeValue(a), Power(256, |init|), BeValue(init), b[|b| - 1] as nat);
    }
  }

  lemma TwoOctets()
    ensures Power(256, 2) == 0x1_0000 && Power(256, 4) == 0x1_0000_0000
  {
    assert Power(256, 2) == 0x1_0000;
  }

  lemma Joined(v: nat)
    ensures (v / 0x1_0000 % 0x1_0000_0000) * 0x1_0000 + v % 0x1_0000 == v % SQN_SPACE
  {
  }

  /** inc_sqn. */
  method IncSqn(sqn: array<bv8>, k: IndLen)
    requires sqn.Length == 6
    modifies sqn
    ensures BeValue(sqn[..]) == Incremented(BeValue(old(sqn[..])), k)
  {
    hide Power, BeValue, BeOctets;
    var val := BeValue(sqn[..4]) * 0x1_0000 + BeValue(sqn[4..]);
    BeValueAppend(sqn[..4], sqn[4..]);
    TwoOctets();
    assert sqn[..4] + sqn[4..] == sqn[..];
    var seqNo := val / IndSpace(k) + 1;
    var ind := (val + 1) % IndSpace(k);
    val := IndSpace(k) * seqNo + ind;
    var high, low := BeOctets(val / 0x1_0000, 4), BeOctets(val % 0x1_0000, 2);
    for i := 0 to 6
      invariant forall m | 0 <= m < i :: sqn[m] == (high + low)[m]
    {
      sqn[i] := (high + low)[i];
    }
    assert sqn[..] == high + low;
    BeValueAppend(high, low);
    BeOctetsValue(val / 0x1_0000, 4);
    BeOctetsValue(val % 0x1_0000, 2);
    ModSmall(val % 0x1_0000, 0x1_0000);
    Joined(val);
  }
}
