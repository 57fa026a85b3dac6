/** The SAE-PK fingerprint that a station rebuilds from a password, and its comparison with the hash. */
module SaePkVerify {
  import opened Bits
  import opened Counters
  import opened Numbers
  import opened SaePkBits
  import SaePkGen

  // Modular arithmetic on a shift register ------------------------------------------------------

  lemma MulLe(a: nat, b: nat, c: nat)
    requires a <= b
    ensures a * c <= b * c
  {
    assert b * c == a * c + (b - a) * c;
  }

  lemma Recombined(c: nat, d: nat, b: nat, p: nat, q: nat)
    requires d < p && b < q
    ensures (c * p + d) * q + b == c * (p * q) + (d * q + b) && d * q + b < p * q
  {
    assert (c * p) * q == c * (p * q);
    assert d * q + q == (d + 1) * q;
    MulLe(d + 1, p, q);
  }

  lemma DivInside(v: nat, p: nat, q: nat)
    requires p > 0 && q > 0
    ensures (v / q) % p == (v % (p * q)) / q && (v % (p * q)) % q == v % q
  {
    var a, b := v / q, v % q;
    var c, d := a / p, a % p;
    DivMod(v, q);
    DivMod(a, p);
    Recombined(c, d, b, p, q);
    ModUnique(v, p * q, c, d * q + b);
    ModUnique(d * q + b, q, d, b);
  }

  lemma ShiftIn(v: nat, p: nat, s: nat, x: nat)
    requires p > 0 && s > 0 && x < s
    ensures (v * s + x) % (p * s) == (v % p) * s + x
  {
    var c, d := v / p, v % p;
    assert v == c * p + d;
    Recombined(c, d, x, p, s);
    ModUnique(v * s + x, p * s, c, d * s + x);
  }

  const WORD: nat := 0x1_0000_0000

  lemma WordPower()
    ensures Power(2, 32) == WORD
  {
    assert Power(2, 8) == 0x100;
    PowerAdd(2, 8, 8);
    PowerAdd(2, 16, 16);
  }

  /** The low bits of a 32-bit register, after a reduction to 32 bits. */
  lemma LowBits(v: nat, n: nat)
    requires n <= 32
    ensures (v % WORD) % Power(2, n) == v % Power(2, n)
  {
    WordPower();
    PowerAdd(2, 32 - n, n);
    DivInside(v, Power(2, 32 - n), Power(2, n));
  }

  /** The register's low bits are a bit string. */
  ghost predicate Pending(val: nat, pend: seq<bool>)
  {
    val % Power(2, |pend|) == Num(pend)
  }

  lemma PendingIn(val: nat, pend: seq<bool>, more: seq<bool>)
    requires Pending(val, pend) && |pend| + |more| <= 32
    ensures Pending((val * Power(2, |more|) + Num(more)) % WORD, pend + more)
  {
    hide Num, Power;
    var p, s := Power(2, |pend|), Power(2, |more|);
    NumBound(more);
    ShiftIn(val, p, s, Num(more));
    PowerAdd(2, |pend|, |more|);
    LowBits(val * s + Num(more), |pend| + |more|);
    NumAppend(pend, more);
    assert |pend + more| == |pend| + |more|;
  }

  lemma PendingOut(val: nat, pend: seq<bool>, n: nat)
    requires Pending(val, pend) && n <= |pend|
    ensures (val / Power(2, |pend| - n)) % Power(2, n) == Num(pend[..n])
    ensures Pending(val, pend[n..])
  {
    hide Num, Power;
    PowerAdd(2, n, |pend| - n);
    DivInside(val, Power(2, n), Power(2, |pend| - n));
    NumSplit(pend, n);
    assert |pend[n..]| == |pend| - n;
  }

  // The bits between the marks -------------------------------------------------------------------

  /** Groups of 20 bits without their first one. */
  function Unmarked(p: seq<bool>, n: nat): (r: seq<bool>)
    requires |p| >= 20 * n
    ensures |r| == 19 * n
  {
    seq(19 * n, i requires 0 <= i < 19 * n => p[20 * (i / 19) + 1 + i % 19])
  }

  lemma UnmarkedStep(p: seq<bool>, n: nat)
    requires |p| >= 20 * (n + 1)
    ensures Unmarked(p, n + 1) == Unmarked(p, n) + p[20 * n + 1..20 * n + 20]
  {
    var l, r := Unmarked(p, n + 1), Unmarked(p, n) + p[20 * n + 1..20 * n + 20];
    forall i | 0 <= i < 19 * (n + 1)
      ensures l[i] == r[i]
    {
      if i >= 19 * n {
        assert i / 19 == n && i % 19 == i - 19 * n;
      }
    }
  }

  /** Taking the marks out gives back the bits that were stretched. */
  lemma UnmarkedStretch(bits: seq<bool>, mark: bool, n: nat)
    requires |bits| >= 19 * n
    ensures Unmarked(Stretch(bits, mark, n), n) == bits[..19 * n]
  {
    var l := Unmarked(Stretch(bits, mark, n), n);
    forall i | 0 <= i < 19 * n
      ensures l[i] == bits[i]
    {
      var k := 20 * (i / 19) + 1 + i % 19;
      assert k / 20 == i / 19 && k % 20 == 1 + i % 19;
    }
  }

  /** sae_pk_get_be19 as a number. */
  function Be19(b0: bv8, b1: bv8, b2: bv8): nat
  {
    b0 as nat * 2048 + b1 as nat * 8 + b2 as nat / 32
  }

  lemma FirstNineteen(s: Octets)
    requires |s| >= 3
    ensures BitsOf(s)[..19] == BitsOf([s[0]]) + BitsOf([s[1]]) + BitsOf([s[2]])[..3]
  {
    hide ByteBit;
    var l, r := BitsOf(s)[..19], BitsOf([s[0]]) + BitsOf([s[1]]) + BitsOf([s[2]])[..3];
    assert forall i | 0 <= i < 19 :: l[i] == r[i];
  }

  lemma Be19Num(s: Octets)
    requires |s| >= 3
    ensures Be19(s[0], s[1], s[2]) == Num(BitsOf(s)[..19])
  {
    hide Num, BitsOf, Power;
    var x, y, z := BitsOf([s[0]]), BitsOf([s[1]]), BitsOf([s[2]]);
    FirstNineteen(s);
    SmallPowers();
    OctetNum(s[0]);
    OctetNum(s[1]);
    OctetNum(s[2]);
    assert Num(x + y) == s[0] as nat * 256 + s[1] as nat by {
      NumAppend(x, y);
    }
    assert Num(z[..3]) == s[2] as nat / 32 by {
      NumSplit(z, 3);
    }
    assert Num(x + y + z[..3]) == Num(x + y) * 8 + Num(z[..3]) by {
      NumAppend(x + y, z[..3]);
    }
  }

  // The fingerprint loop ---------------------------------------------------------------------------

  /** The register as long as bits are wanted: read a group, hand out octets. */
  ghost predicate Progress(out: Octets, pend: seq<bool>, source: seq<bool>, g: nat, left: nat, total: nat)
  {
    |source| >= 20 * g && BitsOf(out) + pend == Unmarked(source, g) && left + 8 * |out| == total
  }

  lemma BufferAdvances(window: seq<bool>, source: seq<bool>, g: nat, width: nat)
    requires 20 <= width <= |source| && source[width..] == Zeros(|source| - width) && 20 * (g + 1) + width <= |source|
    requires window == source[20 * g..20 * g + width]
    ensures (window[1..] + Zeros(1))[19..] + Zeros(19) == source[20 * (g + 1)..20 * (g + 1) + width]
    ensures (window[1..] + Zeros(1))[..19] == source[20 * g + 1..20 * g + 20]
  {
    var l, r := (window[1..] + Zeros(1))[19..] + Zeros(19), source[20 * (g + 1)..20 * (g + 1) + width];
    forall i | 0 <= i < width
      ensures l[i] == r[i]
    {
      if i >= width - 20 {
        assert source[width..][20 * (g + 1) + i - width] == false;
      }
    }
  }

  /** One group: drop its mark, read 19 bits, move the buffer on. */
  method ReadGroup(pw: array<bv8>, ghost source: seq<bool>, ghost g: nat) returns (val19: nat)
    requires pw.Length >= 3 && 8 * pw.Length <= |source| && 20 * (g + 1) + 8 * pw.Length <= |source|
    requires source[8 * pw.Length..] == Zeros(|source| - 8 * pw.Length)
    requires BitsOf(pw[..]) == source[20 * g..20 * g + 8 * pw.Length]
    modifies pw
    ensures val19 == Num(source[20 * g + 1..20 * g + 20])
    ensures BitsOf(pw[..]) == source[20 * (g + 1)..20 * (g + 1) + 8 * pw.Length]
  {
    hide BitsOf, Num, ShiftedLeft1, ShiftedLeft19, Be19;
    ghost var was := pw[..];
    ShiftLeft1Bits(was);
    ShiftLeft1(pw);
    ghost var moved := pw[..];
    val19 := Be19(pw[0], pw[1], pw[2]);
    Be19Num(moved);
    ShiftLeft19Bits(moved);
    ShiftLeft19(pw, 0, pw.Length);
    assert moved == moved[0..pw.Length] && pw[..] == ShiftedLeft19(moved);
    BufferAdvances(BitsOf(was), source, g, 8 * pw.Length);
  }

  lemma TakeEight(val: nat, pend: seq<bool>)
    requires Pending(val, pend) && |pend| >= 8
    ensures var b := (val / Power(2, |pend| - 8)) % 256;
            b < 256 && BitsOf([b as bv8]) == pend[..8] && Pending(val, pend[8..])
  {
    hide Num, BitsOf, Power;
    SmallPowers();
    PendingOut(val, pend, 8);
    OctetOfBits(pend[..8]);
  }

  lemma {:induction false} ZerosNum(n: nat)
    ensures Num(Zeros(n)) == 0
  {
    if n > 0 {
      ZerosNum(n - 1);
      assert Zeros(n)[..n - 1] == Zeros(n - 1);
    }
  }

  /** The last octet: the wanted bits at its top, zeros below. */
  lemma TakeRest(val: nat, pend: seq<bool>, n: nat)
    requires Pending(val, pend) && n <= |pend| && 0 < n < 8
    ensures var b := ((val / Power(2, |pend| - n)) * Power(2, 8 - n)) % 256;
            b < 256 && BitsOf([b as bv8]) == pend[..n] + Zeros(8 - n)
  {
    hide Num, BitsOf, Power;
    SmallPowers();
    var w, low := val / Power(2, |pend| - n), pend[..n] + Zeros(8 - n);
    PendingOut(val, pend, n);
    PowerAdd(2, n, 8 - n);
    ShiftIn(w, Power(2, n), Power(2, 8 - n), 0);
    NumAppend(pend[..n], Zeros(8 - n));
    ZerosNum(8 - n);
    OctetOfBits(low);
  }

  /** The password's bits followed by the zeros that shifting brings in. */
  function Padded(pw: Octets, groups: nat): (r: seq<bool>)
    ensures |r| == 8 * |pw| + 20 * groups
  {
    BitsOf(pw) + Zeros(20 * groups)
  }

  /** What has been handed out and is pending starts the bits without marks. */
  lemma ProgressShape(out: Octets, pend: seq<bool>, source: seq<bool>, g: nat, left: nat, total: nat)
    requires Progress(out, pend, source, g, left, total) && left < 8 && (left > 0 ==> |pend| >= left)
    requires |source| >= 20 * (total + 1) && |pend| <= 26
    ensures Unmarked(source, total + 1)[..total] == BitsOf(out) + pend[..left]
  {
    hide BitsOf;
    assert |BitsOf(out) + pend| == 19 * g;
    assert Unmarked(source, total + 1)[..19 * g] == Unmarked(source, g) by {
      hide Zeros;
      assert g <= total + 1;
    }
    assert (BitsOf(out) + pend)[..total] == BitsOf(out) + pend[..left];
    assert Unmarked(source, total + 1)[..total] == Unmarked(source, total + 1)[..19 * g][..total];
  }

  /** The bits still wanted, fewer than eight, as the top of one more octet. */
  method LastOctet(out: Octets, val: nat, valBits: nat, left: nat, ghost pend: seq<bool>, ghost source: seq<bool>,
                   ghost g: nat, ghost total: nat) returns (r: Octets)
    requires Progress(out, pend, source, g, left, total) && Pending(val, pend) && |pend| == valBits
    requires left < 8 && left <= valBits <= 26 && |source| >= 20 * (total + 1)
    ensures |r| == (total + 7) / 8
    ensures BitsOf(r) == Unmarked(source, total + 1)[..total] + Zeros(8 * |r| - total)
  {
    hide BitsOf, Num, Power, Unmarked, Pending, Progress;
    ProgressShape(out, pend, source, g, left, total);
    r := out;
    if left > 0 {
      TakeRest(val, pend, left);
      var b := ((val / Power(2, valBits - left)) * Power(2, 8 - left)) % 256;
      BitsAppend(out, [b as bv8]);
      r := out + [b as bv8];
    }
  }

  lemma ZeroBits(n: nat)
    ensures BitsOf(seq(n, _ => 0)) == Zeros(8 * n)
  {
    hide ByteBit;
    var z: Octets := seq(n, _ => 0);
    forall i | 0 <= i < 8 * n
      ensures !BitsOf(z)[i]
    {
      NoBit(i % 8);
    }
  }

  lemma Started(source: seq<bool>, total: nat)
    ensures Progress([], [], source, 0, total, total) && Pending(0, [])
  {
  }

  /** There is a further group to read while bits are wanted. */
  lemma Fits(out: Octets, pend: seq<bool>, source: seq<bool>, g: nat, left: nat, total: nat)
    requires Progress(out, pend, source, g, left, total) && |pend| < 8 && 0 < left <= total
    ensures g <= total
  {
    assert |BitsOf(out) + pend| == 19 * g;
  }

  lemma Pushed(val: nat, pend: seq<bool>, more: seq<bool>)
    requires Pending(val, pend) && |pend| < 8 && |more| == 19
    ensures Pending((val * 0x8_0000 + Num(more)) % WORD, pend + more)
  {
    hide Num, Power;
    PendingIn(val, pend, more);
    SmallPowers();
    PowerAdd(2, 8, 8);
    PowerAdd(2, 16, 3);
  }

  lemma ReadOn(out: Octets, pend: seq<bool>, source: seq<bool>, g: nat, left: nat, total: nat)
    requires Progress(out, pend, source, g, left, total) && |source| >= 20 * (g + 1)
    ensures Progress(out, pend + source[20 * g + 1..20 * g + 20], source, g + 1, left, total)
  {
    hide BitsOf, Unmarked;
    UnmarkedStep(source, g);
    var more := source[20 * g + 1..20 * g + 20];
    assert BitsOf(out) + (pend + more) == (BitsOf(out) + pend) + more;
  }

  lemma HandOut(out: Octets, pend: seq<bool>, source: seq<bool>, g: nat, left: nat, total: nat, b: bv8)
    requires Progress(out, pend, source, g, left, total) && |pend| >= 8 && left >= 8 && BitsOf([b]) == pend[..8]
    ensures Progress(out + [b], pend[8..], source, g, left - 8, total)
  {
    hide BitsOf, Unmarked;
    BitsAppend(out, [b]);
    assert pend == pend[..8] + pend[8..];
    assert BitsOf(out) + pend == (BitsOf(out) + pend[..8]) + pend[8..];
  }

  /** sae_pk_set_password's loop: Sec zero octets, then the wanted bits without the marks, zero padded to octets. */
  method Fingerprint(pw: array<bv8>, sec: nat, total: nat) returns (fp: Octets)
    requires pw.Length >= 3
    modifies pw
    ensures |fp| == sec + (total + 7) / 8
    ensures BitsOf(fp) == Zeros(8 * sec) + Unmarked(Padded(old(pw[..]), total + 1), total + 1)[..total]
                          + Zeros(8 * ((total + 7) / 8) - total)
  {
    hide BitsOf, Num, Power, Unmarked, Pending, Progress;
    ghost var source := Padded(pw[..], total + 1);
    ghost var g, pend := 0, [];
    var out: Octets := [];
    var left: nat, val: nat, valBits: nat := total, 0, 0;
    assert source[..8 * pw.Length] == BitsOf(pw[..]);
    assert source[8 * pw.Length..] == Zeros(20 * (total + 1));
    Started(source, total);
    while left > 0
      invariant Progress(out, pend, source, g, left, total) && Pending(val, pend) && |pend| == valBits <= 18
      invariant 20 * g + 8 * pw.Length <= |source| && BitsOf(pw[..]) == source[20 * g..20 * g + 8 * pw.Length]
      decreases left
    {
      if valBits < 8 {
        Fits(out, pend, source, g, left, total);
        var val19 := ReadGroup(pw, source, g);
        ghost var more := source[20 * g + 1..20 * g + 20];
        Pushed(val, pend, more);
        ReadOn(out, pend, source, g, left, total);
        val := (val * 0x8_0000 + val19) % WORD;
        pend, g, valBits := pend + more, g + 1, valBits + 19;
      }
      if left < 8 {
        break;
      }
      TakeEight(val, pend);
      var b := (val / Power(2, valBits - 8)) % 256;
      HandOut(out, pend, source, g, left, total, b as bv8);
      out, pend := out + [b as bv8], pend[8..];
      valBits, left := valBits - 8, left - 8;
    }
    out := LastOctet(out, val, valBits, left, pend, source, g, total);
    fp := seq(sec, _ => 0) + out;
    ZeroBits(sec);
    BitsAppend(seq(sec, _ => 0), out);
  }

  // Acceptance ---------------------------------------------------------------------------------------

  /** An octet's first n bits, the others shifted out and back in as zeros. */
  function TopBits(b: bv8, n: nat): bv8
    requires 0 < n < 8
  {
    if n == 1 then (b >> 7) << 7
    else if n == 2 then (b >> 6) << 6
    else if n == 3 then (b >> 5) << 5
    else if n == 4 then (b >> 4) << 4
    else if n == 5 then (b >> 3) << 3
    else if n == 6 then (b >> 2) << 2
    else (b >> 1) << 1
  }

  lemma TopBit(b: bv8, n: nat, t: nat)
    requires 0 < n < 8 && t < 8
    ensures ByteBit(TopBits(b, n), t) == (t < n && ByteBit(b, t))
  {
  }

  lemma OctetTop(b: bv8, n: nat)
    requires 0 < n < 8
    ensures BitsOf([TopBits(b, n)]) == BitsOf([b])[..n] + Zeros(8 - n)
  {
    hide ByteBit, TopBits;
    forall t | 0 <= t < 8
      ensures BitsOf([TopBits(b, n)])[t] == (BitsOf([b])[..n] + Zeros(8 - n))[t]
    {
      TopBit(b, n, t);
    }
  }

  lemma ClearedBits(was: Octets, n: nat)
    requires n % 8 != 0 && n < 8 * |was|
    ensures BitsOf(was[..n / 8] + [TopBits(was[n / 8], n % 8)]) == BitsOf(was)[..n] + Zeros(8 - n % 8)
  {
    hide BitsOf, TopBits;
    var q, r := n / 8, n % 8;
    OctetTop(was[q], r);
    BitsAppend(was[..q], [TopBits(was[q], r)]);
    BitsSlice(was, 0, q);
    BitsSlice(was, q, q + 1);
    assert was[..q] == was[0..q] && was[q..q + 1] == [was[q]];
    assert BitsOf(was)[..8 * q] + BitsOf(was)[8 * q..8 * q + 8][..r] == BitsOf(was)[..n];
  }

  lemma Compared(was: Octets, now: Octets, fp: Octets, n: nat)
    requires |fp| == (n + 7) / 8 == |now| <= |was| && BitsOf(fp)[n..] == Zeros(8 * |fp| - n)
    requires now == if n % 8 == 0 then was[..|fp|] else was[..n / 8] + [TopBits(was[n / 8], n % 8)]
    ensures now == fp <==> BitsOf(was)[..n] == BitsOf(fp)[..n]
  {
    hide BitsOf, TopBits;
    if n % 8 == 0 {
      BitsSlice(was, 0, |fp|);
      assert was[..|fp|] == was[0..|fp|];
      assert BitsOf(now) == BitsOf(was)[..n] + Zeros(0);
    } else {
      ClearedBits(was, n);
    }
    var pad := 8 * |fp| - n;
    assert BitsOf(now) == BitsOf(was)[..n] + Zeros(pad);
    assert BitsOf(fp) == BitsOf(fp)[..n] + Zeros(pad);
    if BitsOf(was)[..n] == BitsOf(fp)[..n] {
      BitsInjective(now, fp);
    }
    if now == fp {
      assert BitsOf(was)[..n] == BitsOf(now)[..n];
    }
  }

  /** sae_pk_valid_fingerprint, once the hash is known: exactly the fingerprint's bits are compared. */
  method ValidFingerprint(hash: array<bv8>, fp: Octets, fpBits: nat) returns (ok: bool)
    requires |fp| == (fpBits + 7) / 8 && BitsOf(fp)[fpBits..] == Zeros(8 * |fp| - fpBits)
    modifies hash
    ensures ok <==> fpBits <= 8 * hash.Length && BitsOf(old(hash[..]))[..fpBits] == BitsOf(fp)[..fpBits]
  {
    hide BitsOf, TopBits;
    if fpBits > hash.Length * 8 {
      return false;
    }
    ghost var was := hash[..];
    if fpBits % 8 != 0 {
      hash[fpBits / 8] := TopBits(hash[fpBits / 8], fpBits % 8);
    }
    ok := hash[..|fp|] == fp;
    Compared(was, hash[..|fp|], fp, fpBits);
  }

  // Generator and verifier together --------------------------------------------------------------------

  /** The password lengths that the generator prints, in groups of four characters. */
  predicate Printed(hashLen: nat, sec: nat, j: nat)
    requires SaePkGen.SupportedHash(hashLen, sec)
  {
    3 <= j <= (8 * hashLen + 5 - 8 * sec) / 19
  }

  /** Those are exactly the lengths from three groups up that use hash bits only, and no zeros shifted in. */
  lemma PrintedUsesHashOnly(hashLen: nat, sec: nat, j: nat)
    requires SaePkGen.SupportedHash(hashLen, sec) && j >= 3
    ensures Printed(hashLen, sec, j) <==> 19 * j - 5 <= 8 * (hashLen - sec)
    ensures Printed(hashLen, sec, j) ==> 20 * j <= 20 * (8 * hashLen / 20)
  {
  }

  lemma GroupIndex(i: nat, j: nat, k: nat)
    requires i < 19 * j - 5 && k == 20 * (i / 19) + 1 + i % 19
    ensures k < 20 * j - 5
  {
    assert i / 19 <= j - 1;
    if i / 19 == j - 1 {
      assert i % 19 == i - 19 * (j - 1);
    }
  }

  /** Unmarking looks at no more than the groups it is about. */
  lemma UnmarkedAgrees(p: seq<bool>, m: nat, q: seq<bool>, n: nat, j: nat)
    requires j >= 1 && |p| >= 20 * m && |q| >= 20 * n && j <= m && j <= n
    requires p[..20 * j - 5] == q[..20 * j - 5]
    ensures Unmarked(p, m)[..19 * j - 5] == Unmarked(q, n)[..19 * j - 5]
  {
    var l, r := Unmarked(p, m), Unmarked(q, n);
    forall i | 0 <= i < 19 * j - 5
      ensures l[i] == r[i]
    {
      var k := 20 * (i / 19) + 1 + i % 19;
      GroupIndex(i, j, k);
      assert p[k] == p[..20 * j - 5][k] && q[k] == q[..20 * j - 5][k];
    }
  }

  lemma SliceTaken(s: seq<bool>, a: nat, b: nat, t: nat)
    requires a + t <= b <= |s|
    ensures s[a..b][..t] == s[a..a + t]
  {
  }

  /** What a station reads out of a generated password: the hash bits that follow the first Sec octets. */
  lemma FingerprintOfPassword(hash: Octets, sec: nat, base: Octets, pw: Octets, j: nat)
    requires SaePkGen.SupportedHash(|hash|, sec) && Printed(|hash|, sec, j) && |base| == SaePkGen.MAX_HASH_LEN
    requires var n := 8 * |hash| / 20;
             BitsOf(base) == Stretch(SaePkGen.Source(hash, sec, n), sec == 3, n) + Zeros(8 * SaePkGen.MAX_HASH_LEN - 20 * n)
    requires 8 * |pw| >= 20 * j - 5 && BitsOf(pw)[..20 * j - 5] == BitsOf(base)[..20 * j - 5]
    ensures var t := 19 * j - 5;
            Unmarked(Padded(pw, t + 1), t + 1)[..t] == BitsOf(hash)[8 * sec..8 * sec + t]
  {
    hide BitsOf, Unmarked, Stretch;
    var n, t := 8 * |hash| / 20, 19 * j - 5;
    PrintedUsesHashOnly(|hash|, sec, j);
    var src, p := SaePkGen.Source(hash, sec, n), Padded(pw, t + 1);
    var stretched := Stretch(src, sec == 3, n);
    assert p[..20 * j - 5] == BitsOf(pw)[..20 * j - 5];
    assert BitsOf(base)[..20 * j - 5] == stretched[..20 * j - 5];
    UnmarkedAgrees(p, t + 1, stretched, n, j);
    UnmarkedStretch(src, sec == 3, n);
    assert src[..19 * n][..t] == BitsOf(hash[sec..])[..t];
    BitsSlice(hash, sec, |hash|);
    assert hash[sec..] == hash[sec..|hash|];
    SliceTaken(BitsOf(hash), 8 * sec, 8 * |hash|, t);
  }

  /** A hash passes the generator's modifier search exactly when this holds. */
  predicate Searched(hash: Octets, sec: nat)
  {
    sec <= |hash| && forall i | 0 <= i < sec :: hash[i] == 0
  }

  /** Sec as a station reads it from the first bit of a password. */
  function SecOf(pw: Octets): nat
    requires |pw| > 0
  {
    if pw[0] & 0x80 != 0 then 3 else 5
  }

  /** The first bit of a password tells the generator's Sec. */
  lemma SecRead(sec: nat, hash: Octets, base: Octets, pw: Octets, j: nat)
    requires SaePkGen.SupportedHash(|hash|, sec) && Printed(|hash|, sec, j) && |base| == SaePkGen.MAX_HASH_LEN
    requires var n := 8 * |hash| / 20;
             BitsOf(base) == Stretch(SaePkGen.Source(hash, sec, n), sec == 3, n) + Zeros(8 * SaePkGen.MAX_HASH_LEN - 20 * n)
    requires 8 * |pw| >= 20 * j - 5 && BitsOf(pw)[..20 * j - 5] == BitsOf(base)[..20 * j - 5]
    ensures sec == SecOf(pw)
  {
    hide BitsOf;
    BitAt(pw, 0, 0);
    assert BitsOf(pw)[0] == BitsOf(pw)[..20 * j - 5][0] == BitsOf(base)[..20 * j - 5][0];
    assert BitsOf(base)[0] == (sec == 3);
  }

  /** The number of fingerprint bits after the Sec octets, by the length of the text. */
  function BitsWanted(len: nat): nat
    requires len >= 14
  {
    19 * (len - len / 5) / 4 - 5
  }

  lemma BitsOfText(j: nat)
    requires j >= 3
    ensures BitsWanted(5 * j - 1) == 19 * j - 5
  {
  }

  /** A hash is accepted when it starts with Sec zero octets and goes on with the password's bits without the marks. */
  ghost predicate Accepted(hash: Octets, pw: Octets, len: nat)
    requires |pw| >= 3 && len >= 14
  {
    var sec, t := SecOf(pw), BitsWanted(len);
    && 8 * sec + t <= 8 * SaePkGen.MAX_HASH_LEN && 8 * sec + t <= 8 * |hash|
    && BitsOf(hash)[..8 * sec] == Zeros(8 * sec)
    && BitsOf(hash)[8 * sec..8 * sec + t] == Unmarked(Padded(pw, t + 1), t + 1)[..t]
  }

  lemma Parted(s: seq<bool>, m: nat, n: nat, a: seq<bool>, b: seq<bool>)
    requires m <= n <= |s| && |a| == m && |b| == n - m
    ensures s[..n] == a + b <==> s[..m] == a && s[m..n] == b
  {
    assert s[..n] == s[..m] + s[m..n];
    if s[..n] == a + b {
      assert s[..m] == s[..n][..m] && s[m..n] == s[..n][m..];
    }
  }

  /** sae_pk_set_password from the decoded password on, and the comparison with a hash. */
  method VerifyPassword(hash: array<bv8>, pw: array<bv8>, len: nat) returns (ok: bool)
    requires pw.Length >= 3 && len >= 14 && hash != pw
    modifies hash, pw
    ensures ok == Accepted(old(hash[..]), old(pw[..]), len)
  {
    hide BitsOf, Unmarked, SecOf;
    ghost var was, bits := BitsOf(hash[..]), Unmarked(Padded(pw[..], BitsWanted(len) + 1), BitsWanted(len) + 1);
    var sec := SecOf(pw[..]);
    var lambda := len - len / 5;
    var t := 19 * lambda / 4 - 5;
    if 8 * sec + t > 8 * SaePkGen.MAX_HASH_LEN {
      return false;
    }
    var fp := Fingerprint(pw, sec, t);
    assert BitsOf(fp)[..8 * sec + t] == Zeros(8 * sec) + bits[..t];
    ok := ValidFingerprint(hash, fp, 8 * sec + t);
    if 8 * sec + t <= |was| {
      Parted(was, 8 * sec, 8 * sec + t, Zeros(8 * sec), bits[..t]);
    }
  }

  lemma LeadingZeros(hash: Octets, sec: nat)
    requires Searched(hash, sec)
    ensures BitsOf(hash)[..8 * sec] == Zeros(8 * sec)
  {
    hide ByteBit;
    forall i | 0 <= i < 8 * sec
      ensures !BitsOf(hash)[i]
    {
      NoBit(i % 8);
    }
  }

  /** Every password that the generator prints for a hash is accepted for it, whatever its length. */
  lemma GeneratedPasswordVerifies(hash: Octets, sec: nat, base: Octets, pw: Octets, j: nat)
    requires SaePkGen.SupportedHash(|hash|, sec) && Printed(|hash|, sec, j) && |base| == SaePkGen.MAX_HASH_LEN
    requires Searched(hash, sec)
    requires var n := 8 * |hash| / 20;
             BitsOf(base) == Stretch(SaePkGen.Source(hash, sec, n), sec == 3, n) + Zeros(8 * SaePkGen.MAX_HASH_LEN - 20 * n)
    requires 8 * |pw| >= 20 * j - 5 && BitsOf(pw)[..20 * j - 5] == BitsOf(base)[..20 * j - 5]
    ensures Accepted(hash, pw, 5 * j - 1)
  {
    hide BitsOf, Stretch, Unmarked;
    SecRead(sec, hash, base, pw, j);
    FingerprintOfPassword(hash, sec, base, pw, j);
    PrintedUsesHashOnly(|hash|, sec, j);
    BitsOfText(j);
    LeadingZeros(hash, sec);
  }
}
