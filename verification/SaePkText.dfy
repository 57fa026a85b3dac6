/** SAE-PK passwords as text: base 32 in groups of four with a check character, written, tested and read back. */
module SaePkText {
  import opened Bits
  import opened Frames
  import opened Counters
  import opened Numbers
  import opened SaePkCheck
  import opened SaePkTable

  // Groups of five bits ----------------------------------------------------------------------------

  function FiveBits(v: Digit): (r: seq<bool>)
    ensures |r| == 5
  {
    [v / 16 % 2 == 1, v / 8 % 2 == 1, v / 4 % 2 == 1, v / 2 % 2 == 1, v % 2 == 1]
  }

  lemma NumOfFive(bs: seq<bool>)
    requires |bs| == 5
    ensures Num(bs) == 16 * V(bs[0]) + 8 * V(bs[1]) + 4 * V(bs[2]) + 2 * V(bs[3]) + V(bs[4])
  {
    hide Num;
    NumNone(bs);
    NumLast(bs, 5);
    NumLast(bs, 4);
    NumLast(bs, 3);
    NumLast(bs, 2);
    NumLast(bs, 1);
    assert bs[..5] == bs;
  }

  lemma Bits01(bs: seq<bool>)
    ensures forall i | 0 <= i < |bs| :: V(bs[i]) <= 1 && (V(bs[i]) == 1 <==> bs[i])
  {
  }

  lemma FiveDigits(a: nat, b: nat, c: nat, d: nat, e: nat)
    requires a <= 1 && b <= 1 && c <= 1 && d <= 1 && e <= 1
    ensures var v := 16 * a + 8 * b + 4 * c + 2 * d + e;
            v < 32 && v / 16 % 2 == a && v / 8 % 2 == b && v / 4 % 2 == c && v / 2 % 2 == d && v % 2 == e
  {
    var v := 16 * a + 8 * b + 4 * c + 2 * d + e;
    assert v / 16 == a && v / 8 == 2 * a + b && v / 4 == 4 * a + 2 * b + c && v / 2 == 8 * a + 4 * b + 2 * c + d;
  }

  lemma FiveOfNum(bs: seq<bool>)
    requires |bs| == 5
    ensures Num(bs) < 32 && FiveBits(Num(bs)) == bs
  {
    hide Num, V;
    NumOfFive(bs);
    Bits01(bs);
    FiveDigits(V(bs[0]), V(bs[1]), V(bs[2]), V(bs[3]), V(bs[4]));
  }

  /** The bits of digits, five each. */
  function QuintBits(vs: seq<Digit>): (r: seq<bool>)
    ensures |r| == 5 * |vs|
  {
    if vs == [] then [] else QuintBits(vs[..|vs| - 1]) + FiveBits(vs[|vs| - 1])
  }

  lemma {:induction false} QuintBitsAppend(a: seq<Digit>, b: seq<Digit>)
    ensures QuintBits(a + b) == QuintBits(a) + QuintBits(b)
  {
    hide FiveBits;
    if b == [] {
      assert a + b == a;
    } else {
      var init := b[..|b| - 1];
      QuintBitsAppend(a, init);
      assert (a + b)[..|a + b| - 1] == a + init;
      assert QuintBits(a) + QuintBits(init) + FiveBits(b[|b| - 1]) == QuintBits(a) + (QuintBits(init) + FiveBits(b[|b| - 1]));
    }
  }

  /** The first n digits of a bit string. */
  function Quints(bits: seq<bool>, n: nat): (vs: seq<Digit>)
    requires |bits| >= 5 * n
    ensures |vs| == n
  {
    if n == 0 then []
    else
      FiveOfNum(bits[5 * n - 5..5 * n]);
      Quints(bits, n - 1) + [Num(bits[5 * n - 5..5 * n])]
  }

  /** Digits carry exactly the bits they were taken from. */
  lemma {:induction false} BitsOfQuints(bits: seq<bool>, n: nat)
    requires |bits| >= 5 * n
    ensures QuintBits(Quints(bits, n)) == bits[..5 * n]
  {
    hide FiveBits, Num;
    if n > 0 {
      var vs := Quints(bits, n);
      BitsOfQuints(bits, n - 1);
      FiveOfNum(bits[5 * n - 5..5 * n]);
      assert vs[..n - 1] == Quints(bits, n - 1);
      assert bits[..5 * n] == bits[..5 * n - 5] + bits[5 * n - 5..5 * n];
    }
  }

  // The text ---------------------------------------------------------------------------------------

  /** add_char: a dash ahead of every fifth place. */
  function WithChar(s: string, v: Digit): string
  {
    s + (if |s| % 5 == 4 then "-" else "") + [CharOf(v)]
  }

  function Dashed(vs: seq<Digit>): string
  {
    if vs == [] then "" else WithChar(Dashed(vs[..|vs| - 1]), vs[|vs| - 1])
  }

  /** The length of the text of n digits. */
  function TextLen(n: nat): nat
  {
    if n == 0 then 0 else n + (n - 1) / 4
  }

  lemma TextLenStep(n: nat)
    ensures var l := TextLen(n);
            && TextLen(n + 1) == l + (if l % 5 == 4 then 2 else 1)
            && var q := TextLen(n + 1) - 1; q % 5 != 4 && q - q / 5 == n
  {
    if n > 0 {
      var m, r := (n - 1) / 4, (n - 1) % 4;
      assert TextLen(n) == 5 * m + r + 1;
    }
  }

  /** Where a place of the text gets its character from. */
  ghost predicate PlacedAt(s: string, vs: seq<Digit>, p: nat)
    requires p < |s|
  {
    if p % 5 == 4 then s[p] == '-' else p - p / 5 < |vs| && s[p] == CharOf(vs[p - p / 5])
  }

  ghost predicate Placed(s: string, vs: seq<Digit>)
  {
    |s| == TextLen(|vs|) && forall p | 0 <= p < |s| :: PlacedAt(s, vs, p)
  }

  lemma PlacedMore(s: string, vs: seq<Digit>, v: Digit)
    requires Placed(s, vs)
    ensures Placed(WithChar(s, v), vs + [v])
  {
    hide CharOf, TextLen;
    TextLenStep(|vs|);
    var t, us := WithChar(s, v), vs + [v];
    forall p | 0 <= p < |t|
      ensures PlacedAt(t, us, p)
    {
      if p < |s| {
        assert PlacedAt(s, vs, p) && t[p] == s[p];
      }
    }
  }

  lemma NothingPlaced()
    ensures Placed("", [])
  {
  }

  lemma {:induction false} DashedShape(vs: seq<Digit>)
    ensures Placed(Dashed(vs), vs)
  {
    hide Placed, CharOf;
    if vs == [] {
      NothingPlaced();
    } else {
      var init, v := vs[..|vs| - 1], vs[|vs| - 1];
      DashedShape(init);
      PlacedMore(Dashed(init), init, v);
      assert vs == init + [v];
    }
  }

  lemma ValuesOne(c: char)
    ensures Values([c]) == Single(c)
  {
    hide Single;
    assert [c][1..] == [];
    assert Values([c]) == Single(c) + [];
  }

  lemma ValuesOfChar(s: string, v: Digit)
    ensures Values(WithChar(s, v)) == Values(s) + [v]
  {
    hide CharOf;
    DigitOfChar(v);
    var dash := if |s| % 5 == 4 then "-" else "";
    ValuesAppend(s + dash, [CharOf(v)]);
    ValuesAppend(s, dash);
    ValuesOne(CharOf(v));
    assert dash != [] ==> dash[1..] == [];
    assert Values(dash) == [];
    assert Values(s) + [] == Values(s);
  }

  lemma {:induction false} ValuesOfDashed(vs: seq<Digit>)
    ensures Values(Dashed(vs)) == vs
  {
    hide CharOf;
    if vs != [] {
      var init, v := vs[..|vs| - 1], vs[|vs| - 1];
      ValuesOfDashed(init);
      ValuesOfChar(Dashed(init), v);
      assert vs == init + [v];
    }
  }

  // Writing ----------------------------------------------------------------------------------------

  /** The octets that lenBits bits lie in, padded with zeros to whole blocks of five octets. */
  function Blocks(src: Octets, lenBits: nat): (r: Octets)
    requires |src| >= (lenBits + 7) / 8
    ensures |r| % 5 == 0 && |r| >= (lenBits + 7) / 8
  {
    var len := (lenBits + 7) / 8;
    src[..len] + ZeroOctets((5 - len % 5) % 5)
  }

  lemma CeilFive(l: nat, m: nat)
    requires l <= 5 * m
    ensures (l + 4) / 5 <= m
  {
  }

  lemma EnoughBits(lenBits: nat, n: nat)
    requires n % 5 == 0 && n >= (lenBits + 7) / 8
    ensures 8 * n >= 5 * ((lenBits + 4) / 5)
  {
    var k := n / 5;
    assert n == 5 * k;
    assert 8 * ((lenBits + 7) / 8) >= lenBits;
    CeilFive(lenBits, 8 * k);
  }

  function Digits(src: Octets, lenBits: nat): (vs: seq<Digit>)
    requires |src| >= (lenBits + 7) / 8
    ensures |vs| == (lenBits + 4) / 5
  {
    EnoughBits(lenBits, |Blocks(src, lenBits)|);
    Quints(BitsOf(Blocks(src, lenBits)), (lenBits + 4) / 5)
  }

  function Encoded(src: Octets, lenBits: nat): string
    requires |src| >= (lenBits + 7) / 8
  {
    var text := Dashed(Digits(src, lenBits));
    text + [CheckChar(text)]
  }

  /** A stretch of a number's bits. */
  lemma NumMiddle(bs: seq<bool>, a: nat, b: nat)
    requires a <= b <= |bs|
    ensures Num(bs[a..b]) == (Num(bs) / Power(2, |bs| - b)) % Power(2, b - a)
  {
    hide Num, Power;
    NumSplit(bs, b);
    NumSplit(bs[..b], a);
    assert bs[..b][a..] == bs[a..b];
  }

  lemma BlockDigit(bits: seq<bool>, t: nat)
    requires |bits| == 40 && t < 8
    ensures (Num(bits) / Power(2, 35 - 5 * t)) % 32 == Num(bits[5 * t..5 * t + 5])
  {
    hide Num, Power;
    NumMiddle(bits, 5 * t, 5 * t + 5);
    SmallPowers();
  }

  lemma OneMoreDigit(vs: seq<Digit>, bits: seq<bool>, n: nat)
    requires |bits| >= 5 * n + 5
    ensures Num(bits[5 * n..5 * n + 5]) < 32
    ensures Dashed(vs + Quints(bits, n + 1)) == WithChar(Dashed(vs + Quints(bits, n)), Num(bits[5 * n..5 * n + 5]))
  {
    hide Num, WithChar;
    var us := vs + Quints(bits, n + 1);
    assert us[..|us| - 1] == vs + Quints(bits, n) && us[|us| - 1] == Num(bits[5 * n..5 * n + 5]);
  }

  lemma NoQuints(vs: seq<Digit>, bits: seq<bool>)
    ensures vs + Quints(bits, 0) == vs
  {
  }

  /** The eight characters of one block, as long as bits are left. */
  method EncodeBlock(text: string, block: nat, left: nat, ghost bits: seq<bool>, ghost vs: seq<Digit>)
    returns (r: string, left': nat)
    requires |bits| == 40 && block == Num(bits) && text == Dashed(vs)
    ensures var m := if left >= 40 then 8 else (left + 4) / 5;
            r == Dashed(vs + Quints(bits, m)) && left' == if left >= 40 then left - 40 else 0
  {
    hide Num, Dashed, Power, WithChar, Quints;
    r, left' := text, left;
    NoQuints(vs, bits);
    ghost var n := 0;
    for t := 0 to 8
      invariant n <= t && r == Dashed(vs + Quints(bits, n))
      invariant if left >= 5 * t then n == t && left' == left - 5 * t else n == (left + 4) / 5 && left' == 0
    {
      if left' > 0 {
        OneMoreDigit(vs, bits, n);
        BlockDigit(bits, n);
        r := WithChar(r, (block / Power(2, 35 - 5 * t)) % 32);
        left' := if left' > 5 then left' - 5 else 0;
        n := n + 1;
      }
    }
  }

  /** An octet pushed into the block. */
  lemma BlockPush(bits: seq<bool>, x: bv8)
    ensures Num(bits + BitsOf([x])) == Num(bits) * 256 + OctetValue(x)
  {
    hide Num, BitsOf, Power;
    OctetNum(x);
    NumAppend(bits, BitsOf([x]));
    SmallPowers();
  }

  lemma PushOctet(octets: Octets, a: nat, i: nat)
    requires a <= i < |octets|
    ensures Num(BitsOf(octets[a..i + 1])) == Num(BitsOf(octets[a..i])) * 256 + OctetValue(octets[i])
  {
    hide Num, BitsOf;
    assert octets[a..i + 1] == octets[a..i] + [octets[i]];
    BitsAppend(octets[a..i], [octets[i]]);
    BlockPush(BitsOf(octets[a..i]), octets[i]);
  }

  lemma InBlock(i: nat, b: nat)
    requires 5 * b <= i < 5 * b + 5
    ensures i % 5 == i - 5 * b
  {
  }

  lemma {:induction false} QuintAt(bits: seq<bool>, n: nat, k: nat)
    requires |bits| >= 5 * n && k < n
    ensures Quints(bits, n)[k] == Num(bits[5 * k..5 * k + 5])
  {
    hide Num;
    if k < n - 1 {
      QuintAt(bits, n - 1, k);
    }
  }

  lemma QuintsSplit(bits: seq<bool>, k: nat, m: nat)
    requires |bits| >= 5 * (k + m)
    ensures Quints(bits, k) + Quints(bits[5 * k..], m) == Quints(bits, k + m)
  {
    hide Num, Quints;
    var rest := bits[5 * k..];
    var l, r := Quints(bits, k) + Quints(rest, m), Quints(bits, k + m);
    forall i | 0 <= i < k + m
      ensures l[i] == r[i]
    {
      QuintAt(bits, k + m, i);
      if i < k {
        QuintAt(bits, k, i);
      } else {
        QuintAt(rest, m, i - k);
        assert rest[5 * (i - k)..5 * (i - k) + 5] == bits[5 * i..5 * i + 5];
      }
    }
  }

  lemma {:induction false} QuintsPrefix(bits: seq<bool>, n: nat, m: nat)
    requires m >= 5 * n && |bits| >= m
    ensures Quints(bits[..m], n) == Quints(bits, n)
  {
    hide Num;
    if n > 0 {
      QuintsPrefix(bits, n - 1, m);
      assert bits[..m][5 * n - 5..5 * n] == bits[5 * n - 5..5 * n];
    }
  }

  /** The digits written after b whole blocks. */
  function Reached(total: nat, b: nat): nat
  {
    if total >= 40 * b then 8 * b else (total + 4) / 5
  }

  /** Where the encoder stands after i octets: b blocks are written and the rest is in the block. */
  ghost predicate Underway(octets: Octets, lenBits: nat, i: nat, b: nat, text: string, block: nat, left: nat)
  {
    && 5 * b <= i < 5 * b + 5 && i <= |octets| && block == Num(BitsOf(octets[5 * b..i]))
    && 5 * Reached(lenBits, b) <= |BitsOf(octets)|
    && text == Dashed(Quints(BitsOf(octets), Reached(lenBits, b)))
    && left == if lenBits >= 40 * b then lenBits - 40 * b else 0
  }

  lemma NoOctets(octets: Octets, i: nat)
    requires i <= |octets|
    ensures Num(BitsOf(octets[i..i])) == 0
  {
    assert octets[i..i] == [];
    assert BitsOf(octets[i..i]) == [];
  }

  /** One more block writes the digits of its bits that are wanted. */
  lemma BlockDigits(octets: Octets, lenBits: nat, b: nat)
    requires 5 * b + 5 <= |octets|
    ensures var bits, k := BitsOf(octets), Reached(lenBits, b);
            var left := if lenBits >= 40 * b then lenBits - 40 * b else 0;
            var m := if left >= 40 then 8 else (left + 4) / 5;
            && Reached(lenBits, b + 1) == k + m && 5 * (k + m) <= |bits|
            && Quints(bits, k) + Quints(BitsOf(octets[5 * b..5 * b + 5]), m) == Quints(bits, k + m)
  {
    hide BitsOf, Quints, Num;
    var bits, k := BitsOf(octets), Reached(lenBits, b);
    var left := if lenBits >= 40 * b then lenBits - 40 * b else 0;
    var m := if left >= 40 then 8 else (left + 4) / 5;
    BitsSlice(octets, 5 * b, 5 * b + 5);
    if m > 0 {
      QuintsSplit(bits, k, m);
      assert bits[40 * b..40 * b + 40] == bits[40 * b..][..40];
      QuintsPrefix(bits[40 * b..], m, 40);
    } else {
      NoQuints(Quints(bits, k), BitsOf(octets[5 * b..5 * b + 5]));
    }
  }

  method EncodeOctet(text: string, block: nat, left: nat, val: bv8, i: nat,
                     ghost octets: Octets, ghost lenBits: nat, ghost b: nat)
    returns (text': string, block': nat, left': nat, ghost b': nat)
    requires i < |octets| && val == octets[i] && Underway(octets, lenBits, i, b, text, block, left)
    ensures Underway(octets, lenBits, i + 1, b', text', block', left')
  {
    hide Num, BitsOf, Dashed, Quints, Reached, OctetValue;
    PushOctet(octets, 5 * b, i);
    InBlock(i, b);
    text', block', left', b' := text, block * 256 + OctetValue(val), left, b;
    if i % 5 == 4 {
      BlockDigits(octets, lenBits, b);
      text', left' := EncodeBlock(text, block', left, BitsOf(octets[5 * b..5 * b + 5]), Quints(BitsOf(octets), Reached(lenBits, b)));
      block', b' := 0, b + 1;
      NoOctets(octets, 5 * b');
    }
  }

  lemma NotUnderway(octets: Octets, lenBits: nat)
    ensures Underway(octets, lenBits, 0, 0, "", 0, lenBits)
  {
    assert octets[0..0] == [];
  }

  lemma AllReached(lenBits: nat, n: nat)
    requires n % 5 == 0 && n >= (lenBits + 7) / 8
    ensures Reached(lenBits, n / 5) == (lenBits + 4) / 5
  {
    var k := n / 5;
    assert n == 5 * k && 40 * k >= lenBits;
  }

  lemma AllWritten(src: Octets, lenBits: nat, b: nat, text: string, block: nat, left: nat)
    requires |src| >= (lenBits + 7) / 8
    requires Underway(Blocks(src, lenBits), lenBits, |Blocks(src, lenBits)|, b, text, block, left)
    ensures text == Dashed(Digits(src, lenBits))
  {
    hide Num, BitsOf, Dashed, Quints, Reached, Blocks;
    AllReached(lenBits, |Blocks(src, lenBits)|);
  }

  /** The characters without the check character. */
  method EncodeText(src: Octets, lenBits: nat) returns (text: string)
    requires |src| >= (lenBits + 7) / 8
    ensures text == Dashed(Digits(src, lenBits))
  {
    hide Dashed, Digits, Underway;
    var len := (lenBits + 7) / 8;
    var pad := (5 - len % 5) % 5;
    ghost var octets := Blocks(src, lenBits);
    var block: nat, left: nat := 0, lenBits;
    text := "";
    ghost var b: nat := 0;
    NotUnderway(octets, lenBits);
    for i := 0 to len + pad
      invariant Underway(octets, lenBits, i, b, text, block, left)
    {
      var val := if i < len then src[i] else 0;
      text, block, left, b := EncodeOctet(text, block, left, val, i, octets, lenBits, b);
    }
    AllWritten(src, lenBits, b, text, block, left);
  }

  /** The text, its check character and a terminator fit the buffer. */
  lemma FitsBuffer(lenBits: nat)
    ensures var olen := (lenBits + 7) / 8 * 8 / 5 + 1; TextLen((lenBits + 4) / 5) + 2 <= olen + olen / 4 + 2
  {
    var n, m := (lenBits + 4) / 5, (lenBits + 7) / 8 * 8;
    assert lenBits <= m;
    assert n <= m / 5 + 1;
  }

  /** sae_pk_base32_encode; nothing for no bits. */
  method Encode(src: Octets, lenBits: nat) returns (r: Option<string>)
    requires |src| >= (lenBits + 7) / 8
    ensures r == if lenBits == 0 then None else Some(Encoded(src, lenBits))
    ensures r.Some? ==> var olen := (lenBits + 7) / 8 * 8 / 5 + 1; |r.value| + 1 <= olen + olen / 4 + 2
  {
    hide Dashed, Digits, CheckChar;
    if (lenBits + 7) / 8 == 0 {
      return None;
    }
    var text := EncodeText(src, lenBits);
    DashedShape(Digits(src, lenBits));
    FitsBuffer(lenBits);
    var check := DCheckChar(text);
    r := Some(text + [check]);
  }

  // Testing ----------------------------------------------------------------------------------------

  /** The mark of a group: the top bit of its first character. */
  predicate Marks(c: char)
    requires DigitOf(c).Some?
  {
    DigitOf(c).value >= 16
  }

  predicate WellSpelled(pw: string)
  {
    && |pw| >= 14 && |pw| % 5 == 4
    && forall p | 0 <= p < |pw| :: if p % 5 == 4 then pw[p] == '-' else DigitOf(pw[p]).Some?
  }

  predicate Valid(pw: string)
  {
    && WellSpelled(pw)
    && pw[|pw| - 1] == CheckChar(pw[..|pw| - 1])
    && forall p | 0 <= p < |pw| && p % 5 == 0 :: Marks(pw[p]) == Marks(pw[0])
  }

  /** sae_pk_valid_password. */
  method ValidPassword(pw: string) returns (ok: bool)
    ensures ok == Valid(pw)
  {
    hide CheckChar, DigitOf;
    if |pw| < 14 || |pw| % 5 != 4 {
      return false;
    }
    for pos := 0 to |pw|
      invariant forall p | 0 <= p < pos :: if p % 5 == 4 then pw[p] == '-' else DigitOf(pw[p]).Some?
    {
      if pos % 5 == 4 {
        if pw[pos] != '-' {
          return false;
        }
      } else if DigitOf(pw[pos]).None? {
        return false;
      }
    }
    var check := DCheckChar(pw[..|pw| - 1]);
    if pw[|pw| - 1] != check {
      return false;
    }
    var i := 5;
    while i < |pw|
      invariant i % 5 == 0 && forall p | 0 <= p < |pw| && p < i && p % 5 == 0 :: Marks(pw[p]) == Marks(pw[0])
    {
      if Marks(pw[0]) != Marks(pw[i]) {
        return false;
      }
      i := i + 5;
    }
    ok := true;
  }

  lemma NoValues()
    ensures Values([]) == [] && Values("-") == []
  {
    assert "-"[1..] == [];
  }

  lemma ValuesAround(s: string, p: nat)
    requires p < |s| && DigitOf(s[p]).Some?
    ensures Values(s) == Values(s[..p]) + [DigitOf(s[p]).value] + Values(s[p + 1..])
  {
    hide DigitOf, Values;
    assert s == s[..p] + [s[p]] + s[p + 1..];
    ValuesAppend(s[..p] + [s[p]], s[p + 1..]);
    ValuesAppend(s[..p], [s[p]]);
    ValuesOne(s[p]);
  }

  /** A well spelled text has its check character exactly when the product over all its digits is neutral. */
  lemma CheckedExactly(pw: string)
    requires WellSpelled(pw)
    ensures pw[|pw| - 1] == CheckChar(pw[..|pw| - 1]) <==> Accumulated(Values(pw), 0) == 0
  {
    hide CharOf, DigitOf, Accumulated, Values;
    var last := |pw| - 1;
    var vs, k := Values(pw[..last]), DigitOf(pw[last]).value;
    ValuesAround(pw, last);
    assert pw[last + 1..] == [] && Values([]) == [] by {
      NoValues();
    }
    assert Values(pw) == vs + [k];
    CheckDigitCloses(vs, k);
    CharOfDigit(pw[last]);
    DigitOfChar(Inverted(Accumulated(vs, 1)));
  }

  /** No single wrong character goes unnoticed, wherever it is. */
  lemma SingleErrorRefused(pw: string, p: nat, c: char)
    requires Valid(pw) && p < |pw| && c != pw[p]
    ensures !Valid(pw[p := c])
  {
    hide CheckChar, DigitOf, Accumulated, Values;
    var bad := pw[p := c];
    if WellSpelled(bad) {
      assert bad[p] == c;
      CheckedExactly(pw);
      CheckedExactly(bad);
      ValuesAround(pw, p);
      ValuesAround(bad, p);
      assert bad[..p] == pw[..p] && bad[p + 1..] == pw[p + 1..];
      var i, w := |Values(pw[..p])|, DigitOf(c).value;
      CharOfDigit(c);
      CharOfDigit(pw[p]);
      assert Values(bad) == Values(pw)[i := w];
      SingleErrorDetected(Values(pw), i, w, 0);
    }
  }

  lemma Joined(a: seq<Digit>, x: Digit, y: Digit, b: seq<Digit>)
    ensures a + [x] + ([] + [y] + b) == a + [x, y] + b
  {
  }

  lemma ValuesAroundTwo(s: string, p: nat, q: nat)
    requires p < q < |s| && q - p <= 2 && (q - p == 2 ==> s[p + 1] == '-')
    requires DigitOf(s[p]).Some? && DigitOf(s[q]).Some?
    ensures Values(s) == Values(s[..p]) + [DigitOf(s[p]).value, DigitOf(s[q]).value] + Values(s[q + 1..])
  {
    hide DigitOf, Values;
    var rest, k := s[p + 1..], q - p - 1;
    ValuesAround(s, p);
    assert rest[k] == s[q] && rest[k + 1..] == s[q + 1..];
    ValuesAround(rest, k);
    assert rest[..k] == if k == 1 then "-" else "";
    NoValues();
    Joined(Values(s[..p]), DigitOf(s[p]).value, DigitOf(s[q]).value, Values(s[q + 1..]));
  }

  /** Nor do two different characters that changed places, next to each other or with a dash between them. */
  lemma SwapRefused(pw: string, p: nat, q: nat)
    requires Valid(pw) && p < q < |pw| && q - p <= 2 && (q - p == 2 ==> pw[p + 1] == '-') && pw[p] != pw[q]
    ensures !Valid(Swapped(pw, p, q))
  {
    hide CheckChar, DigitOf, Accumulated, Values;
    var bad := Swapped(pw, p, q);
    if WellSpelled(bad) {
      assert bad[p] == pw[q] && bad[q] == pw[p];
      CheckedExactly(pw);
      CheckedExactly(bad);
      ValuesAroundTwo(pw, p, q);
      ValuesAroundTwo(bad, p, q);
      assert bad[..p] == pw[..p] && bad[q + 1..] == pw[q + 1..];
      var i := |Values(pw[..p])|;
      CharOfDigit(pw[p]);
      CharOfDigit(pw[q]);
      assert Values(bad) == Swapped(Values(pw), i, i + 1);
      SwapDetected(Values(pw), i, 0);
    }
  }

  /** A text of j groups of four, the last character being the check character. */
  lemma GroupsOfFour(j: nat)
    requires j >= 1
    ensures TextLen(4 * j - 1) == 5 * j - 2 && (20 * j - 5 + 4) / 5 == 4 * j - 1
  {
  }

  lemma HighBit(bs: seq<bool>)
    requires |bs| == 5
    ensures Num(bs) < 32 && (Num(bs) >= 16 <==> bs[0])
  {
    hide Num;
    NumOfFive(bs);
  }

  lemma EncodedCheck(src: Octets, lenBits: nat)
    requires |src| >= (lenBits + 7) / 8
    ensures var pw := Encoded(src, lenBits); |pw| > 0 && pw[|pw| - 1] == CheckChar(pw[..|pw| - 1])
  {
    hide CheckChar, Dashed, Digits;
    var text := Dashed(Digits(src, lenBits));
    assert (text + [CheckChar(text)])[..|text|] == text;
  }

  lemma PlacedLen(s: string, vs: seq<Digit>)
    requires Placed(s, vs)
    ensures |s| == TextLen(|vs|)
  {
  }

  lemma PlacedSpelled(s: string, vs: seq<Digit>, p: nat)
    requires Placed(s, vs) && p < |s|
    ensures if p % 5 == 4 then s[p] == '-' else DigitOf(s[p]).Some?
  {
    hide CharOf, DigitOf, TextLen;
    assert PlacedAt(s, vs, p);
    if p % 5 != 4 {
      DigitOfChar(vs[p - p / 5]);
    }
  }

  lemma CheckSpelled(text: string)
    ensures DigitOf(CheckChar(text)).Some?
  {
    hide CharOf, DigitOf, Accumulated;
    DigitOfChar(Inverted(Accumulated(Values(text), 1)));
  }

  lemma EncodedSpelled(src: Octets, j: nat)
    requires j >= 3 && |src| >= (20 * j + 2) / 8
    ensures |Encoded(src, 20 * j - 5)| == 5 * j - 1 && WellSpelled(Encoded(src, 20 * j - 5))
  {
    hide Dashed, CheckChar, DigitOf, Digits, TextLen, Placed;
    var vs := Digits(src, 20 * j - 5);
    var text := Dashed(vs);
    var pw := text + [CheckChar(text)];
    GroupsOfFour(j);
    DashedShape(vs);
    PlacedLen(text, vs);
    CheckSpelled(text);
    forall p | 0 <= p < |pw|
      ensures if p % 5 == 4 then pw[p] == '-' else DigitOf(pw[p]).Some?
    {
      if p < |text| {
        PlacedSpelled(text, vs, p);
      }
    }
  }

  lemma PlacedMark(s: string, vs: seq<Digit>, g: nat)
    requires Placed(s, vs) && 5 * g < |s| && 4 * g < |vs|
    ensures DigitOf(s[5 * g]).Some? && (Marks(s[5 * g]) <==> vs[4 * g] >= 16)
  {
    hide CharOf, DigitOf, TextLen;
    var p := 5 * g;
    assert PlacedAt(s, vs, p) && p % 5 == 0 && p - p / 5 == 4 * g;
    DigitOfChar(vs[4 * g]);
  }

  /** Padding leaves the bits that count. */
  lemma SameBits(src: Octets, lenBits: nat)
    requires |src| >= (lenBits + 7) / 8
    ensures |BitsOf(Blocks(src, lenBits))| >= lenBits && BitsOf(Blocks(src, lenBits))[..lenBits] == BitsOf(src)[..lenBits]
  {
    hide BitsOf;
    var len := (lenBits + 7) / 8;
    var octets := Blocks(src, lenBits);
    BitsSlice(octets, 0, len);
    BitsSlice(src, 0, len);
    assert octets[0..len] == src[0..len];
    assert BitsOf(octets)[0..8 * len][..lenBits] == BitsOf(octets)[..lenBits];
    assert BitsOf(src)[0..8 * len][..lenBits] == BitsOf(src)[..lenBits];
  }

  /** The first digit of a group has the group's first bit on top. */
  lemma GroupMark(src: Octets, j: nat, i: nat)
    requires j >= 3 && |src| >= (20 * j + 2) / 8 && i < j
    ensures |Digits(src, 20 * j - 5)| == 4 * j - 1
    ensures Digits(src, 20 * j - 5)[4 * i] >= 16 <==> BitsOf(src)[20 * i]
  {
    hide BitsOf, Num, Quints;
    var lenBits := 20 * j - 5;
    GroupsOfFour(j);
    var octets := Blocks(src, lenBits);
    var bits := BitsOf(octets);
    EnoughBits(lenBits, |octets|);
    QuintAt(bits, 4 * j - 1, 4 * i);
    HighBit(bits[20 * i..20 * i + 5]);
    SameBits(src, lenBits);
    assert bits[20 * i] == bits[..lenBits][20 * i] == BitsOf(src)[..lenBits][20 * i];
  }

  lemma EncodedMark(src: Octets, j: nat, g: nat)
    requires j >= 3 && |src| >= (20 * j + 2) / 8 && g < j
    ensures var pw := Encoded(src, 20 * j - 5);
            5 * g < |pw| && DigitOf(pw[5 * g]).Some? && Marks(pw[5 * g]) == BitsOf(src)[20 * g]
  {
    hide BitsOf, Dashed, CheckChar, DigitOf, Digits, TextLen, Placed, Marks;
    var vs := Digits(src, 20 * j - 5);
    GroupsOfFour(j);
    DashedShape(vs);
    PlacedLen(Dashed(vs), vs);
    GroupMark(src, j, g);
    PlacedMark(Dashed(vs), vs, g);
  }

  /** Every text written for j groups whose first bits agree is a valid password. */
  lemma EncodedValid(src: Octets, j: nat)
    requires j >= 3 && |src| >= (20 * j + 2) / 8
    requires forall i | 0 <= i < j :: BitsOf(src)[20 * i] == BitsOf(src)[0]
    ensures Valid(Encoded(src, 20 * j - 5))
  {
    hide BitsOf, CheckChar, DigitOf, Marks;
    var pw := Encoded(src, 20 * j - 5);
    EncodedSpelled(src, j);
    EncodedCheck(src, 20 * j - 5);
    forall p | 0 <= p < |pw| && p % 5 == 0
      ensures Marks(pw[p]) == BitsOf(src)[0]
    {
      EncodedMark(src, j, p / 5);
    }
  }
}
