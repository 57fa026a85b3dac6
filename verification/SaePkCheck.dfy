/** The check character of SAE-PK passwords: a product of permuted characters in the dihedral group of order 32. */
module SaePkCheck {
  import opened Frames
  import opened SaePkTable

  const TABLE: string := "abcdefghijklmnopqrstuvwxyz234567"

  function CharOf(v: Digit): char
  {
    TABLE[v]
  }

  /** The lookup table of characters: their place in the alphabet, or none. */
  function DigitOf(c: char): Option<Digit>
  {
    if 'a' <= c <= 'z' then Some(c as int - 'a' as int)
    else if '2' <= c <= '7' then Some(26 + (c as int - '2' as int))
    else None
  }

  lemma DigitOfChar(v: Digit)
    ensures DigitOf(CharOf(v)) == Some(v)
  {
    if v < 8 {
    } else if v < 16 {
    } else if v < 24 {
    } else {
    }
  }

  lemma CharOfDigit(c: char)
    requires DigitOf(c).Some?
    ensures CharOf(DigitOf(c).value) == c
  {
    var v := DigitOf(c).value;
    if v < 8 {
    } else if v < 16 {
    } else if v < 24 {
    } else {
    }
  }

  function Single(c: char): (r: seq<Digit>)
    ensures |r| <= 1
  {
    if DigitOf(c).Some? then [DigitOf(c).value] else []
  }

  /** The values of the alphabet's characters in a text, in order; all others are skipped. */
  function Values(s: string): (r: seq<Digit>)
    ensures |r| <= |s|
  {
    if s == [] then [] else Single(s[0]) + Values(s[1..])
  }

  lemma {:induction false} ValuesAppend(s: string, t: string)
    ensures Values(s + t) == Values(s) + Values(t)
  {
    hide Single;
    if s == [] {
      assert s + t == t;
    } else {
      ValuesAppend(s[1..], t);
      assert (s + t)[1..] == s[1..] + t;
      assert Single(s[0]) + (Values(s[1..]) + Values(t)) == Single(s[0]) + Values(s[1..]) + Values(t);
    }
  }

  // The check value --------------------------------------------------------------------------------

  /** d_perm_table. */
  function Perm(v: Digit): Digit
  {
    match v
    case 0 => 7 case 1 => 2 case 2 => 1 case 3 => 30 case 4 => 16 case 5 => 20 case 6 => 27 case 7 => 11
    case 8 => 31 case 9 => 6 case 10 => 8 case 11 => 13 case 12 => 29 case 13 => 5 case 14 => 10 case 15 => 21
    case 16 => 22 case 17 => 3 case 18 => 24 case 19 => 0 case 20 => 23 case 21 => 25 case 22 => 12 case 23 => 9
    case 24 => 28 case 25 => 14 case 26 => 4 case 27 => 15 case 28 => 17 case 29 => 18 case 30 => 19 case _ => 26
  }

  function PermInverse(v: Digit): Digit
  {
    match v
    case 0 => 19 case 1 => 2 case 2 => 1 case 3 => 17 case 4 => 26 case 5 => 13 case 6 => 9 case 7 => 0
    case 8 => 10 case 9 => 23 case 10 => 14 case 11 => 7 case 12 => 22 case 13 => 11 case 14 => 25 case 15 => 27
    case 16 => 4 case 17 => 28 case 18 => 29 case 19 => 30 case 20 => 5 case 21 => 15 case 22 => 16 case 23 => 20
    case 24 => 18 case 25 => 21 case 26 => 31 case 27 => 6 case 28 => 24 case 29 => 12 case 30 => 3 case _ => 8
  }

  function Permuted(v: Digit, n: nat): Digit
    decreases n
  {
    if n == 0 then v else Permuted(Perm(v), n - 1)
  }

  /** A number of steps around sixteen. */
  function Turned(a: int): (t: nat)
    requires -16 < a < 32
    ensures t < 16
  {
    if a < 0 then a + 16 else if a < 16 then a else a - 16
  }

  /** The product in the dihedral group of order 32: 0..15 are rotations, 16..31 are reflections. */
  function Product(x: Digit, y: Digit): Digit
  {
    if x < 16 && y < 16 then Turned(x + y)
    else if x < 16 then 16 + Turned(y - 16 + x)
    else if y < 16 then 16 + Turned(x - 16 - y)
    else Turned(x - y)
  }

  function Inverted(v: Digit): Digit
  {
    if 0 < v < 16 then 16 - v else v
  }

  /** The product over digits, taken from their end; the last is permuted m times, each one before it once more. */
  function Accumulated(vs: seq<Digit>, m: nat): Digit
  {
    if vs == [] then 0 else Product(Accumulated(vs[1..], m), Permuted(vs[0], |vs| - 1 + m))
  }

  function CheckChar(s: string): char
  {
    CharOf(Inverted(Accumulated(Values(s), 1)))
  }

  lemma FirstProducts(x: Digit, y: Digit)
    requires x < 8
    ensures FirstRows(x, y) == Product(x, y)
  {
  }

  lemma SecondProducts(x: Digit, y: Digit)
    requires 8 <= x < 16
    ensures SecondRows(x, y) == Product(x, y)
  {
  }

  lemma ThirdProducts(x: Digit, y: Digit)
    requires 16 <= x < 24
    ensures ThirdRows(x, y) == Product(x, y)
  {
  }

  lemma LastProducts(x: Digit, y: Digit)
    requires 24 <= x
    ensures LastRows(x, y) == Product(x, y)
  {
  }

  /** Every entry of the table is the product of the dihedral group. */
  lemma TableIsProduct(x: Digit, y: Digit)
    ensures MultTable(x, y) == Product(x, y)
  {
    hide FirstRows, SecondRows, ThirdRows, LastRows, Product;
    if x < 8 {
      FirstProducts(x, y);
    } else if x < 16 {
      SecondProducts(x, y);
    } else if x < 24 {
      ThirdProducts(x, y);
    } else {
      LastProducts(x, y);
    }
  }

  /** d_check_char. */
  method DCheckChar(str: string) returns (c: char)
    ensures c == CheckChar(str)
  {
    hide Product, MultTable, Permuted, DigitOf;
    var val: Digit, iter: nat, j := 0, 1, |str|;
    assert str[j..] == [];
    while j > 0
      invariant 0 <= j <= |str| && val == Accumulated(Values(str[j..]), 1) && iter == |Values(str[j..])| + 1
    {
      j := j - 1;
      var v := DigitOf(str[j]);
      assert str[j..][1..] == str[j + 1..];
      assert Values(str[j..]) == Single(str[j]) + Values(str[j + 1..]);
      if v.Some? {
        assert Values(str[j..])[0] == v.value && Values(str[j..])[1..] == Values(str[j + 1..]);
        TableIsProduct(val, Permuted(v.value, iter));
        val := MultTable(val, Permuted(v.value, iter));
        iter := iter + 1;
      } else {
        assert Values(str[j..]) == Values(str[j + 1..]);
      }
    }
    assert str[0..] == str;
    c := CharOf(Inverted(val));
  }

  // What it detects --------------------------------------------------------------------------------

  lemma PermInverts(v: Digit)
    ensures PermInverse(Perm(v)) == v
  {
    if v < 8 {
    } else if v < 16 {
    } else if v < 24 {
    } else {
    }
  }

  lemma {:induction false} PermutedInjective(v: Digit, w: Digit, n: nat)
    requires Permuted(v, n) == Permuted(w, n)
    ensures v == w
    decreases n
  {
    if n > 0 {
      PermutedInjective(Perm(v), Perm(w), n - 1);
      PermInverts(v);
      PermInverts(w);
    }
  }

  lemma Cancels(x: Digit, y: Digit, p: Digit)
    ensures Product(x, p) == Product(y, p) ==> x == y
    ensures Product(p, x) == Product(p, y) ==> x == y
  {
  }

  /** Every change of a single digit changes the product. */
  lemma {:induction false} SingleErrorDetected(vs: seq<Digit>, i: nat, w: Digit, m: nat)
    requires i < |vs| && w != vs[i]
    ensures Accumulated(vs[i := w], m) != Accumulated(vs, m)
    decreases vs
  {
    hide Product, Permuted;
    var us, n := vs[i := w], |vs| - 1 + m;
    if i == 0 {
      assert us[1..] == vs[1..];
      if Permuted(w, n) == Permuted(vs[0], n) {
        PermutedInjective(w, vs[0], n);
      }
      Cancels(Permuted(w, n), Permuted(vs[0], n), Accumulated(vs[1..], m));
    } else {
      SingleErrorDetected(vs[1..], i - 1, w, m);
      assert us[1..] == vs[1..][i - 1 := w];
      Cancels(Accumulated(us[1..], m), Accumulated(vs[1..], m), Permuted(vs[0], n));
    }
  }

  lemma AfterRotation(x: Digit, y: Digit, z: Digit)
    requires x < 16
    ensures Product(Product(x, y), z) == Product(x, Product(y, z))
  {
  }

  lemma AfterReflection(x: Digit, y: Digit, z: Digit)
    requires x >= 16
    ensures Product(Product(x, y), z) == Product(x, Product(y, z))
  {
  }

  lemma Associative(x: Digit, y: Digit, z: Digit)
    ensures Product(Product(x, y), z) == Product(x, Product(y, z))
  {
    hide Product;
    if x < 16 {
      AfterRotation(x, y, z);
    } else {
      AfterReflection(x, y, z);
    }
  }

  lemma {:induction false} PermutedOnceMore(v: Digit, n: nat)
    ensures Permuted(v, n + 1) == Perm(Permuted(v, n))
    decreases n
  {
    if n > 0 {
      PermutedOnceMore(Perm(v), n - 1);
    }
  }

  /** A reflection. */
  predicate Flips(x: Digit)
  {
    x >= 16
  }

  function Steps(x: Digit): (r: nat)
    ensures r < 16
  {
    if Flips(x) then x - 16 else x
  }

  /** The steps between two digits, and the steps of both together, in the first one's sense of turning. */
  function Apart(x: Digit, p: Digit): (r: nat)
    ensures r < 16
  {
    Turned(if Flips(x) then Steps(x) + Steps(p) else Steps(x) - Steps(p))
  }

  function Joint(x: Digit, p: Digit): (r: nat)
    ensures r < 16
  {
    Turned(if Flips(x) then Steps(x) - Steps(p) else Steps(x) + Steps(p))
  }

  lemma SameKind(a: Digit, p: Digit, b: Digit, q: Digit)
    requires Product(a, q) == Product(b, p) && Flips(a) == Flips(b)
    ensures Flips(p) == Flips(q) && Apart(a, p) == Apart(b, q)
  {
  }

  lemma OtherKind(a: Digit, p: Digit, b: Digit, q: Digit)
    requires Product(a, q) == Product(b, p) && Flips(a) != Flips(b)
    ensures Flips(p) != Flips(q) && Joint(a, p) == Joint(b, q)
  {
  }

  /** The digit by its steps apart from its permuted digit, for each kind of the two. */
  function ByApart(flips: bool, flipsNext: bool, k: nat): Digit
  {
    if !flips && !flipsNext then match k case 1 => 2 case 2 => 10 case 3 => 9 case 4 => 14 case 8 => 13 case 12 => 7 case 14 => 11 case 15 => 1 case _ => 0
    else if !flips then match k case 1 => 5 case 4 => 4 case 5 => 3 case 9 => 8 case 10 => 15 case 11 => 6 case 15 => 12 case _ => 0
    else if !flipsNext then match k case 0 => 23 case 2 => 22 case 3 => 19 case 4 => 17 case 7 => 25 case 10 => 27 case 14 => 26 case _ => 0
    else match k case 1 => 30 case 4 => 24 case 6 => 16 case 9 => 31 case 10 => 18 case 11 => 20 case 13 => 28 case 14 => 21 case 15 => 29 case _ => 0
  }

  lemma RotationTold(x: Digit)
    requires x < 16
    ensures ByApart(Flips(x), Flips(Perm(x)), Apart(x, Perm(x))) == x
  {
  }

  lemma ApartTells(x: Digit)
    ensures ByApart(Flips(x), Flips(Perm(x)), Apart(x, Perm(x))) == x
  {
    if x < 16 {
      RotationTold(x);
    }
  }

  /** Among digits whose permuted digit is of the same kind, and among the others, Joint tells rotations from reflections. */
  lemma JointTells(x: Digit)
    ensures var j := Joint(x, Perm(x));
            Flips(x) <==> if Flips(x) == Flips(Perm(x)) then j in {5, 10, 11, 12, 13} else j in {3, 6, 10, 11, 12, 14}
  {
    if x < 8 {
    } else if x < 16 {
    } else if x < 24 {
    } else {
    }
  }

  /** Two digits swapped, one of them permuted, have different products. */
  lemma Antisymmetric(a: Digit, b: Digit)
    requires a != b
    ensures Product(a, Perm(b)) != Product(b, Perm(a))
  {
    hide Apart, Joint, Product, Perm, ByApart;
    if Product(a, Perm(b)) == Product(b, Perm(a)) {
      if Flips(a) == Flips(b) {
        SameKind(a, Perm(a), b, Perm(b));
        ApartTells(a);
        ApartTells(b);
      } else {
        OtherKind(a, Perm(a), b, Perm(b));
        JointTells(a);
        JointTells(b);
      }
    }
  }

  function Swapped<T>(s: seq<T>, i: nat, j: nat): (r: seq<T>)
    requires i < j < |s|
    ensures |r| == |s|
  {
    s[i := s[j]][j := s[i]]
  }

  lemma NeighboursDiffer(x: Digit, v: Digit, w: Digit, n: nat)
    requires v != w
    ensures Product(Product(x, Permuted(w, n)), Permuted(v, n + 1)) != Product(Product(x, Permuted(v, n)), Permuted(w, n + 1))
  {
    hide Product, Permuted;
    var a, b := Permuted(w, n), Permuted(v, n);
    PermutedOnceMore(v, n);
    PermutedOnceMore(w, n);
    if a == b {
      PermutedInjective(v, w, n);
    }
    Antisymmetric(a, b);
    Associative(x, a, Perm(b));
    Associative(x, b, Perm(a));
    Cancels(Product(a, Perm(b)), Product(b, Perm(a)), x);
  }

  /** Two neighbours swapped change the product. */
  lemma {:induction false} SwapDetected(vs: seq<Digit>, i: nat, m: nat)
    requires i + 1 < |vs| && vs[i] != vs[i + 1]
    ensures Accumulated(Swapped(vs, i, i + 1), m) != Accumulated(vs, m)
    decreases vs
  {
    hide Product, Permuted;
    var us, n := Swapped(vs, i, i + 1), |vs| - 1 + m;
    if i == 0 {
      assert us[1..][1..] == vs[1..][1..];
      NeighboursDiffer(Accumulated(vs[1..][1..], m), vs[0], vs[1], n - 1);
    } else {
      SwapDetected(vs[1..], i - 1, m);
      assert us[1..] == Swapped(vs[1..], i - 1, i);
      Cancels(Accumulated(us[1..], m), Accumulated(vs[1..], m), Permuted(vs[0], n));
    }
  }

  // The check digit closes the product ---------------------------------------------------------------

  lemma InverseExactly(k: Digit, x: Digit)
    ensures Product(k, x) == 0 <==> k == Inverted(x)
    ensures Product(0, k) == k == Product(k, 0)
  {
  }

  lemma {:induction false} AccumulatedSnoc(vs: seq<Digit>, k: Digit, m: nat)
    ensures Accumulated(vs + [k], m) == Product(Permuted(k, m), Accumulated(vs, m + 1))
    decreases vs
  {
    hide Product, Permuted;
    if vs == [] {
      assert vs + [k] == [k] && [k][1..] == [];
      InverseExactly(Permuted(k, m), 0);
    } else {
      AccumulatedSnoc(vs[1..], k, m);
      assert (vs + [k])[1..] == vs[1..] + [k];
      Associative(Permuted(k, m), Accumulated(vs[1..], m + 1), Permuted(vs[0], |vs| + m));
    }
  }

  /** A digit is the check digit exactly when the product over all digits, itself included, is the neutral element. */
  lemma CheckDigitCloses(vs: seq<Digit>, k: Digit)
    ensures k == Inverted(Accumulated(vs, 1)) <==> Accumulated(vs + [k], 0) == 0
  {
    AccumulatedSnoc(vs, k, 0);
    InverseExactly(k, Accumulated(vs, 1));
  }
}
