/** Bit strings as numbers. */
module Numbers {
  import opened Bits
  import opened Counters

  function Num(bs: seq<bool>): nat
  {
    if bs == [] then 0 else 2 * Num(bs[..|bs| - 1]) + (if bs[|bs| - 1] then 1 else 0)
  }

  lemma SmallPowers()
    ensures Power(2, 3) == 8 && Power(2, 5) == 32 && Power(2, 8) == 256
  {
    assert Power(2, 5) == 32;
  }

  lemma {:induction false} NumBound(bs: seq<bool>)
    ensures Num(bs) < Power(2, |bs|)
  {
    if bs != [] {
      NumBound(bs[..|bs| - 1]);
    }
  }

  lemma Doubled(x: nat, y: nat, u: nat, d: nat)
    ensures 2 * (x * y + u) + d == x * (2 * y) + (2 * u + d)
  {
    assert 2 * (x * y) == x * (2 * y);
  }

  function V(b: bool): nat { if b then 1 else 0 }

  lemma {:induction false} NumAppend(a: seq<bool>, b: seq<bool>)
    ensures Num(a + b) == Num(a) * Power(2, |b|) + Num(b)
  {
    if b == [] {
      assert a + b == a;
    } else {
      var init := b[..|b| - 1];
      NumAppend(a, init);
      assert (a + b)[..|a + b| - 1] == a + init;
      Doubled(Num(a), Power(2, |init|), Num(init), V(b[|b| - 1]));
    }
  }

  lemma {:induction false} NumInjective(a: seq<bool>, b: seq<bool>)
    requires |a| == |b| && Num(a) == Num(b)
    ensures a == b
  {
    if a != [] {
      NumInjective(a[..|a| - 1], b[..|b| - 1]);
      assert a == a[..|a| - 1] + [a[|a| - 1]] && b == b[..|b| - 1] + [b[|b| - 1]];
    }
  }

  /** The upper and lower part of a number's bits. */
  lemma NumSplit(bs: seq<bool>, n: nat)
    requires n <= |bs|
    ensures Num(bs[..n]) == Num(bs) / Power(2, |bs| - n) && Num(bs[n..]) == Num(bs) % Power(2, |bs| - n)
  {
    assert bs == bs[..n] + bs[n..];
    NumAppend(bs[..n], bs[n..]);
    NumBound(bs[n..]);
    ModUnique(Num(bs), Power(2, |bs| - n), Num(bs[..n]), Num(bs[n..]));
  }

  lemma OctetSum(x: bv8)
    ensures x as nat == 128 * V(ByteBit(x, 0)) + 64 * V(ByteBit(x, 1)) + 32 * V(ByteBit(x, 2)) + 16 * V(ByteBit(x, 3))
                        + 8 * V(ByteBit(x, 4)) + 4 * V(ByteBit(x, 5)) + 2 * V(ByteBit(x, 6)) + V(ByteBit(x, 7))
  {
  }

  lemma NumNone(bs: seq<bool>)
    ensures Num(bs[..0]) == 0
  {
  }

  lemma NumLast(bs: seq<bool>, n: nat)
    requires 0 < n <= |bs|
    ensures Num(bs[..n]) == 2 * Num(bs[..n - 1]) + V(bs[n - 1])
  {
    assert bs[..n][..n - 1] == bs[..n - 1];
  }

  lemma NumOfEight(bs: seq<bool>)
    requires |bs| == 8
    ensures Num(bs) == 128 * V(bs[0]) + 64 * V(bs[1]) + 32 * V(bs[2]) + 16 * V(bs[3])
                       + 8 * V(bs[4]) + 4 * V(bs[5]) + 2 * V(bs[6]) + V(bs[7])
  {
    hide Num, V;
    NumNone(bs);
    NumLast(bs, 8);
    NumLast(bs, 7);
    NumLast(bs, 6);
    NumLast(bs, 5);
    NumLast(bs, 4);
    NumLast(bs, 3);
    NumLast(bs, 2);
    NumLast(bs, 1);
    assert bs[..8] == bs;
  }

  /** An octet is the number of its bits. */
  lemma OctetNum(x: bv8)
    ensures Num(BitsOf([x])) == x as nat
  {
    hide ByteBit, Num, V;
    OctetSum(x);
    var bs := BitsOf([x]);
    NumOfEight(bs);
    assert forall t | 0 <= t < 8 :: bs[t] == ByteBit(x, t);
  }

  /** The octet with given bits. */
  lemma OctetOfBits(bs: seq<bool>)
    requires |bs| == 8
    ensures Num(bs) < 256 && BitsOf([Num(bs) as bv8]) == bs
  {
    hide ByteBit, BitsOf, Num;
    NumBound(bs);
    assert Power(2, 8) == 256;
    ByteOf(Num(bs));
    OctetNum(Num(bs) as bv8);
    NumInjective(BitsOf([Num(bs) as bv8]), bs);
  }

  /** The octets that have given bits. */
  function OctetsOf(bits: seq<bool>): (r: Octets)
    requires |bits| % 8 == 0
    ensures |r| == |bits| / 8
  {
    if bits == [] then []
    else
      OctetOfBits(bits[..8]);
      [Num(bits[..8]) as bv8] + OctetsOf(bits[8..])
  }

  lemma {:induction false} BitsOfOctets(bits: seq<bool>)
    requires |bits| % 8 == 0
    ensures BitsOf(OctetsOf(bits)) == bits
  {
    hide Num, BitsOf;
    if bits == [] {
      assert |BitsOf([])| == 0;
    } else {
      OctetOfBits(bits[..8]);
      BitsOfOctets(bits[8..]);
      BitsAppend([Num(bits[..8]) as bv8], OctetsOf(bits[8..]));
      assert bits == bits[..8] + bits[8..];
    }
  }
}
