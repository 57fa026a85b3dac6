/** Octet strings seen as bit strings, most significant bit first. */
module Bits {

  type Octets = seq<bv8>

  /** Bit t of an octet, counted from the most significant one. */
  function ByteBit(b: bv8, t: nat): bool
    requires t < 8
  {
    if t == 0 then b & 0x80 != 0
    else if t == 1 then b & 0x40 != 0
    else if t == 2 then b & 0x20 != 0
    else if t == 3 then b & 0x10 != 0
    else if t == 4 then b & 0x08 != 0
    else if t == 5 then b & 0x04 != 0
    else if t == 6 then b & 0x02 != 0
    else b & 0x01 != 0
  }

  function BitsOf(s: Octets): (r: seq<bool>)
    ensures |r| == 8 * |s|
  {
    seq(8 * |s|, i requires 0 <= i < 8 * |s| => ByteBit(s[i / 8], i % 8))
  }

  function Zeros(n: nat): (r: seq<bool>)
    ensures |r| == n
  {
    seq(n, _ => false)
  }

  lemma BitsAppend(a: Octets, b: Octets)
    ensures BitsOf(a + b) == BitsOf(a) + BitsOf(b)
  {
    hide ByteBit;
    forall i | 0 <= i < 8 * |a + b|
      ensures BitsOf(a + b)[i] == (BitsOf(a) + BitsOf(b))[i]
    {
      if i >= 8 * |a| {
        var k := i - 8 * |a|;
        assert i / 8 == |a| + k / 8 && i % 8 == k % 8;
      }
    }
  }

  lemma BitsSlice(s: Octets, lo: nat, hi: nat)
    requires lo <= hi <= |s|
    ensures BitsOf(s[lo..hi]) == BitsOf(s)[8 * lo..8 * hi]
  {
    hide ByteBit;
    forall i | 0 <= i < 8 * (hi - lo)
      ensures BitsOf(s[lo..hi])[i] == BitsOf(s)[8 * lo + i]
    {
      assert (8 * lo + i) / 8 == lo + i / 8 && (8 * lo + i) % 8 == i % 8;
    }
  }

  lemma ByteBitsInjective(a: bv8, b: bv8)
    requires forall t | 0 <= t < 8 :: ByteBit(a, t) == ByteBit(b, t)
    ensures a == b
  {
    assert ByteBit(a, 0) == ByteBit(b, 0) && ByteBit(a, 1) == ByteBit(b, 1);
    assert ByteBit(a, 2) == ByteBit(b, 2) && ByteBit(a, 3) == ByteBit(b, 3);
    assert ByteBit(a, 4) == ByteBit(b, 4) && ByteBit(a, 5) == ByteBit(b, 5);
    assert ByteBit(a, 6) == ByteBit(b, 6) && ByteBit(a, 7) == ByteBit(b, 7);
  }

  /** Two octet strings with the same bits are the same. */
  lemma BitsInjective(a: Octets, b: Octets)
    requires BitsOf(a) == BitsOf(b)
    ensures a == b
  {
    assert |BitsOf(a)| == |BitsOf(b)|;
    forall i | 0 <= i < |a|
      ensures a[i] == b[i]
    {
      forall t | 0 <= t < 8
        ensures ByteBit(a[i], t) == ByteBit(b[i], t)
      {
        assert (8 * i + t) / 8 == i && (8 * i + t) % 8 == t;
        assert BitsOf(a)[8 * i + t] == BitsOf(b)[8 * i + t];
      }
      ByteBitsInjective(a[i], b[i]);
    }
  }

  // Octets as numbers ------------------------------------------------------------------------------

  function OctetValue(b: bv8): (n: nat)
    ensures n <= 255
  {
    b as nat
  }

  function OctetOf(n: nat): bv8
    requires n <= 255
  {
    n as bv8
  }

  lemma OfValue(b: bv8)
    ensures OctetOf(OctetValue(b)) == b
  {
  }

  lemma NextValue(b: bv8)
    requires b != 255
    ensures OctetValue(b + 1) == OctetValue(b) + 1
  {
  }

  lemma LastValue()
    ensures OctetValue(0) == 0 && OctetValue(255) == 255
  {
  }

  lemma {:induction false} ValueOf(n: nat)
    requires n <= 255
    ensures OctetValue(OctetOf(n)) == n
  {
    hide OctetValue, OctetOf;
    LastValue();
    if n == 0 {
      OfValue(0);
    } else {
      ValueOf(n - 1);
      var b := OctetOf(n - 1);
      NextValue(b);
      OfValue(b + 1);
    }
  }

  lemma ByteOf(n: nat)
    requires n < 256
    ensures (n as bv8) as nat == n
  {
    ValueOf(n);
  }

  lemma NibbleRange(x: bv8)
    ensures (x & 0x0f) as nat < 16
  {
  }
}
