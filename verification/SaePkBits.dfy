/** The 19-bit and 20-bit re-blocking shared by the SAE-PK generator and verifier. */
module SaePkBits {
  import opened Bits

  /** The first 19 bits of a buffer as a number (sae_pk_get_be19). */
  function GetBe19(b0: bv8, b1: bv8, b2: bv8): bv32
  {
    (b0 as bv32 << 11) | (b1 as bv32 << 3) | (b2 >> 5) as bv32
  }

  /** An octet cut from two neighbours, three bits further right (and one bit for Join1). */
  function Join3(a: bv8, b: bv8): bv8 { (a << 3) | (b >> 5) }

  function Join1(a: bv8, b: bv8): bv8 { (a << 1) | (b >> 7) }

  function ShiftedLeft19(s: Octets): (r: Octets)
    ensures |r| == |s|
  {
    seq(|s|, i requires 0 <= i < |s| =>
      if i + 3 < |s| then Join3(s[i + 2], s[i + 3])
      else if i + 2 < |s| then Join3(s[i + 2], 0)
      else 0)
  }

  function ShiftedLeft1(s: Octets): (r: Octets)
    ensures |r| == |s|
  {
    seq(|s|, i requires 0 <= i < |s| =>
      if i + 1 < |s| then Join1(s[i], s[i + 1]) else Join1(s[i], 0))
  }

  lemma Shift3Bit(a: bv8, b: bv8, t: nat)
    requires t < 8
    ensures ByteBit(Join3(a, b), t) == if t < 5 then ByteBit(a, t + 3) else ByteBit(b, t - 5)
  {
  }

  lemma Shift1Bit(a: bv8, b: bv8, t: nat)
    requires t < 8
    ensures ByteBit(Join1(a, b), t) == if t < 7 then ByteBit(a, t + 1) else ByteBit(b, 0)
  {
  }

  lemma NoBit(t: nat)
    requires t < 8
    ensures !ByteBit(0, t)
  {
  }

  lemma BitAt(s: Octets, q: nat, t: nat)
    requires q < |s| && t < 8
    ensures BitsOf(s)[8 * q + t] == ByteBit(s[q], t)
  {
    hide ByteBit;
    assert (8 * q + t) / 8 == q && (8 * q + t) % 8 == t;
  }

  /** Bit t of octet q after a shift. */
  lemma Shifted19At(s: Octets, q: nat, t: nat)
    requires |s| >= 3 && q < |s| && t < 8
    ensures var i := 8 * q + t; BitsOf(ShiftedLeft19(s))[i] == (i + 19 < 8 * |s| && BitsOf(s)[i + 19])
  {
    hide ByteBit, Join3, BitsOf;
    BitAt(ShiftedLeft19(s), q, t);
    NoBit(t);
    if q + 2 < |s| {
      Shift3Bit(s[q + 2], if q + 3 < |s| then s[q + 3] else 0, t);
      if t < 5 {
        BitAt(s, q + 2, t + 3);
      } else {
        NoBit(t - 5);
        if q + 3 < |s| {
          BitAt(s, q + 3, t - 5);
        }
      }
    }
  }

  lemma Shifted1At(s: Octets, q: nat, t: nat)
    requires q < |s| && t < 8
    ensures var i := 8 * q + t; BitsOf(ShiftedLeft1(s))[i] == (i + 1 < 8 * |s| && BitsOf(s)[i + 1])
  {
    hide ByteBit, Join1, BitsOf;
    BitAt(ShiftedLeft1(s), q, t);
    Shift1Bit(s[q], if q + 1 < |s| then s[q + 1] else 0, t);
    if t < 7 {
      BitAt(s, q, t + 1);
    } else {
      NoBit(0);
      if q + 1 < |s| {
        BitAt(s, q + 1, 0);
      }
    }
  }

  /** Shifting left by 19 drops the first 19 bits and fills with zeros from the right. */
  lemma ShiftLeft19Bits(s: Octets)
    requires |s| >= 3
    ensures BitsOf(ShiftedLeft19(s)) == BitsOf(s)[19..] + Zeros(19)
  {
    hide BitsOf, ShiftedLeft19;
    var l, r := BitsOf(ShiftedLeft19(s)), BitsOf(s)[19..] + Zeros(19);
    forall i | 0 <= i < 8 * |s|
      ensures l[i] == r[i]
    {
      Shifted19At(s, i / 8, i % 8);
    }
  }

  lemma ShiftLeft1Bits(s: Octets)
    requires |s| >= 1
    ensures BitsOf(ShiftedLeft1(s)) == BitsOf(s)[1..] + Zeros(1)
  {
    hide BitsOf, ShiftedLeft1;
    var l, r := BitsOf(ShiftedLeft1(s)), BitsOf(s)[1..] + Zeros(1);
    forall i | 0 <= i < 8 * |s|
      ensures l[i] == r[i]
    {
      Shifted1At(s, i / 8, i % 8);
    }
  }

  lemma Shifted19Octet(s: Octets, i: nat)
    requires i < |s|
    ensures ShiftedLeft19(s)[i] == if i + 3 < |s| then Join3(s[i + 2], s[i + 3]) else if i + 2 < |s| then Join3(s[i + 2], 0) else 0
  {
    hide Join3;
  }

  method ShiftOctets(buf: array<bv8>, off: nat, len: nat, ghost was: Octets)
    requires len >= 3 && off + len <= buf.Length && was == buf[off..off + len]
    modifies buf
    ensures forall k | 0 <= k < buf.Length && !(off <= k < off + len) :: buf[k] == old(buf[k])
    ensures forall k | off <= k < off + len :: buf[k] == ShiftedLeft19(was)[k - off]
  {
    hide Join3, ShiftedLeft19;
    var dst, src := off, off + 2;
    while src + 1 < off + len
      invariant off <= dst && src == dst + 2 && src < off + len
      invariant forall k | 0 <= k < buf.Length && !(off <= k < dst) :: buf[k] == old(buf[k])
      invariant forall k | off <= k < dst :: buf[k] == ShiftedLeft19(was)[k - off]
    {
      Shifted19Octet(was, dst - off);
      assert was[dst - off + 2] == buf[src] && was[dst - off + 3] == buf[src + 1];
      buf[dst] := Join3(buf[src], buf[src + 1]);
      dst, src := dst + 1, src + 1;
    }
    assert dst == off + len - 3 && was[len - 1] == buf[src];
    Shifted19Octet(was, len - 3);
    Shifted19Octet(was, len - 2);
    Shifted19Octet(was, len - 1);
    buf[dst] := Join3(buf[src], 0);
    buf[dst + 1] := 0;
    buf[dst + 2] := 0;
  }

  /** sae_pk_buf_shift_left_19 on buf[off..off+len]. */
  method ShiftLeft19(buf: array<bv8>, off: nat, len: nat)
    requires len >= 3 && off + len <= buf.Length
    modifies buf
    ensures buf[..] == old(buf[..off]) + ShiftedLeft19(old(buf[off..off + len])) + old(buf[off + len..])
  {
    hide Join3, ShiftedLeft19;
    ghost var was, all := buf[off..off + len], buf[..];
    ShiftOctets(buf, off, len, was);
    assert buf[off..off + len] == ShiftedLeft19(was);
    assert buf[..off] == all[..off] && buf[off + len..] == all[off + len..];
    assert buf[..] == buf[..off] + buf[off..off + len] + buf[off + len..];
  }

  /** sae_pk_buf_shift_left_1 on a whole buffer. */
  method ShiftLeft1(buf: array<bv8>)
    requires buf.Length >= 1
    modifies buf
    ensures buf[..] == ShiftedLeft1(old(buf[..]))
  {
    ghost var was := buf[..];
    var dst := 0;
    while dst + 1 < buf.Length
      invariant 0 <= dst < buf.Length
      invariant forall k | dst <= k < buf.Length :: buf[k] == was[k]
      invariant forall k | 0 <= k < dst :: buf[k] == ShiftedLeft1(was)[k]
    {
      buf[dst] := Join1(buf[dst], buf[dst + 1]);
      dst := dst + 1;
    }
    buf[dst] := Join1(buf[dst], 0);
  }

  /** val20 in the generator: 19 bits with the Sec_1b mark above them. */
  function Marked19(b0: bv8, b1: bv8, b2: bv8, mark: bool): bv32
  {
    GetBe19(b0, b1, b2) | (if mark then 0x80000 else 0)
  }

  /** The octets an even group writes: two whole ones and the top half of a third. */
  function EvenHigh(v: bv32): bv8 { ((v >> 12) & 0xff) as bv8 }

  function EvenMid(v: bv32): bv8 { ((v >> 4) & 0xff) as bv8 }

  function EvenLow(v: bv32): bv8 { ((v << 4) & 0xf0) as bv8 }

  /** The octets an odd group writes: the bottom half of one and two whole ones. */
  function OddHigh(v: bv32): bv8 { ((v >> 16) & 0x0f) as bv8 }

  function OddMid(v: bv32): bv8 { ((v >> 8) & 0xff) as bv8 }

  function OddLow(v: bv32): bv8 { (v & 0xff) as bv8 }

  /** Octet w with an odd group's first four bits in its free half. */
  function Filled(w: bv8, v: bv32): bv8 { w | OddHigh(v) }

  lemma EvenOctets(b0: bv8, b1: bv8, b2: bv8, mark: bool)
    ensures EvenHigh(Marked19(b0, b1, b2, mark)) == (if mark then 0x80 else 0) | (b0 >> 1)
    ensures EvenMid(Marked19(b0, b1, b2, mark)) == (b0 << 7) | (b1 >> 1)
    ensures EvenLow(Marked19(b0, b1, b2, mark)) == ((b1 << 7) | (b2 >> 1)) & 0xf0
  {
  }

  lemma OddOctets(b0: bv8, b1: bv8, b2: bv8, mark: bool)
    ensures OddHigh(Marked19(b0, b1, b2, mark)) == (if mark then 0x08 else 0) | (b0 >> 5)
    ensures OddMid(Marked19(b0, b1, b2, mark)) == Join3(b0, b1)
    ensures OddLow(Marked19(b0, b1, b2, mark)) == Join3(b1, b2)
  {
  }

  lemma EvenBit(b0: bv8, b1: bv8, b2: bv8, mark: bool, t: nat)
    requires t < 8
    ensures ByteBit((if mark then 0x80 else 0) | (b0 >> 1), t) == if t == 0 then mark else ByteBit(b0, t - 1)
    ensures ByteBit((b0 << 7) | (b1 >> 1), t) == if t == 0 then ByteBit(b0, 7) else ByteBit(b1, t - 1)
    ensures ByteBit(((b1 << 7) | (b2 >> 1)) & 0xf0, t)
         == (t < 4 && if t == 0 then ByteBit(b1, 7) else ByteBit(b2, t - 1))
  {
  }

  lemma OddBit(w: bv8, b0: bv8, mark: bool, t: nat)
    requires t < 8 && w & 0x0f == 0
    ensures ByteBit(w | ((if mark then 0x08 else 0) | (b0 >> 5)), t)
         == if t < 4 then ByteBit(w, t) else if t == 4 then mark else ByteBit(b0, t - 5)
  {
  }

  lemma EvenGroupBit(b0: bv8, b1: bv8, b2: bv8, mark: bool, i: nat)
    requires i < 24
    ensures var v := Marked19(b0, b1, b2, mark);
            var written := if i < 8 then EvenHigh(v) else if i < 16 then EvenMid(v) else EvenLow(v);
            var read := if i < 9 then b0 else if i < 17 then b1 else b2;
            ByteBit(written, i % 8) == if i == 0 then mark else i < 20 && ByteBit(read, (i - 1) % 8)
  {
    hide ByteBit, Marked19, EvenHigh, EvenMid, EvenLow;
    EvenOctets(b0, b1, b2, mark);
    EvenBit(b0, b1, b2, mark, i % 8);
  }

  lemma FilledBit(w: bv8, b0: bv8, b1: bv8, b2: bv8, mark: bool, t: nat)
    requires t < 8 && w & 0x0f == 0
    ensures ByteBit(Filled(w, Marked19(b0, b1, b2, mark)), t)
         == if t < 4 then ByteBit(w, t) else if t == 4 then mark else ByteBit(b0, t - 5)
  {
    hide ByteBit, Marked19, OddHigh;
    OddOctets(b0, b1, b2, mark);
    OddBit(w, b0, mark, t);
  }

  lemma OddGroupBit(w: bv8, b0: bv8, b1: bv8, b2: bv8, mark: bool, i: nat)
    requires i < 24 && w & 0x0f == 0
    ensures var v := Marked19(b0, b1, b2, mark);
            var written := if i < 8 then Filled(w, v) else if i < 16 then OddMid(v) else OddLow(v);
            var read := if i < 13 then b0 else if i < 21 then b1 else b2;
            ByteBit(written, i % 8) == if i < 4 then ByteBit(w, i) else if i == 4 then mark else ByteBit(read, (i - 5) % 8)
  {
    hide ByteBit, Marked19, Filled, OddHigh, OddMid, OddLow, Join3;
    OddOctets(b0, b1, b2, mark);
    FilledBit(w, b0, b1, b2, mark, i % 8);
    Shift3Bit(b0, b1, i % 8);
    Shift3Bit(b1, b2, i % 8);
  }

  lemma ThreeOctets(x: bv8, y: bv8, z: bv8, i: nat)
    requires i < 24
    ensures BitsOf([x, y, z])[i] == ByteBit(if i < 8 then x else if i < 16 then y else z, i % 8)
  {
    hide ByteBit;
  }

  /** An even group writes the mark and the buffer's first 19 bits, and leaves half an octet clear. */
  lemma EvenGroup(s: Octets, mark: bool)
    requires |s| >= 3
    ensures var v := Marked19(s[0], s[1], s[2], mark);
            BitsOf([EvenHigh(v), EvenMid(v), EvenLow(v)]) == [mark] + BitsOf(s)[..19] + Zeros(4)
  {
    hide ByteBit, Marked19, EvenHigh, EvenMid, EvenLow;
    var v := Marked19(s[0], s[1], s[2], mark);
    var l, r := BitsOf([EvenHigh(v), EvenMid(v), EvenLow(v)]), [mark] + BitsOf(s)[..19] + Zeros(4);
    forall i | 0 <= i < 24
      ensures l[i] == r[i]
    {
      EvenGroupBit(s[0], s[1], s[2], mark, i);
      ThreeOctets(EvenHigh(v), EvenMid(v), EvenLow(v), i);
    }
  }

  /** An odd group fills the free half of octet w and two more octets with the mark and 19 bits. */
  lemma OddGroup(s: Octets, mark: bool, w: bv8)
    requires |s| >= 3 && w & 0x0f == 0
    ensures var v := Marked19(s[0], s[1], s[2], mark);
            BitsOf([Filled(w, v), OddMid(v), OddLow(v)]) == BitsOf([w])[..4] + ([mark] + BitsOf(s)[..19])
  {
    hide ByteBit, Marked19, Filled, OddMid, OddLow;
    var v := Marked19(s[0], s[1], s[2], mark);
    var l, r := BitsOf([Filled(w, v), OddMid(v), OddLow(v)]), BitsOf([w])[..4] + ([mark] + BitsOf(s)[..19]);
    forall i | 0 <= i < 24
      ensures l[i] == r[i]
    {
      OddGroupBit(w, s[0], s[1], s[2], mark, i);
      ThreeOctets(Filled(w, v), OddMid(v), OddLow(v), i);
    }
  }

  /** Groups of 19 bits, each preceded by the same mark bit. */
  function Stretch(bits: seq<bool>, mark: bool, n: nat): (r: seq<bool>)
    requires |bits| >= 19 * n
    ensures |r| == 20 * n
  {
    seq(20 * n, i requires 0 <= i < 20 * n => if i % 20 == 0 then mark else bits[19 * (i / 20) + i % 20 - 1])
  }

  lemma StretchStep(bits: seq<bool>, mark: bool, n: nat)
    requires |bits| >= 19 * (n + 1)
    ensures Stretch(bits, mark, n + 1) == Stretch(bits, mark, n) + [mark] + bits[19 * n..19 * n + 19]
  {
    var l, a := Stretch(bits, mark, n + 1), Stretch(bits, mark, n);
    var group := bits[19 * n..19 * n + 19];
    assert l[..20 * n] == a;
    forall i | 0 <= i < 19
      ensures l[20 * n + 1 + i] == group[i]
    {
      assert (20 * n + 1 + i) / 20 == n && (20 * n + 1 + i) % 20 == 1 + i;
    }
    assert l[20 * n] == mark;
    assert l[20 * n + 1..] == group;
    assert l == l[..20 * n] + [l[20 * n]] + l[20 * n + 1..];
  }
}
