/** The SAE-PK password generator: PasswordBase from the hash of SSID, modifier and public key. */
module SaePkGen {
  import opened Bits
  import opened SaePkBits

  const MAX_HASH_LEN: nat := 64  // SAE_MAX_HASH_LEN

  predicate SupportedHash(hashLen: nat, sec: nat)
  {
    (hashLen == 32 || hashLen == 48 || hashLen == 64) && (sec == 3 || sec == 5)
  }

  /** The bits the packing loop reads: the hash after its Sec leading octets, then zeros. */
  function Source(hash: Octets, sec: nat, n: nat): (r: seq<bool>)
    requires sec <= |hash|
    ensures |r| == 8 * (|hash| - sec) + 19 * n
  {
    BitsOf(hash[sec..]) + Zeros(19 * n)
  }

  lemma SourceAdvances(src: seq<bool>, window: seq<bool>, total: nat, j: nat, width: nat)
    requires |src| >= width && src[width..] == Zeros(|src| - width)
    requires 19 * (j + 1) + width <= |src| && width >= 19
    requires window == src[19 * j..19 * j + width]
    ensures window[19..] + Zeros(19) == src[19 * (j + 1)..19 * (j + 1) + width]
  {
    forall i | 0 <= i < width
      ensures (window[19..] + Zeros(19))[i] == src[19 * (j + 1) + i]
    {
      if i >= width - 19 {
        assert src[width..][19 * (j + 1) + i - width] == false;
      }
    }
  }

  /** What has been written after j groups: whole octets, and half an octet more when j is odd. */
  ghost predicate Written(base: Octets, d: nat, j: nat, bits: seq<bool>)
  {
    && |base| == MAX_HASH_LEN
    && d == 5 * (j / 2) + (if j % 2 == 0 then 0 else 2) && d < |base|
    && |bits| == 20 * j
    && BitsOf(base)[..20 * j] == bits
    && BitsOf(base)[20 * j..] == Zeros(8 * |base| - 20 * j)
  }

  lemma NothingWritten(base: Octets)
    requires |base| == MAX_HASH_LEN && forall i | 0 <= i < |base| :: base[i] == 0
    ensures Written(base, 0, 0, [])
  {
    hide ByteBit;
    forall i | 0 <= i < 8 * |base|
      ensures !BitsOf(base)[i]
    {
      NoBit(i % 8);
    }
  }

  lemma WrittenShape(base: Octets, d: nat, j: nat, bits: seq<bool>)
    requires Written(base, d, j, bits)
    ensures j <= 24 ==> d + 3 < MAX_HASH_LEN
    ensures 20 * j <= 8 * MAX_HASH_LEN && BitsOf(base) == bits + Zeros(8 * MAX_HASH_LEN - 20 * j)
  {
    hide BitsOf;
  }

  lemma FreeBit(base: Octets, d: nat, j: nat, bits: seq<bool>, t: nat)
    requires Written(base, d, j, bits) && t < 8 && 8 * d + t >= 20 * j
    ensures !ByteBit(base[d], t)
  {
    hide BitsOf, ByteBit;
    BitAt(base, d, t);
    assert BitsOf(base)[8 * d + t] == BitsOf(base)[20 * j..][8 * d + t - 20 * j];
  }

  lemma ClearOctet(b: bv8)
    ensures !ByteBit(b, 4) && !ByteBit(b, 5) && !ByteBit(b, 6) && !ByteBit(b, 7) ==> b & 0x0f == 0
    ensures (forall t | 0 <= t < 8 :: !ByteBit(b, t)) ==> b == 0
  {
    if forall t | 0 <= t < 8 :: !ByteBit(b, t) {
      assert !ByteBit(b, 0) && !ByteBit(b, 1) && !ByteBit(b, 2) && !ByteBit(b, 3);
      assert !ByteBit(b, 4) && !ByteBit(b, 5) && !ByteBit(b, 6) && !ByteBit(b, 7);
    }
  }

  lemma FreeHalfOctet(base: Octets, d: nat, j: nat, bits: seq<bool>)
    requires Written(base, d, j, bits)
    ensures if j % 2 == 0 then base[d] == 0 else base[d] & 0x0f == 0
  {
    hide BitsOf, ByteBit;
    forall t | 0 <= t < 8 && 8 * d + t >= 20 * j
      ensures !ByteBit(base[d], t)
    {
      FreeBit(base, d, j, bits, t);
    }
    ClearOctet(base[d]);
  }

  lemma WroteEven(base: Octets, d: nat, j: nat, bits: seq<bool>, group: seq<bool>, mid: Octets, after: Octets)
    requires Written(base, d, j, bits) && j % 2 == 0 && d + 2 < |base|
    requires |group| == 20 && |mid| == 3 && BitsOf(mid) == group + Zeros(4)
    requires after == base[..d] + mid + base[d + 3..]
    ensures Written(after, d + 2, j + 1, bits + group)
  {
    hide BitsOf;
    BitsAppend(base[..d] + mid, base[d + 3..]);
    BitsAppend(base[..d], mid);
    assert base[..d] == base[0..d] && base[d + 3..] == base[d + 3..|base|];
    BitsSlice(base, 0, d);
    BitsSlice(base, d + 3, |base|);
    var l := BitsOf(after);
    assert 8 * d == 20 * j;
    assert l == BitsOf(base)[..20 * j] + (group + Zeros(4)) + BitsOf(base)[20 * j..][24..];
    assert l[..20 * (j + 1)] == bits + group;
    assert l[20 * (j + 1)..] == Zeros(4) + Zeros(8 * |base| - 20 * j - 24);
  }

  lemma WroteOdd(base: Octets, d: nat, j: nat, bits: seq<bool>, group: seq<bool>, mid: Octets, after: Octets)
    requires Written(base, d, j, bits) && j % 2 == 1 && d + 3 < |base|
    requires |group| == 20 && |mid| == 3 && BitsOf(mid) == BitsOf([base[d]])[..4] + group
    requires after == base[..d] + mid + base[d + 3..]
    ensures Written(after, d + 3, j + 1, bits + group)
  {
    hide BitsOf;
    BitsAppend(base[..d] + mid, base[d + 3..]);
    BitsAppend(base[..d], mid);
    assert base[..d] == base[0..d] && base[d + 3..] == base[d + 3..|base|];
    BitsSlice(base, 0, d);
    BitsSlice(base, d, d + 1);
    BitsSlice(base, d + 3, |base|);
    assert base[d..d + 1] == [base[d]];
    assert BitsOf(base)[..8 * d] + BitsOf([base[d]])[..4] == bits;
    var l := BitsOf(after);
    assert 8 * d + 4 == 20 * j;
    assert l == BitsOf(base)[..8 * d] + BitsOf(mid) + BitsOf(base)[20 * j..][20..];
    assert l[..20 * (j + 1)] == bits + group;
    assert l[20 * (j + 1)..] == Zeros(8 * |base| - 20 * j - 20);
  }

  /** One round of the packing loop's writes through dst. */
  method WriteGroup(base: array<bv8>, dst: nat, j: nat, v: bv32, ghost bits: seq<bool>, ghost s: Octets, ghost mark: bool)
    returns (dst': nat)
    requires Written(base[..], dst, j, bits) && dst + 3 < base.Length
    requires |s| >= 3 && v == Marked19(s[0], s[1], s[2], mark)
    modifies base
    ensures Written(base[..], dst', j + 1, bits + ([mark] + BitsOf(s)[..19]))
  {
    hide Written, BitsOf, Marked19, Filled, OddMid, OddLow, EvenHigh, EvenMid, EvenLow;
    ghost var before := base[..];
    if j % 2 == 1 {
      FreeHalfOctet(before, dst, j, bits);
      OddGroup(s, mark, before[dst]);
      base[dst] := Filled(base[dst], v);
      base[dst + 1] := OddMid(v);
      base[dst + 2] := OddLow(v);
      dst' := dst + 3;
      ghost var mid := [Filled(before[dst], v), OddMid(v), OddLow(v)];
      assert base[..] == before[..dst] + mid + before[dst + 3..];
      WroteOdd(before, dst, j, bits, [mark] + BitsOf(s)[..19], mid, base[..]);
    } else {
      EvenGroup(s, mark);
      base[dst] := EvenHigh(v);
      base[dst + 1] := EvenMid(v);
      base[dst + 2] := EvenLow(v);
      dst' := dst + 2;
      ghost var mid := [EvenHigh(v), EvenMid(v), EvenLow(v)];
      assert base[..] == before[..dst] + mid + before[dst + 3..];
      WroteEven(before, dst, j, bits, [mark] + BitsOf(s)[..19], mid, base[..]);
    }
  }

  /** One round of the packing loop: 19 bits out of the hash, marked and written, and the hash shifted. */
  method PackRound(hash: array<bv8>, hashLen: nat, sec: nat, base: array<bv8>, dst: nat, j: nat, ghost src: seq<bool>, ghost n: nat)
    returns (dst': nat)
    requires SupportedHash(hashLen, sec) && hash.Length == base.Length == MAX_HASH_LEN && hash != base
    requires n == 8 * hashLen / 20 && j < n && |src| == 8 * (hashLen - sec) + 19 * n
    requires src[8 * (hashLen - sec)..] == Zeros(19 * n)
    requires BitsOf(hash[sec..hashLen]) == src[19 * j..19 * j + 8 * (hashLen - sec)]
    requires Written(base[..], dst, j, Stretch(src, sec == 3, j))
    modifies hash, base
    ensures BitsOf(hash[sec..hashLen]) == src[19 * (j + 1)..19 * (j + 1) + 8 * (hashLen - sec)]
    ensures Written(base[..], dst', j + 1, Stretch(src, sec == 3, j + 1))
  {
    hide BitsOf, Marked19, ShiftedLeft19, Stretch, Written, Zeros;
    var width := 8 * (hashLen - sec);
    WrittenShape(base[..], dst, j, Stretch(src, sec == 3, j));
    ghost var tail := hash[sec..hashLen];
    var v := Marked19(hash[sec], hash[sec + 1], hash[sec + 2], sec == 3);
    ShiftLeft19(hash, sec, hashLen - sec);
    assert hash[sec..hashLen] == ShiftedLeft19(tail);
    ShiftLeft19Bits(tail);
    SourceAdvances(src, BitsOf(tail), n, j, width);
    dst' := WriteGroup(base, dst, j, v, Stretch(src, sec == 3, j), tail, sec == 3);
    StretchStep(src, sec == 3, j);
    assert BitsOf(tail)[..19] == src[19 * j..19 * j + 19];
    assert Stretch(src, sec == 3, j) + ([sec == 3] + BitsOf(tail)[..19]) == Stretch(src, sec == 3, j + 1);
  }

  /** The packing loop: skip 8*Sec bits and put Sec_1b before every 19 bits of the rest. */
  method PackPasswordBase(hash: array<bv8>, hashLen: nat, sec: nat) returns (base: array<bv8>)
    requires SupportedHash(hashLen, sec) && hash.Length == MAX_HASH_LEN
    modifies hash
    ensures fresh(base) && base.Length == MAX_HASH_LEN == 64
    ensures var n := 8 * hashLen / 20;
            BitsOf(base[..]) == Stretch(Source(old(hash[..hashLen]), sec, n), sec == 3, n) + Zeros(8 * MAX_HASH_LEN - 20 * n)
  {
    hide BitsOf, Marked19, ShiftedLeft19, Stretch, Written;
    var n := 8 * hashLen / 20;
    var width := 8 * (hashLen - sec);
    ghost var src := Source(hash[..hashLen], sec, n);
    assert hash[..hashLen][sec..] == hash[sec..hashLen];
    assert src[..width] == BitsOf(hash[sec..hashLen]);
    base := new bv8[MAX_HASH_LEN](_ => 0);
    var dst, j := 0, 0;
    NothingWritten(base[..]);
    assert Stretch(src, sec == 3, 0) == [];
    while j < n
      invariant 0 <= j <= n
      invariant BitsOf(hash[sec..hashLen]) == src[19 * j..19 * j + width]
      invariant Written(base[..], dst, j, Stretch(src, sec == 3, j))
    {
      dst := PackRound(hash, hashLen, sec, base, dst, j, src, n);
      j := j + 1;
    }
    WrittenShape(base[..], dst, j, Stretch(src, sec == 3, j));
  }
}
