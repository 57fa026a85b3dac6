/** WEP: RC4 in place, key repetition and the search through the known keys. */
module Wep {
  import opened Bits
  import opened Frames
  import opened Counters

  /** RC4's table with its two indices. */
  datatype State = State(s: Octets, i: bv8, j: bv8)

  /** An octet position as an index, and sums of octets, both modulo 256. */
  function Index(n: nat): bv8
    requires n < 256
  {
    n as bv8
  }

  function Identity(): (s: Octets)
    ensures |s| == 256
  {
    seq(256, i requires 0 <= i < 256 => Index(i))
  }

  function At(s: Octets, x: bv8): bv8
    requires |s| == 256
  {
    s[OctetValue(x)]
  }

  function Sum2(a: bv8, b: bv8): bv8 { a + b }

  function Sum3(a: bv8, b: bv8, c: bv8): bv8 { Sum2(Sum2(a, b), c) }

  function Exchanged(s: Octets, i: nat, j: nat): (r: Octets)
    requires i < |s| && j < |s|
    ensures |r| == |s| && multiset(r) == multiset(s)
  {
    s[i := s[j]][j := s[i]]
  }

  function Swapped(s: Octets, a: bv8, b: bv8): (r: Octets)
    requires |s| == 256
    ensures |r| == 256 && multiset(r) == multiset(s)
  {
    Exchanged(s, OctetValue(a), OctetValue(b))
  }

  /** The key schedule's table and index after n of its 256 rounds. */
  function Scheduled(key: Octets, n: nat): (r: (Octets, bv8))
    requires |key| > 0 && n <= 256
    ensures |r.0| == 256 && multiset(r.0) == multiset(Identity())
  {
    if n == 0 then (Identity(), 0)
    else
      var (s, j) := Scheduled(key, n - 1);
      var j' := Sum3(j, s[n - 1], key[(n - 1) % |key|]);
      (Swapped(s, Index(n - 1), j'), j')
  }

  function Stepped(st: State): (r: State)
    requires |st.s| == 256
    ensures |r.s| == 256 && multiset(r.s) == multiset(st.s)
  {
    var i := Sum2(st.i, 1);
    var j := Sum2(st.j, At(st.s, i));
    State(Swapped(st.s, i, j), i, j)
  }

  /** The state after k keystream octets; its table stays a permutation of 0..255. */
  function StateAt(key: Octets, k: nat): (r: State)
    requires |key| > 0
    ensures |r.s| == 256 && multiset(r.s) == multiset(Identity())
  {
    if k == 0 then State(Scheduled(key, 256).0, 0, 0) else Stepped(StateAt(key, k - 1))
  }

  function Output(st: State): bv8
    requires |st.s| == 256
  {
    At(st.s, Sum2(At(st.s, st.i), At(st.s, st.j)))
  }

  /** Octet k of the keystream. */
  function Stream(key: Octets, k: nat): bv8
    requires |key| > 0
  {
    Output(StateAt(key, k + 1))
  }

  function Mixed(x: bv8, k: bv8): bv8 { x ^ k }

  function Crypted(key: Octets, buf: Octets): (r: Octets)
    requires |key| > 0
    ensures |r| == |buf|
  {
    seq(|buf|, k requires 0 <= k < |buf| => Mixed(buf[k], Stream(key, k)))
  }

  lemma MixedTwice(x: bv8, k: bv8)
    ensures Mixed(Mixed(x, k), k) == x
  {
  }

  /** RC4 under one key undoes itself, for every buffer. */
  lemma CryptedTwice(key: Octets, buf: Octets)
    requires |key| > 0
    ensures Crypted(key, Crypted(key, buf)) == buf
  {
    hide Mixed, Stream;
    forall k | 0 <= k < |buf| {
      MixedTwice(buf[k], Stream(key, k));
    }
  }

  function NextOctet(s: Octets, i: bv8, j: bv8): bv8
    requires |s| == 256
  {
    Output(State(s, i, j))
  }

  lemma StreamStep(key: Octets, k: nat)
    requires |key| > 0
    ensures StateAt(key, k + 1) == Stepped(StateAt(key, k)) && Stream(key, k) == Output(StateAt(key, k + 1))
  {
  }

  method Swap(s: array<bv8>, a: bv8, b: bv8)
    requires s.Length == 256
    modifies s
    ensures s[..] == Swapped(old(s[..]), a, b)
  {
    var t := s[a as nat];
    s[a as nat] := s[b as nat];
    s[b as nat] := t;
  }

  /** One keystream round on the table, in place. */
  method Round(s: array<bv8>, i0: bv8, j0: bv8) returns (i: bv8, j: bv8)
    requires s.Length == 256
    modifies s
    ensures State(s[..], i, j) == Stepped(State(old(s[..]), i0, j0))
  {
    hide Sum2, At, Swapped;
    i := Sum2(i0, 1);
    j := Sum2(j0, At(s[..], i));
    Swap(s, i, j);
  }

  method IdentityTable() returns (s: array<bv8>)
    ensures fresh(s) && s[..] == Identity()
  {
    s := new bv8[256](n requires 0 <= n < 256 => Index(n));
  }

  lemma ScheduleStart(key: Octets)
    requires |key| > 0
    ensures Scheduled(key, 0) == (Identity(), 0)
  {
  }

  lemma ScheduleStep(key: Octets, n: nat)
    requires |key| > 0 && n < 256
    ensures var (s, j) := Scheduled(key, n);
            var j' := Sum3(j, s[n], key[n % |key|]);
            Scheduled(key, n + 1) == (Swapped(s, Index(n), j'), j')
  {
    hide Swapped, Identity, Sum3, Index;
  }

  /** The set-up loops. */
  method Schedule(key: Octets) returns (s: array<bv8>, i: bv8, j: bv8)
    requires |key| == 16
    ensures fresh(s) && s.Length == 256 && State(s[..], i, j) == StateAt(key, 0)
  {
    hide Swapped, Scheduled, Identity, Sum3, Index;
    s := IdentityTable();
    j := 0;
    ScheduleStart(key);
    for n := 0 to 256
      invariant (s[..], j) == Scheduled(key, n)
    {
      ScheduleStep(key, n);
      j := Sum3(j, s[n], key[n % 16]);
      Swap(s, Index(n), j);
    }
    i, j := 0, 0;
  }

  /** wep_crypt. */
  method WepCrypt(key: Octets, buf: array<bv8>)
    requires |key| == 16
    modifies buf
    ensures buf[..] == Crypted(key, old(buf[..]))
  {
    hide Identity, Swapped, Stream, Mixed, StateAt, Output, Scheduled, Stepped;
    var s, i, j := Schedule(key);
    ghost var start := s[..];
    for k := 0 to buf.Length
      invariant s.Length == 256 && State(s[..], i, j) == StateAt(key, k)
      invariant forall m | 0 <= m < k :: buf[m] == Mixed(old(buf[m]), Stream(key, m))
      invariant forall m | k <= m < buf.Length :: buf[m] == old(buf[m])
    {
      ghost var st := State(s[..], i, j);
      i, j := Round(s, i, j);
      StreamStep(key, k);
      assert State(s[..], i, j) == StateAt(key, k + 1);
      buf[k] := Mixed(buf[k], NextOctet(s[..], i, j));
    }
  }

  // RC4 on numbers ---------------------------------------------------------------------------------

  /** The table of the reference, and its two indices. */
  datatype Rc4 = Rc4(s: seq<nat>, i: nat, j: nat)

  function Rc4Key(key: Octets, n: nat): (r: (seq<nat>, nat))
    requires |key| > 0 && n <= 256
    ensures |r.0| == 256 && r.1 < 256
  {
    if n == 0 then (seq(256, i => i), 0)
    else
      var (s, j) := Rc4Key(key, n - 1);
      var j' := (j + s[n - 1] + key[(n - 1) % |key|] as nat) % 256;
      (s[n - 1 := s[j']][j' := s[n - 1]], j')
  }

  function Rc4At(key: Octets, k: nat): (r: Rc4)
    requires |key| > 0
    ensures |r.s| == 256 && r.i < 256 && r.j < 256
  {
    if k == 0 then Rc4(Rc4Key(key, 256).0, 0, 0)
    else
      var x := Rc4At(key, k - 1);
      var i := (x.i + 1) % 256;
      var j := (x.j + x.s[i]) % 256;
      Rc4(x.s[i := x.s[j]][j := x.s[i]], i, j)
  }

  /** Octet k of the keystream as RC4 defines it. */
  function Rc4Octet(key: Octets, k: nat): nat
    requires |key| > 0
  {
    var x := Rc4At(key, k + 1);
    x.s[(x.s[x.i] + x.s[x.j]) % 256]
  }

  function Values(s: Octets): (r: seq<nat>)
    ensures |r| == |s|
  {
    seq(|s|, i requires 0 <= i < |s| => OctetValue(s[i]))
  }

  function Succ(x: bv8): bv8 { x + 1 }

  function Pred(x: bv8): bv8 { x - 1 }

  lemma SumParts(a: bv8, b: bv8)
    ensures Sum2(a, 0) == a && Sum2(a, b) == Succ(Sum2(a, Pred(b))) && Succ(Pred(b)) == b && (b != 0 ==> Pred(b) != 255)
  {
  }

  lemma SuccValue(x: bv8)
    ensures OctetValue(Succ(x)) == if x == 255 then 0 else OctetValue(x) + 1
    ensures x == 255 <==> OctetValue(x) == 255
  {
    LastValue();
    if x != 255 {
      NextValue(x);
    }
  }

  /** Octet addition is addition modulo 256. */
  lemma {:induction false} SumValue(a: bv8, b: bv8)
    ensures OctetValue(Sum2(a, b)) == (OctetValue(a) + OctetValue(b)) % 256
    decreases OctetValue(b)
  {
    hide OctetValue, Sum2, Succ, Pred;
    SumParts(a, b);
    LastValue();
    if b != 0 {
      SuccValue(Pred(b));
      SumValue(a, Pred(b));
      SuccValue(Sum2(a, Pred(b)));
    }
  }

  lemma ModAdd(x: nat, y: nat)
    ensures (x % 256 + y) % 256 == (x + y) % 256
  {
  }

  lemma Sum3Value(a: bv8, b: bv8, c: bv8)
    ensures OctetValue(Sum3(a, b, c)) == (OctetValue(a) + OctetValue(b) + OctetValue(c)) % 256
  {
    hide OctetValue, Sum2;
    SumValue(a, b);
    SumValue(Sum2(a, b), c);
    ModAdd(OctetValue(a) + OctetValue(b), OctetValue(c));
  }

  lemma ExchangedValues(s: Octets, i: nat, j: nat)
    requires i < |s| && j < |s|
    ensures Values(Exchanged(s, i, j)) == Values(s)[i := Values(s)[j]][j := Values(s)[i]]
  {
    hide OctetValue;
  }

  lemma IndexValue(n: nat)
    requires n < 256
    ensures OctetValue(Index(n)) == n
  {
    ByteOf(n);
  }

  lemma IdentityValues()
    ensures Values(Identity()) == seq(256, i => i)
  {
    hide OctetValue, Index;
    forall i | 0 <= i < 256
      ensures Values(Identity())[i] == i
    {
      IndexValue(i);
    }
  }

  lemma KeyValue(x: bv8)
    ensures OctetValue(x) == x as nat && OctetValue(1) == 1
  {
  }

  lemma {:induction false} ScheduleIsRc4(key: Octets, n: nat)
    requires |key| > 0 && n <= 256
    ensures var (s, j) := Scheduled(key, n); Rc4Key(key, n) == (Values(s), OctetValue(j))
  {
    hide OctetValue, Index, Sum3, Identity, Exchanged;
    if n == 0 {
      IdentityValues();
      LastValue();
    } else {
      ScheduleIsRc4(key, n - 1);
      var (s, j) := Scheduled(key, n - 1);
      Sum3Value(j, s[n - 1], key[(n - 1) % |key|]);
      var j' := Sum3(j, s[n - 1], key[(n - 1) % |key|]);
      IndexValue(n - 1);
      ExchangedValues(s, n - 1, OctetValue(j'));
      KeyValue(key[(n - 1) % |key|]);
    }
  }

  ghost predicate Agrees(x: Rc4, st: State)
  {
    x == Rc4(Values(st.s), OctetValue(st.i), OctetValue(st.j))
  }

  lemma StepAgrees(x: Rc4, st: State)
    requires |st.s| == 256 && Agrees(x, st)
    ensures var i := (x.i + 1) % 256; var j := (x.j + x.s[i]) % 256;
            Agrees(Rc4(x.s[i := x.s[j]][j := x.s[i]], i, j), Stepped(st))
  {
    hide OctetValue, Sum2, Exchanged;
    KeyValue(1);
    SumValue(st.i, 1);
    var i := Sum2(st.i, 1);
    SumValue(st.j, At(st.s, i));
    ExchangedValues(st.s, OctetValue(i), OctetValue(Sum2(st.j, At(st.s, i))));
  }

  lemma StartAgrees(key: Octets)
    requires |key| > 0
    ensures Agrees(Rc4At(key, 0), StateAt(key, 0))
  {
    hide OctetValue, Scheduled, Rc4Key;
    ScheduleIsRc4(key, 256);
    LastValue();
  }

  lemma {:induction false} StateIsRc4(key: Octets, k: nat)
    requires |key| > 0
    ensures Agrees(Rc4At(key, k), StateAt(key, k))
  {
    hide OctetValue, Stepped, Scheduled, Rc4Key, Agrees;
    if k == 0 {
      StartAgrees(key);
    } else {
      StateIsRc4(key, k - 1);
      StepAgrees(Rc4At(key, k - 1), StateAt(key, k - 1));
    }
  }

  /** Every keystream octet is the one that RC4 defines in arithmetic modulo 256. */
  lemma StreamIsRc4(key: Octets, k: nat)
    requires |key| > 0
    ensures OctetValue(Stream(key, k)) == Rc4Octet(key, k)
  {
    hide OctetValue, Sum2, StateAt, Rc4At;
    StateIsRc4(key, k + 1);
    var st := StateAt(key, k + 1);
    SumValue(At(st.s, st.i), At(st.s, st.j));
  }

  /** A buffer octet and its keystream octet are combined bit by bit. */
  lemma MixedMask(x: bv8, k: bv8, m: bv8)
    requires m in {0x01, 0x02, 0x04, 0x08, 0x10, 0x20, 0x40, 0x80}
    ensures Mixed(x, k) & m != 0 <==> (x & m != 0) != (k & m != 0)
  {
  }

  // Keys --------------------------------------------------------------------------------------

  /** The key written over and over into 16 octets. */
  function Repeated(key: Octets): (r: Octets)
    requires |key| > 0
    ensures |r| == 16
  {
    seq(16, i requires 0 <= i < 16 => key[i % |key|])
  }

  lemma NextPosition(i: nat, n: nat)
    requires n > 0
    ensures (i + 1) % n == if i % n + 1 == n then 0 else i % n + 1
  {
    var q, r := i / n, i % n;
    assert i == q * n + r;
    if r + 1 == n {
      assert i + 1 == (q + 1) * n;
      ModUnique(i + 1, n, q + 1, 0);
    } else {
      ModUnique(i + 1, n, q, r + 1);
    }
  }

  method Repeat(key: Octets) returns (k: Octets)
    requires 0 < |key| <= 16
    ensures k == Repeated(key)
  {
    var buf := new bv8[16](_ => 0);
    var j := 0;
    for i := 0 to 16
      invariant j == i % |key|
      invariant forall m | 0 <= m < i :: buf[m] == key[m % |key|]
    {
      buf[i] := key[j];
      j := j + 1;
      if j >= |key| {
        j := 0;
      }
      NextPosition(i, |key|);
    }
    k := buf[..];
  }

  lemma WrapsEvenly(i: nat, n: nat)
    requires n > 0 && 16 % n == 0
    ensures (i % 16) % n == i % n
  {
    var q, r, d := i / 16, i % 16, 16 / n;
    assert i == q * 16 + r && 16 == d * n;
    assert q * 16 == (q * d) * n;
    var r1 := r / n;
    assert r == r1 * n + r % n;
    assert i == (q * d + r1) * n + r % n;
    ModUnique(i, n, q * d + r1, r % n);
  }

  /** A key whose length divides 16, such as 8 or 16 octets, schedules as its 16-octet repetition. */
  lemma {:induction false} RepeatedSchedules(key: Octets, n: nat)
    requires |key| > 0 && 16 % |key| == 0 && n <= 256
    ensures Scheduled(Repeated(key), n) == Scheduled(key, n)
  {
    hide Swapped, Identity, Sum3, Index, Scheduled;
    if n == 0 {
      ScheduleStart(key);
      ScheduleStart(Repeated(key));
    } else {
      RepeatedSchedules(key, n - 1);
      ScheduleStep(key, n - 1);
      ScheduleStep(Repeated(key), n - 1);
      WrapsEvenly(n - 1, |key|);
    }
  }

  lemma {:induction false} RepeatedStates(key: Octets, k: nat)
    requires |key| > 0 && 16 % |key| == 0
    ensures StateAt(Repeated(key), k) == StateAt(key, k)
  {
    hide Scheduled, Stepped, Repeated;
    if k == 0 {
      RepeatedSchedules(key, 256);
    } else {
      RepeatedStates(key, k - 1);
    }
  }

  lemma RepeatedCrypts(key: Octets, buf: Octets)
    requires |key| > 0 && 16 % |key| == 0
    ensures Crypted(Repeated(key), buf) == Crypted(key, buf)
  {
    hide Scheduled, Stepped, Repeated, Output, Mixed;
    forall k | 0 <= k < |buf|
      ensures Stream(Repeated(key), k) == Stream(key, k)
    {
      RepeatedStates(key, k + 1);
    }
  }

  /** CRC-32 as the four octets of an ICV. */
  type Crc = Octets -> Octets

  ghost predicate GivesFour(crc: Crc)
  {
    forall b :: |crc(b)| == 4
  }

  function Plain(key: Octets, data: Octets): (r: Octets)
    requires |data| >= 8
    ensures |r| == |data| - 4
  {
    Crypted(Repeated(data[..3] + key), data[4..])
  }

  /** The key's ICV check on a received payload. */
  predicate Fits(crc: Crc, key: Octets, data: Octets)
    requires |data| >= 8
  {
    var plain := Plain(key, data);
    crc(plain[..|plain| - 4]) == plain[|plain| - 4..]
  }

  /** try_wep. */
  method TryWep(crc: Crc, key: Octets, data: Octets, plain: array<bv8>) returns (ok: bool)
    requires |key| <= 13 && |data| >= 8 && plain.Length == |data| - 4
    modifies plain
    ensures plain[..] == Plain(key, data)
    ensures ok <==> Fits(crc, key, data)
  {
    hide Crypted, Repeated;
    var k := Repeat(data[..3] + key);
    Put(plain, 0, data[4..]);
    assert plain[..] == data[4..];
    WepCrypt(k, plain);
    var n := plain.Length;
    var text, icv := plain[..n - 4], plain[n - 4..];
    assert text == plain[..][..n - 4] && icv == plain[..][n - 4..];
    ok := crc(text) == icv;
  }

  /** wep_decrypt: the text under the first listed key that fits, or nothing. */
  method WepDecrypt(crc: Crc, keys: seq<Octets>, data: Octets) returns (r: Option<Octets>)
    requires forall k | k in keys :: |k| <= 13
    ensures r.None? <==> |data| < 8 || forall k | k in keys :: !Fits(crc, k, data)
    ensures r.Some? ==> exists n | 0 <= n < |keys| ::
              && Fits(crc, keys[n], data) && (forall m | 0 <= m < n :: !Fits(crc, keys[m], data))
              && r.value == Plain(keys[n], data)[..|data| - 8]
  {
    hide Fits, Plain;
    if |keys| == 0 {
      return None;
    }
    if |data| < 4 + 4 {
      return None;
    }
    var plain := new bv8[|data| - 4](_ => 0);
    for n := 0 to |keys|
      invariant forall m | 0 <= m < n :: !Fits(crc, keys[m], data)
    {
      var found := TryWep(crc, keys[n], data, plain);
      if found {
        assert plain[..|data| - 8] == plain[..][..|data| - 8];
        return Some(plain[..|data| - 8]);
      }
    }
    return None;
  }

  /** A WEP payload: IV, key ID, and text with its ICV under RC4 keyed with IV and key. */
  function Payload(crc: Crc, key: Octets, iv: Octets, keyId: bv8, text: Octets): Octets
    requires |iv| == 3
  {
    iv + [keyId] + Crypted(iv + key, text + crc(text))
  }

  /** The sender's key fits its payload and gives the text back, for 40-bit and 104-bit keys. */
  lemma OwnKeyFits(crc: Crc, key: Octets, iv: Octets, keyId: bv8, text: Octets)
    requires GivesFour(crc) && (|key| == 5 || |key| == 13) && |iv| == 3
    ensures var data := Payload(crc, key, iv, keyId, text);
            |data| == |text| + 8 && Fits(crc, key, data) && Plain(key, data)[..|text|] == text
  {
    hide Crypted, Repeated;
    var data := Payload(crc, key, iv, keyId, text);
    var body := Crypted(iv + key, text + crc(text));
    assert data[..3] == iv && data[4..] == body;
    RepeatedCrypts(iv + key, body);
    CryptedTwice(iv + key, text + crc(text));
  }
}
