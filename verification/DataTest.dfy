/** The IPv4 header checksum and the data test frames of the control interface. */
module DataTest {
  import opened Bits
  import opened Frames

  const WORD: nat := 0x1_0000
  const MAX_WORD: nat := 0xffff
  const U32: nat := 0x1_0000_0000

  /** Byte order of the host: the checksum loads and stores whole words. */
  datatype Order = Little | Big

  function Word(b0: bv8, b1: bv8, o: Order): (w: nat)
    ensures w <= MAX_WORD
  {
    if o.Little? then OctetValue(b0) + 256 * OctetValue(b1) else 256 * OctetValue(b0) + OctetValue(b1)
  }

  /** The octets of a word as they lie in memory. */
  function Stored(w: nat, o: Order): (r: Octets)
    requires w <= MAX_WORD
    ensures |r| == 2 && Word(r[0], r[1], o) == w
  {
    ValueOf(w % 256);
    ValueOf(w / 256);
    if o.Little? then [OctetOf(w % 256), OctetOf(w / 256)] else [OctetOf(w / 256), OctetOf(w % 256)]
  }

  /** The plain sum of the first k words. */
  function WordSum(s: Octets, k: nat, o: Order): (r: nat)
    requires 2 * k <= |s|
    ensures r <= k * MAX_WORD
  {
    if k == 0 then 0 else WordSum(s, k - 1, o) + Word(s[2 * k - 2], s[2 * k - 1], o)
  }

  lemma Congruent(a: int, b: int, q: int)
    requires a == b + 65535 * q
    ensures a % 65535 == b % 65535
  {
  }

  /** Folding the carries keeps the residue modulo 65535 and gives zero for zero only. */
  function Folded(sum: nat): (r: nat)
    ensures r <= MAX_WORD && r % 65535 == sum % 65535 && (r == 0 <==> sum == 0)
    decreases sum
  {
    if sum < WORD then sum
    else
      Congruent(sum, sum % WORD + sum / WORD, sum / WORD);
      Folded(sum % WORD + sum / WORD)
  }

  /** Two words with the same residue are equal unless one is 0 and the other 0xffff. */
  lemma ResidueDecides(a: nat, b: nat)
    requires a <= MAX_WORD && b <= MAX_WORD && a % 65535 == b % 65535 && (a == 0 <==> b == 0)
    ensures a == b
  {
  }

  function Checksum(s: Octets, o: Order): (c: nat)
    ensures c <= MAX_WORD
  {
    MAX_WORD - Folded(WordSum(s, |s| / 2, o) % U32)
  }

  method FoldCarries(total: nat) returns (sum: nat)
    ensures sum == Folded(total)
  {
    sum := total;
    while sum / WORD != 0
      invariant Folded(sum) == Folded(total)
      decreases sum
    {
      sum := sum % WORD + sum / WORD;
    }
  }

  lemma AddWraps(a: nat, w: nat)
    ensures (a % U32 + w) % U32 == (a + w) % U32
  {
  }

  /** ipv4_hdr_checksum, in 32-bit arithmetic. */
  method HdrChecksum(buf: array<bv8>, from: nat, len: nat, o: Order) returns (c: nat)
    requires from + len <= buf.Length
    ensures c == Checksum(buf[from..from + len], o)
  {
    hide Word, Folded;
    ghost var s := buf[from..from + len];
    var sum: nat := 0;
    for i := 0 to len / 2
      invariant sum == WordSum(s, i, o) % U32
    {
      var w := Word(buf[from + 2 * i], buf[from + 2 * i + 1], o);
      assert buf[from + 2 * i] == s[2 * i] && buf[from + 2 * i + 1] == s[2 * i + 1];
      AddWraps(WordSum(s, i, o), w);
      sum := (sum + w) % U32;
    }
    var f := FoldCarries(sum);
    c := MAX_WORD - f;
  }

  /** Up to 65537 words the 32-bit sum does not wrap. */
  lemma NoWrap(s: Octets, o: Order)
    requires |s| <= 2 * 65537 + 1
    ensures WordSum(s, |s| / 2, o) < U32
    ensures Checksum(s, o) == MAX_WORD - Folded(WordSum(s, |s| / 2, o))
  {
    hide Folded, WordSum;
  }

  /** A header verifies when its checksum, taken over all of it, is zero. */
  predicate Verifies(s: Octets, o: Order)
  {
    Checksum(s, o) == 0
  }

  lemma FullWord(f: nat, sum: nat)
    requires f <= MAX_WORD && f % 65535 == sum % 65535 && (f == 0 <==> sum == 0)
    ensures f == MAX_WORD <==> sum != 0 && sum % 65535 == 0
  {
  }

  /** What the check can tell apart: a nonzero sum that 65535 divides, and nothing else. */
  lemma VerifiesExactly(s: Octets, o: Order)
    requires |s| <= 2 * 65537 + 1
    ensures var t := WordSum(s, |s| / 2, o); Verifies(s, o) <==> t != 0 && t % 65535 == 0
  {
    hide Folded, WordSum;
    NoWrap(s, o);
    FullWord(Folded(WordSum(s, |s| / 2, o)), WordSum(s, |s| / 2, o));
  }

  lemma {:induction false} SumWithWord(s: Octets, t: Octets, at: nat, k: nat, o: Order)
    requires |s| == |t| && 2 * k <= |s| && at < |s| / 2
    requires forall i | 0 <= i < |s| && i != 2 * at && i != 2 * at + 1 :: s[i] == t[i]
    ensures var d := Word(t[2 * at], t[2 * at + 1], o) - Word(s[2 * at], s[2 * at + 1], o);
            WordSum(t, k, o) == WordSum(s, k, o) + if at < k then d else 0
  {
    hide Word;
    if k > 0 {
      SumWithWord(s, t, at, k - 1, o);
    }
  }

  lemma ZeroWord(o: Order)
    ensures Word(0, 0, o) == 0
  {
  }

  lemma SumCompletes(sum: nat, f: nat)
    requires f <= MAX_WORD && f % 65535 == sum % 65535 && (f == 0 <==> sum == 0)
    ensures var t := sum + MAX_WORD - f; t != 0 && t % 65535 == 0
  {
  }

  /** Storing the checksum in a zero word makes the buffer verify, in either byte order. */
  lemma ChecksumVerifies(s: Octets, at: nat, o: Order)
    requires |s| <= 2 * 65537 + 1 && 2 * at + 1 < |s| && s[2 * at] == 0 && s[2 * at + 1] == 0
    ensures Verifies(Overlay(s, 2 * at, Stored(Checksum(s, o), o)), o)
  {
    hide Folded, Word, Stored;
    var c := Checksum(s, o);
    var t := Overlay(s, 2 * at, Stored(c, o));
    NoWrap(s, o);
    SumWithWord(s, t, at, |s| / 2, o);
    assert Word(0, 0, o) == 0 by { ZeroWord(o); }
    var sum := WordSum(s, |s| / 2, o);
    SumCompletes(sum, Folded(sum));
    VerifiesExactly(t, o);
  }

  // Byte order -------------------------------------------------------------------------------------

  function Swapped(w: nat): (r: nat)
    requires w <= MAX_WORD
    ensures r <= MAX_WORD
  {
    256 * (w % 256) + w / 256
  }

  lemma {:induction false} OrdersCongruent(s: Octets, k: nat) returns (t: nat, u: nat)
    requires 2 * k <= |s|
    ensures 256 * WordSum(s, k, Little) == WordSum(s, k, Big) + 65535 * t
    ensures 256 * WordSum(s, k, Big) == WordSum(s, k, Little) + 65535 * u
  {
    if k == 0 {
      t, u := 0, 0;
    } else {
      t, u := OrdersCongruent(s, k - 1);
      t, u := t + OctetValue(s[2 * k - 1]), u + OctetValue(s[2 * k - 2]);
    }
  }

  lemma TimesCongruent(a: nat, b: nat)
    requires a % 65535 == b % 65535
    ensures (256 * a) % 65535 == (256 * b) % 65535
  {
    Congruent(256 * a, 256 * (a % 65535), 256 * (a / 65535));
    Congruent(256 * b, 256 * (b % 65535), 256 * (b / 65535));
  }

  lemma FoldedSwaps(little: nat, big: nat, t: nat, u: nat)
    requires 256 * little == big + 65535 * t && 256 * big == little + 65535 * u
    ensures Folded(big) == Swapped(Folded(little))
  {
    var f := Folded(little);
    Congruent(256 * f, Swapped(f), f / 256);
    TimesCongruent(f, little);
    Congruent(256 * little, big, t);
    ResidueDecides(Folded(big), Swapped(f));
  }

  lemma StoredHalves(w: nat, high: nat, low: nat)
    requires high <= 255 && low <= 255 && w == 256 * high + low
    ensures Stored(w, Little) == [OctetOf(low), OctetOf(high)] && Stored(w, Big) == [OctetOf(high), OctetOf(low)]
  {
    hide OctetOf;
    assert w / 256 == high && w % 256 == low;
  }

  lemma ComplementStored(f: nat)
    requires f <= MAX_WORD
    ensures Stored(MAX_WORD - f, Little) == Stored(MAX_WORD - Swapped(f), Big)
  {
    hide Stored, OctetOf, OctetValue, Word;
    var x, y := f % 256, f / 256;
    assert f == 256 * y + x && y <= 255;
    assert MAX_WORD == 256 * 255 + 255;
    var c, d := MAX_WORD - f, MAX_WORD - Swapped(f);
    StoredHalves(c, 255 - y, 255 - x);
    StoredHalves(d, 255 - x, 255 - y);
    assert Stored(c, Little) == [OctetOf(255 - x), OctetOf(255 - y)] == Stored(d, Big);
  }

  /** The octets stored for a checksum do not depend on the byte order of the host. */
  lemma OrderFree(s: Octets)
    requires |s| <= 2 * 65537 + 1
    ensures Stored(Checksum(s, Little), Little) == Stored(Checksum(s, Big), Big)
  {
    hide Folded, WordSum, Stored, Swapped, Checksum;
    NoWrap(s, Little);
    NoWrap(s, Big);
    var t, u := OrdersCongruent(s, |s| / 2);
    FoldedSwaps(WordSum(s, |s| / 2, Little), WordSum(s, |s| / 2, Big), t, u);
    ComplementStored(Folded(WordSum(s, |s| / 2, Little)));
  }

  // Test frames ------------------------------------------------------------------------------------

  const PACKET_LEN: nat := 1500
  const IP_LEN: nat := 1486

  function BareHeader(tos: bv8, n: nat): (r: Octets)
    requires n <= MAX_WORD
    ensures |r| == 20 && r[10] == 0 && r[11] == 0
  {
    [0x45, tos] + Stored(n, Big) + [0, 0, 0, 0, 64, 1, 0, 0, 192, 168, 1, 1, 192, 168, 1, 2]
  }

  function Header(tos: bv8, n: nat, o: Order): (r: Octets)
    requires n <= MAX_WORD
    ensures |r| == 20
  {
    var bare := BareHeader(tos, n);
    Overlay(bare, 10, Stored(Checksum(bare, o), o))
  }

  function Pattern(i: nat): bv8 { OctetOf(i % 256) }

  function Payload(n: nat): (r: Octets)
    ensures |r| == n
  {
    seq(n, i requires 0 <= i < n => Pattern(i))
  }

  function TestFrame(dst: Mac, src: Mac, tos: bv8, n: nat, o: Order): (r: Octets)
    requires 20 <= n <= MAX_WORD
    ensures |r| == 14 + n
  {
    dst + src + [8, 0] + Header(tos, n, o) + Payload(n - 20)
  }

  lemma StoredBig(n: nat)
    requires n <= MAX_WORD
    ensures var w := Stored(n, Big); w[0] as nat * 256 + w[1] as nat == n
  {
  }

  lemma PatternValue(i: nat)
    ensures Pattern(i) as nat == i % 256
  {
    ByteOf(i % 256);
  }

  lemma HeaderOctets(tos: bv8, n: nat, o: Order)
    requires n <= MAX_WORD
    ensures var h := Header(tos, n, o);
            && h[0] == 0x45 && h[1] == tos && h[2] as nat * 256 + h[3] as nat == n && h[4..8] == [0, 0, 0, 0]
            && h[8] == 64 && h[9] == 1 && h[12..16] == [192, 168, 1, 1] && h[16..20] == [192, 168, 1, 2]
  {
    hide Checksum, Stored;
    var h, bare := Header(tos, n, o), BareHeader(tos, n);
    StoredBig(n);
    assert bare[2] == Stored(n, Big)[0] && bare[3] == Stored(n, Big)[1];
    assert h[..10] == bare[..10] && h[12..] == bare[12..];
    assert forall i | 0 <= i < 10 :: h[i] == h[..10][i];
    assert h[12..16] == h[12..][..4] && h[16..20] == h[12..][4..];
  }

  /** The frame octet by octet, but for its checksum. */
  lemma TestFrameOctets(dst: Mac, src: Mac, tos: bv8, n: nat, o: Order)
    requires 20 <= n <= MAX_WORD
    ensures var f := TestFrame(dst, src, tos, n, o);
            && f[..6] == dst && f[6..12] == src && f[12] == 8 && f[13] == 0
            && f[14] == 0x45 && f[15] == tos && f[16] as nat * 256 + f[17] as nat == n
            && f[18..22] == [0, 0, 0, 0] && f[22] == 64 && f[23] == 1
            && f[26..30] == [192, 168, 1, 1] && f[30..34] == [192, 168, 1, 2]
            && forall i | 0 <= i < n - 20 :: f[34 + i] as nat == i % 256
  {
    hide Header, Pattern;
    var f, h := TestFrame(dst, src, tos, n, o), Header(tos, n, o);
    HeaderOctets(tos, n, o);
    assert f[14..34] == h && f[34..] == Payload(n - 20);
    assert forall i | 0 <= i < 20 :: f[14 + i] == f[14..34][i];
    assert f[18..22] == f[14..34][4..8] && f[26..30] == f[14..34][12..16] && f[30..34] == f[14..34][16..20];
    forall i | 0 <= i < n - 20
      ensures f[34 + i] as nat == i % 256
    {
      assert f[34 + i] == f[34..][i];
      PatternValue(i);
    }
  }

  method StoreChecksum(buf: array<bv8>, eth: Octets, bare: Octets, o: Order)
    requires buf.Length >= 36 && |eth| == 14 && |bare| == 20 && buf[2..36] == eth + bare
    modifies buf
    ensures buf[2..36] == eth + Overlay(bare, 10, Stored(Checksum(bare, o), o))
  {
    hide Stored, Checksum, Overlay;
    assert buf[16..36] == (eth + bare)[14..] == bare;
    var sum := HdrChecksum(buf, 16, 20, o);
    ghost var w := buf[..];
    Put(buf, 26, Stored(sum, o));
    OverlaySlice(w, 26, Stored(sum, o), 2, 36);
    assert buf[2..36] == Overlay(eth + bare, 24, Stored(sum, o));
    OverlaySlice(eth + bare, 24, Stored(sum, o), 14, 34);
    OverlaySlice(eth + bare, 24, Stored(sum, o), 0, 14);
    assert (eth + bare)[14..34] == bare && (eth + bare)[..14] == eth;
    assert buf[2..36] == buf[2..36][..14] + buf[2..36][14..];
  }

  method WriteHeaders(buf: array<bv8>, dst: Mac, src: Mac, tos: bv8, n: nat, o: Order)
    requires buf.Length == 2 + PACKET_LEN && n <= MAX_WORD
    modifies buf
    ensures buf[2..36] == dst + src + [8, 0] + Header(tos, n, o)
  {
    hide Stored, Checksum, BareHeader, Overlay;
    var eth, bare := dst + src + [8, 0], BareHeader(tos, n);
    Put(buf, 2, eth + bare);
    OverlaySlice(old(buf[..]), 2, eth + bare, 2, 36);
    assert buf[2..36] == eth + bare;
    StoreChecksum(buf, eth, bare, o);
  }

  method WritePayload(buf: array<bv8>, at: nat, n: nat)
    requires at + n <= buf.Length
    modifies buf
    ensures buf[..at] == old(buf[..at]) && buf[at..at + n] == Payload(n)
  {
    hide Pattern;
    for i := 0 to n
      invariant buf[..at] == old(buf[..at])
      invariant forall k | 0 <= k < i :: buf[at + k] == Pattern(k)
    {
      buf[at + i] := Pattern(i);
    }
  }

  /** hostapd_ctrl_iface_data_test_tx once the command is split: the octets handed to the socket. */
  method DataTestTx(dst: Mac, src: Mac, tos: int, len: Option<int>, o: Order) returns (r: Option<Octets>)
    ensures r.None? <==> !(0 <= tos <= 0xff) || (len.Some? && !(20 <= len.value <= IP_LEN))
    ensures r.Some? ==> var n := if len.Some? then len.value else IP_LEN; r.value == TestFrame(dst, src, OctetOf(tos), n, o)
  {
    hide Header, Pattern;
    if tos < 0 || tos > 0xff {
      return None;
    }
    var n: nat := IP_LEN;
    if len.Some? {
      if len.value < 20 || len.value > IP_LEN {
        return None;
      }
      n := len.value;
    }
    var buf := new bv8[2 + PACKET_LEN](_ => 0);
    WriteHeaders(buf, dst, src, OctetOf(tos), n, o);
    ghost var head := buf[2..36];
    WritePayload(buf, 36, n - 20);
    assert buf[2..36] == buf[..36][2..] == head;
    assert buf[2..2 + 14 + n] == buf[2..36] + buf[36..16 + n];
    r := Some(buf[2..2 + 14 + n]);
  }

  datatype Report = Report(dst: Mac, src: Mac, len: Option<nat>)

  function ClaimedLen(buf: Octets): nat
    requires |buf| >= 34
  {
    Word(buf[16], buf[17], Big)
  }

  /** What happens to a received frame: nothing, a report, or a read past its end. */
  datatype Outcome = Ignored | Reported(r: Report) | Overrun

  /** The tests ahead of the payload comparison. */
  predicate HeaderPasses(buf: Octets)
  {
    34 <= |buf| <= PACKET_LEN && buf[14] == 0x45 && ClaimedLen(buf) <= IP_LEN
  }

  /** The claimed IP length covers the header and stays inside the frame. */
  predicate LengthFits(buf: Octets)
    requires |buf| >= 34
  {
    20 <= ClaimedLen(buf) <= |buf| - 14
  }

  function Received(buf: Octets): Outcome
  {
    if !HeaderPasses(buf) then Ignored
    else if !LengthFits(buf) then (if buf[34..] == Payload(|buf| - 34) then Overrun else Ignored)
    else if buf[34..14 + ClaimedLen(buf)] == Payload(ClaimedLen(buf) - 20)
    then Reported(Report(buf[..6], buf[6..12], if ClaimedLen(buf) == IP_LEN then None else Some(ClaimedLen(buf))))
    else Ignored
  }

  const SIZE_T: nat := 0x1_0000_0000_0000_0000

  /** The loop bound: the claimed length less the header, in unsigned arithmetic. */
  function PayloadBound(claimed: nat): nat
    requires claimed <= MAX_WORD
  {
    if claimed >= 20 then claimed - 20 else SIZE_T + claimed - 20
  }

  lemma PayloadDiffers(buf: Octets, n: nat, i: nat)
    requires |buf| >= 34 && n <= MAX_WORD && i < |buf| - 34 && i < PayloadBound(n) && buf[34 + i] != Pattern(i)
    ensures buf[34..] != Payload(|buf| - 34)
    ensures 20 <= n <= |buf| - 14 ==> buf[34..14 + n] != Payload(n - 20)
  {
    hide Pattern;
    assert buf[34..][i] != Payload(|buf| - 34)[i];
    if 20 <= n <= |buf| - 14 {
      assert buf[34..14 + n][i] != Payload(n - 20)[i];
    }
  }

  /** hostapd_data_test_rx; a payload octet past the end of the frame ends the model's run. */
  method DataTestRx(buf: Octets) returns (r: Outcome)
    ensures r == Received(buf)
    ensures r.Overrun? <==>
              HeaderPasses(buf) && buf[34..] == Payload(|buf| - 34) && !(20 <= ClaimedLen(buf) <= |buf| - 14)
    ensures r.Reported? ==> HeaderPasses(buf) && LengthFits(buf)
  {
    hide Pattern, Word;
    if |buf| < 34 || |buf| > PACKET_LEN {
      return Ignored;
    }
    var n := ClaimedLen(buf);
    if buf[14] != 0x45 || n > IP_LEN {
      return Ignored;
    }
    var i := 0;
    while i < PayloadBound(n)
      invariant 0 <= i <= |buf| - 34 && i <= PayloadBound(n)
      invariant forall k | 0 <= k < i :: buf[34 + k] == Pattern(k)
      decreases PayloadBound(n) - i
    {
      if 34 + i >= |buf| {
        assert buf[34..] == Payload(|buf| - 34);
        return Overrun;
      }
      if buf[34 + i] != Pattern(i) {
        PayloadDiffers(buf, n, i);
        return Ignored;
      }
      i := i + 1;
    }
    assert buf[34..14 + n] == Payload(n - 20);
    r := Reported(Report(buf[..6], buf[6..12], if n != IP_LEN then Some(n) else None));
  }

  lemma SmallWord()
    ensures Word(0, 21, Big) == 21
  {
  }

  /** A frame of a bare header whose length field says one octet of payload. */
  lemma BareHeaderOverruns()
    ensures Received(ZeroOctets(14) + [0x45, 0, 0, 21] + ZeroOctets(16)) == Overrun
  {
    hide Pattern, OctetValue;
    var buf := ZeroOctets(14) + [0x45, 0, 0, 21] + ZeroOctets(16);
    assert buf[14] == 0x45 && buf[16] == 0 && buf[17] == 21;
    SmallWord();
    assert buf[34..] == [] == Payload(0);
  }

  /** Every frame that can be sent is reported with the addresses and length it was sent with. */
  lemma TxReceived(dst: Mac, src: Mac, tos: bv8, n: nat, o: Order)
    requires 20 <= n <= IP_LEN
    ensures var f := TestFrame(dst, src, tos, n, o);
            && Received(f) == Reported(Report(dst, src, if n == IP_LEN then None else Some(n)))
            && Verifies(f[14..34], o)
  {
    hide Checksum, Stored, Word, Pattern;
    var f := TestFrame(dst, src, tos, n, o);
    var head := Header(tos, n, o);
    assert f[14..34] == head;
    assert f[16..18] == Stored(n, Big);
    assert f[16] == f[16..18][0] && f[17] == f[16..18][1];
    assert f[..6] == dst && f[6..12] == src;
    assert f[34..14 + n] == Payload(n - 20);
    ChecksumVerifies(BareHeader(tos, n), 5, o);
  }

  /** Hosts of either byte order send the same octets. */
  lemma SameOnAnyHost(dst: Mac, src: Mac, tos: bv8, n: nat)
    requires 20 <= n <= IP_LEN
    ensures TestFrame(dst, src, tos, n, Little) == TestFrame(dst, src, tos, n, Big)
  {
    hide Checksum, Stored;
    OrderFree(BareHeader(tos, n));
  }
}
