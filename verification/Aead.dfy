/** CCMP, CCMP-256 and GCMP frame protection: AAD, nonce and framing around an abstract cipher. */
module Aead {
  import opened Bits
  import opened Frames

  datatype Suite = Ccmp | Ccmp256 | Gcmp

  function MicLen(suite: Suite): nat
  {
    if suite == Ccmp then 8 else 16
  }

  /** AES-CCM or AES-GCM: key, nonce, AAD and text to ciphertext with its MIC, and back. */
  datatype Cipher = Cipher(seal: (Octets, Octets, Octets, Octets) -> Octets,
                           open: (Octets, Octets, Octets, Octets) -> Option<Octets>)
  {
    ghost predicate Sound(micLen: nat)
    {
      forall k, n, a, p :: |seal(k, n, a, p)| == |p| + micLen && open(k, n, a, seal(k, n, a, p)) == Some(p)
    }
  }

  /** Octets after the 24-octet header that the AAD covers: address 4 and QoS Control. */
  function TailLen(fc: bv16): nat
  {
    (if FourAddr(fc) then 6 else 0) + (if QosData(fc) then 2 else 0)
  }

  function QosAt(fc: bv16): nat
  {
    if FourAddr(fc) then 30 else 24
  }

  function WithoutSubtype(fc: bv16): bv16 { fc & 0xff8f }

  function WithoutOrder(fc: bv16): bv16 { fc & 0x7fff }

  function WithProtected(fc: bv16): bv16 { fc | 0x4000 }

  /** The Frame Control field as the AAD carries it. */
  function MaskedFc(suite: Suite, fc: bv16): bv16
  {
    var m := if FcType(fc) != TYPE_DATA then fc
             else if QosData(fc) then WithoutOrder(WithoutSubtype(fc))
             else WithoutSubtype(fc);
    if suite == Gcmp then WithoutFlags(m) else WithProtected(WithoutFlags(m))
  }

  function Or(a: Option<Mac>, b: Mac): Mac
  {
    if a.Some? then a.value else b
  }

  /** Address overrides: the MLD addresses used in place of those in the frame. */
  datatype Override = Override(a1: Option<Mac>, a2: Option<Mac>, a3: Option<Mac>)

  predicate LongEnough(f: Octets)
  {
    |f| >= 24 && |f| >= 24 + TailLen(Fc(f))
  }

  /** Control field, three addresses and the fragment number. */
  function AadFixed(suite: Suite, f: Octets, o: Override): (r: Octets)
    requires |f| >= 24
    ensures |r| == 22
  {
    var fc := MaskedFc(suite, Fc(f));
    [Low(fc), High(fc)] + Or(o.a1, Addr1(f)) + Or(o.a2, Addr2(f)) + Or(o.a3, Addr3(f)) + [f[22] & 0x0f, 0]
  }

  function Aad(suite: Suite, f: Octets, o: Override): (r: Octets)
    requires LongEnough(f)
    ensures |r| == 22 + TailLen(Fc(f)) <= 30
  {
    var fc := Fc(f);
    AadFixed(suite, f, o)
    + (if FourAddr(fc) then f[24..30] else [])
    + (if QosData(fc) then [f[QosAt(fc)] & 0x0f, 0] else [])
  }

  /** The first nonce octet of CCMP: the TID, or 0x10 in Management frames. */
  function Priority(f: Octets): bv8
    requires LongEnough(f)
  {
    var fc := Fc(f);
    if QosData(fc) then f[QosAt(fc)] & 0x0f
    else if FcType(fc) == TYPE_MGMT then 0x10
    else 0
  }

  function Nonce(suite: Suite, f: Octets, o: Override, pn: Octets): (r: Octets)
    requires LongEnough(f) && |pn| == 6
    ensures |r| == if suite == Gcmp then 12 else 13
  {
    (if suite == Gcmp then [] else [Priority(f)]) + Or(o.a2, Addr2(f)) + pn
  }

  /** The eight octets between header and ciphertext; the packet number is stored from its last octet. */
  function CipherHeader(pn: Octets, keyId: bv8): (r: Octets)
    requires |pn| == 6
    ensures |r| == 8
  {
    [pn[5], pn[4], 0, 0x20 | (keyId << 6), pn[3], pn[2], pn[1], pn[0]]
  }

  function GetPn(data: Octets): (pn: Octets)
    requires |data| >= 8
    ensures |pn| == 6
  {
    [data[7], data[6], data[5], data[4], data[1], data[0]]
  }

  /** Header and cipher header as sent. CCMP sets the Protected Frame bit; GCMP leaves it to the caller. */
  function Head(suite: Suite, frame: Octets, hdrLen: nat, pn: Octets, keyId: bv8): (r: Octets)
    requires 24 <= hdrLen <= |frame| && |pn| == 6
    ensures |r| == hdrLen + 8
  {
    (if suite == Gcmp then frame[..hdrLen] else frame[..hdrLen][1 := frame[1] | 0x40]) + CipherHeader(pn, keyId)
  }

  /** The protected frame, or nothing when the frame is shorter than its header. */
  function Sealed(suite: Suite, c: Cipher, tk: Octets, frame: Octets, hdrLen: nat, o: Override, pn: Octets, keyId: bv8)
    : Option<Octets>
    requires |pn| == 6
  {
    if |frame| < hdrLen || hdrLen < 24 then None
    else
      var h := Head(suite, frame, hdrLen, pn, keyId);
      Some(h + c.seal(tk, Nonce(suite, h, o, pn), Aad(suite, h, o), frame[hdrLen..]))
  }

  /** The payload of a received frame whose MIC is valid. */
  function Opened(suite: Suite, c: Cipher, tk: Octets, sent: Octets, hdrLen: nat, o: Override): Option<Octets>
    requires 24 <= hdrLen <= |sent|
  {
    var data := sent[hdrLen..];
    if |data| < 8 + MicLen(suite) then None
    else c.open(tk, Nonce(suite, sent, o, GetPn(data)), Aad(suite, sent, o), data[8..])
  }

  /** AAD and nonce look at no octet past the cipher header. */
  lemma HeadDecides(suite: Suite, h: Octets, body: Octets, o: Override, pn: Octets)
    requires |h| >= 32 && |pn| == 6
    ensures Aad(suite, h + body, o) == Aad(suite, h, o)
    ensures Nonce(suite, h + body, o, pn) == Nonce(suite, h, o, pn)
  {
    hide MaskedFc, Low, High;
    var f, fc := h + body, Fc(h);
    assert Fc(f) == fc;
    assert Addr1(f) == Addr1(h) && Addr2(f) == Addr2(h) && Addr3(f) == Addr3(h);
    assert FourAddr(fc) ==> f[24..30] == h[24..30];
  }

  /** Decryption undoes encryption, for every frame no shorter than its header, and recovers the PN. */
  lemma OpenedSealed(suite: Suite, c: Cipher, tk: Octets, frame: Octets, hdrLen: nat, o: Override, pn: Octets, keyId: bv8)
    requires c.Sound(MicLen(suite)) && |pn| == 6 && 24 <= hdrLen <= |frame|
    ensures var sent := Sealed(suite, c, tk, frame, hdrLen, o, pn, keyId).value;
            && |sent| == |frame| + 8 + MicLen(suite)
            && GetPn(sent[hdrLen..]) == pn
            && Opened(suite, c, tk, sent, hdrLen, o) == Some(frame[hdrLen..])
  {
    hide Aad, Nonce;
    var h := Head(suite, frame, hdrLen, pn, keyId);
    var body := c.seal(tk, Nonce(suite, h, o, pn), Aad(suite, h, o), frame[hdrLen..]);
    var sent := h + body;
    var data := sent[hdrLen..];
    assert data == CipherHeader(pn, keyId) + body;
    assert GetPn(data) == pn;
    assert data[8..] == body;
    HeadDecides(suite, h, body, o, pn);
  }

  lemma KeyIdOctet(keyId: bv8)
    ensures var x := 0x20 | (keyId << 6); x & 0x20 != 0 && x >> 6 == keyId & 3 && x & 0x1f == 0
  {
  }

  /**
   * What everyone can read of a protected frame: the header, with the Protected Frame bit set by CCMP and as given for
   * GCMP, then Ext IV and the key ID in the fourth octet of the cipher header.
   */
  lemma SentHeader(suite: Suite, c: Cipher, tk: Octets, frame: Octets, hdrLen: nat, o: Override, pn: Octets, keyId: bv8)
    requires |pn| == 6 && 24 <= hdrLen <= |frame|
    ensures var sent := Sealed(suite, c, tk, frame, hdrLen, o, pn, keyId).value;
            && |sent| >= hdrLen + 8
            && (forall i | 0 <= i < hdrLen && i != 1 :: sent[i] == frame[i])
            && sent[1] == (if suite == Gcmp then frame[1] else frame[1] | 0x40)
            && sent[hdrLen + 2] == 0 && sent[hdrLen + 3] & 0x20 != 0 && sent[hdrLen + 3] & 0x1f == 0
            && sent[hdrLen + 3] >> 6 == keyId & 3
  {
    hide Aad, Nonce;
    var h := Head(suite, frame, hdrLen, pn, keyId);
    KeyIdOctet(keyId);
    assert h[hdrLen + 2] == CipherHeader(pn, keyId)[2] && h[hdrLen + 3] == CipherHeader(pn, keyId)[3];
  }

  // What the AAD and nonce cover -------------------------------------------------------------

  /** The header fields that protection covers; everything else in a header is masked. */
  datatype View = View(version: bv8, ftype: bv8, stype: bv8, toDs: bool, fromDs: bool, moreFrag: bool,
                       protectedBit: bool, htc: bool, a1: Mac, a2: Mac, a3: Mac, fragment: bv8,
                       a4: Option<Mac>, tid: Option<bv8>)

  function FourthAddr(f: Octets): Option<Mac>
    requires LongEnough(f)
  {
    if FourAddr(Fc(f)) then Some(f[24..30]) else None
  }

  function Tid(f: Octets): Option<bv8>
    requires LongEnough(f)
  {
    if QosData(Fc(f)) then Some(f[QosAt(Fc(f))] & 0x0f) else None
  }

  /** Data subtypes keep only the QoS bit; QoS data drops the +HTC bit; CCMP always counts the frame as protected. */
  function ViewOf(suite: Suite, f: Octets, o: Override): View
    requires LongEnough(f)
  {
    var data, qos := f[0] & 0x0c == 0x08, f[0] & 0x8c == 0x88;
    View(f[0] & 0x03, f[0] & 0x0c, if data then f[0] & 0x80 else f[0] & 0xf0,
         f[1] & 0x01 != 0, f[1] & 0x02 != 0, f[1] & 0x04 != 0,
         suite != Gcmp || f[1] & 0x40 != 0, !qos && f[1] & 0x80 != 0,
         Or(o.a1, Addr1(f)), Or(o.a2, Addr2(f)), Or(o.a3, Addr3(f)), f[22] & 0x0f,
         FourthAddr(f), Tid(f))
  }

  function KeptLow(x0: bv8): bv8
  {
    if x0 & 0x0c == 0x08 then x0 & 0x8f else x0
  }

  function KeptHigh(suite: Suite, x0: bv8, x1: bv8): bv8
  {
    var m := if x0 & 0x8c == 0x88 then x1 & 0x47 else x1 & 0xc7;
    if suite == Gcmp then m else m | 0x40
  }

  /** The masked Frame Control field, octet by octet. */
  lemma MaskedOctets(suite: Suite, x0: bv8, x1: bv8)
    ensures Low(MaskedFc(suite, Le16(x0, x1))) == KeptLow(x0)
    ensures High(MaskedFc(suite, Le16(x0, x1))) == KeptHigh(suite, x0, x1)
  {
  }

  lemma ControlBits(x0: bv8, x1: bv8)
    ensures FourAddr(Le16(x0, x1)) <==> x1 & 0x01 != 0 && x1 & 0x02 != 0
    ensures QosData(Le16(x0, x1)) <==> x0 & 0x8c == 0x88
    ensures FcType(Le16(x0, x1)) == TYPE_DATA <==> x0 & 0x0c == 0x08
    ensures FcType(Le16(x0, x1)) == TYPE_MGMT <==> x0 & 0x0c == 0
  {
  }

  lemma KeptExact(suite: Suite, x0: bv8, x1: bv8, y0: bv8, y1: bv8)
    ensures (KeptLow(x0) == KeptLow(y0) && KeptHigh(suite, x0, x1) == KeptHigh(suite, y0, y1))
       <==> (&& x0 & 0x03 == y0 & 0x03 && x0 & 0x0c == y0 & 0x0c
             && (if x0 & 0x0c == 0x08 then x0 & 0x80 else x0 & 0xf0) == (if y0 & 0x0c == 0x08 then y0 & 0x80 else y0 & 0xf0)
             && (x1 & 0x01 != 0) == (y1 & 0x01 != 0)
             && (x1 & 0x02 != 0) == (y1 & 0x02 != 0)
             && (x1 & 0x04 != 0) == (y1 & 0x04 != 0)
             && (suite != Gcmp || x1 & 0x40 != 0) == (suite != Gcmp || y1 & 0x40 != 0)
             && (x0 & 0x8c != 0x88 && x1 & 0x80 != 0) == (y0 & 0x8c != 0x88 && y1 & 0x80 != 0))
  {
  }

  /** Split an AAD into its fixed and optional parts. */
  lemma FixedSlices(c: Octets, a1: Mac, a2: Mac, a3: Mac, sc: Octets, tail: Octets)
    requires |c| == 2 && |sc| == 2
    ensures var a := c + a1 + a2 + a3 + sc + tail;
            && a[0] == c[0] && a[1] == c[1] && a[2..8] == a1 && a[8..14] == a2 && a[14..20] == a3
            && a[20] == sc[0] && a[21] == sc[1] && a[22..] == tail
  {
    var a := c + a1 + a2 + a3 + sc + tail;
    assert a == (c + a1 + a2 + a3) + (sc + tail);
    assert a[..20] == c + a1 + a2 + a3;
    assert a[2..8] == a[..20][2..8] && a[8..14] == a[..20][8..14] && a[14..20] == a[..20][14..20];
  }

  /** What follows the fixed part: the fourth address and the TID. */
  function Tail(f: Octets): (r: Octets)
    requires LongEnough(f)
    ensures |r| == TailLen(Fc(f))
  {
    var fc := Fc(f);
    (if FourAddr(fc) then f[24..30] else []) + (if QosData(fc) then [f[QosAt(fc)] & 0x0f, 0] else [])
  }

  lemma AadHead(suite: Suite, f: Octets, o: Override)
    requires LongEnough(f)
    ensures var a := Aad(suite, f, o);
            && a[0] == KeptLow(f[0]) && a[1] == KeptHigh(suite, f[0], f[1])
            && a[2..8] == Or(o.a1, Addr1(f)) && a[8..14] == Or(o.a2, Addr2(f)) && a[14..20] == Or(o.a3, Addr3(f))
            && a[20] == f[22] & 0x0f && a[21] == 0 && a[22..] == Tail(f)
  {
    hide MaskedFc, Low, High, KeptLow, KeptHigh, FourAddr, QosData, Or;
    MaskedOctets(suite, f[0], f[1]);
    var fc := MaskedFc(suite, Fc(f));
    assert Aad(suite, f, o) == AadFixed(suite, f, o) + Tail(f);
    FixedSlices([Low(fc), High(fc)], Or(o.a1, Addr1(f)), Or(o.a2, Addr2(f)), Or(o.a3, Addr3(f)), [f[22] & 0x0f, 0], Tail(f));
  }

  lemma AadParts(suite: Suite, f: Octets, o: Override)
    requires LongEnough(f)
    ensures var a := Aad(suite, f, o);
            && a[0] == KeptLow(f[0]) && a[1] == KeptHigh(suite, f[0], f[1])
            && a[2..8] == Or(o.a1, Addr1(f)) && a[8..14] == Or(o.a2, Addr2(f)) && a[14..20] == Or(o.a3, Addr3(f))
            && a[20] == f[22] & 0x0f && a[21] == 0
            && (FourAddr(Fc(f)) ==> a[22..28] == f[24..30])
            && (QosData(Fc(f)) ==> a[QosAt(Fc(f)) - 2] == f[QosAt(Fc(f))] & 0x0f && a[QosAt(Fc(f)) - 1] == 0)
  {
    hide Aad, KeptLow, KeptHigh, FourAddr, QosData, Or;
    AadHead(suite, f, o);
    var a, tail := Aad(suite, f, o), Tail(f);
    assert forall i | 0 <= i < |tail| :: a[22 + i] == tail[i];
    if FourAddr(Fc(f)) {
      assert a[22..28] == tail[..6] == f[24..30];
    }
  }

  /** Agreement on the masked octets rather than on the fields. */
  predicate Agree(suite: Suite, f: Octets, o: Override, g: Octets, p: Override)
    requires LongEnough(f) && LongEnough(g)
  {
    && KeptLow(f[0]) == KeptLow(g[0]) && KeptHigh(suite, f[0], f[1]) == KeptHigh(suite, g[0], g[1])
    && Or(o.a1, Addr1(f)) == Or(p.a1, Addr1(g)) && Or(o.a2, Addr2(f)) == Or(p.a2, Addr2(g))
    && Or(o.a3, Addr3(f)) == Or(p.a3, Addr3(g)) && f[22] & 0x0f == g[22] & 0x0f
    && FourthAddr(f) == FourthAddr(g) && Tid(f) == Tid(g)
  }

  lemma ViewAgree(suite: Suite, f: Octets, o: Override, g: Octets, p: Override)
    requires LongEnough(f) && LongEnough(g)
    ensures ViewOf(suite, f, o) == ViewOf(suite, g, p) <==> Agree(suite, f, o, g, p)
  {
    hide KeptLow, KeptHigh, FourthAddr, Tid;
    KeptExact(suite, f[0], f[1], g[0], g[1]);
  }

  lemma KeptShape(suite: Suite, x0: bv8, x1: bv8, y0: bv8, y1: bv8)
    requires KeptLow(x0) == KeptLow(y0) && KeptHigh(suite, x0, x1) == KeptHigh(suite, y0, y1)
    ensures FourAddr(Le16(x0, x1)) == FourAddr(Le16(y0, y1)) && QosData(Le16(x0, x1)) == QosData(Le16(y0, y1))
    ensures FcType(Le16(x0, x1)) == TYPE_MGMT <==> FcType(Le16(y0, y1)) == TYPE_MGMT
  {
    hide FourAddr, QosData, FcType;
    ControlBits(x0, x1);
    ControlBits(y0, y1);
    KeptExact(suite, x0, x1, y0, y1);
  }

  lemma AadToAgree(suite: Suite, f: Octets, o: Override, g: Octets, p: Override)
    requires LongEnough(f) && LongEnough(g) && Aad(suite, f, o) == Aad(suite, g, p)
    ensures Agree(suite, f, o, g, p)
  {
    hide Aad, KeptLow, KeptHigh, FourAddr, QosData, Le16;
    AadParts(suite, f, o);
    AadParts(suite, g, p);
    KeptShape(suite, f[0], f[1], g[0], g[1]);
  }

  lemma AgreeToAad(suite: Suite, f: Octets, o: Override, g: Octets, p: Override)
    requires LongEnough(f) && LongEnough(g) && Agree(suite, f, o, g, p)
    ensures Aad(suite, f, o) == Aad(suite, g, p)
  {
    hide KeptLow, KeptHigh, FourAddr, QosData, MaskedFc, Low, High, Le16;
    MaskedOctets(suite, f[0], f[1]);
    MaskedOctets(suite, g[0], g[1]);
  }

  /** Two frames have one AAD exactly when they agree on every covered field. */
  lemma AadExact(suite: Suite, f: Octets, o: Override, g: Octets, p: Override)
    requires LongEnough(f) && LongEnough(g)
    ensures Aad(suite, f, o) == Aad(suite, g, p) <==> ViewOf(suite, f, o) == ViewOf(suite, g, p)
  {
    hide Aad, ViewOf, Agree;
    ViewAgree(suite, f, o, g, p);
    if Aad(suite, f, o) == Aad(suite, g, p) {
      AadToAgree(suite, f, o, g, p);
    } else if Agree(suite, f, o, g, p) {
      AgreeToAad(suite, f, o, g, p);
    }
  }

  /** Equal AAD and nonce mean equal covered fields and equal packet numbers, and nothing more. */
  lemma AadNonceExact(suite: Suite, f: Octets, o: Override, m: Octets, g: Octets, p: Override, n: Octets)
    requires LongEnough(f) && LongEnough(g) && |m| == |n| == 6
    ensures (Aad(suite, f, o) == Aad(suite, g, p) && Nonce(suite, f, o, m) == Nonce(suite, g, p, n))
       <==> (ViewOf(suite, f, o) == ViewOf(suite, g, p) && m == n)
  {
    hide Aad, ViewOf, FourAddr, QosData, FcType, FcStype, Le16, KeptLow, KeptHigh;
    AadExact(suite, f, o, g, p);
    ViewAgree(suite, f, o, g, p);
    var x, y := Nonce(suite, f, o, m), Nonce(suite, g, p, n);
    assert x[|x| - 6..] == m && y[|y| - 6..] == n;
    if Agree(suite, f, o, g, p) {
      KeptShape(suite, f[0], f[1], g[0], g[1]);
      assert Tid(f) == Tid(g);
    }
  }

  /** g is f but for Retry, Power Management, More Data, Duration, the sequence number and non-TID QoS bits. */
  predicate SameButMasked(f: Octets, g: Octets)
    requires LongEnough(f)
  {
    && |g| == |f| && f[0] == g[0] && f[1] & 0xc7 == g[1] & 0xc7
    && f[4..22] == g[4..22] && f[22] & 0x0f == g[22] & 0x0f
    && FourthAddr(f) == (if FourAddr(Fc(f)) then Some(g[24..30]) else None)
    && (QosData(Fc(f)) ==> f[QosAt(Fc(f))] & 0x0f == g[QosAt(Fc(f))] & 0x0f)
  }

  lemma KeptHighBits(suite: Suite, x0: bv8, x: bv8, y: bv8)
    requires x & 0xc7 == y & 0xc7
    ensures KeptHigh(suite, x0, x) == KeptHigh(suite, x0, y)
  {
  }

  lemma MaskedAgree(suite: Suite, f: Octets, g: Octets, o: Override)
    requires LongEnough(f) && SameButMasked(f, g)
    ensures LongEnough(g) && Agree(suite, f, o, g, o)
  {
    hide FourAddr, QosData, FcType, FcStype, Le16, KeptLow, KeptHigh;
    KeptHighBits(suite, f[0], f[1], g[1]);
    KeptShape(suite, f[0], f[1], g[0], g[1]);
    assert forall i | 4 <= i < 22 :: f[i] == f[4..22][i - 4] == g[i];
    assert f[4..10] == g[4..10] && f[10..16] == g[10..16] && f[16..22] == g[16..22];
  }

  /** Those fields never reach the AAD or the nonce. */
  lemma MaskedFieldsFree(suite: Suite, f: Octets, g: Octets, o: Override, pn: Octets)
    requires LongEnough(f) && SameButMasked(f, g) && |pn| == 6
    ensures LongEnough(g)
    ensures Aad(suite, f, o) == Aad(suite, g, o) && Nonce(suite, f, o, pn) == Nonce(suite, g, o, pn)
  {
    hide Aad, Nonce, ViewOf, Agree, SameButMasked;
    MaskedAgree(suite, f, g, o);
    ViewAgree(suite, f, o, g, o);
    AadNonceExact(suite, f, o, pn, g, o, pn);
  }
}
