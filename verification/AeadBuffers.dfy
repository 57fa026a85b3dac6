/** The buffer-filling code of ccmp.c and gcmp.c, against the functions of Aead. */
module AeadBuffers {
  import opened Bits
  import opened Frames
  import opened Aead

  method MaskControl(suite: Suite, control: bv16) returns (fc: bv16)
    ensures fc == MaskedFc(suite, control)
  {
    hide FcType, FcStype, WithoutSubtype, WithoutOrder, WithoutFlags, WithProtected;
    fc := control;
    if FcType(fc) == TYPE_DATA {
      var stype := FcStype(fc);
      fc := WithoutSubtype(fc);
      if stype & 0x08 != 0 {
        fc := WithoutOrder(fc);
      }
    }
    fc := WithoutFlags(fc);
    if suite != Gcmp {
      fc := WithProtected(fc);
    }
  }

  lemma LowNibble(x: bv8)
    ensures (x & 0x8f) & 0x7f == x & 0x0f
  {
  }

  /** A buffer after one address slot has been replaced, when there is an override. */
  function Replaced(w: Octets, at: nat, a: Option<Mac>): (r: Octets)
    requires at + 6 <= |w|
    ensures |r| == |w|
  {
    if a.Some? then Overlay(w, at, a.value) else w
  }

  method ReplaceAddress(aad: array<bv8>, at: nat, a: Option<Mac>)
    requires at + 6 <= aad.Length
    modifies aad
    ensures aad[..] == Replaced(old(aad[..]), at, a)
  {
    if a.Some? {
      Put(aad, at, a.value);
    }
  }

  lemma ReplacedSlot(w: Octets, at: nat, a: Option<Mac>, lo: nat)
    requires at + 6 <= |w| && lo + 6 <= |w| && (lo == at || lo + 6 <= at || at + 6 <= lo)
    ensures Replaced(w, at, a)[lo..lo + 6] == if lo == at then Or(a, w[at..at + 6]) else w[lo..lo + 6]
  {
    if a.Some? {
      OverlaySlice(w, at, a.value, lo, lo + 6);
    }
  }

  lemma ReplacedHead(w: Octets, at: nat, a: Option<Mac>)
    requires at + 6 <= |w|
    ensures Replaced(w, at, a)[..at] == w[..at]
  {
    if a.Some? {
      OverlaySlice(w, at, a.value, 0, at);
    }
  }

  /** Three replacements in a row leave each slot with its own address. */
  lemma AddressSlots(w: Octets, a1: Option<Mac>, a2: Option<Mac>, a3: Option<Mac>)
    requires |w| >= 20
    ensures var x := Replaced(w, 2, a1);
            var y := Replaced(x, 8, a2);
            Replaced(y, 14, a3)[..20] == w[..2] + Or(a1, w[2..8]) + Or(a2, w[8..14]) + Or(a3, w[14..20])
  {
    hide Replaced, Or;
    var x := Replaced(w, 2, a1);
    ReplacedHead(w, 2, a1);
    ReplacedSlot(w, 2, a1, 2);
    ReplacedSlot(w, 2, a1, 8);
    ReplacedSlot(w, 2, a1, 14);
    var y := Replaced(x, 8, a2);
    ReplacedHead(x, 8, a2);
    ReplacedSlot(x, 8, a2, 8);
    ReplacedSlot(x, 8, a2, 14);
    var z := Replaced(y, 14, a3);
    ReplacedHead(y, 14, a3);
    ReplacedSlot(y, 14, a3, 14);
    assert z[..20] == z[..14] + z[14..20];
    assert y[..14] == y[..8] + y[8..14];
    assert x[..8] == x[..2] + x[2..8];
  }

  lemma SlotAt(w: Octets, f: Octets, fc: Octets, at: nat)
    requires |f| >= 24 && |fc| == 2 && |w| >= 20 && w[..20] == fc + f[4..22] && 2 <= at <= 14
    ensures w[at..at + 6] == f[at + 2..at + 8]
  {
    var l, r := w[at..at + 6], f[at + 2..at + 8];
    forall i | 0 <= i < 6
      ensures l[i] == r[i]
    {
      assert w[at + i] == w[..20][at + i] == f[4..22][at + i - 2];
    }
  }

  lemma HeaderSlots(w: Octets, f: Octets, fc: Octets)
    requires |f| >= 24 && |fc| == 2 && |w| >= 20 && w[..20] == fc + f[4..22]
    ensures w[..2] == fc && w[2..8] == Addr1(f) && w[8..14] == Addr2(f) && w[14..20] == Addr3(f)
  {
    SlotAt(w, f, fc, 2);
    SlotAt(w, f, fc, 8);
    SlotAt(w, f, fc, 14);
    assert w[..2] == w[..20][..2];
  }

  method FillFixed(suite: Suite, f: Octets, o: Override, aad: array<bv8>)
    requires aad.Length == 30 && |f| >= 24
    modifies aad
    ensures aad[..22] == AadFixed(suite, f, o)
  {
    hide MaskedFc, Low, High, Le16, Or, Replaced;
    var fc := MaskControl(suite, Le16(f[0], f[1]));
    var pos := Append(aad, 0, [Low(fc), High(fc)]);
    pos := Append(aad, pos, f[4..22]);
    ghost var w := aad[..];
    HeaderSlots(w, f, [Low(fc), High(fc)]);
    ReplaceAddress(aad, 2, o.a1);
    ReplaceAddress(aad, 8, o.a2);
    ReplaceAddress(aad, 14, o.a3);
    AddressSlots(w, o.a1, o.a2, o.a3);
    pos := Append(aad, pos, [f[22] & 0x0f, 0]);
  }

  method FillQos(aad: array<bv8>, pos: nat, qos: Octets) returns (end: nat)
    requires pos + 2 <= aad.Length && |qos| == 2
    modifies aad
    ensures end == pos + 2 && aad[..end] == old(aad[..pos]) + [qos[0] & 0x0f, 0]
  {
    LowNibble(qos[0]);
    Put(aad, pos, qos);
    aad[pos] := aad[pos] & 0x8f;
    aad[pos] := aad[pos] & 0x7f;
    aad[pos + 1] := 0;
    end := pos + 2;
  }

  method FillAad(suite: Suite, f: Octets, o: Override, aad: array<bv8>) returns (aadLen: nat)
    requires aad.Length == 30 && LongEnough(f)
    modifies aad
    ensures aadLen == 22 + TailLen(Fc(f)) && aad[..aadLen] == Aad(suite, f, o)
  {
    hide FourAddr, QosData, Le16, AadFixed;
    FillFixed(suite, f, o, aad);
    var fc := Fc(f);
    aadLen := 22;
    if FourAddr(fc) {
      aadLen := Append(aad, aadLen, f[24..30]);
    }
    if QosData(fc) {
      aadLen := FillQos(aad, aadLen, f[QosAt(fc)..QosAt(fc) + 2]);
    }
  }

  method FillNonce(suite: Suite, f: Octets, data: nat, o: Override, nonce: array<bv8>)
    requires nonce.Length == (if suite == Gcmp then 12 else 13)
    requires LongEnough(f) && data + 8 <= |f|
    modifies nonce
    ensures nonce[..] == Nonce(suite, f, o, GetPn(f[data..]))
  {
    hide FourAddr, QosData, FcType, Le16;
    var at := 0;
    if suite != Gcmp {
      at := Append(nonce, 0, [Priority(f)]);
    }
    at := Append(nonce, at, if o.a2.Some? then o.a2.value else f[10..16]);
    at := Append(nonce, at, [f[data + 7], f[data + 6], f[data + 5], f[data + 4], f[data + 1], f[data]]);
    assert nonce[..] == nonce[..at];
  }

  /** ccmp_aad_nonce and gcmp_aad_nonce; data is where the cipher header starts. */
  method AadNonce(suite: Suite, f: Octets, data: nat, o: Override) returns (aad: Octets, nonce: Octets)
    requires LongEnough(f) && data + 8 <= |f|
    ensures aad == Aad(suite, f, o)
    ensures nonce == Nonce(suite, f, o, GetPn(f[data..]))
  {
    hide Aad, Nonce;
    var a := new bv8[30](_ => 0);
    var n := new bv8[if suite == Gcmp then 12 else 13](_ => 0);
    var aadLen := FillAad(suite, f, o, a);
    FillNonce(suite, f, data, o, n);
    aad, nonce := a[..aadLen], n[..];
  }

  /** Header, Protected Frame bit and cipher header, at the start of the output buffer. */
  method FillHead(suite: Suite, frame: Octets, hdrLen: nat, pn: Octets, keyId: bv8, crypt: array<bv8>)
    requires 24 <= hdrLen <= |frame| && |pn| == 6 && hdrLen + 8 <= crypt.Length
    modifies crypt
    ensures crypt[..hdrLen + 8] == Head(suite, frame, hdrLen, pn, keyId)
  {
    var pos := Append(crypt, 0, frame[..hdrLen]);
    assert crypt[1] == crypt[..pos][1] == frame[1];
    if suite != Gcmp {
      crypt[1] := crypt[1] | 0x40;
    }
    pos := Append(crypt, pos, [pn[5], pn[4], 0, 0x20 | (keyId << 6), pn[3], pn[2], pn[1], pn[0]]);
  }

  lemma HeadPn(suite: Suite, frame: Octets, hdrLen: nat, pn: Octets, keyId: bv8)
    requires 24 <= hdrLen <= |frame| && |pn| == 6
    ensures GetPn(Head(suite, frame, hdrLen, pn, keyId)[hdrLen..]) == pn
  {
    assert Head(suite, frame, hdrLen, pn, keyId)[hdrLen..] == CipherHeader(pn, keyId);
  }

  lemma LongHead(h: Octets)
    requires |h| >= 32
    ensures LongEnough(h)
  {
  }

  /** ccmp_encrypt, ccmp_256_encrypt and gcmp_encrypt. */
  method Encrypt(suite: Suite, c: Cipher, tk: Octets, frame: Octets, hdrLen: nat, o: Override, pn: Octets, keyId: bv8)
    returns (r: Option<Octets>)
    requires c.Sound(MicLen(suite)) && |pn| == 6
    ensures r == Sealed(suite, c, tk, frame, hdrLen, o, pn, keyId)
    ensures r.None? <==> |frame| < hdrLen || hdrLen < 24
    ensures r.Some? ==>
              && |r.value| == |frame| + 8 + (if suite == Ccmp then 8 else 16)
              && (forall i | 0 <= i < hdrLen && i != 1 :: r.value[i] == frame[i])
              && r.value[1] == (if suite == Gcmp then frame[1] else frame[1] | 0x40)
              && r.value[hdrLen + 2] == 0 && r.value[hdrLen + 3] & 0x20 != 0 && r.value[hdrLen + 3] >> 6 == keyId & 3
  {
    hide Aad, Nonce, LongEnough, Head;
    if |frame| < hdrLen || hdrLen < 24 {
      return None;
    }
    SentHeader(suite, c, tk, frame, hdrLen, o, pn, keyId);
    var plen := |frame| - hdrLen;
    var crypt := new bv8[hdrLen + 8 + plen + MicLen(suite)](_ => 0);
    FillHead(suite, frame, hdrLen, pn, keyId, crypt);
    var h := crypt[..hdrLen + 8];
    LongHead(h);
    var aad, nonce := AadNonce(suite, h, hdrLen, o);
    HeadPn(suite, frame, hdrLen, pn, keyId);
    var body := c.seal(tk, nonce, aad, frame[hdrLen..]);
    Put(crypt, hdrLen + 8, body);
    assert crypt[..] == h + body;
    assert |crypt[..]| == |frame| + 8 + MicLen(suite);
    r := Some(crypt[..]);
  }

  /** ccmp_decrypt, ccmp_256_decrypt and gcmp_decrypt on a frame whose header is hdrLen octets long. */
  method Decrypt(suite: Suite, c: Cipher, tk: Octets, sent: Octets, hdrLen: nat, o: Override) returns (r: Option<Octets>)
    requires 24 <= hdrLen <= |sent|
    ensures r == Opened(suite, c, tk, sent, hdrLen, o)
  {
    hide Aad, Nonce, LongEnough;
    var dataLen := |sent| - hdrLen;
    if dataLen < 8 + MicLen(suite) {
      return None;
    }
    LongHead(sent);
    var aad, nonce := AadNonce(suite, sent, hdrLen, o);
    assert sent[hdrLen..][8..] == sent[hdrLen + 8..];
    r := c.open(tk, nonce, aad, sent[hdrLen + 8..]);
  }
}
