/** BIP for S1G Beacon frames, with an MME or, for BCE, a MIC element. */
module BipS1g {
  import opened Bits
  import opened Frames
  import opened Counters
  import opened Bip

  const EID_MIC: bv8 := 140
  const EID_S1G_COMPAT: bv8 := 213
  const HDR_LEN: nat := 15  // control, duration, SA, timestamp, change sequence
  const COMPAT_LEN: nat := 10

  /** Optional header fields: Next TBTT, Compressed SSID and ANO. */
  function OptionLen(fc: bv16): (n: nat)
    ensures n <= 8
  {
    (if fc & 0x0100 != 0 then 3 else 0) + (if fc & 0x0200 != 0 then 4 else 0) + (if fc & 0x0400 != 0 then 1 else 0)
  }

  predicate S1gBeacon(fc: bv16) { FcType(fc) == TYPE_EXT && FcStype(fc) == 1 }

  /** The element without its MIC. */
  function ElementHead(bce: bool, micLen: nat, keyId: Octets, ipn: Octets): (r: Octets)
    requires micLen <= 16 && |keyId| == 2 && |ipn| == 6
    ensures |r| == if bce then 2 else 10
  {
    if bce then [EID_MIC, micLen as bv8] else MmieHead(micLen, keyId, ipn)
  }

  /** Where the body starts, and whether it starts with a whole S1G Beacon Compatibility element. */
  function BodyAt(frame: Octets): nat
    requires |frame| >= HDR_LEN
  {
    HDR_LEN + OptionLen(Fc(frame))
  }

  predicate HasCompat(frame: Octets)
    requires |frame| >= HDR_LEN
  {
    |frame| >= BodyAt(frame) + COMPAT_LEN && frame[BodyAt(frame)] == EID_S1G_COMPAT
  }

  /** The body with the TSF Completion field masked. */
  function MaskedBody(frame: Octets, tail: Octets): (r: Octets)
    requires |frame| >= HDR_LEN && |frame + tail| >= BodyAt(frame)
    ensures |r| == |frame + tail| - BodyAt(frame)
  {
    var body := (frame + tail)[BodyAt(frame)..];
    if HasCompat(frame) then Overlay(body, 6, ZeroOctets(4)) else body
  }

  /** The MIC input ahead of the body. */
  function InputHead(frame: Octets, options: Octets, bce: bool, ipn: Octets): Octets
    requires |frame| >= HDR_LEN
  {
    frame[0..2] + frame[4..10] + [frame[14]] + options + (if bce then ipn else [])
  }

  /** What the MIC is computed over: no Duration and no Timestamp, and for BCE the packet number. */
  function Input(frame: Octets, tail: Octets, bce: bool, ipn: Octets): (r: Octets)
    requires |frame| >= HDR_LEN && |frame + tail| >= BodyAt(frame) && |ipn| == 6
    ensures |r| == |frame + tail| - 6 + (if bce then 6 else 0)
  {
    InputHead(frame, (frame + tail)[HDR_LEN..BodyAt(frame)], bce, ipn) + MaskedBody(frame, tail)
  }

  /** A BIGTK key ID, 6 or 7, agrees with the index in the compatibility element. */
  predicate KeyAgrees(frame: Octets, keyId: int)
    requires |frame| >= HDR_LEN && HasCompat(frame)
  {
    keyId - 6 == if frame[BodyAt(frame) + 2] & 0x80 != 0 then 1 else 0
  }

  ghost function Protected(mac: Mac16, igtk: Octets, nonce: Octets, frame: Octets, ipn: Octets, keyId: nat, bce: bool, micLen: nat)
    : Option<Octets>
    requires GivesSixteen(mac) && |frame| >= HDR_LEN && |ipn| == 6 && 8 <= micLen <= 16
  {
    if !S1gBeacon(Fc(frame)) || (bce && HasCompat(frame) && !KeyAgrees(frame, keyId)) then None
    else
      var element := ElementHead(bce, micLen, LeOctets(keyId, 2), ipn);
      Some(frame + element + mac(igtk, nonce, Input(frame, element + ZeroOctets(micLen), bce, ipn))[..micLen])
  }

  function SaNonce(frame: Octets, ipn: Octets): Octets
    requires |frame| >= HDR_LEN && |ipn| == 6
  {
    frame[4..10] + [ipn[5], ipn[4], ipn[3], ipn[2], ipn[1], ipn[0]]
  }

  lemma ControlOctetsKept(x0: bv8, x1: bv8)
    ensures Low(Le16(x0, x1)) == x0 && High(Le16(x0, x1)) == x1
  {
  }

  method FillHead(buf: array<bv8>, frame: Octets, options: Octets, bce: bool, ipn: Octets) returns (pos: nat)
    requires |frame| >= HDR_LEN && buf.Length >= 9 + |options| + (if bce then |ipn| else 0)
    modifies buf
    ensures pos == 9 + |options| + (if bce then |ipn| else 0)
    ensures buf[..pos] == InputHead(frame, options, bce, ipn)
  {
    hide Le16, Low, High;
    var fc := Le16(frame[0], frame[1]);
    ControlOctetsKept(frame[0], frame[1]);
    pos := Append(buf, 0, [Low(fc), High(fc)]);
    assert frame[0..2] == [frame[0], frame[1]];
    pos := Append(buf, pos, frame[4..10]);
    pos := Append(buf, pos, [frame[14]]);
    pos := Append(buf, pos, options);
    if bce {
      pos := Append(buf, pos, ipn);
    }
  }

  /** The MIC input buffer, allocated at its exact size and filled field after field. */
  method FillInput(frame: Octets, prot: Octets, bce: bool, ipn: Octets) returns (buf: array<bv8>, bodyAt: nat)
    requires |frame| >= HDR_LEN && |ipn| == 6 && |prot| >= BodyAt(frame)
    ensures fresh(buf) && buf.Length == |prot| - 6 + (if bce then 6 else 0)
    ensures bodyAt == BodyAt(frame) - 6 + (if bce then 6 else 0)
    ensures buf[..bodyAt] == InputHead(frame, prot[HDR_LEN..BodyAt(frame)], bce, ipn)
    ensures buf[bodyAt..] == prot[BodyAt(frame)..]
  {
    hide InputHead, OptionLen;
    var at := BodyAt(frame);
    buf := new bv8[|prot| - 6 + if bce then 6 else 0](_ => 0xff);
    bodyAt := FillHead(buf, frame, prot[HDR_LEN..at], bce, ipn);
    ghost var filled := buf[..bodyAt];
    Put(buf, bodyAt, prot[at..]);
    assert buf[..bodyAt] == filled;
  }

  /** The TSF Completion field of a compatibility element at the start of the body, zeroed. */
  method MaskTsf(buf: array<bv8>, bodyAt: nat, frame: Octets, ghost tail: Octets) returns (compat: bool)
    requires |frame| >= HDR_LEN && |frame + tail| >= BodyAt(frame)
    requires bodyAt <= buf.Length && buf[bodyAt..] == (frame + tail)[BodyAt(frame)..]
    modifies buf
    ensures compat == HasCompat(frame)
    ensures buf[..bodyAt] == old(buf[..bodyAt]) && buf[bodyAt..] == MaskedBody(frame, tail)
    ensures compat ==> bodyAt + 2 < buf.Length && buf[bodyAt + 2] == frame[BodyAt(frame) + 2]
  {
    hide OptionLen, Overlay;
    var at := BodyAt(frame);
    if |frame| < at + COMPAT_LEN {
      return false;
    }
    ghost var body, w := buf[bodyAt..], buf[..];
    assert buf[bodyAt] == body[0] == frame[at] && body[2] == frame[at + 2];
    if buf[bodyAt] != EID_S1G_COMPAT {
      return false;
    }
    Put(buf, bodyAt + 6, ZeroOctets(4));
    OverlaySlice(w, bodyAt + 6, ZeroOctets(4), bodyAt, |w|);
    OverlaySlice(w, bodyAt + 6, ZeroOctets(4), 0, bodyAt);
    assert buf[bodyAt..] == Overlay(body, 6, ZeroOctets(4));
    assert buf[bodyAt + 2] == buf[bodyAt..][2];
    compat := true;
  }

  /** What both share: buffer, masks and refusals, for a MAC, its nonce and a MIC length. */
  method ProtectBeacon(mac: Mac16, igtk: Octets, nonce: Octets, frame: Octets, ipn: Octets, keyId: nat, bce: bool, micLen: nat)
    returns (r: Option<Octets>)
    requires GivesSixteen(mac) && |frame| >= HDR_LEN && |ipn| == 6 && 8 <= micLen <= 16
    ensures r == Protected(mac, igtk, nonce, frame, ipn, keyId, bce, micLen)
  {
    hide InputHead, OptionLen, Le16, Low, High, S1gBeacon, MmieHead, LeOctets;
    var element := ElementHead(bce, micLen, LeOctets(keyId, 2), ipn);
    var prot := frame + element + ZeroOctets(micLen);
    ghost var tail := element + ZeroOctets(micLen);
    assert prot == frame + tail;
    if !S1gBeacon(Le16(frame[0], frame[1])) {
      return None;
    }
    var buf, bodyAt := FillInput(frame, prot, bce, ipn);
    var compat := MaskTsf(buf, bodyAt, frame, tail);
    if compat && bce && keyId - 6 != if buf[bodyAt + 2] & 0x80 != 0 then 1 else 0 {
      return None;
    }
    assert buf[..] == buf[..bodyAt] + buf[bodyAt..];
    r := Some(frame + element + mac(igtk, nonce, buf[..])[..micLen]);
  }

  function ElementLen(bce: bool, micLen: nat): nat
  {
    (if bce then 2 else 10) + micLen
  }

  /** A checker that zeroes the MIC, takes the element off, and computes the MIC again. */
  ghost predicate AcceptsBeacon(mac: Mac16, igtk: Octets, nonce: Octets, sent: Octets, bce: bool, ipn: Octets, micLen: nat)
    requires GivesSixteen(mac) && |ipn| == 6 && 8 <= micLen <= 16
  {
    var n := ElementLen(bce, micLen);
    && |sent| >= HDR_LEN + n
    && var frame := sent[..|sent| - n];
       var tail := sent[|sent| - n..|sent| - micLen] + ZeroOctets(micLen);
       sent[|sent| - micLen..] == mac(igtk, nonce, Input(frame, tail, bce, ipn))[..micLen]
  }

  lemma SentParts(frame: Octets, element: Octets, mic: Octets)
    ensures var sent := frame + element + mic;
            var n := |element| + |mic|;
            && sent[..|sent| - n] == frame && sent[|sent| - n..|sent| - |mic|] == element && sent[|sent| - |mic|..] == mic
  {
  }

  lemma IpnOfElement(frame: Octets, element: Octets, mic: Octets)
    requires |element| == 10
    ensures var sent := frame + element + mic;
            sent[|sent| - |mic| - 6..|sent| - |mic|] == element[4..10]
  {
  }

  lemma IpnField(micLen: nat, keyId: Octets, ipn: Octets)
    requires micLen <= 16 && |keyId| == 2 && |ipn| == 6
    ensures ElementHead(false, micLen, keyId, ipn)[4..10] == ipn
  {
  }

  /** Every beacon that is protected is accepted, and one with an MME carries its packet number. */
  lemma BeaconAccepted(mac: Mac16, igtk: Octets, nonce: Octets, frame: Octets, ipn: Octets, keyId: nat, bce: bool, micLen: nat)
    requires GivesSixteen(mac) && |frame| >= HDR_LEN && |ipn| == 6 && 8 <= micLen <= 16
    requires Protected(mac, igtk, nonce, frame, ipn, keyId, bce, micLen).Some?
    ensures var sent := Protected(mac, igtk, nonce, frame, ipn, keyId, bce, micLen).value;
            && |sent| == |frame| + ElementLen(bce, micLen) && sent[..|frame|] == frame
            && AcceptsBeacon(mac, igtk, nonce, sent, bce, ipn, micLen)
            && (!bce ==> sent[|sent| - micLen - 6..|sent| - micLen] == ipn)
  {
    hide Input, ElementHead, LeOctets, S1gBeacon, KeyAgrees, HasCompat;
    var element := ElementHead(bce, micLen, LeOctets(keyId, 2), ipn);
    var mic := mac(igtk, nonce, Input(frame, element + ZeroOctets(micLen), bce, ipn))[..micLen];
    SentParts(frame, element, mic);
    if !bce {
      IpnField(micLen, LeOctets(keyId, 2), ipn);
      IpnOfElement(frame, element, mic);
    }
  }

  /** bip_protect_s1g_beacon: AES-128-CMAC, with the length of the MIC by that of the key. */
  method CmacProtectBeacon(cmac128: Mac16, igtk: Octets, frame: Octets, ipn: Octets, keyId: nat, bce: bool) returns (r: Option<Octets>)
    requires GivesSixteen(cmac128) && |frame| >= HDR_LEN && |ipn| == 6
    ensures r == Protected(cmac128, igtk, [], frame, ipn, keyId, bce, if |igtk| == 32 then 16 else 8)
    ensures r.Some? ==> AcceptsBeacon(cmac128, igtk, [], r.value, bce, ipn, if |igtk| == 32 then 16 else 8)
  {
    hide Protected, AcceptsBeacon;
    if Protected(cmac128, igtk, [], frame, ipn, keyId, bce, if |igtk| == 32 then 16 else 8).Some? {
      BeaconAccepted(cmac128, igtk, [], frame, ipn, keyId, bce, if |igtk| == 32 then 16 else 8);
    }
    r := ProtectBeacon(cmac128, igtk, [], frame, ipn, keyId, bce, if |igtk| == 32 then 16 else 8);
  }

  /** GMAC: the nonce that a checker takes from the received frame is the sender's. */
  lemma GmacBeaconAccepted(gmac: Mac16, igtk: Octets, frame: Octets, ipn: Octets, keyId: nat, bce: bool)
    requires GivesSixteen(gmac) && |frame| >= HDR_LEN && |ipn| == 6
    requires Protected(gmac, igtk, SaNonce(frame, ipn), frame, ipn, keyId, bce, 16).Some?
    ensures var sent := Protected(gmac, igtk, SaNonce(frame, ipn), frame, ipn, keyId, bce, 16).value;
            |sent| >= HDR_LEN && AcceptsBeacon(gmac, igtk, SaNonce(sent, ipn), sent, bce, ipn, 16)
  {
    hide AcceptsBeacon, Protected;
    var sent := Protected(gmac, igtk, SaNonce(frame, ipn), frame, ipn, keyId, bce, 16).value;
    BeaconAccepted(gmac, igtk, SaNonce(frame, ipn), frame, ipn, keyId, bce, 16);
    assert sent[4..10] == sent[..|frame|][4..10];
  }

  /** bip_gmac_protect_s1g_beacon: the nonce is the source address and the packet number. */
  method GmacProtectBeacon(gmac: Mac16, igtk: Octets, frame: Octets, ipn: Octets, keyId: nat, bce: bool) returns (r: Option<Octets>)
    requires GivesSixteen(gmac) && |frame| >= HDR_LEN && |ipn| == 6
    ensures r == Protected(gmac, igtk, SaNonce(frame, ipn), frame, ipn, keyId, bce, 16)
    ensures r.Some? ==> |r.value| >= HDR_LEN && AcceptsBeacon(gmac, igtk, SaNonce(r.value, ipn), r.value, bce, ipn, 16)
  {
    hide Protected, AcceptsBeacon;
    if Protected(gmac, igtk, SaNonce(frame, ipn), frame, ipn, keyId, bce, 16).Some? {
      GmacBeaconAccepted(gmac, igtk, frame, ipn, keyId, bce);
    }
    r := ProtectBeacon(gmac, igtk, SaNonce(frame, ipn), frame, ipn, keyId, bce, 16);
  }

  /** Two beacons share a GMAC nonce exactly when sender and packet number agree. */
  lemma SaNonceExact(f: Octets, ipn: Octets, g: Octets, ipn': Octets)
    requires |f| >= HDR_LEN && |g| >= HDR_LEN && |ipn| == |ipn'| == 6
    ensures SaNonce(f, ipn) == SaNonce(g, ipn') <==> f[4..10] == g[4..10] && ipn == ipn'
  {
    var x, y := SaNonce(f, ipn), SaNonce(g, ipn');
    assert x[..6] == f[4..10] && y[..6] == g[4..10];
    if x == y {
      assert x[6] == ipn[5] && x[7] == ipn[4] && x[8] == ipn[3] && x[9] == ipn[2] && x[10] == ipn[1] && x[11] == ipn[0];
      assert y[6] == ipn'[5] && y[7] == ipn'[4] && y[8] == ipn'[3] && y[9] == ipn'[2] && y[10] == ipn'[1] && y[11] == ipn'[0];
    }
  }

  lemma OptionBits(x0: bv8, x1: bv8)
    ensures OptionLen(Le16(x0, x1))
         == (if x1 & 0x01 != 0 then 3 else 0) + (if x1 & 0x02 != 0 then 4 else 0) + (if x1 & 0x04 != 0 then 1 else 0)
    ensures S1gBeacon(Le16(x0, x1)) <==> x0 & 0xfc == 0x1c
  {
  }

  /** Three octets of Next TBTT, four of Compressed SSID and one of ANO stand between header and body, each by its bit. */
  lemma BodyStarts(frame: Octets)
    requires |frame| >= HDR_LEN
    ensures BodyAt(frame) == 15 + (if frame[1] & 0x01 != 0 then 3 else 0) + (if frame[1] & 0x02 != 0 then 4 else 0)
                             + (if frame[1] & 0x04 != 0 then 1 else 0)
    ensures S1gBeacon(Fc(frame)) <==> frame[0] & 0xfc == 0x1c
    ensures HasCompat(frame) <==> |frame| >= BodyAt(frame) + 10 && frame[BodyAt(frame)] == 213
  {
    OptionBits(frame[0], frame[1]);
  }

  /** With BCE the packet number stands between the options and the body in the MIC input, so every number has its own. */
  lemma InputHasIpn(frame: Octets, tail: Octets, ipn: Octets, ipn': Octets)
    requires |frame| >= HDR_LEN && |frame + tail| >= BodyAt(frame) && |ipn| == |ipn'| == 6
    ensures var at := BodyAt(frame) - 6; Input(frame, tail, true, ipn)[at..at + 6] == ipn
    ensures Input(frame, tail, true, ipn) == Input(frame, tail, true, ipn') <==> ipn == ipn'
  {
    hide OptionLen, MaskedBody;
    var at, options := BodyAt(frame) - 6, (frame + tail)[HDR_LEN..BodyAt(frame)];
    var front := frame[0..2] + frame[4..10] + [frame[14]] + options;
    assert |front| == at;
    assert Input(frame, tail, true, ipn) == front + ipn + MaskedBody(frame, tail);
    assert Input(frame, tail, true, ipn') == front + ipn' + MaskedBody(frame, tail);
    assert (front + ipn + MaskedBody(frame, tail))[at..at + 6] == ipn;
    assert (front + ipn' + MaskedBody(frame, tail))[at..at + 6] == ipn';
  }

  /** The element on the air: its identifier, and a length octet that counts everything behind it. */
  lemma BeaconElementSent(mac: Mac16, igtk: Octets, nonce: Octets, frame: Octets, ipn: Octets, keyId: nat, bce: bool, micLen: nat)
    requires GivesSixteen(mac) && |frame| >= HDR_LEN && |ipn| == 6 && 8 <= micLen <= 16
    requires Protected(mac, igtk, nonce, frame, ipn, keyId, bce, micLen).Some?
    ensures var r, n := Protected(mac, igtk, nonce, frame, ipn, keyId, bce, micLen).value, |frame|;
            && |r| == n + (if bce then 2 else 10) + micLen && r[..n] == frame
            && r[n] == (if bce then 140 else 76) && r[n + 1] as nat == |r| - (n + 2)
            && (!bce ==> LeValue(r[n + 2..n + 4]) == keyId % 0x1_0000 && r[n + 4..n + 10] == ipn)
  {
    hide Input, LeOctets, LeValue, Power, S1gBeacon, KeyAgrees, HasCompat;
    ByteOf(micLen);
    ByteOf(8 + micLen);
    var r, n := Protected(mac, igtk, nonce, frame, ipn, keyId, bce, micLen).value, |frame|;
    var head := ElementHead(bce, micLen, LeOctets(keyId, 2), ipn);
    assert r[n..n + |head|] == head && r[n] == head[0] && r[n + 1] == head[1];
    if !bce {
      assert head[2..4] == LeOctets(keyId, 2) && head[4..10] == ipn;
      assert r[n..n + 10][2..4] == r[n + 2..n + 4] && r[n..n + 10][4..10] == r[n + 4..n + 10];
      LeFieldReads(keyId, 2);
      FieldWidths();
    }
  }

  /** Equal but for Duration, Timestamp and TSF Completion. */
  predicate SameButMasked(f: Octets, g: Octets)
    requires |f| >= HDR_LEN && |g| >= HDR_LEN
  {
    && |f| == |g| && f[0] == g[0] && f[1] == g[1] && f[4..10] == g[4..10] && f[14] == g[14]
    && forall i | HDR_LEN <= i < |f| && !(HasCompat(f) && BodyAt(f) + 6 <= i < BodyAt(f) + 10) :: f[i] == g[i]
  }

  lemma InputParts(f: Octets, tail: Octets, bce: bool, ipn: Octets)
    requires |f| >= HDR_LEN && |f + tail| >= BodyAt(f) && |ipn| == 6
    ensures var x, skip := Input(f, tail, bce, ipn), if bce then 6 else 0;
            && x[0] == f[0] && x[1] == f[1] && x[2..8] == f[4..10] && x[8] == f[14]
            && x[9..BodyAt(f) - 6] == (f + tail)[HDR_LEN..BodyAt(f)]
            && x[BodyAt(f) - 6 + skip..] == MaskedBody(f, tail)
  {
    hide OptionLen, MaskedBody;
  }

  lemma BodyOctet(f: Octets, tail: Octets, k: nat)
    requires |f| >= HDR_LEN && BodyAt(f) + k < |f + tail|
    ensures MaskedBody(f, tail)[k] == if HasCompat(f) && 6 <= k < 10 then 0 else (f + tail)[BodyAt(f) + k]
  {
    hide OptionLen;
  }

  lemma InputToSame(f: Octets, g: Octets, tail: Octets, bce: bool, ipn: Octets)
    requires |f| >= HDR_LEN && |g| >= HDR_LEN && |tail| >= 8 && |ipn| == 6
    requires Input(f, tail, bce, ipn) == Input(g, tail, bce, ipn)
    ensures SameButMasked(f, g)
  {
    hide OptionLen, Le16, Input, MaskedBody;
    InputParts(f, tail, bce, ipn);
    InputParts(g, tail, bce, ipn);
    var at := BodyAt(f);
    assert |f| == |g| && Fc(f) == Fc(g) && at == BodyAt(g);
    var x, y := MaskedBody(f, tail), MaskedBody(g, tail);
    assert x == y;
    if |f| > at {
      BodyOctet(f, tail, 0);
      BodyOctet(g, tail, 0);
    }
    assert HasCompat(f) == HasCompat(g);
    forall i | HDR_LEN <= i < |f| && !(HasCompat(f) && at + 6 <= i < at + 10)
      ensures f[i] == g[i]
    {
      if i < at {
        assert f[i] == (f + tail)[HDR_LEN..at][i - HDR_LEN] == (g + tail)[HDR_LEN..at][i - HDR_LEN] == g[i];
      } else {
        BodyOctet(f, tail, i - at);
        BodyOctet(g, tail, i - at);
      }
    }
  }

  lemma SameToBody(f: Octets, g: Octets, tail: Octets)
    requires |f| >= HDR_LEN && |g| >= HDR_LEN && |tail| >= 8 && SameButMasked(f, g)
    ensures BodyAt(f) == BodyAt(g)
    ensures (f + tail)[HDR_LEN..BodyAt(f)] == (g + tail)[HDR_LEN..BodyAt(g)]
    ensures MaskedBody(f, tail) == MaskedBody(g, tail)
  {
    hide OptionLen, Le16, MaskedBody;
    var x, y, at := MaskedBody(f, tail), MaskedBody(g, tail), BodyAt(f);
    assert HasCompat(f) == HasCompat(g);
    forall k | 0 <= k < |x|
      ensures x[k] == y[k]
    {
      BodyOctet(f, tail, k);
      BodyOctet(g, tail, k);
    }
  }

  lemma SameToInput(f: Octets, g: Octets, tail: Octets, bce: bool, ipn: Octets)
    requires |f| >= HDR_LEN && |g| >= HDR_LEN && |tail| >= 8 && |ipn| == 6 && SameButMasked(f, g)
    ensures Input(f, tail, bce, ipn) == Input(g, tail, bce, ipn)
  {
    hide OptionLen, Le16, MaskedBody;
    SameToBody(f, g, tail);
    assert f[0..2] == g[0..2];
  }

  /** Two beacons have one MIC input exactly when they differ in masked fields only. */
  lemma InputExact(f: Octets, g: Octets, tail: Octets, bce: bool, ipn: Octets)
    requires |f| >= HDR_LEN && |g| >= HDR_LEN && |tail| >= 8 && |ipn| == 6
    ensures Input(f, tail, bce, ipn) == Input(g, tail, bce, ipn) <==> SameButMasked(f, g)
  {
    hide Input, SameButMasked;
    if Input(f, tail, bce, ipn) == Input(g, tail, bce, ipn) {
      InputToSame(f, g, tail, bce, ipn);
    }
    if SameButMasked(f, g) {
      SameToInput(f, g, tail, bce, ipn);
    }
  }

  // A checker that goes by the received length -----------------------------------------------------

  /** The MIC input of a checker that looks for the compatibility element by the length received, its element included. */
  function InputByLength(frame: Octets, tail: Octets, bce: bool, ipn: Octets): (r: Octets)
    requires |frame| >= HDR_LEN && |frame + tail| >= BodyAt(frame) && |ipn| == 6
  {
    var whole, at := frame + tail, BodyAt(frame);
    var body := whole[at..];
    InputHead(frame, whole[HDR_LEN..at], bce, ipn)
    + if |whole| >= at + COMPAT_LEN && whole[at] == EID_S1G_COMPAT then Overlay(body, 6, ZeroOctets(4)) else body
  }

  ghost predicate AcceptsByLength(mac: Mac16, igtk: Octets, nonce: Octets, sent: Octets, bce: bool, ipn: Octets, micLen: nat)
    requires GivesSixteen(mac) && |ipn| == 6 && 8 <= micLen <= 16
  {
    var n := ElementLen(bce, micLen);
    && |sent| >= HDR_LEN + n
    && var frame := sent[..|sent| - n];
       var tail := sent[|sent| - n..|sent| - micLen] + ZeroOctets(micLen);
       sent[|sent| - micLen..] == mac(igtk, nonce, InputByLength(frame, tail, bce, ipn))[..micLen]
  }

  /**
   * The frame ends inside what would be a compatibility element, the added element completes it, and what lies in the
   * place of TSF Completion is not zero.
   */
  predicate CompletedByElement(frame: Octets, tail: Octets)
    requires |frame| >= HDR_LEN
  {
    var whole, at := frame + tail, BodyAt(frame);
    && |frame| < at + COMPAT_LEN <= |whole| && whole[at] == EID_S1G_COMPAT
    && whole[at + 6..at + 10] != ZeroOctets(4)
  }

  lemma MaskIsIdle4(body: Octets)
    requires |body| >= 10
    ensures Overlay(body, 6, ZeroOctets(4)) == body <==> body[6..10] == ZeroOctets(4)
  {
    OverlaySlice(body, 6, ZeroOctets(4), 6, 10);
    assert forall i | 6 <= i < 10 :: body[i] == body[6..10][i - 6];
  }

  lemma SameHead(head: Octets, a: Octets, b: Octets)
    ensures head + a == head + b <==> a == b
  {
    assert (head + a)[|head|..] == a && (head + b)[|head|..] == b;
  }

  lemma InputsAgree(frame: Octets, tail: Octets, bce: bool, ipn: Octets)
    requires |frame| >= HDR_LEN && |frame + tail| >= BodyAt(frame) && |ipn| == 6
    ensures InputByLength(frame, tail, bce, ipn) == Input(frame, tail, bce, ipn) <==> !CompletedByElement(frame, tail)
  {
    hide OptionLen, InputHead;
    var whole, at := frame + tail, BodyAt(frame);
    var head, body := InputHead(frame, whole[HDR_LEN..at], bce, ipn), whole[at..];
    if |frame| >= at + COMPAT_LEN {
      assert whole[at] == frame[at];
    } else if |whole| >= at + COMPAT_LEN && whole[at] == EID_S1G_COMPAT {
      assert whole[at + 6..at + 10] == body[6..10];
      MaskIsIdle4(body);
      SameHead(head, Overlay(body, 6, ZeroOctets(4)), body);
    }
  }

  lemma ByLengthIs(mac: Mac16, igtk: Octets, nonce: Octets, frame: Octets, ipn: Octets, keyId: nat, bce: bool, micLen: nat)
    requires GivesSixteen(mac) && |frame| >= HDR_LEN && |ipn| == 6 && 8 <= micLen <= 16
    requires S1gBeacon(Fc(frame)) && (bce && HasCompat(frame) ==> KeyAgrees(frame, keyId))
    ensures var sent := Protected(mac, igtk, nonce, frame, ipn, keyId, bce, micLen);
            var tail := ElementHead(bce, micLen, LeOctets(keyId, 2), ipn) + ZeroOctets(micLen);
            && sent.Some?
            && (AcceptsByLength(mac, igtk, nonce, sent.value, bce, ipn, micLen)
                <==> mac(igtk, nonce, Input(frame, tail, bce, ipn))[..micLen]
                     == mac(igtk, nonce, InputByLength(frame, tail, bce, ipn))[..micLen])
  {
    hide Input, InputByLength, ElementHead, LeOctets, S1gBeacon, KeyAgrees, HasCompat;
    var element := ElementHead(bce, micLen, LeOctets(keyId, 2), ipn);
    SentParts(frame, element, mac(igtk, nonce, Input(frame, element + ZeroOctets(micLen), bce, ipn))[..micLen]);
  }

  /** Such a checker accepts a protected beacon under every MAC exactly when no element completes a truncated one. */
  lemma ByLengthExactly(igtk: Octets, nonce: Octets, frame: Octets, ipn: Octets, keyId: nat, bce: bool, micLen: nat)
    requires |frame| >= HDR_LEN && |ipn| == 6 && 8 <= micLen <= 16
    requires S1gBeacon(Fc(frame)) && (bce && HasCompat(frame) ==> KeyAgrees(frame, keyId))
    ensures (forall mac: Mac16 | GivesSixteen(mac) ::
               var sent := Protected(mac, igtk, nonce, frame, ipn, keyId, bce, micLen);
               sent.Some? && AcceptsByLength(mac, igtk, nonce, sent.value, bce, ipn, micLen))
       <==> !CompletedByElement(frame, ElementHead(bce, micLen, LeOctets(keyId, 2), ipn) + ZeroOctets(micLen))
  {
    hide Input, InputByLength, ElementHead, LeOctets, S1gBeacon, KeyAgrees, HasCompat, CompletedByElement, Protected, AcceptsByLength;
    var tail := ElementHead(bce, micLen, LeOctets(keyId, 2), ipn) + ZeroOctets(micLen);
    var mine := Input(frame, tail, bce, ipn);
    InputsAgree(frame, tail, bce, ipn);
    if CompletedByElement(frame, tail) {
      var mac := Marking(mine, Ones(16), ZeroOctets(16));
      ByLengthIs(mac, igtk, nonce, frame, ipn, keyId, bce, micLen);
      assert Ones(16)[..micLen][0] == 1 && ZeroOctets(16)[..micLen][0] == 0;
      assert GivesSixteen(mac) && !AcceptsByLength(mac, igtk, nonce, Protected(mac, igtk, nonce, frame, ipn, keyId, bce, micLen).value, bce, ipn, micLen);
    } else {
      forall mac: Mac16 | GivesSixteen(mac)
        ensures var sent := Protected(mac, igtk, nonce, frame, ipn, keyId, bce, micLen);
                sent.Some? && AcceptsByLength(mac, igtk, nonce, sent.value, bce, ipn, micLen)
      {
        ByLengthIs(mac, igtk, nonce, frame, ipn, keyId, bce, micLen);
      }
    }
  }

  lemma CutOffFrame()
    ensures OptionLen(Le16(0x1c, 0)) == 0 && S1gBeacon(Le16(0x1c, 0)) && LeOctets(6, 2) == [6, 0]
  {
    assert LeOctets(6, 2) == [6] + LeOctets(0, 1);
    assert LeOctets(0, 1) == [0] + LeOctets(0, 0);
  }

  /** Every MAC protects an S1G beacon whose key index does not contradict it. */
  lemma BeaconsProtected(igtk: Octets, nonce: Octets, frame: Octets, ipn: Octets, keyId: nat, bce: bool, micLen: nat)
    requires |frame| >= HDR_LEN && |ipn| == 6 && 8 <= micLen <= 16
    requires S1gBeacon(Fc(frame)) && (bce && HasCompat(frame) ==> KeyAgrees(frame, keyId))
    ensures forall mac: Mac16 | GivesSixteen(mac) :: Protected(mac, igtk, nonce, frame, ipn, keyId, bce, micLen).Some?
  {
    hide Input, ElementHead, LeOctets, S1gBeacon, KeyAgrees, HasCompat;
  }

  /** A beacon cut off after the third octet of its compatibility element is one that such a checker refuses under some MAC. */
  lemma CutOffElement(igtk: Octets, nonce: Octets)
    ensures var frame, ipn: Octets := [0x1c] + ZeroOctets(14) + [EID_S1G_COMPAT, 8, 0], [1, 0, 0, 0, 0, 0];
            exists mac: Mac16 | GivesSixteen(mac) ::
              var sent := Protected(mac, igtk, nonce, frame, ipn, 6, false, 8);
              sent.Some? && !AcceptsByLength(mac, igtk, nonce, sent.value, false, ipn, 8)
  {
    hide Protected, AcceptsByLength, LeOctets, S1gBeacon, OptionLen;
    var frame, ipn: Octets := [0x1c] + ZeroOctets(14) + [EID_S1G_COMPAT, 8, 0], [1, 0, 0, 0, 0, 0];
    var tail := ElementHead(false, 8, LeOctets(6, 2), ipn) + ZeroOctets(8);
    CutOffFrame();
    assert frame[0] == 0x1c && frame[1] == 0;
    assert (frame + tail)[21..25][1] == tail[4] == 1;
    ByLengthExactly(igtk, nonce, frame, ipn, 6, false, 8);
    BeaconsProtected(igtk, nonce, frame, ipn, 6, false, 8);
  }
}
