/** BIP: management frames with a MIC element, protected with CMAC or GMAC, and their verification. */
module Bip {
  import opened Bits
  import opened Frames
  import opened Counters

  const EID_MMIE: bv8 := 76
  const STYPE_BEACON: bv16 := 8

  /** Little-endian octets of v, n of them. */
  function LeOctets(v: nat, n: nat): (r: Octets)
    ensures |r| == n
  {
    if n == 0 then [] else [(v % 256) as bv8] + LeOctets(v / 256, n - 1)
  }

  /** WPA_GET_LE16 and WPA_GET_LE48. */
  function LeValue(s: Octets): nat
  {
    if s == [] then 0 else s[0] as nat + 256 * LeValue(s[1..])
  }

  /** The key ID and packet number fields read back as written, cut to the field's width. */
  lemma {:induction false} LeFieldReads(v: nat, n: nat)
    ensures LeValue(LeOctets(v, n)) == v % Power(256, n)
  {
    if n > 0 {
      ByteOf(v % 256);
      assert LeOctets(v, n)[1..] == LeOctets(v / 256, n - 1);
      LeFieldReads(v / 256, n - 1);
      SplitMod(v, Power(256, n - 1));
    }
  }

  /** MMIE without its MIC: element ID, length, key ID and packet number. */
  function MmieHead(micLen: nat, keyId: Octets, ipn: Octets): (r: Octets)
    requires micLen <= 16 && |keyId| == 2 && |ipn| == 6
    ensures |r| == 10
  {
    [EID_MMIE, (8 + micLen) as bv8] + keyId + ipn
  }

  /** What the MIC is computed over: masked control field, addresses and body. */
  function MacInput(f: Octets): (r: Octets)
    requires |f| >= 24
    ensures |r| == |f| - 4
  {
    var fc := WithoutFlags(Fc(f));
    [Low(fc), High(fc)] + f[4..22] + f[24..]
  }

  /** A keyed MAC of a message: CMAC ignores the nonce argument. */
  type Mac16 = (Octets, Octets, Octets) -> Octets

  ghost predicate GivesSixteen(mac: Mac16)
  {
    forall k, n, b :: |mac(k, n, b)| == 16
  }

  function GmacNonce(f: Octets, ipn: Octets): Octets
    requires |f| >= 24 && |ipn| == 6
  {
    Addr2(f) + [ipn[5], ipn[4], ipn[3], ipn[2], ipn[1], ipn[0]]
  }

  /** The protected frame; nonce is empty for CMAC. */
  ghost function Protected(mac: Mac16, igtk: Octets, nonce: Octets, frame: Octets, keyId: Octets, ipn: Octets, micLen: nat)
    : (r: Octets)
    requires GivesSixteen(mac) && |frame| >= 24 && |keyId| == 2 && |ipn| == 6 && micLen <= 16
    ensures |r| == |frame| + 10 + micLen
  {
    var element := MmieHead(micLen, keyId, ipn);
    frame + element + mac(igtk, nonce, MacInput(frame + element + ZeroOctets(micLen)))[..micLen]
  }

  method FillMacInput(prot: Octets) returns (buf: array<bv8>)
    requires |prot| >= 24
    ensures fresh(buf) && buf[..] == MacInput(prot)
  {
    hide Low, High, WithoutFlags, Le16;
    var fc := WithoutFlags(Le16(prot[0], prot[1]));
    buf := new bv8[|prot| + 20 - 24](_ => 0xff);
    var pos := Append(buf, 0, [Low(fc), High(fc)]);
    pos := Append(buf, pos, prot[4..22]);
    pos := Append(buf, pos, prot[24..]);
    assert buf[..] == buf[..pos];
  }

  /** Frame and element into a buffer of their own, the MIC input into another, the MIC over the zeros. */
  method AddMmie(mac: Mac16, igtk: Octets, nonce: Octets, frame: Octets, keyId: Octets, ipn: Octets, micLen: nat)
    returns (r: Octets)
    requires GivesSixteen(mac) && |frame| >= 24 && |keyId| == 2 && |ipn| == 6 && micLen <= 16
    ensures r == Protected(mac, igtk, nonce, frame, keyId, ipn, micLen)
  {
    hide MacInput, MmieHead;
    var prot := new bv8[|frame| + 10 + micLen](_ => 0xff);
    var pos := Append(prot, 0, frame);
    pos := Append(prot, pos, MmieHead(micLen, keyId, ipn));
    ghost var head := prot[..pos];
    var end := Append(prot, pos, ZeroOctets(micLen));
    assert prot[..] == frame + MmieHead(micLen, keyId, ipn) + ZeroOctets(micLen);
    var buf := FillMacInput(prot[..]);
    assert prot[..pos] == prot[..end][..pos] == head;
    end := Append(prot, pos, mac(igtk, nonce, buf[..])[..micLen]);
    r := prot[..];
  }

  /**
   * The element on the air: after the frame come the MMIE identifier, a length octet that counts everything behind it,
   * the key ID and the packet number.
   */
  lemma ElementSent(mac: Mac16, igtk: Octets, nonce: Octets, frame: Octets, keyId: Octets, ipn: Octets, micLen: nat)
    requires GivesSixteen(mac) && |frame| >= 24 && |keyId| == 2 && |ipn| == 6 && micLen <= 16
    ensures var r, n := Protected(mac, igtk, nonce, frame, keyId, ipn, micLen), |frame|;
            && r[..n] == frame && r[n] == 76 && r[n + 1] as nat == |r| - (n + 2)
            && r[n + 2..n + 4] == keyId && r[n + 4..n + 10] == ipn
  {
    hide MacInput;
    ByteOf(8 + micLen);
    var r, n, head := Protected(mac, igtk, nonce, frame, keyId, ipn, micLen), |frame|, MmieHead(micLen, keyId, ipn);
    assert r[n..n + 10] == head;
    assert head[2..4] == keyId && head[4..10] == ipn;
    assert r[n..n + 10][2..4] == r[n + 2..n + 4] && r[n..n + 10][4..10] == r[n + 4..n + 10];
  }

  lemma FieldWidths()
    ensures Power(256, 2) == 0x1_0000 && Power(256, 6) == 0x1_0000_0000_0000
  {
    assert Power(256, 2) == 0x1_0000;
    assert Power(256, 4) == 0x1_0000_0000;
  }

  /** bip_protect: AES-CMAC, with the 128-bit function also for a 32-octet IGTK. */
  method BipProtect(cmac128: Mac16, igtk: Octets, frame: Octets, ipn: nat, keyId: nat) returns (r: Octets)
    requires GivesSixteen(cmac128) && |frame| >= 24
    ensures r == Protected(cmac128, igtk, [], frame, LeOctets(keyId, 2), LeOctets(ipn, 6), if |igtk| == 32 then 16 else 8)
    ensures var n := |frame|;
            && r[..n] == frame && r[n] == 76 && r[n + 1] as nat == |r| - (n + 2)
            && LeValue(r[n + 2..n + 4]) == keyId % 0x1_0000 && LeValue(r[n + 4..n + 10]) == ipn % 0x1_0000_0000_0000
  {
    hide Protected, LeOctets, LeValue, Power;
    ElementSent(cmac128, igtk, [], frame, LeOctets(keyId, 2), LeOctets(ipn, 6), if |igtk| == 32 then 16 else 8);
    LeFieldReads(keyId, 2);
    LeFieldReads(ipn, 6);
    FieldWidths();
    r := AddMmie(cmac128, igtk, [], frame, LeOctets(keyId, 2), LeOctets(ipn, 6), if |igtk| == 32 then 16 else 8);
  }

  /** bip_gmac_protect. */
  method GmacProtect(gmac: Mac16, igtk: Octets, frame: Octets, ipn: Octets, keyId: nat) returns (r: Octets)
    requires GivesSixteen(gmac) && |frame| >= 24 && |ipn| == 6
    ensures r == Protected(gmac, igtk, GmacNonce(frame, ipn), frame, LeOctets(keyId, 2), ipn, 16)
    ensures var n := |frame|;
            && r[..n] == frame && r[n] == 76 && r[n + 1] as nat == |r| - (n + 2)
            && LeValue(r[n + 2..n + 4]) == keyId % 0x1_0000 && r[n + 4..n + 10] == ipn
  {
    hide Protected, LeOctets, LeValue, Power;
    ElementSent(gmac, igtk, GmacNonce(frame, ipn), frame, LeOctets(keyId, 2), ipn, 16);
    LeFieldReads(keyId, 2);
    FieldWidths();
    r := AddMmie(gmac, igtk, GmacNonce(frame, ipn), frame, LeOctets(keyId, 2), ipn, 16);
  }

  // Verification ------------------------------------------------------------------------------

  /** The MIC input with the Timestamp of a Beacon frame masked. */
  function TimestampMasked(f: Octets): (r: Octets)
    requires |f| >= 32
    ensures |r| == |f| - 4
  {
    if FcStype(WithoutFlags(Fc(f))) == STYPE_BEACON then Overlay(MacInput(f), 20, ZeroOctets(8)) else MacInput(f)
  }

  /** The group management cipher of a BSS; Other stands for none and for ciphers BIP does not have. */
  datatype MgmtCipher = Cmac128 | Cmac256 | Gmac128 | Gmac256 | Other

  /** AES-128-CMAC, AES-256-CMAC and AES-GMAC. */
  datatype Macs = Macs(cmac128: Mac16, cmac256: Mac16, gmac: Mac16)
  {
    ghost predicate Sound()
    {
      GivesSixteen(cmac128) && GivesSixteen(cmac256) && GivesSixteen(gmac)
    }
  }

  function MicLen(cipher: MgmtCipher): nat
  {
    if cipher == Cmac128 then 8 else 16
  }

  predicate IsGmac(cipher: MgmtCipher)
  {
    cipher == Gmac128 || cipher == Gmac256
  }

  /** The MAC that the checker calls for a cipher. */
  function Checker(ms: Macs, cipher: MgmtCipher): Mac16
  {
    if cipher == Cmac128 then ms.cmac128 else if cipher == Cmac256 then ms.cmac256 else ms.gmac
  }

  /** check_mmie_mic: zero the MIC, rebuild the input and compare. */
  ghost predicate Accepts(ms: Macs, cipher: MgmtCipher, igtk: Octets, data: Octets)
    requires ms.Sound()
  {
    var micLen := MicLen(cipher);
    && cipher != Other && |igtk| >= 16
    && |data| >= 24 + micLen
    && var at := |data| - micLen;
       var zeroed := data[..at] + ZeroOctets(micLen);
       var nonce := if IsGmac(cipher) then GmacNonce(data, data[at - 6..at]) else [];
       data[at..] == Checker(ms, cipher)(igtk, nonce, TimestampMasked(zeroed))[..micLen]
  }

  /** The checker's input: masked header, body, zeros for the MIC, and zeros for a Beacon's Timestamp. */
  method CheckInput(data: Octets, micLen: nat) returns (r: Octets)
    requires 8 <= micLen <= 16 && |data| >= 24 + micLen
    ensures r == TimestampMasked(data[..|data| - micLen] + ZeroOctets(micLen))
  {
    hide MacInput, FcStype, WithoutFlags;
    var zeroed := data[..|data| - micLen] + ZeroOctets(micLen);
    var buf := FillMacInput(zeroed);
    var fc := WithoutFlags(Fc(data));
    assert Fc(data) == Fc(zeroed);
    if FcStype(fc) == STYPE_BEACON {
      Put(buf, 20, ZeroOctets(8));
    }
    r := buf[..];
  }

  /** check_mmie_mic. */
  method CheckMmieMic(ms: Macs, cipher: MgmtCipher, igtk: Octets, data: Octets) returns (ok: bool)
    requires ms.Sound()
    ensures ok == Accepts(ms, cipher, igtk, data)
  {
    hide TimestampMasked;
    if cipher == Other || |igtk| < 16 {
      return false;
    }
    var micLen := if cipher == Cmac128 then 8 else 16;
    if |data| < 24 || |data| - 24 < micLen {
      return false;
    }
    var buf := CheckInput(data, micLen);
    var at := |data| - micLen;
    var mic;
    if cipher == Cmac128 {
      mic := ms.cmac128(igtk, [], buf);
    } else if cipher == Cmac256 {
      mic := ms.cmac256(igtk, [], buf);
    } else {
      var ipn := data[at - 6..at];
      mic := ms.gmac(igtk, data[10..16] + [ipn[5], ipn[4], ipn[3], ipn[2], ipn[1], ipn[0]], buf);
    }
    ok := data[at..] == mic[..micLen];
  }

  lemma StypeKept(fc: bv16)
    ensures FcStype(WithoutFlags(fc)) == FcStype(fc)
  {
  }

  /** The checker recomputes over the sender's input, but with a Beacon's Timestamp masked. */
  lemma AcceptsProtected(ms: Macs, cipher: MgmtCipher, mac: Mac16, igtk: Octets, frame: Octets, keyId: Octets, ipn: Octets)
    requires ms.Sound() && GivesSixteen(mac) && |frame| >= 24 && |keyId| == 2 && |ipn| == 6
    ensures var micLen, nonce := MicLen(cipher), if IsGmac(cipher) then GmacNonce(frame, ipn) else [];
            var whole := frame + MmieHead(micLen, keyId, ipn) + ZeroOctets(micLen);
            Accepts(ms, cipher, igtk, Protected(mac, igtk, nonce, frame, keyId, ipn, micLen)) <==>
              && cipher != Other && |igtk| >= 16
              && mac(igtk, nonce, MacInput(whole))[..micLen] == Checker(ms, cipher)(igtk, nonce, TimestampMasked(whole))[..micLen]
  {
    hide MacInput, TimestampMasked, Checker;
    var micLen, nonce := MicLen(cipher), if IsGmac(cipher) then GmacNonce(frame, ipn) else [];
    var head := frame + MmieHead(micLen, keyId, ipn);
    var data := Protected(mac, igtk, nonce, frame, keyId, ipn, micLen);
    var at := |data| - micLen;
    assert data[..at] == head && data[at - 6..at] == ipn;
    assert Addr2(data) == Addr2(frame);
  }

  /** The frames whose MIC input needs no Timestamp mask. */
  predicate PlainTimestamp(frame: Octets)
    requires |frame| >= 24
  {
    FcStype(Fc(frame)) != STYPE_BEACON || (|frame| >= 32 && frame[24..32] == ZeroOctets(8))
  }

  lemma MaskIsIdle(frame: Octets, rest: Octets)
    requires |frame| >= 24 && |rest| >= 8 && rest[0] == EID_MMIE
    ensures TimestampMasked(frame + rest) == MacInput(frame + rest) <==> PlainTimestamp(frame)
  {
    hide Low, High, WithoutFlags, Le16, FcStype;
    var f := frame + rest;
    var input := MacInput(f);
    assert Fc(f) == Fc(frame);
    StypeKept(Fc(f));
    assert forall i | 20 <= i < 28 :: input[i] == f[i + 4];
    if FcStype(Fc(frame)) == STYPE_BEACON {
      var masked := Overlay(input, 20, ZeroOctets(8));
      if |frame| >= 32 {
        assert forall i | 0 <= i < 8 :: frame[24..32][i] == input[20 + i];
        if masked == input {
          assert forall i | 20 <= i < 28 :: input[i] == masked[i] == 0;
        }
      } else {
        assert input[|frame| - 4] == EID_MMIE && masked[|frame| - 4] == 0;
      }
    }
  }

  /** A MAC that gives the same octets for every message, and one that singles a message out. */
  ghost function Constant(v: Octets): (m: Mac16)
    requires |v| == 16
    ensures GivesSixteen(m)
  {
    (k, n, b) => v
  }

  ghost function Marking(target: Octets, v: Octets, w: Octets): (m: Mac16)
    requires |v| == |w| == 16
    ensures GivesSixteen(m)
  {
    (k, n, b) => if b == target then v else w
  }

  ghost function Ones(n: nat): (r: Octets)
    ensures |r| == n
  {
    seq(n, _ => 1)
  }

  /** The last octet decides when the checker's MAC is all zeros and the sender's ends in a one. */
  lemma LastOctetTells(ms: Macs, cipher: MgmtCipher, igtk: Octets, data: Octets)
    requires ms.Sound() && |data| > 0 && data[|data| - 1] == 1
    requires forall k, n, b :: Checker(ms, cipher)(k, n, b) == ZeroOctets(16)
    ensures !Accepts(ms, cipher, igtk, data)
  {
    hide TimestampMasked, Checker, GmacNonce;
    var micLen := MicLen(cipher);
    if |data| >= 24 + micLen {
      assert data[|data| - micLen..][micLen - 1] == 1 && ZeroOctets(16)[..micLen][micLen - 1] == 0;
    }
  }

  /** The frame that bip_protect builds. */
  ghost function CmacFrame(ms: Macs, igtk: Octets, frame: Octets, keyId: Octets, ipn: Octets): Octets
    requires ms.Sound() && |frame| >= 24 && |keyId| == 2 && |ipn| == 6
  {
    Protected(ms.cmac128, igtk, [], frame, keyId, ipn, if |igtk| == 32 then 16 else 8)
  }

  /** The frame that bip_gmac_protect builds. */
  ghost function GmacFrame(ms: Macs, igtk: Octets, frame: Octets, keyId: Octets, ipn: Octets): Octets
    requires ms.Sound() && |frame| >= 24 && |keyId| == 2 && |ipn| == 6
  {
    Protected(ms.gmac, igtk, GmacNonce(frame, ipn), frame, keyId, ipn, 16)
  }

  ghost predicate CmacAlwaysAccepted(cipher: MgmtCipher, igtk: Octets, frame: Octets, keyId: Octets, ipn: Octets)
    requires |frame| >= 24 && |keyId| == 2 && |ipn| == 6
  {
    forall ms: Macs | ms.Sound() :: Accepts(ms, cipher, igtk, CmacFrame(ms, igtk, frame, keyId, ipn))
  }

  ghost predicate GmacAlwaysAccepted(cipher: MgmtCipher, igtk: Octets, frame: Octets, keyId: Octets, ipn: Octets)
    requires |frame| >= 24 && |keyId| == 2 && |ipn| == 6
  {
    forall ms: Macs | ms.Sound() :: Accepts(ms, cipher, igtk, GmacFrame(ms, igtk, frame, keyId, ipn))
  }

  lemma LastOfProtected(mac: Mac16, igtk: Octets, nonce: Octets, frame: Octets, keyId: Octets, ipn: Octets, micLen: nat)
    requires GivesSixteen(mac) && |frame| >= 24 && |keyId| == 2 && |ipn| == 6 && 0 < micLen <= 16
    requires forall k, n, b :: mac(k, n, b) == Ones(16)
    ensures var r := Protected(mac, igtk, nonce, frame, keyId, ipn, micLen); r[|r| - 1] == 1
  {
    hide MacInput, MmieHead;
  }

  /** Where the sender's CMAC and the checker's MAC are different functions, some choice of them is refused. */
  lemma OtherMacRefuses(cipher: MgmtCipher, igtk: Octets, frame: Octets, keyId: Octets, ipn: Octets)
    requires cipher != Cmac128 && |frame| >= 24 && |keyId| == 2 && |ipn| == 6
    ensures !CmacAlwaysAccepted(cipher, igtk, frame, keyId, ipn)
  {
    hide Protected, Accepts;
    var ms := Macs(Constant(Ones(16)), Constant(ZeroOctets(16)), Constant(ZeroOctets(16)));
    LastOfProtected(ms.cmac128, igtk, [], frame, keyId, ipn, if |igtk| == 32 then 16 else 8);
    LastOctetTells(ms, cipher, igtk, CmacFrame(ms, igtk, frame, keyId, ipn));
  }

  /** A 16-octet MIC whose second half the checker takes for the whole. */
  lemma LongMicRefused(igtk: Octets, frame: Octets, keyId: Octets, ipn: Octets)
    requires |igtk| == 32 && |frame| >= 24 && |keyId| == 2 && |ipn| == 6
    ensures !CmacAlwaysAccepted(Cmac128, igtk, frame, keyId, ipn)
  {
    hide MacInput, MmieHead, TimestampMasked;
    var mixed := ZeroOctets(8) + Ones(8);
    var ms := Macs(Constant(mixed), Constant(mixed), Constant(mixed));
    var data := CmacFrame(ms, igtk, frame, keyId, ipn);
    var at := |data| - 8;
    assert data[at..][0] == mixed[8] == 1 && mixed[..8][0] == 0;
    assert !Accepts(ms, Cmac128, igtk, data);
  }

  lemma InputsDiffer(frame: Octets, keyId: Octets, ipn: Octets, micLen: nat)
    requires |frame| >= 24 && |keyId| == 2 && |ipn| == 6 && micLen <= 16
    ensures var whole := frame + MmieHead(micLen, keyId, ipn) + ZeroOctets(micLen);
            TimestampMasked(whole) == MacInput(whole) <==> PlainTimestamp(frame)
  {
    hide MacInput, TimestampMasked, PlainTimestamp;
    var rest := MmieHead(micLen, keyId, ipn) + ZeroOctets(micLen);
    assert frame + MmieHead(micLen, keyId, ipn) + ZeroOctets(micLen) == frame + rest;
    MaskIsIdle(frame, rest);
  }

  /** A masked Timestamp makes the checker's input another one. */
  lemma MaskedRefused(cipher: MgmtCipher, igtk: Octets, frame: Octets, keyId: Octets, ipn: Octets)
    requires |frame| >= 24 && |keyId| == 2 && |ipn| == 6 && !PlainTimestamp(frame)
    ensures |igtk| != 32 ==> !CmacAlwaysAccepted(Cmac128, igtk, frame, keyId, ipn)
    ensures IsGmac(cipher) ==> !GmacAlwaysAccepted(cipher, igtk, frame, keyId, ipn)
  {
    hide MacInput, TimestampMasked, Accepts, Protected, PlainTimestamp, GmacNonce;
    if |igtk| != 32 {
      InputsDiffer(frame, keyId, ipn, 8);
      var m := Marking(MacInput(frame + MmieHead(8, keyId, ipn) + ZeroOctets(8)), Ones(16), ZeroOctets(16));
      var ms := Macs(m, m, m);
      AcceptsProtected(ms, Cmac128, m, igtk, frame, keyId, ipn);
      assert Ones(16)[..8][0] == 1 && ZeroOctets(16)[..8][0] == 0;
      assert !Accepts(ms, Cmac128, igtk, CmacFrame(ms, igtk, frame, keyId, ipn));
    }
    if IsGmac(cipher) {
      InputsDiffer(frame, keyId, ipn, 16);
      var m := Marking(MacInput(frame + MmieHead(16, keyId, ipn) + ZeroOctets(16)), Ones(16), ZeroOctets(16));
      var ms := Macs(m, m, m);
      AcceptsProtected(ms, cipher, m, igtk, frame, keyId, ipn);
      assert Ones(16)[..16][0] == 1 && ZeroOctets(16)[..16][0] == 0;
      assert !Accepts(ms, cipher, igtk, GmacFrame(ms, igtk, frame, keyId, ipn));
    }
  }

  lemma ShortKeyRefused(cipher: MgmtCipher, igtk: Octets, frame: Octets, keyId: Octets, ipn: Octets)
    requires |frame| >= 24 && |keyId| == 2 && |ipn| == 6 && |igtk| < 16
    ensures !CmacAlwaysAccepted(cipher, igtk, frame, keyId, ipn) && !GmacAlwaysAccepted(cipher, igtk, frame, keyId, ipn)
  {
    hide Protected;
    var ms := Macs(Constant(Ones(16)), Constant(Ones(16)), Constant(Ones(16)));
    assert !Accepts(ms, cipher, igtk, CmacFrame(ms, igtk, frame, keyId, ipn));
    assert !Accepts(ms, cipher, igtk, GmacFrame(ms, igtk, frame, keyId, ipn));
  }

  /**
   * What bip_protect builds passes check_mmie_mic, whatever the three MACs compute, exactly when the BSS uses
   * BIP-CMAC-128, the IGTK has its length, and no Timestamp is masked.
   */
  lemma CmacRoundTrip(cipher: MgmtCipher, igtk: Octets, frame: Octets, keyId: Octets, ipn: Octets)
    requires |frame| >= 24 && |keyId| == 2 && |ipn| == 6
    ensures CmacAlwaysAccepted(cipher, igtk, frame, keyId, ipn)
       <==> cipher == Cmac128 && 16 <= |igtk| != 32 && PlainTimestamp(frame)
  {
    hide MacInput, TimestampMasked, Accepts, Protected, PlainTimestamp;
    if cipher == Cmac128 && 16 <= |igtk| != 32 && PlainTimestamp(frame) {
      InputsDiffer(frame, keyId, ipn, 8);
      forall ms: Macs | ms.Sound()
        ensures Accepts(ms, cipher, igtk, CmacFrame(ms, igtk, frame, keyId, ipn))
      {
        AcceptsProtected(ms, cipher, ms.cmac128, igtk, frame, keyId, ipn);
      }
    } else if cipher != Cmac128 {
      OtherMacRefuses(cipher, igtk, frame, keyId, ipn);
    } else if |igtk| == 32 {
      LongMicRefused(igtk, frame, keyId, ipn);
    } else if |igtk| < 16 {
      ShortKeyRefused(cipher, igtk, frame, keyId, ipn);
    } else {
      MaskedRefused(cipher, igtk, frame, keyId, ipn);
    }
  }

  lemma OtherMacRefusesGmac(cipher: MgmtCipher, igtk: Octets, frame: Octets, keyId: Octets, ipn: Octets)
    requires !IsGmac(cipher) && |frame| >= 24 && |keyId| == 2 && |ipn| == 6
    ensures !GmacAlwaysAccepted(cipher, igtk, frame, keyId, ipn)
  {
    hide Protected, GmacNonce;
    var ms := Macs(Constant(ZeroOctets(16)), Constant(ZeroOctets(16)), Constant(Ones(16)));
    var data := GmacFrame(ms, igtk, frame, keyId, ipn);
    LastOfProtected(ms.gmac, igtk, GmacNonce(frame, ipn), frame, keyId, ipn, 16);
    if cipher != Other {
      hide Accepts;
      LastOctetTells(ms, cipher, igtk, data);
    }
  }

  /** The same for bip_gmac_protect: either GMAC cipher, and no Timestamp masked. */
  lemma GmacRoundTrip(cipher: MgmtCipher, igtk: Octets, frame: Octets, keyId: Octets, ipn: Octets)
    requires |frame| >= 24 && |keyId| == 2 && |ipn| == 6
    ensures GmacAlwaysAccepted(cipher, igtk, frame, keyId, ipn)
       <==> IsGmac(cipher) && |igtk| >= 16 && PlainTimestamp(frame)
  {
    hide MacInput, TimestampMasked, Accepts, Protected, PlainTimestamp, GmacNonce;
    if IsGmac(cipher) && |igtk| >= 16 && PlainTimestamp(frame) {
      InputsDiffer(frame, keyId, ipn, 16);
      forall ms: Macs | ms.Sound()
        ensures Accepts(ms, cipher, igtk, GmacFrame(ms, igtk, frame, keyId, ipn))
      {
        AcceptsProtected(ms, cipher, ms.gmac, igtk, frame, keyId, ipn);
      }
    } else if !IsGmac(cipher) {
      OtherMacRefusesGmac(cipher, igtk, frame, keyId, ipn);
    } else if |igtk| < 16 {
      ShortKeyRefused(cipher, igtk, frame, keyId, ipn);
    } else {
      MaskedRefused(cipher, igtk, frame, keyId, ipn);
    }
  }

  /** A Beacon frame with a running Timestamp, protected under a 16-octet IGTK, can be refused. */
  lemma BeaconRefused(keyId: Octets, ipn: Octets)
    requires |keyId| == 2 && |ipn| == 6
    ensures var beacon := [0x80] + ZeroOctets(23) + [1] + ZeroOctets(11);
            !CmacAlwaysAccepted(Cmac128, ZeroOctets(16), beacon, keyId, ipn)
  {
    hide CmacAlwaysAccepted;
    var beacon := [0x80] + ZeroOctets(23) + [1] + ZeroOctets(11);
    assert beacon[24..32][0] == 1;
    CmacRoundTrip(Cmac128, ZeroOctets(16), beacon, keyId, ipn);
  }

  /** A Deauthentication frame protected under a 32-octet IGTK can be refused under every cipher. */
  lemma DeauthRefused(cipher: MgmtCipher, keyId: Octets, ipn: Octets)
    requires |keyId| == 2 && |ipn| == 6
    ensures var deauth := [0xc0] + ZeroOctets(23) + [3, 0];
            !CmacAlwaysAccepted(cipher, ZeroOctets(32), deauth, keyId, ipn)
  {
    hide CmacAlwaysAccepted;
    CmacRoundTrip(cipher, ZeroOctets(32), [0xc0] + ZeroOctets(23) + [3, 0], keyId, ipn);
  }

  lemma InputParts(a: bv8, b: bv8, s: Octets, u: Octets, a': bv8, b': bv8, s': Octets, u': Octets)
    requires |s| == |s'| == 18
    ensures [a, b] + s + u == [a', b'] + s' + u' <==> a == a' && b == b' && s == s' && u == u'
  {
    var x, y := [a, b] + s + u, [a', b'] + s' + u';
    assert x[0] == a && x[1] == b && x[2..20] == s && x[20..] == u;
    assert y[0] == a' && y[1] == b' && y[2..20] == s' && y[20..] == u';
  }

  lemma ControlOctets(x0: bv8, x1: bv8)
    ensures Low(WithoutFlags(Le16(x0, x1))) == x0 && High(WithoutFlags(Le16(x0, x1))) == x1 & 0xc7
  {
  }

  /** Two frames have one MIC input exactly when they differ in masked fields only. */
  lemma MacInputExact(f: Octets, g: Octets)
    requires |f| >= 24 && |g| >= 24
    ensures MacInput(f) == MacInput(g) <==>
              f[0] == g[0] && f[1] & 0xc7 == g[1] & 0xc7 && f[4..22] == g[4..22] && f[24..] == g[24..]
  {
    hide Low, High, WithoutFlags, Le16;
    ControlOctets(f[0], f[1]);
    ControlOctets(g[0], g[1]);
    InputParts(f[0], f[1] & 0xc7, f[4..22], f[24..], g[0], g[1] & 0xc7, g[4..22], g[24..]);
  }
}
