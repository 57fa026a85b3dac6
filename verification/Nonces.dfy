/** Which packet number counter an injected frame advances, and why CCMP nonces do not repeat. */
module Nonces {
  import opened Bits
  import opened Frames
  import opened Counters
  import opened Aead
  import opened Tracking

  const NO_OVERRIDE := Override(None, None, None)

  /** Octets that injection reads before it checks any length. */
  predicate Readable(f: Octets)
  {
    |f| >= 24 && (QosData(Fc(f)) ==> |f| > QosAt(Fc(f)))
  }

  /** The header length injection works out. */
  function HdrLen(f: Octets): (n: nat)
    requires |f| >= 24
    ensures n >= 24
  {
    if FcType(Fc(f)) == TYPE_DATA then 24 + TailLen(Fc(f)) else 24
  }

  lemma DataOctets(x0: bv8, x1: bv8)
    ensures FcType(Le16(x0, x1)) == TYPE_DATA <==> x0 & 0x0c == 0x08
    ensures FourAddr(Le16(x0, x1)) <==> x1 & 0x03 == 0x03
    ensures FcType(Le16(x0, x1)) == TYPE_DATA ==> (QosData(Le16(x0, x1)) <==> x0 & 0x80 != 0)
  {
  }

  /** On the octets: QoS Control and the fourth address count for data frames only. */
  lemma HdrLenOctets(f: Octets)
    requires |f| >= 24
    ensures HdrLen(f) == if f[0] & 0x0c != 0x08 then 24
                         else 24 + (if f[1] & 0x03 == 0x03 then 6 else 0) + (if f[0] & 0x80 != 0 then 2 else 0)
  {
    DataOctets(f[0], f[1]);
  }

  /** Frames no shorter than their header; encryption refuses the others. */
  predicate Sendable(f: Octets)
  {
    Readable(f) && |f| >= HdrLen(f)
  }

  /** The counter index: 16 for Management frames, the TID of QoS data, else 0. */
  function TidOctet(f: Octets): bv8
    requires Readable(f)
  {
    if FcType(Fc(f)) == TYPE_MGMT then 16
    else if QosData(Fc(f)) then f[QosAt(Fc(f))] & 0x0f
    else 0
  }

  lemma TidRange(f: Octets)
    requires Readable(f)
    ensures TidOctet(f) as nat <= 16
  {
    hide FcType, QosData, Le16;
    if QosData(Fc(f)) {
      NibbleRange(f[QosAt(Fc(f))]);
    }
  }

  function TidOf(f: Octets): (t: nat)
    requires Readable(f)
    ensures t <= 16
  {
    TidRange(f);
    TidOctet(f) as nat
  }

  /**
   * Two ends under one key: counters for frames sent by the anchor (the AP, or the TDLS initiator)
   * and for frames sent by the other end.
   */
  datatype Link = Link(anchor: Mac, fromAnchor: PnTable, toAnchor: PnTable)

  datatype Slot = Slot(byAnchor: bool, tid: nat)

  function SlotOf(anchor: Mac, f: Octets): (s: Slot)
    requires Readable(f)
    ensures s.tid <= 16
  {
    Slot(Addr2(f) == anchor, TidOf(f))
  }

  function At(link: Link, s: Slot): Pn
    requires s.tid <= 16
  {
    if s.byAnchor then link.fromAnchor[s.tid] else link.toAnchor[s.tid]
  }

  /** The packet number the frame is sent with. */
  function NextPn(link: Link, f: Octets): Pn
    requires Readable(f)
  {
    Incremented(At(link, SlotOf(link.anchor, f)))
  }

  /** The counters after the frame: its own one advanced, all others as before. */
  function Bumped(link: Link, f: Octets): (r: Link)
    requires Readable(f)
    ensures r.anchor == link.anchor && At(r, SlotOf(link.anchor, f)) == NextPn(link, f)
    ensures forall s: Slot | s.tid <= 16 && s != SlotOf(link.anchor, f) :: At(r, s) == At(link, s)
  {
    var tid, pn := TidOf(f), NextPn(link, f);
    if Addr2(f) == link.anchor then link.(fromAnchor := link.fromAnchor[tid := pn])
    else link.(toAnchor := link.toAnchor[tid := pn])
  }

  /** The nonce that ccmp.c builds for the frame that injection hands it. */
  function SentNonce(link: Link, f: Octets): (n: Octets)
    requires Sendable(f)
    ensures |n| == 13
  {
    Nonce(Ccmp, Head(Ccmp, f, HdrLen(f), NextPn(link, f), 0), NO_OVERRIDE, NextPn(link, f))
  }

  lemma ProtectedKeepsKind(x0: bv8, x1: bv8)
    ensures FourAddr(Le16(x0, x1 | 0x40)) == FourAddr(Le16(x0, x1))
    ensures QosData(Le16(x0, x1 | 0x40)) == QosData(Le16(x0, x1))
    ensures FcType(Le16(x0, x1 | 0x40)) == FcType(Le16(x0, x1))
  {
  }

  lemma SamePriority(f: Octets, h: Octets, n: nat)
    requires Sendable(f) && n == HdrLen(f) && |h| >= n + 8 && forall i | 2 <= i < n :: h[i] == f[i]
    requires FourAddr(Fc(h)) == FourAddr(Fc(f)) && QosData(Fc(h)) == QosData(Fc(f)) && FcType(Fc(h)) == FcType(Fc(f))
    requires QosData(Fc(f)) ==> FcType(Fc(f)) == TYPE_DATA
    ensures LongEnough(h) && Priority(h) == TidOctet(f) && Addr2(h) == Addr2(f)
  {
    hide FourAddr, QosData, FcType, Fc;
  }

  lemma HeadOctets(f: Octets, hdrLen: nat, pn: Pn)
    requires 24 <= hdrLen <= |f|
    ensures var h := Head(Ccmp, f, hdrLen, pn, 0);
            h[1] == f[1] | 0x40 && forall i | 0 <= i < hdrLen && i != 1 :: h[i] == f[i]
  {
    hide CipherHeader;
  }

  lemma QosIsData(f: Octets)
    requires |f| >= 2 && QosData(Fc(f))
    ensures FcType(Fc(f)) == TYPE_DATA && FcType(Fc(f)) != TYPE_MGMT
  {
  }

  lemma PriorityIsTid(f: Octets, pn: Pn)
    requires Sendable(f)
    ensures var h := Head(Ccmp, f, HdrLen(f), pn, 0);
            LongEnough(h) && Priority(h) == TidOctet(f) && Addr2(h) == Addr2(f)
  {
    hide FourAddr, QosData, FcType, Le16, Head;
    var h := Head(Ccmp, f, HdrLen(f), pn, 0);
    HeadOctets(f, HdrLen(f), pn);
    ProtectedKeepsKind(f[0], f[1]);
    assert h[0] == f[0] && h[1] == f[1] | 0x40;
    if QosData(Fc(f)) {
      QosIsData(f);
    }
    SamePriority(f, h, HdrLen(f));
  }

  /** Injection's counter index is the nonce's first octet, whatever the kind of frame. */
  lemma NonceIsTidAddrPn(link: Link, f: Octets)
    requires Sendable(f)
    ensures SentNonce(link, f) == [TidOctet(f)] + Addr2(f) + NextPn(link, f)
  {
    hide Readable, HdrLen, TidOctet, NextPn, Priority, Head;
    var pn := NextPn(link, f);
    PriorityIsTid(f, pn);
  }

  // Runs ------------------------------------------------------------------------------------

  ghost predicate AllReadable(fs: seq<Octets>)
  {
    forall i | 0 <= i < |fs| :: Readable(fs[i])
  }

  /** The link after a run of injections since the key was installed. */
  ghost function After(link: Link, fs: seq<Octets>): (r: Link)
    requires AllReadable(fs)
    ensures r.anchor == link.anchor
  {
    if fs == [] then link else Bumped(After(link, fs[..|fs| - 1]), fs[|fs| - 1])
  }

  /** How many frames of a run advanced one counter. */
  ghost function Uses(anchor: Mac, fs: seq<Octets>, s: Slot): nat
    requires AllReadable(fs)
  {
    if fs == [] then 0
    else Uses(anchor, fs[..|fs| - 1], s) + if SlotOf(anchor, fs[|fs| - 1]) == s then 1 else 0
  }

  /** Every counter stands at its start value advanced by its number of uses. */
  lemma {:induction false} CounterAfter(link: Link, fs: seq<Octets>, s: Slot)
    requires AllReadable(fs) && s.tid <= 16
    ensures At(After(link, fs), s) == Advanced(At(link, s), Uses(link.anchor, fs, s))
  {
    hide SlotOf, Readable, Bumped, At;
    if fs != [] {
      CounterAfter(link, fs[..|fs| - 1], s);
    }
  }

  lemma {:induction false} UsesMonotone(anchor: Mac, fs: seq<Octets>, s: Slot, i: nat)
    requires AllReadable(fs) && i <= |fs|
    ensures Uses(anchor, fs[..i], s) <= Uses(anchor, fs, s)
    ensures i < |fs| && SlotOf(anchor, fs[i]) == s ==> Uses(anchor, fs[..i], s) < Uses(anchor, fs, s)
  {
    hide SlotOf, Readable;
    if i == |fs| {
      assert fs[..i] == fs;
    } else {
      var init := fs[..|fs| - 1];
      assert init[..i] == fs[..i];
      UsesMonotone(anchor, init, s, i);
      if i == |fs| - 1 {
        assert init == fs[..i];
      }
    }
  }

  /** The nonce of the i-th frame of a run. */
  ghost function RunNonce(link: Link, fs: seq<Octets>, i: nat): Octets
    requires AllReadable(fs) && i < |fs| && Sendable(fs[i])
  {
    SentNonce(After(link, fs[..i]), fs[i])
  }

  const PN_SPACE: nat := 0x1_0000_0000_0000

  lemma PnSpace()
    ensures Power(256, 6) == PN_SPACE
  {
    assert Power(256, 2) == 0x1_0000;
    assert Power(256, 4) == 0x1_0000_0000;
  }

  lemma NonceFields(t: bv8, a: Mac, p: Pn, u: bv8, b: Mac, q: Pn)
    ensures [t] + a + p == [u] + b + q <==> t == u && a == b && p == q
  {
    var x, y := [t] + a + p, [u] + b + q;
    assert x[0] == t && x[1..7] == a && x[7..] == p;
    assert y[0] == u && y[1..7] == b && y[7..] == q;
  }

  lemma NextOfAdvanced(s: Octets, n: nat)
    ensures Incremented(Advanced(s, n)) == Advanced(s, n + 1)
  {
  }

  /**
   * Two frames of a run share a nonce exactly when they come from one sender, use one counter,
   * and that counter has wrapped between them.
   */
  lemma NonceRepeats(link: Link, fs: seq<Octets>, i: nat, j: nat)
    requires AllReadable(fs) && i < j < |fs| && Sendable(fs[i]) && Sendable(fs[j])
    ensures RunNonce(link, fs, i) == RunNonce(link, fs, j) <==>
              var s := SlotOf(link.anchor, fs[i]);
              && Addr2(fs[i]) == Addr2(fs[j])
              && SlotOf(link.anchor, fs[j]) == s
              && (Uses(link.anchor, fs[..j], s) - Uses(link.anchor, fs[..i], s)) % PN_SPACE == 0
  {
    hide Readable, HdrLen, TidOctet, SentNonce, At, Uses, Advanced, Incremented, After;
    var s, t := SlotOf(link.anchor, fs[i]), SlotOf(link.anchor, fs[j]);
    var k, l := After(link, fs[..i]), After(link, fs[..j]);
    NonceIsTidAddrPn(k, fs[i]);
    NonceIsTidAddrPn(l, fs[j]);
    NonceFields(TidOctet(fs[i]), Addr2(fs[i]), NextPn(k, fs[i]), TidOctet(fs[j]), Addr2(fs[j]), NextPn(l, fs[j]));
    if TidOf(fs[i]) == TidOf(fs[j]) {
      OctetInjective(TidOctet(fs[i]), TidOctet(fs[j]));
    }
    if Addr2(fs[i]) == Addr2(fs[j]) && t == s {
      var m, n := Uses(link.anchor, fs[..i], s), Uses(link.anchor, fs[..j], s);
      CounterAfter(link, fs[..i], s);
      CounterAfter(link, fs[..j], s);
      NextOfAdvanced(At(link, s), m);
      NextOfAdvanced(At(link, s), n);
      assert fs[..j][..i] == fs[..i];
      UsesMonotone(link.anchor, fs[..j], s, i);
      AdvancedEqual(At(link, s), m + 1, n + 1);
      PnSpace();
    }
  }

  /** No run that uses each counter at most 2^48 times repeats a nonce, whatever the counters started at. */
  lemma NoncesDistinct(link: Link, fs: seq<Octets>)
    requires AllReadable(fs)
    requires forall s: Slot | s.tid <= 16 :: Uses(link.anchor, fs, s) <= PN_SPACE
    ensures forall i, j | 0 <= i < j < |fs| && Sendable(fs[i]) && Sendable(fs[j]) ::
              RunNonce(link, fs, i) != RunNonce(link, fs, j)
  {
    hide Readable, HdrLen, RunNonce, SlotOf, Uses;
    forall i, j | 0 <= i < j < |fs| && Sendable(fs[i]) && Sendable(fs[j])
      ensures RunNonce(link, fs, i) != RunNonce(link, fs, j)
    {
      var s := SlotOf(link.anchor, fs[i]);
      NonceRepeats(link, fs, i, j);
      if SlotOf(link.anchor, fs[j]) == s {
        assert fs[..j][..i] == fs[..i];
        UsesMonotone(link.anchor, fs[..j], s, i);
        UsesMonotone(link.anchor, fs, s, j);
      }
    }
  }

  // Group frames -----------------------------------------------------------------------------------

  /** The header length that injection takes for a group frame; it does not count QoS Control. */
  function GroupHdrLen(f: Octets): nat
    requires |f| >= 24
  {
    if FourAddr(Fc(f)) then 30 else 24
  }

  lemma GroupHdrLenOctets(f: Octets)
    requires |f| >= 24
    ensures GroupHdrLen(f) == if f[1] & 0x03 == 0x03 then 30 else 24
  {
    DataOctets(f[0], f[1]);
  }

  /** The nonce that ccmp.c builds for a group frame. */
  function GroupNonce(f: Octets, pn: Pn, keyId: bv8): (n: Octets)
    requires |f| >= 24 && |f| >= GroupHdrLen(f)
    ensures |n| == 13
  {
    Nonce(Ccmp, Head(Ccmp, f, GroupHdrLen(f), pn, keyId), NO_OVERRIDE, pn)
  }

  /** Its first octet: where a QoS frame has its TID, the sent frame has the last packet number octet. */
  function GroupPriority(f: Octets, pn: Pn): bv8
    requires |f| >= 24
  {
    if QosData(Fc(f)) then pn[5] & 0x0f else if FcType(Fc(f)) == TYPE_MGMT then 0x10 else 0
  }

  lemma FirstOfHeader(pn: Pn, keyId: bv8)
    ensures CipherHeader(pn, keyId)[0] == pn[5]
  {
  }

  lemma GroupHead(f: Octets, n: nat, pn: Pn, keyId: bv8)
    requires 24 <= n <= |f|
    ensures var h := Head(Ccmp, f, n, pn, keyId);
            h[0] == f[0] && h[1] == f[1] | 0x40 && h[10..16] == f[10..16] && h[n] == pn[5]
  {
    hide CipherHeader;
    FirstOfHeader(pn, keyId);
  }

  lemma GroupPriorityOf(f: Octets, h: Octets, pn: Pn)
    requires |f| >= 24 && |h| == GroupHdrLen(f) + 8 && h[GroupHdrLen(f)] == pn[5]
    requires FourAddr(Fc(h)) == FourAddr(Fc(f)) && QosData(Fc(h)) == QosData(Fc(f)) && FcType(Fc(h)) == FcType(Fc(f))
    ensures LongEnough(h) && Priority(h) == GroupPriority(f, pn)
  {
    hide FourAddr, QosData, FcType, Fc;
  }

  lemma GroupNonceIs(f: Octets, pn: Pn, keyId: bv8)
    requires |f| >= 24 && |f| >= GroupHdrLen(f)
    ensures GroupNonce(f, pn, keyId) == [GroupPriority(f, pn)] + Addr2(f) + pn
  {
    hide FourAddr, QosData, FcType, Le16, Head;
    var n := GroupHdrLen(f);
    var h := Head(Ccmp, f, n, pn, keyId);
    GroupHead(f, n, pn, keyId);
    ProtectedKeepsKind(f[0], f[1]);
    assert h[0] == f[0] && h[1] == f[1] | 0x40;
    GroupPriorityOf(f, h, pn);
  }

  /** The nonce of the i-th group frame sent under one key: every attempt advances the one counter. */
  ghost function GroupRunNonce(start: Pn, fs: seq<Octets>, i: nat, keyId: bv8): Octets
    requires i < |fs| && |fs[i]| >= 24 && |fs[i]| >= GroupHdrLen(fs[i])
  {
    GroupNonce(fs[i], Incremented(Advanced(start, i)), keyId)
  }

  /** Two group frames of a run share a nonce exactly when their priorities and senders agree and the counter has wrapped. */
  lemma GroupNonceRepeats(start: Pn, fs: seq<Octets>, i: nat, j: nat, keyId: bv8)
    requires i < j < |fs|
    requires |fs[i]| >= 24 && |fs[i]| >= GroupHdrLen(fs[i]) && |fs[j]| >= 24 && |fs[j]| >= GroupHdrLen(fs[j])
    ensures GroupRunNonce(start, fs, i, keyId) == GroupRunNonce(start, fs, j, keyId) <==>
              && GroupPriority(fs[i], Advanced(start, i + 1)) == GroupPriority(fs[j], Advanced(start, i + 1))
              && Addr2(fs[i]) == Addr2(fs[j])
              && (j - i) % PN_SPACE == 0
  {
    hide GroupNonce, GroupPriority, GroupHdrLen, Advanced, Incremented;
    var p, q := Advanced(start, i + 1), Advanced(start, j + 1);
    NextOfAdvanced(start, i);
    NextOfAdvanced(start, j);
    GroupNonceIs(fs[i], p, keyId);
    GroupNonceIs(fs[j], q, keyId);
    NonceFields(GroupPriority(fs[i], p), Addr2(fs[i]), p, GroupPriority(fs[j], q), Addr2(fs[j]), q);
    AdvancedEqual(start, i + 1, j + 1);
    PnSpace();
  }
}
