/** wlantest frame injection: which key and counter a frame uses, and what goes out. */
module Inject {
  import opened Bits
  import opened Frames
  import opened Counters
  import opened Aead
  import AeadBuffers
  import Bip
  import opened Tracking
  import opened Nonces

  datatype Protection = Normal | Protected | Unprotected | IncorrectKey

  /** AES-CCM and AES-CMAC, and TKIP encapsulation of key, frame, header length, PN and key ID. */
  datatype Crypto = Crypto(ccm: Cipher, cmac: Bip.Mac16, tkip: (Octets, Octets, nat, Pn, bv8) -> Option<Octets>)
  {
    /** Ciphertexts carry a MIC, MACs have 16 octets, and TKIP adds its header, MIC and ICV. */
    ghost predicate Sound()
    {
      && ccm.Sound(8) && Bip.GivesSixteen(cmac)
      && forall k, f, h, p, i :: tkip(k, f, h, p, i).Some? ==> |tkip(k, f, h, p, i).value| == |f| + 20
    }
  }

  function Stub(n: nat): Octets
  {
    seq(n, _ => 0x11)
  }

  function KeyFor(key: Octets, incorrect: bool): Octets
  {
    if incorrect then Stub(64) else key
  }

  /** The encapsulated frame, or nothing when encryption fails. */
  function Encapsulated(c: Crypto, tkip: bool, key: Octets, frame: Octets, hdrLen: nat, pn: Pn, keyId: bv8): Option<Octets>
  {
    if tkip then c.tkip(key, frame, hdrLen, pn, keyId)
    else Sealed(Ccmp, c.ccm, key, frame, hdrLen, NO_OVERRIDE, pn, keyId)
  }

  /** What reaches the air: the encapsulated frame if there is one and the send succeeds. */
  function OnAir(out: Option<Octets>, ok: bool): seq<Octets>
  {
    if out.Some? && ok then [out.value] else []
  }

  /** The return value of an attempt. */
  function Result(out: Option<Octets>, ok: bool): int
  {
    if out.Some? && ok then 0 else -1
  }

  /** The frames a route can put on the air; none of them is the frame as given. */
  ghost predicate Covered(before: seq<Octets>, after: seq<Octets>, frame: Octets)
  {
    after == before || exists out | |out| > |frame| :: after == before + [out]
  }

  lemma LongerThanFrame(c: Crypto, tkip: bool, key: Octets, frame: Octets, hdrLen: nat, pn: Pn, keyId: bv8)
    requires c.Sound()
    ensures Encapsulated(c, tkip, key, frame, hdrLen, pn, keyId).Some? ==>
              |Encapsulated(c, tkip, key, frame, hdrLen, pn, keyId).value| > |frame|
  {
    if !tkip && 24 <= hdrLen <= |frame| {
      OpenedSealed(Ccmp, c.ccm, key, frame, hdrLen, NO_OVERRIDE, pn, keyId);
    }
  }

  lemma OnAirCovered(before: seq<Octets>, out: Option<Octets>, ok: bool, frame: Octets)
    requires out.Some? ==> |out.value| > |frame|
    ensures Covered(before, before + OnAir(out, ok), frame)
  {
    if out.None? || !ok {
      assert before + OnAir(out, ok) == before;
    }
  }

  method Encapsulate(c: Crypto, tkip: bool, key: Octets, frame: Octets, hdrLen: nat, pn: Pn, keyId: bv8)
    returns (r: Option<Octets>)
    requires c.Sound()
    ensures r == Encapsulated(c, tkip, key, frame, hdrLen, pn, keyId)
  {
    if tkip {
      r := c.tkip(key, frame, hdrLen, pn, keyId);
    } else {
      r := AeadBuffers.Encrypt(Ccmp, c.ccm, key, frame, hdrLen, NO_OVERRIDE, pn, keyId);
    }
  }

  /** inject_frame; ok is the outcome of sendmsg. */
  method Send(wt: Wlantest, out: Option<Octets>, ok: bool) returns (ret: int)
    modifies wt`sent
    ensures wt.sent == old(wt.sent) + OnAir(out, ok)
    ensures ret == Result(out, ok)
  {
    if out.None? || !ok {
      return -1;
    }
    wt.sent := wt.sent + [out.value];
    return 0;
  }

  ghost function StaLink(sta: Sta, bssid: Mac): Link
    reads sta`rscFromDs, sta`rscToDs
  {
    Link(bssid, sta.rscFromDs, sta.rscToDs)
  }

  ghost function TdlsLink(t: Tdls): Link
    reads t`rscInit, t`rscResp
  {
    Link(t.init.addr, t.rscInit, t.rscResp)
  }

  /** Which counter an attempt advanced. */
  datatype Route = Refused | ByIgtk(b: Bss, i: Index8) | ByGtk(b: Bss, g: Index4) | ByPtk(s: Sta, bssid: Mac) | ByTpk(t: Tdls)

  /** Every packet number counter, as values. */
  datatype Snap = Snap(ipn: map<Bss, Ipns8>, rsc: map<Bss, Pns4>, sta: map<Sta, (PnTable, PnTable)>,
                       tdls: map<Tdls, (PnTable, PnTable)>)

  ghost function Snapshot(bs: seq<Bss>, stas: set<Sta>, ts: set<Tdls>): (c: Snap)
    reads bs`ipn, bs`rsc, stas`rscFromDs, stas`rscToDs, ts`rscInit, ts`rscResp
    ensures forall b | b in bs :: b in c.ipn && b in c.rsc
    ensures c.sta.Keys == stas && c.tdls.Keys == ts
  {
    Snap(map b | b in bs :: b.ipn, map b | b in bs :: b.rsc,
         map s | s in stas :: (s.rscFromDs, s.rscToDs), map t | t in ts :: (t.rscInit, t.rscResp))
  }

  predicate Known(route: Route, c: Snap)
  {
    match route
    case Refused => true
    case ByIgtk(b, _) => b in c.ipn
    case ByGtk(b, _) => b in c.rsc
    case ByPtk(s, _) => s in c.sta
    case ByTpk(t) => t in c.tdls
  }

  /** The frame is long enough for what a route reads of it: pairwise and direct routes read the TID. */
  predicate Takes(route: Route, f: Octets)
  {
    |f| >= 24 && (route.ByPtk? || route.ByTpk? ==> Readable(f))
  }

  function BumpedPair(anchor: Mac, p: (PnTable, PnTable), frame: Octets): (PnTable, PnTable)
    requires Readable(frame)
  {
    var link := Bumped(Link(anchor, p.0, p.1), frame);
    (link.fromAnchor, link.toAnchor)
  }

  function NextIpn(ipn: Ipns8, k: Index8): Ipns8
  {
    ipn[k := (ipn[k] + 1) % 0x1_0000_0000_0000_0000]
  }

  function NextRsc(rsc: Pns4, k: Index4): Pns4
  {
    rsc[k := Incremented(rsc[k])]
  }

  /** The counters after an attempt: exactly the one that the route names has advanced, by one. */
  function Next(route: Route, c: Snap, frame: Octets): Snap
    requires Takes(route, frame) && Known(route, c)
  {
    match route
    case Refused => c
    case ByIgtk(b, k) => c.(ipn := c.ipn[b := NextIpn(c.ipn[b], k)])
    case ByGtk(b, k) => c.(rsc := c.rsc[b := NextRsc(c.rsc[b], k)])
    case ByPtk(s, bssid) => c.(sta := c.sta[s := BumpedPair(bssid, c.sta[s], frame)])
    case ByTpk(t) => c.(tdls := c.tdls[t := BumpedPair(t.init.addr, c.tdls[t], frame)])
  }

  lemma RefusedIsIdle(c: Snap, frame: Octets)
    requires |frame| >= 24
    ensures Known(Refused, c) && Next(Refused, c, frame) == c
  {
  }

  method BumpIpn(bss: Bss, frame: Octets, ghost bs: seq<Bss>, ghost stas: set<Sta>, ghost ts: set<Tdls>)
    requires bss in bs && |frame| >= 24
    modifies bss`ipn
    ensures bss.ipn == NextIpn(old(bss.ipn), bss.igtkIdx)
    ensures Snapshot(bs, stas, ts) == Next(ByIgtk(bss, bss.igtkIdx), old(Snapshot(bs, stas, ts)), frame)
  {
    bss.ipn := bss.ipn[bss.igtkIdx := (bss.ipn[bss.igtkIdx] + 1) % 0x1_0000_0000_0000_0000];
    ghost var x, y := Snapshot(bs, stas, ts), Next(ByIgtk(bss, bss.igtkIdx), old(Snapshot(bs, stas, ts)), frame);
    assert x.ipn == y.ipn && x.rsc == y.rsc && x.sta == y.sta && x.tdls == y.tdls;
  }

  method BumpRsc(bss: Bss, frame: Octets, ghost bs: seq<Bss>, ghost stas: set<Sta>, ghost ts: set<Tdls>)
    requires bss in bs && |frame| >= 24
    modifies bss`rsc
    ensures bss.rsc == NextRsc(old(bss.rsc), bss.gtkIdx)
    ensures Snapshot(bs, stas, ts) == Next(ByGtk(bss, bss.gtkIdx), old(Snapshot(bs, stas, ts)), frame)
  {
    bss.rsc := NextRsc(bss.rsc, bss.gtkIdx);
    ghost var x, y := Snapshot(bs, stas, ts), Next(ByGtk(bss, bss.gtkIdx), old(Snapshot(bs, stas, ts)), frame);
    assert x.ipn == y.ipn && x.rsc == y.rsc && x.sta == y.sta && x.tdls == y.tdls;
  }

  /** The station's counter for the frame's direction and TID, advanced. */
  method AdvanceSta(sta: Sta, bssid: Mac, frame: Octets) returns (pn: Pn)
    requires Readable(frame)
    modifies sta`rscFromDs, sta`rscToDs
    ensures pn == NextPn(old(StaLink(sta, bssid)), frame)
    ensures StaLink(sta, bssid) == Bumped(old(StaLink(sta, bssid)), frame)
  {
    hide TidOf, Incremented;
    var tid := TidOf(frame);
    if Addr2(frame) == bssid {
      pn := Incremented(sta.rscFromDs[tid]);
      sta.rscFromDs := sta.rscFromDs[tid := pn];
    } else {
      pn := Incremented(sta.rscToDs[tid]);
      sta.rscToDs := sta.rscToDs[tid := pn];
    }
  }

  lemma ReadableLong(f: Octets)
    requires Readable(f)
    ensures |f| >= 24
  {
  }

  method BumpSta(sta: Sta, bssid: Mac, frame: Octets, ghost bs: seq<Bss>, ghost stas: set<Sta>, ghost ts: set<Tdls>) returns (pn: Pn)
    requires sta in stas && Readable(frame)
    modifies sta`rscFromDs, sta`rscToDs
    ensures pn == NextPn(old(StaLink(sta, bssid)), frame)
    ensures StaLink(sta, bssid) == Bumped(old(StaLink(sta, bssid)), frame)
    ensures Snapshot(bs, stas, ts) == Next(ByPtk(sta, bssid), old(Snapshot(bs, stas, ts)), frame)
  {
    hide Bumped, NextPn, Readable;
    ReadableLong(frame);
    pn := AdvanceSta(sta, bssid, frame);
    ghost var x, y := Snapshot(bs, stas, ts), Next(ByPtk(sta, bssid), old(Snapshot(bs, stas, ts)), frame);
    assert x.ipn == y.ipn && x.rsc == y.rsc && x.sta == y.sta && x.tdls == y.tdls;
  }

  /** The direct link's counter for the sender and TID, advanced. */
  method AdvanceTdls(t: Tdls, frame: Octets) returns (pn: Pn)
    requires Readable(frame)
    modifies t`rscInit, t`rscResp
    ensures pn == NextPn(old(TdlsLink(t)), frame)
    ensures TdlsLink(t) == Bumped(old(TdlsLink(t)), frame)
  {
    hide TidOf, Incremented;
    var tid := TidOf(frame);
    if Addr2(frame) == t.init.addr {
      pn := Incremented(t.rscInit[tid]);
      t.rscInit := t.rscInit[tid := pn];
    } else {
      pn := Incremented(t.rscResp[tid]);
      t.rscResp := t.rscResp[tid := pn];
    }
  }

  method BumpTdls(t: Tdls, frame: Octets, ghost bs: seq<Bss>, ghost stas: set<Sta>, ghost ts: set<Tdls>) returns (pn: Pn)
    requires t in ts && Readable(frame)
    modifies t`rscInit, t`rscResp
    ensures pn == NextPn(old(TdlsLink(t)), frame)
    ensures TdlsLink(t) == Bumped(old(TdlsLink(t)), frame)
    ensures Snapshot(bs, stas, ts) == Next(ByTpk(t), old(Snapshot(bs, stas, ts)), frame)
  {
    hide Bumped, NextPn, Readable;
    ReadableLong(frame);
    pn := AdvanceTdls(t, frame);
    ghost var x, y := Snapshot(bs, stas, ts), Next(ByTpk(t), old(Snapshot(bs, stas, ts)), frame);
    assert x.ipn == y.ipn && x.rsc == y.rsc && x.sta == y.sta && x.tdls == y.tdls;
  }

  /** A key, and whether it is used with TKIP. */
  datatype Key = Key(tkip: bool, octets: Octets)

  function BssOf(route: Route): set<Bss> { if route.ByIgtk? || route.ByGtk? then {route.b} else {} }

  function StaOf(route: Route): set<Sta> { if route.ByPtk? then {route.s} else {} }

  function TdlsOf(route: Route): set<Tdls> { if route.ByTpk? then {route.t} else {} }

  /** The key of a route's entry. */
  ghost function KeyOf(route: Route): Key
    reads BssOf(route)`igtk, BssOf(route)`gtk, BssOf(route)`groupTkip, StaOf(route)`ptk, StaOf(route)`tkip, TdlsOf(route)`tk
  {
    match route
    case Refused => Key(false, [])
    case ByIgtk(b, k) => Key(false, b.igtk[k])
    case ByGtk(b, k) => Key(b.groupTkip, b.gtk[k])
    case ByPtk(s, _) => Key(s.tkip, s.ptk)
    case ByTpk(t) => Key(false, t.tk)
  }

  /** The counters of a pairwise or direct route. */
  function LinkIn(route: Route, x: Snap): Link
    requires (route.ByPtk? || route.ByTpk?) && Known(route, x)
  {
    if route.ByPtk? then Link(route.bssid, x.sta[route.s].0, x.sta[route.s].1)
    else Link(route.t.init.addr, x.tdls[route.t].0, x.tdls[route.t].1)
  }

  ghost function BipFrame(c: Crypto, igtk: Octets, frame: Octets, ipn: nat, keyId: nat): (r: Octets)
    requires c.Sound() && |frame| >= 24
    ensures |r| > |frame|
  {
    Bip.Protected(c.cmac, igtk, [], frame, Bip.LeOctets(keyId, 2), Bip.LeOctets(ipn, 6), if |igtk| == 32 then 16 else 8)
  }

  function GroupFrame(c: Crypto, tkip: bool, key: Octets, frame: Octets, pn: Pn, k: Index4): Option<Octets>
    requires |frame| >= 24
  {
    Encapsulated(c, tkip, key, frame, GroupHdrLen(frame), pn, k as bv8)
  }

  /**
   * The frame that a route makes of a frame under a key, with the counter of the route's entry one further than it
   * stands among the counters given.
   */
  ghost function SentAt(c: Crypto, x: Snap, route: Route, key: Key, frame: Octets, incorrect: bool): Option<Octets>
    requires c.Sound() && Takes(route, frame) && Known(route, x)
  {
    match route
    case Refused => None
    case ByIgtk(b, k) =>
      Some(BipFrame(c, if incorrect then Stub(|key.octets|) else key.octets, frame, NextIpn(x.ipn[b], k)[k], k))
    case ByGtk(b, k) => GroupFrame(c, key.tkip, KeyFor(key.octets, incorrect), frame, NextRsc(x.rsc[b], k)[k], k)
    case _ =>
      Encapsulated(c, key.tkip, KeyFor(key.octets, incorrect), frame, HdrLen(frame), NextPn(LinkIn(route, x), frame), 0)
  }

  lemma RefusedSendsNothing(c: Crypto, x: Snap, key: Key, frame: Octets, incorrect: bool)
    requires c.Sound() && |frame| >= 24
    ensures Known(Refused, x) && SentAt(c, x, Refused, key, frame, incorrect) == None
  {
  }

  /** A snapshot holds the counters as they are. */
  lemma InSnapshot(bs: seq<Bss>, stas: set<Sta>, ts: set<Tdls>)
    ensures var x := Snapshot(bs, stas, ts);
            && (forall b | b in bs :: x.ipn[b] == b.ipn && x.rsc[b] == b.rsc)
            && (forall s | s in stas :: x.sta[s] == (s.rscFromDs, s.rscToDs))
            && (forall t | t in ts :: x.tdls[t] == (t.rscInit, t.rscResp))
  {
  }

  /** No route sends the frame as given. */
  lemma SentLonger(c: Crypto, x: Snap, route: Route, key: Key, frame: Octets, incorrect: bool)
    requires c.Sound() && Takes(route, frame) && Known(route, x)
    ensures SentAt(c, x, route, key, frame, incorrect).Some? ==> |SentAt(c, x, route, key, frame, incorrect).value| > |frame|
  {
    hide Readable, Encapsulated, HdrLen, NextPn, BipFrame, NextIpn, NextRsc;
    var k := KeyFor(key.octets, incorrect);
    if route.ByGtk? {
      LongerThanFrame(c, key.tkip, k, frame, GroupHdrLen(frame), NextRsc(x.rsc[route.b], route.g)[route.g], route.g as bv8);
    } else if route.ByPtk? || route.ByTpk? {
      ReadableLong(frame);
      LongerThanFrame(c, key.tkip, k, frame, HdrLen(frame), NextPn(LinkIn(route, x), frame), 0);
    }
  }

  /** CCMP on a link: the packet number in the frame is the advanced counter, and the nonce is the link's next one. */
  lemma SealedUnder(c: Crypto, link: Link, key: Octets, frame: Octets)
    requires c.Sound() && Readable(frame)
    ensures var pn, n := NextPn(link, frame), HdrLen(frame);
            Encapsulated(c, false, key, frame, n, pn, 0) ==
            if !Sendable(frame) then None
            else
              var h := Head(Ccmp, frame, n, pn, 0);
              Some(h + c.ccm.seal(key, SentNonce(link, frame), Aad(Ccmp, h, NO_OVERRIDE), frame[n..]))
  {
    hide Aad, Nonce, Head, NextPn;
  }

  /** So on the pairwise and direct routes the nonce argument of the cipher is the one that Nonces counts. */
  lemma SentNonceUsed(c: Crypto, x: Snap, route: Route, key: Key, frame: Octets, incorrect: bool)
    requires c.Sound() && Takes(route, frame) && Known(route, x) && (route.ByPtk? || route.ByTpk?) && !key.tkip
    ensures var link := LinkIn(route, x);
            var pn, n := NextPn(link, frame), HdrLen(frame);
            SentAt(c, x, route, key, frame, incorrect) ==
            if !Sendable(frame) then None
            else
              var h := Head(Ccmp, frame, n, pn, 0);
              Some(h + c.ccm.seal(KeyFor(key.octets, incorrect), SentNonce(link, frame), Aad(Ccmp, h, NO_OVERRIDE), frame[n..]))
  {
    hide Aad, Head, NextPn, Encapsulated, SentNonce, HdrLen, Readable;
    SealedUnder(c, LinkIn(route, x), KeyFor(key.octets, incorrect), frame);
  }

  /** And on the group route it is the one that GroupNonceRepeats counts. */
  lemma GroupNonceUsed(c: Crypto, x: Snap, b: Bss, k: Index4, key: Key, frame: Octets, incorrect: bool)
    requires c.Sound() && |frame| >= 24 && !key.tkip && b in x.rsc
    ensures var pn, n := NextRsc(x.rsc[b], k)[k], GroupHdrLen(frame);
            SentAt(c, x, ByGtk(b, k), key, frame, incorrect) ==
            if |frame| < n then None
            else
              var h := Head(Ccmp, frame, n, pn, k as bv8);
              Some(h + c.ccm.seal(KeyFor(key.octets, incorrect), GroupNonce(frame, pn, k as bv8), Aad(Ccmp, h, NO_OVERRIDE), frame[n..]))
  {
    hide Aad, Nonce, Head, NextRsc;
  }

  /** Where the cipher header of a route's frame starts. */
  function HeaderEnd(route: Route, frame: Octets): (n: nat)
    requires |frame| >= 24
    ensures n >= 24
  {
    if route.ByGtk? then GroupHdrLen(frame) else HdrLen(frame)
  }

  /** A receiver with this key reads the frame's payload. */
  ghost predicate Reads(c: Crypto, key: Octets, route: Route, frame: Octets, sent: Octets)
    requires |frame| >= 24
  {
    var n := HeaderEnd(route, frame);
    n <= |frame| && n <= |sent| && Opened(Ccmp, c.ccm, key, sent, n, NO_OVERRIDE) == Some(frame[n..])
  }

  lemma LongEnoughSealed(c: Crypto, key: Octets, frame: Octets, hdrLen: nat, pn: Pn, keyId: bv8)
    requires Sealed(Ccmp, c.ccm, key, frame, hdrLen, NO_OVERRIDE, pn, keyId).Some?
    ensures 24 <= hdrLen <= |frame|
  {
  }

  /**
   * The key behind every frame, seen from outside: CCMP frames can be read with the entry's own key, and with 64 octets
   * of 0x11 if the wrong key was asked for; TKIP and BIP get those octets as their key.
   */
  lemma SentKey(c: Crypto, x: Snap, route: Route, key: Key, frame: Octets, incorrect: bool)
    requires c.Sound() && Takes(route, frame) && Known(route, x)
    ensures var out := SentAt(c, x, route, key, frame, incorrect);
            var k: Octets := if incorrect then seq(if route.ByIgtk? then |key.octets| else 64, _ => 0x11) else key.octets;
            && (route.ByIgtk? ==>
                  var i := route.i;
                  out == Some(Bip.Protected(c.cmac, k, [], frame, Bip.LeOctets(i, 2), Bip.LeOctets(NextIpn(x.ipn[route.b], i)[i], 6),
                                            if |k| == 32 then 16 else 8)))
            && (route.ByGtk? && key.tkip ==>
                  out == c.tkip(k, frame, GroupHdrLen(frame), NextRsc(x.rsc[route.b], route.g)[route.g], route.g as bv8))
            && ((route.ByPtk? || route.ByTpk?) && key.tkip ==>
                  out == c.tkip(k, frame, HdrLen(frame), NextPn(LinkIn(route, x), frame), 0))
            && (!route.ByIgtk? && !key.tkip && out.Some? ==> Reads(c, k, route, frame, out.value))
  {
    hide Readable, HdrLen, GroupHdrLen, NextPn, NextRsc, NextIpn, LinkIn, Bip.Protected, Bip.LeOctets, Sealed, Opened;
    if !route.ByIgtk? && !key.tkip && SentAt(c, x, route, key, frame, incorrect).Some? {
      var k, n := KeyFor(key.octets, incorrect), HeaderEnd(route, frame);
      var pn, id := if route.ByGtk? then NextRsc(x.rsc[route.b], route.g)[route.g] else NextPn(LinkIn(route, x), frame),
                    if route.ByGtk? then route.g as bv8 else 0;
      LongEnoughSealed(c, k, frame, n, pn, id);
      OpenedSealed(Ccmp, c.ccm, k, frame, n, NO_OVERRIDE, pn, id);
    }
  }

  method ProtectBip(c: Crypto, igtk: Octets, frame: Octets, ipn: nat, keyId: nat) returns (r: Octets)
    requires c.Sound() && |frame| >= 24
    ensures r == BipFrame(c, igtk, frame, ipn, keyId)
  {
    hide Bip.Protected, Bip.LeOctets;
    r := Bip.BipProtect(c.cmac, igtk, frame, ipn, keyId);
  }

  /** wlantest_inject_bip. */
  method InjectBip(c: Crypto, wt: Wlantest, bss: Bss, frame: Octets, incorrect: bool, ok: bool,
                   ghost bs: seq<Bss>, ghost stas: set<Sta>, ghost ts: set<Tdls>) returns (ret: int)
    requires c.Sound() && |frame| >= 24 && bss in bs
    modifies wt`sent, bss`ipn
    ensures var route := if bss.igtk[bss.igtkIdx] == [] then Refused else ByIgtk(bss, bss.igtkIdx);
            var out := old(SentAt(c, Snapshot(bs, stas, ts), route, KeyOf(route), frame, incorrect));
            && wt.sent == old(wt.sent) + OnAir(out, ok) && ret == Result(out, ok)
            && Snapshot(bs, stas, ts) == Next(route, old(Snapshot(bs, stas, ts)), frame)
    ensures var k := bss.igtkIdx;
            bss.ipn == if bss.igtk[k] == [] then old(bss.ipn)
                       else old(bss.ipn)[k := (old(bss.ipn[k]) + 1) % 0x1_0000_0000_0000_0000]
  {
    hide Encapsulated, Snapshot, Next, Known, BipFrame;
    RefusedIsIdle(Snapshot(bs, stas, ts), frame);
    InSnapshot(bs, stas, ts);
    var k := bss.igtkIdx;
    var igtk := bss.igtk[k];
    if igtk == [] {
      return -1;
    }
    BumpIpn(bss, frame, bs, stas, ts);
    var prot := ProtectBip(c, if incorrect then Stub(|igtk|) else igtk, frame, bss.ipn[k], k);
    ret := Send(wt, Some(prot), ok);
  }

  /** wlantest_inject_prot_bc. */
  method InjectGroup(c: Crypto, wt: Wlantest, bss: Bss, frame: Octets, incorrect: bool, ok: bool,
                     ghost bs: seq<Bss>, ghost stas: set<Sta>, ghost ts: set<Tdls>) returns (ret: int)
    requires c.Sound() && |frame| >= 24 && bss in bs
    modifies wt`sent, bss`rsc
    ensures var route := if bss.gtk[bss.gtkIdx] == [] then Refused else ByGtk(bss, bss.gtkIdx);
            var out := old(SentAt(c, Snapshot(bs, stas, ts), route, KeyOf(route), frame, incorrect));
            && wt.sent == old(wt.sent) + OnAir(out, ok) && ret == Result(out, ok)
            && (!bss.groupTkip && out.Some? ==>
                  Reads(c, if incorrect then seq(64, _ => 0x11) else old(bss.gtk[bss.gtkIdx]), route, frame, out.value))
            && Snapshot(bs, stas, ts) == Next(route, old(Snapshot(bs, stas, ts)), frame)
  {
    hide Encapsulated, Incremented, Snapshot, Next, Reads, Stub, NextRsc, GroupHdrLen;
    RefusedIsIdle(Snapshot(bs, stas, ts), frame);
    InSnapshot(bs, stas, ts);
    var k := bss.gtkIdx;
    if bss.gtk[k] == [] {
      return -1;
    }
    SentKey(c, Snapshot(bs, stas, ts), ByGtk(bss, k), Key(bss.groupTkip, bss.gtk[k]), frame, incorrect);
    BumpRsc(bss, frame, bs, stas, ts);
    var crypt := Encapsulate(c, bss.groupTkip, if incorrect then Stub(64) else bss.gtk[k], frame, GroupHdrLen(frame), bss.rsc[k], k as bv8);
    ret := Send(wt, crypt, ok);
  }

  /** A frame to or from a station under its PTK. */
  method InjectPairwise(c: Crypto, wt: Wlantest, bssid: Mac, sta: Sta, frame: Octets, incorrect: bool, ok: bool,
                        ghost bs: seq<Bss>, ghost stas: set<Sta>, ghost ts: set<Tdls>)
    returns (ret: int)
    requires c.Sound() && Readable(frame) && sta in stas
    modifies wt`sent, sta`rscFromDs, sta`rscToDs
    ensures StaLink(sta, bssid) == Bumped(old(StaLink(sta, bssid)), frame)
    ensures var out := old(SentAt(c, Snapshot(bs, stas, ts), ByPtk(sta, bssid), Key(sta.tkip, sta.ptk), frame, incorrect));
            && wt.sent == old(wt.sent) + OnAir(out, ok) && ret == Result(out, ok)
            && (!sta.tkip && out.Some? ==>
                  Reads(c, if incorrect then seq(64, _ => 0x11) else old(sta.ptk), ByPtk(sta, bssid), frame, out.value))
    ensures Snapshot(bs, stas, ts) == Next(ByPtk(sta, bssid), old(Snapshot(bs, stas, ts)), frame)
  {
    hide Readable, HdrLen, NextPn, Encapsulated, Snapshot, Next, Reads;
    ReadableLong(frame);
    InSnapshot(bs, stas, ts);
    SentKey(c, Snapshot(bs, stas, ts), ByPtk(sta, bssid), Key(sta.tkip, sta.ptk), frame, incorrect);
    var pn := BumpSta(sta, bssid, frame, bs, stas, ts);
    var crypt := Encapsulate(c, sta.tkip, if incorrect then Stub(64) else sta.ptk, frame, HdrLen(frame), pn, 0);
    ret := Send(wt, crypt, ok);
  }

  /** A frame on a TDLS direct link under its TPK. */
  method InjectDirect(c: Crypto, wt: Wlantest, t: Tdls, frame: Octets, incorrect: bool, ok: bool,
                      ghost bs: seq<Bss>, ghost stas: set<Sta>, ghost ts: set<Tdls>) returns (ret: int)
    requires c.Sound() && Readable(frame) && t in ts
    modifies wt`sent, t`rscInit, t`rscResp
    ensures TdlsLink(t) == Bumped(old(TdlsLink(t)), frame)
    ensures var out := old(SentAt(c, Snapshot(bs, stas, ts), ByTpk(t), Key(false, t.tk), frame, incorrect));
            && wt.sent == old(wt.sent) + OnAir(out, ok) && ret == Result(out, ok)
            && (out.Some? ==> Reads(c, if incorrect then seq(64, _ => 0x11) else old(t.tk), ByTpk(t), frame, out.value))
    ensures Snapshot(bs, stas, ts) == Next(ByTpk(t), old(Snapshot(bs, stas, ts)), frame)
  {
    hide Readable, HdrLen, NextPn, Encapsulated, Snapshot, Next, Reads;
    ReadableLong(frame);
    InSnapshot(bs, stas, ts);
    SentKey(c, Snapshot(bs, stas, ts), ByTpk(t), Key(false, t.tk), frame, incorrect);
    var pn := BumpTdls(t, frame, bs, stas, ts);
    var crypt := Encapsulate(c, false, if incorrect then Stub(64) else t.tk, frame, HdrLen(frame), pn, 0);
    ret := Send(wt, crypt, ok);
  }

  // Key selection -----------------------------------------------------------------------------

  /** Data frames between stations, with neither ToDS nor FromDS. */
  predicate StaToSta(f: Octets)
    requires |f| >= 24
  {
    FcType(Fc(f)) == TYPE_DATA && Fc(f) & (TODS | FROMDS) == 0
  }

  lemma DirectOctets(x0: bv8, x1: bv8)
    ensures FcType(Le16(x0, x1)) == TYPE_DATA && Le16(x0, x1) & (TODS | FROMDS) == 0 <==> x0 & 0x0c == 0x08 && x1 & 0x03 == 0
  {
  }

  lemma StaToStaOctets(f: Octets)
    requires |f| >= 24
    ensures StaToSta(f) <==> f[0] & 0x0c == 0x08 && f[1] & 0x03 == 0
  {
    DirectOctets(f[0], f[1]);
  }

  predicate Joins(t: Tdls, a: Sta, b: Sta)
  {
    (t.init == a && t.resp == b) || (t.init == b && t.resp == a)
  }

  /** The first direct link of a list between two stations, whichever of them set it up. */
  function FirstLink(ts: seq<Tdls>, a: Sta, b: Sta): (r: Tdls?)
    ensures r == null <==> forall t | t in ts :: !Joins(t, a, b)
    ensures r != null ==> r in ts && Joins(r, a, b)
  {
    if ts == [] then null else if Joins(ts[0], a, b) then ts[0] else FirstLink(ts[1..], a, b)
  }

  method FindTdls(bss: Bss, a: Sta, b: Sta) returns (r: Tdls?)
    ensures r == FirstLink(bss.tdls, a, b)
  {
    assert bss.tdls[0..] == bss.tdls;
    for i := 0 to |bss.tdls|
      invariant FirstLink(bss.tdls, a, b) == FirstLink(bss.tdls[i..], a, b)
    {
      assert bss.tdls[i..][1..] == bss.tdls[i + 1..];
      var t := bss.tdls[i];
      if (t.init == a && t.resp == b) || (t.init == b && t.resp == a) {
        return t;
      }
    }
    return null;
  }

  /** The key and counter choice for frames that are not station to station. */
  ghost function RouteOf(bss: Bss, sta: Sta?, f: Octets): (r: Route)
    requires |f| >= 24
    reads bss`igtk, bss`igtkIdx, bss`gtk, bss`gtkIdx, (if sta == null then {} else {sta})`ptkSet
    ensures r.ByPtk? ==> r.s == sta && r.bssid == bss.bssid
    ensures r.ByIgtk? || r.ByGtk? ==> r.b == bss && sta == null
    ensures !r.ByTpk?
  {
    if sta == null then
      if FcType(Fc(f)) == TYPE_MGMT then (if bss.igtk[bss.igtkIdx] == [] then Refused else ByIgtk(bss, bss.igtkIdx))
      else (if bss.gtk[bss.gtkIdx] == [] then Refused else ByGtk(bss, bss.gtkIdx))
    else if sta.ptkSet then ByPtk(sta, bss.bssid) else Refused
  }

  /**
   * The choice for frames between stations: both have to be known in the BSS that the frame names. The first direct
   * link between them decides if there is one, else the sender's PTK.
   */
  ghost function PeerRoute(bs: seq<Bss>, f: Octets): Route
    requires |f| >= 24
    reads bs`sta, bs`tdls, Stations(bs)`ptkSet
  {
    var b := FirstBss(bs, Addr3(f));
    if GroupAddress(Addr3(f)) || b == null then Refused
    else
      var from, peer := FirstSta(b.sta, Addr2(f)), FirstSta(b.sta, Addr1(f));
      if from == null || peer == null then Refused
      else
        var t := FirstLink(b.tdls, from, peer);
        assert b in bs && from in b.sta;
        if t != null then ByTpk(t) else if from.ptkSet then ByPtk(from, b.bssid) else Refused
  }

  /** A route between stations is a link of exactly the two, or the key of the sender in the BSS that the frame names. */
  lemma PeerRouteShape(bs: seq<Bss>, f: Octets)
    requires |f| >= 24
    ensures var r := PeerRoute(bs, f);
            && !r.ByIgtk? && !r.ByGtk?
            && (r.ByPtk? ==> r.s.addr == Addr2(f) && r.bssid == Addr3(f) && r.s.ptkSet)
            && (r.ByPtk? ==> exists b | b in bs :: b.bssid == r.bssid && r.s in b.sta)
            && (r.ByTpk? ==> {r.t.init.addr, r.t.resp.addr} == {Addr1(f), Addr2(f)})
  {
  }

  /** The key and counter choice of wlantest_inject_prot. */
  ghost function ProtRoute(bs: seq<Bss>, bss: Bss, sta: Sta?, f: Octets): Route
    requires |f| >= 24
    reads bss`igtk, bss`igtkIdx, bss`gtk, bss`gtkIdx, (if sta == null then {} else {sta})`ptkSet
    reads bs`sta, bs`tdls, Stations(bs)`ptkSet
  {
    if StaToSta(f) then PeerRoute(bs, f) else RouteOf(bss, sta, f)
  }

  /** The last part of wlantest_inject_prot, once BSS and station are known and there is no direct link. */
  method InjectRouted(c: Crypto, wt: Wlantest, bss: Bss, sta: Sta?, frame: Octets, incorrect: bool, ok: bool,
                      ghost bs: seq<Bss>, ghost stas: set<Sta>, ghost ts: set<Tdls>)
    returns (ret: int, route: Route)
    requires c.Sound() && |frame| >= 24 && Takes(RouteOf(bss, sta, frame), frame) && bss in bs && (sta != null ==> sta in stas)
    modifies wt`sent, bss`ipn, bss`rsc, stas`rscFromDs, stas`rscToDs
    ensures route == old(RouteOf(bss, sta, frame))
    ensures Takes(route, frame) && Known(route, old(Snapshot(bs, stas, ts)))
    ensures var out := old(SentAt(c, Snapshot(bs, stas, ts), route, KeyOf(route), frame, incorrect));
            wt.sent == old(wt.sent) + OnAir(out, ok) && ret == Result(out, ok)
    ensures Snapshot(bs, stas, ts) == Next(route, old(Snapshot(bs, stas, ts)), frame)
  {
    hide Readable, Bumped, Encapsulated, Snapshot, BumpedPair;
    route := Refused;
    if sta == null {
      if FcType(Fc(frame)) == TYPE_MGMT {
        if bss.igtk[bss.igtkIdx] != [] {
          route := ByIgtk(bss, bss.igtkIdx);
        }
        ret := InjectBip(c, wt, bss, frame, incorrect, ok, bs, stas, ts);
      } else {
        if bss.gtk[bss.gtkIdx] != [] {
          route := ByGtk(bss, bss.gtkIdx);
        }
        ret := InjectGroup(c, wt, bss, frame, incorrect, ok, bs, stas, ts);
      }
    } else if !sta.ptkSet {
      ret := -1;
    } else {
      route := ByPtk(sta, bss.bssid);
      ret := InjectPairwise(c, wt, bss.bssid, sta, frame, incorrect, ok, bs, stas, ts);
    }
  }

  /** BSS, sender and direct link of a frame between stations; no sender when the frame is refused for want of an entry. */
  method FindPeers(wt: Wlantest, frame: Octets) returns (bss: Bss?, sta: Sta?, t: Tdls?)
    requires |frame| >= 24
    ensures PeerRoute(wt.bss, frame) ==
            if bss == null || sta == null then Refused else if t != null then ByTpk(t) else RouteOf(bss, sta, frame)
    ensures sta != null ==> bss == FirstBss(wt.bss, Addr3(frame)) && !GroupAddress(Addr3(frame))
    ensures sta != null ==> bss != null
    ensures sta != null ==> bss in wt.bss && sta in Stations(wt.bss) && (t != null ==> t in Links(wt.bss))
  {
    sta, t := null, null;
    bss := wt.BssFind(Addr3(frame));
    if bss == null || frame[16] & 0x01 != 0 {
      return;
    }
    var from := bss.StaFind(Addr2(frame));
    var peer := bss.StaFind(Addr1(frame));
    if from == null || peer == null {
      return;
    }
    assert bss in wt.bss && from in bss.sta;
    sta := from;
    t := FindTdls(bss, from, peer);
  }

  method InjectPeers(c: Crypto, wt: Wlantest, bss: Bss, sta: Sta, t: Tdls?, frame: Octets, incorrect: bool, ok: bool,
                     ghost bs: seq<Bss>, ghost stas: set<Sta>, ghost ts: set<Tdls>)
    returns (ret: int, route: Route)
    requires c.Sound() && |frame| >= 24
    requires Takes(if t != null then ByTpk(t) else RouteOf(bss, sta, frame), frame)
    requires bss in bs && sta in stas && (t != null ==> t in ts)
    modifies wt`sent, bss`ipn, bss`rsc, stas`rscFromDs, stas`rscToDs, ts`rscInit, ts`rscResp
    ensures route == if t != null then ByTpk(t) else old(RouteOf(bss, sta, frame))
    ensures Takes(route, frame) && Known(route, old(Snapshot(bs, stas, ts)))
    ensures var out := old(SentAt(c, Snapshot(bs, stas, ts), route, KeyOf(route), frame, incorrect));
            wt.sent == old(wt.sent) + OnAir(out, ok) && ret == Result(out, ok)
    ensures Snapshot(bs, stas, ts) == Next(route, old(Snapshot(bs, stas, ts)), frame)
  {
    hide Readable, Bumped, NextIpn, NextRsc, SentAt, Encapsulated, HdrLen, Snapshot, BumpedPair, RouteOf;
    if t != null {
      ret := InjectDirect(c, wt, t, frame, incorrect, ok, bs, stas, ts);
      route := ByTpk(t);
    } else {
      ret, route := InjectRouted(c, wt, bss, sta, frame, incorrect, ok, bs, stas, ts);
    }
  }

  /** The BSS list after a frame for a BSSID: one more entry at its head when the BSS is new, else as before. */
  twostate predicate BssNoticed(wt: Wlantest, bssid: Mac)
    reads wt, wt.bss
  {
    if GroupAddress(bssid) || FirstBss(old(wt.bss), bssid) != null then wt.bss == old(wt.bss)
    else |wt.bss| > 0 && fresh(wt.bss[0]) && wt.bss[0].bssid == bssid && wt.bss[0].Zeroed() && wt.bss[1..] == old(wt.bss)
  }

  /** A frame between stations: the direct link's TPK if there is one, else the sender's PTK. */
  method InjectStaToSta(c: Crypto, wt: Wlantest, frame: Octets, incorrect: bool, ok: bool,
                        ghost bs: seq<Bss>, ghost stas: set<Sta>, ghost ts: set<Tdls>) returns (ret: int, route: Route)
    requires c.Sound() && |frame| >= 24 && bs == wt.bss && stas == Stations(wt.bss) && ts == Links(wt.bss)
    requires Takes(PeerRoute(bs, frame), frame)
    modifies wt`sent, wt`bss, bs`ipn, bs`rsc, stas`rscFromDs, stas`rscToDs, ts`rscInit, ts`rscResp
    ensures route == old(PeerRoute(bs, frame))
    ensures Takes(route, frame) && Known(route, old(Snapshot(bs, stas, ts)))
    ensures var out := old(SentAt(c, Snapshot(bs, stas, ts), route, KeyOf(route), frame, incorrect));
            wt.sent == old(wt.sent) + OnAir(out, ok) && ret == Result(out, ok)
    ensures Snapshot(bs, stas, ts) == Next(route, old(Snapshot(bs, stas, ts)), frame)
    ensures BssNoticed(wt, Addr3(frame))
  {
    hide Readable, Snapshot, Next, Known, Stations, Links, PeerRoute, RouteOf, FirstBss, BipFrame, GroupFrame, Encapsulated, NextPn, NextIpn, NextRsc, HdrLen;
    RefusedIsIdle(Snapshot(bs, stas, ts), frame);
    RefusedSendsNothing(c, Snapshot(bs, stas, ts), KeyOf(Refused), frame, incorrect);
    ghost var planned := PeerRoute(bs, frame);
    var bss, sta, t := FindPeers(wt, frame);
    assert planned == PeerRoute(bs, frame);
    if sta == null {
      assert wt.sent + [] == wt.sent;
      var _ := wt.BssGet(Addr3(frame));  // a BSS not seen before gets an entry
      return -1, Refused;
    }
    ret, route := InjectPeers(c, wt, bss, sta, t, frame, incorrect, ok, bs, stas, ts);
  }

  /** wlantest_inject_prot. */
  method InjectProt(c: Crypto, wt: Wlantest, bss: Bss, sta: Sta?, frame: Octets, incorrect: bool, ok: bool,
                    ghost bs: seq<Bss>, ghost stas: set<Sta>, ghost ts: set<Tdls>)
    returns (ret: int, route: Route)
    requires c.Sound() && |frame| >= 24 && bs == wt.bss && stas == Stations(wt.bss) && ts == Links(wt.bss)
    requires bss in bs && (sta != null ==> sta in stas)
    requires Takes(ProtRoute(bs, bss, sta, frame), frame)
    modifies wt`sent, wt`bss, bs`ipn, bs`rsc, stas`rscFromDs, stas`rscToDs, ts`rscInit, ts`rscResp
    ensures route == old(ProtRoute(bs, bss, sta, frame))
    ensures Takes(route, frame) && Known(route, old(Snapshot(bs, stas, ts)))
    ensures var out := old(SentAt(c, Snapshot(bs, stas, ts), route, KeyOf(route), frame, incorrect));
            wt.sent == old(wt.sent) + OnAir(out, ok) && ret == Result(out, ok)
    ensures Snapshot(bs, stas, ts) == Next(route, old(Snapshot(bs, stas, ts)), frame)
    ensures if StaToSta(frame) then BssNoticed(wt, Addr3(frame)) else wt.bss == old(wt.bss)
  {
    hide Readable, SentAt, RouteOf, PeerRoute, Snapshot, Next, FcType, Le16;
    if FcType(Fc(frame)) == TYPE_DATA && Fc(frame) & (TODS | FROMDS) == 0 {
      ret, route := InjectStaToSta(c, wt, frame, incorrect, ok, bs, stas, ts);
    } else {
      ret, route := InjectRouted(c, wt, bss, sta, frame, incorrect, ok, bs, stas, ts);
    }
  }

  // Policy ------------------------------------------------------------------------------------

  const STYPE_DISASSOC: bv16 := 10
  const STYPE_DEAUTH: bv16 := 12
  const STYPE_ACTION: bv16 := 13
  const STYPE_ACTION_NO_ACK: bv16 := 14
  const CATEGORY_PUBLIC: bv8 := 4

  /** is_robust_mgmt. */
  predicate RobustMgmt(f: Octets)
  {
    && |f| >= 24 && FcType(Fc(f)) == TYPE_MGMT
    && var stype := FcStype(Fc(f));
       || stype == STYPE_DEAUTH || stype == STYPE_DISASSOC
       || ((stype == STYPE_ACTION || stype == STYPE_ACTION_NO_ACK) && |f| >= 25 && f[24] != CATEGORY_PUBLIC)
  }

  predicate Protectable(f: Octets)
    requires |f| >= 24
  {
    FcType(Fc(f)) == TYPE_DATA || RobustMgmt(f)
  }

  /** A key for this frame and receiver: the PTK, or with no station the GTK for data and the IGTK for management. */
  ghost predicate KeyKnown(bss: Bss, sta: Sta?, f: Octets)
    requires |f| >= 24
    reads bss`igtk, bss`igtkIdx, bss`gtk, bss`gtkIdx, (if sta == null then {} else {sta})`ptkSet
  {
    if sta != null then sta.ptkSet
    else if FcType(Fc(f)) == TYPE_DATA then bss.gtk[bss.gtkIdx] != []
    else FcType(Fc(f)) == TYPE_MGMT && bss.igtk[bss.igtkIdx] != []
  }

  /** What a PROTECTED or INCORRECT_KEY request is turned down for: no key for its frame type and receiver. */
  ghost predicate KeyMissing(bss: Bss, sta: Sta?, f: Octets)
    requires |f| >= 24
    reads bss`igtk, bss`igtkIdx, bss`gtk, bss`gtkIdx, (if sta == null then {} else {sta})`ptkSet
  {
    if sta != null then !sta.ptkSet
    else || (FcType(Fc(f)) == TYPE_MGMT && bss.igtk[bss.igtkIdx] == [])
         || (FcType(Fc(f)) == TYPE_DATA && bss.gtk[bss.gtkIdx] == [])
  }

  function KeyHolder(bss: Bss?): set<Bss>
  {
    if bss == null then {} else {bss}
  }

  ghost predicate SendsPlain(up: bool, bss: Bss?, sta: Sta?, f: Octets, prot: Protection)
    requires |f| >= 24
    reads KeyHolder(bss)`igtk, KeyHolder(bss)`igtkIdx, KeyHolder(bss)`gtk, KeyHolder(bss)`gtkIdx
    reads (if sta == null then {} else {sta})`ptkSet
  {
    up && (prot == Unprotected || (prot == Normal && bss != null && !(Protectable(f) && KeyKnown(bss, sta, f))))
  }

  lemma RobustOctets(x0: bv8, x1: bv8)
    ensures var fc := Le16(x0, x1);
            && (FcType(fc) == TYPE_DATA <==> x0 & 0x0c == 0x08) && (FcType(fc) == TYPE_MGMT <==> x0 & 0x0c == 0)
            && (FcType(fc) == TYPE_MGMT ==>
                  && (FcStype(fc) == STYPE_DEAUTH <==> x0 & 0xfc == 0xc0) && (FcStype(fc) == STYPE_DISASSOC <==> x0 & 0xfc == 0xa0)
                  && (FcStype(fc) == STYPE_ACTION <==> x0 & 0xfc == 0xd0)
                  && (FcStype(fc) == STYPE_ACTION_NO_ACK <==> x0 & 0xfc == 0xe0))
  {
  }

  lemma RobustIsMgmt(x: bv8)
    ensures x & 0xfc == 0xc0 || x & 0xfc == 0xa0 || x & 0xfc == 0xd0 || x & 0xfc == 0xe0 ==> x & 0x0c == 0
  {
  }

  /**
   * On the octets: with a key for it, NORMAL sends no data frame in plaintext and no Deauthentication, Disassociation or
   * non-public Action frame; it sends everything else as it is.
   */
  lemma NormalPlainExactly(up: bool, bss: Bss, sta: Sta?, f: Octets)
    requires |f| >= 24
    ensures var data, mgmt := f[0] & 0x0c == 0x08, f[0] & 0x0c == 0;
            var key := if sta != null then sta.ptkSet
                       else if data then bss.gtk[bss.gtkIdx] != [] else mgmt && bss.igtk[bss.igtkIdx] != [];
            var robust := || f[0] & 0xfc == 0xc0 || f[0] & 0xfc == 0xa0
                          || ((f[0] & 0xfc == 0xd0 || f[0] & 0xfc == 0xe0) && |f| >= 25 && f[24] != 4);
            SendsPlain(up, bss, sta, f, Normal) <==> up && !((data || robust) && key)
  {
    hide FcType, FcStype, Le16;
    RobustOctets(f[0], f[1]);
    RobustIsMgmt(f[0]);
  }

  /** A request that reaches wlantest_inject_prot; up tells whether there is a monitor interface. */
  ghost predicate Attempted(up: bool, bss: Bss?, sta: Sta?, f: Octets, prot: Protection)
    requires |f| >= 24
    reads KeyHolder(bss)`igtk, KeyHolder(bss)`igtkIdx, KeyHolder(bss)`gtk, KeyHolder(bss)`gtkIdx
    reads (if sta == null then {} else {sta})`ptkSet
  {
    up && bss != null && !SendsPlain(up, bss, sta, f, prot) && (prot == Normal || !KeyMissing(bss, sta, f))
  }

  /** The route of a request: none when it goes out as it is or is turned down. */
  ghost function RequestRoute(up: bool, bs: seq<Bss>, bss: Bss?, sta: Sta?, f: Octets, prot: Protection): Route
    requires |f| >= 24
    reads KeyHolder(bss)`igtk, KeyHolder(bss)`igtkIdx, KeyHolder(bss)`gtk, KeyHolder(bss)`gtkIdx
    reads (if sta == null then {} else {sta})`ptkSet, bs`sta, bs`tdls, Stations(bs)`ptkSet
  {
    if Attempted(up, bss, sta, f, prot) then ProtRoute(bs, bss, sta, f) else Refused
  }

  /** A route leads to an entry of the lists. */
  predicate Within(route: Route, bs: seq<Bss>, stas: set<Sta>, ts: set<Tdls>)
  {
    match route
    case Refused => true
    case ByIgtk(b, _) => b in bs
    case ByGtk(b, _) => b in bs
    case ByPtk(s, _) => s in stas
    case ByTpk(t) => t in ts
  }

  lemma WithinKnown(route: Route, bs: seq<Bss>, stas: set<Sta>, ts: set<Tdls>)
    requires Within(route, bs, stas, ts)
    ensures Known(route, Snapshot(bs, stas, ts))
  {
    hide Snapshot;
  }

  lemma PeerWithin(bs: seq<Bss>, f: Octets)
    requires |f| >= 24
    ensures Within(PeerRoute(bs, f), bs, Stations(bs), Links(bs))
  {
    var b, r := FirstBss(bs, Addr3(f)), PeerRoute(bs, f);
    if r != Refused {
      assert b in bs;
      assert r.ByPtk? ==> r.s in b.sta && r.s in Stations(bs);
      assert r.ByTpk? ==> r.t in b.tdls && r.t in Links(bs);
    }
  }

  lemma RouteWithin(up: bool, bs: seq<Bss>, bss: Bss?, sta: Sta?, f: Octets, prot: Protection)
    requires |f| >= 24 && (bss != null ==> bss in bs) && (sta != null ==> sta in Stations(bs))
    ensures Within(RequestRoute(up, bs, bss, sta, f, prot), bs, Stations(bs), Links(bs))
  {
    hide PeerRoute, RouteOf, Attempted, StaToSta, Stations, Links;
    PeerWithin(bs, f);
  }

  lemma TypesDiffer()
    ensures TYPE_DATA != TYPE_MGMT
  {
  }

  /** A protectable frame with a known key has a route, unless it is between stations. */
  lemma KnownKeyRoutes(bss: Bss, sta: Sta?, f: Octets)
    requires |f| >= 24 && KeyKnown(bss, sta, f) && !StaToSta(f)
    ensures RouteOf(bss, sta, f) != Refused
  {
    hide FcType, Fc;
    TypesDiffer();
  }

  /**
   * wlantest_inject. A PROTECTED or INCORRECT_KEY request never sends the frame as given; UNPROTECTED
   * sends it octet for octet; NORMAL does so exactly when it needs no protection or no key is known.
   */
  method InjectRequest(c: Crypto, wt: Wlantest, bss: Bss?, sta: Sta?, frame: Octets, prot: Protection, ok: bool)
    returns (ret: int, plain: bool, route: Route)
    requires c.Sound() && |frame| >= 24
    requires (bss != null ==> bss in wt.bss) && (sta != null ==> sta in Stations(wt.bss))
    requires Takes(RequestRoute(wt.monitorUp, wt.bss, bss, sta, frame, prot), frame)
    modifies wt`sent, wt`bss, wt.bss`ipn, wt.bss`rsc, Stations(wt.bss)`rscFromDs, Stations(wt.bss)`rscToDs, Links(wt.bss)`rscInit, Links(wt.bss)`rscResp
    ensures plain == old(SendsPlain(wt.monitorUp, bss, sta, frame, prot))
    ensures route == old(RequestRoute(wt.monitorUp, wt.bss, bss, sta, frame, prot))
    ensures Takes(route, frame) && Known(route, old(Snapshot(wt.bss, Stations(wt.bss), Links(wt.bss))))
    ensures var x := old(Snapshot(wt.bss, Stations(wt.bss), Links(wt.bss)));
            var out := if plain then Some(frame) else old(SentAt(c, x, route, KeyOf(route), frame, prot == IncorrectKey));
            && wt.sent == old(wt.sent) + OnAir(out, ok) && ret == Result(out, ok)
            && (!plain && !route.ByIgtk? && !old(KeyOf(route)).tkip && out.Some? ==>
                  Reads(c, if prot == IncorrectKey then seq(64, _ => 0x11) else old(KeyOf(route)).octets, route, frame, out.value))
    ensures !plain ==> Covered(old(wt.sent), wt.sent, frame)
    ensures if old(Attempted(wt.monitorUp, bss, sta, frame, prot)) && StaToSta(frame) then BssNoticed(wt, Addr3(frame)) else wt.bss == old(wt.bss)
    ensures Snapshot(old(wt.bss), old(Stations(wt.bss)), old(Links(wt.bss)))
         == Next(route, old(Snapshot(wt.bss, Stations(wt.bss), Links(wt.bss))), frame)
  {
    hide Readable, Covered, Snapshot, Next, SentAt, ProtRoute, Within, Reads, KeyOf;
    RefusedIsIdle(Snapshot(wt.bss, Stations(wt.bss), Links(wt.bss)), frame);
    ghost var x, was := Snapshot(wt.bss, Stations(wt.bss), Links(wt.bss)), wt.sent;
    RefusedSendsNothing(c, x, KeyOf(Refused), frame, prot == IncorrectKey);
    ghost var planned := RequestRoute(wt.monitorUp, wt.bss, bss, sta, frame, prot);
    RouteWithin(wt.monitorUp, wt.bss, bss, sta, frame, prot);
    WithinKnown(planned, wt.bss, Stations(wt.bss), Links(wt.bss));
    SentLonger(c, x, planned, KeyOf(planned), frame, prot == IncorrectKey);
    SentKey(c, x, planned, KeyOf(planned), frame, prot == IncorrectKey);
    OnAirCovered(was, SentAt(c, x, planned, KeyOf(planned), frame, prot == IncorrectKey), ok, frame);
    plain, route := false, Refused;
    if !wt.monitorUp || (prot != Unprotected && bss == null) {
      ret := -1;
      return;
    }
    var protect := false;
    if (prot == Protected || prot == IncorrectKey) && bss != null {
      if sta == null && ((FcType(Fc(frame)) == TYPE_MGMT && bss.igtk[bss.igtkIdx] == []) ||
                         (FcType(Fc(frame)) == TYPE_DATA && bss.gtk[bss.gtkIdx] == [])) {
        ret := -1;
        return;
      }
      if sta != null && !sta.ptkSet {
        ret := -1;
        return;
      }
      protect := true;
    } else if Protectable(frame) && prot != Unprotected && bss != null {
      if sta != null {
        protect := sta.ptkSet;
      } else {
        protect := (FcType(Fc(frame)) == TYPE_DATA && bss.gtk[bss.gtkIdx] != []) ||
                   (FcType(Fc(frame)) == TYPE_MGMT && bss.igtk[bss.igtkIdx] != []);
      }
    }
    if protect && bss != null {
      ret, route := InjectProt(c, wt, bss, sta, frame, prot == IncorrectKey, ok, wt.bss, Stations(wt.bss), Links(wt.bss));
    } else {
      plain := true;
      ret := Send(wt, Some(frame), ok);
    }
  }
}
