/** The records wlantest keeps: stations, direct links, BSSes and their lists. */
module Tracking {
  import opened Bits
  import opened Frames

  type Pn = s: Octets | |s| == 6 witness [0, 0, 0, 0, 0, 0]

  const ZERO_PN: Pn := [0, 0, 0, 0, 0, 0]

  /** One packet number per TID, and one at 16 for Management frames. */
  type PnTable = t: seq<Pn> | |t| == 17 witness seq(17, _ => ZERO_PN)

  const ZERO_TABLE: PnTable :=
    [ZERO_PN, ZERO_PN, ZERO_PN, ZERO_PN, ZERO_PN, ZERO_PN, ZERO_PN, ZERO_PN, ZERO_PN,
     ZERO_PN, ZERO_PN, ZERO_PN, ZERO_PN, ZERO_PN, ZERO_PN, ZERO_PN, ZERO_PN]

  const MAX_MLD_LINKS: nat := 15

  const ZERO_MAC: Mac := [0, 0, 0, 0, 0, 0]

  type LinkAddrs = t: seq<Mac> | |t| == MAX_MLD_LINKS witness seq(MAX_MLD_LINKS, _ => ZERO_MAC)

  predicate GroupAddress(a: Mac)
  {
    a[0] & 0x01 != 0
  }

  type Keys4 = t: seq<Octets> | |t| == 4 witness [[], [], [], []]
  type Keys8 = t: seq<Octets> | |t| == 8 witness [[], [], [], [], [], [], [], []]
  type Pns4 = t: seq<Pn> | |t| == 4 witness [ZERO_PN, ZERO_PN, ZERO_PN, ZERO_PN]
  type Ipns8 = t: seq<nat> | |t| == 8 witness [0, 0, 0, 0, 0, 0, 0, 0]
  type Index4 = i: int | 0 <= i < 4
  type Index8 = i: int | 0 <= i < 8

  class Sta {
    const addr: Mac
    const bss: Bss
    var mldMacAddr: Mac
    var linkAddr: LinkAddrs
    var ptk: Octets
    var ptkSet: bool
    var tkip: bool
    var rscToDs: PnTable
    var rscFromDs: PnTable

    /** Nothing known of the station but its address. */
    ghost predicate Zeroed()
      reads this
    {
      && mldMacAddr == ZERO_MAC && (forall i | 0 <= i < MAX_MLD_LINKS :: linkAddr[i] == ZERO_MAC)
      && ptk == [] && !ptkSet && !tkip && rscToDs == ZERO_TABLE && rscFromDs == ZERO_TABLE
    }

    constructor (bss: Bss, addr: Mac)
      ensures this.bss == bss && this.addr == addr && Zeroed()
    {
      this.bss, this.addr := bss, addr;
      mldMacAddr, linkAddr, ptk, ptkSet, tkip := ZERO_MAC, seq(MAX_MLD_LINKS, _ => ZERO_MAC), [], false, false;
      rscToDs, rscFromDs := ZERO_TABLE, ZERO_TABLE;
    }
  }

  class Tdls {
    const init: Sta
    const resp: Sta
    var tk: Octets
    var rscInit: PnTable
    var rscResp: PnTable

    constructor (init: Sta, resp: Sta)
    {
      this.init, this.resp := init, resp;
      tk, rscInit, rscResp := [], ZERO_TABLE, ZERO_TABLE;
    }
  }

  /** The first station of a list with an address. */
  function FirstSta(ss: seq<Sta>, addr: Mac): (r: Sta?)
    ensures r == null <==> forall s | s in ss :: s.addr != addr
    ensures r != null ==> exists i | 0 <= i < |ss| :: ss[i] == r && r.addr == addr && forall k | 0 <= k < i :: ss[k].addr != addr
  {
    if ss == [] then null
    else if ss[0].addr == addr then ss[0]
    else
      var r := FirstSta(ss[1..], addr);
      assert r != null ==> exists i | 1 <= i < |ss| :: ss[i] == r && forall k | 0 <= k < i :: ss[k].addr != addr by {
        if r != null {
          var i :| 0 <= i < |ss| - 1 && ss[1..][i] == r && forall k | 0 <= k < i :: ss[1..][k].addr != addr;
          assert forall k | 1 <= k < i + 1 :: ss[k] == ss[1..][k - 1];
          assert ss[i + 1] == r;
        }
      }
      r
  }

  /** The first BSS of a list with a BSSID. */
  function FirstBss(bs: seq<Bss>, bssid: Mac): (r: Bss?)
    ensures r == null <==> forall b | b in bs :: b.bssid != bssid
    ensures r != null ==> exists i | 0 <= i < |bs| :: bs[i] == r && r.bssid == bssid && forall k | 0 <= k < i :: bs[k].bssid != bssid
  {
    if bs == [] then null
    else if bs[0].bssid == bssid then bs[0]
    else
      var r := FirstBss(bs[1..], bssid);
      assert r != null ==> exists i | 1 <= i < |bs| :: bs[i] == r && forall k | 0 <= k < i :: bs[k].bssid != bssid by {
        if r != null {
          var i :| 0 <= i < |bs| - 1 && bs[1..][i] == r && forall k | 0 <= k < i :: bs[1..][k].bssid != bssid;
          assert forall k | 1 <= k < i + 1 :: bs[k] == bs[1..][k - 1];
          assert bs[i + 1] == r;
        }
      }
      r
  }

  class Bss {
    const bssid: Mac
    var mldMacAddr: Mac
    var sta: seq<Sta>
    var tdls: seq<Tdls>
    var gtk: Keys4
    var gtkIdx: Index4
    var rsc: Pns4
    var groupTkip: bool
    var igtk: Keys8
    var igtkIdx: Index8
    var ipn: Ipns8

    /** Nothing known of the BSS but its BSSID: no stations, no keys, counters at zero. */
    ghost predicate Zeroed()
      reads this
    {
      && mldMacAddr == ZERO_MAC && sta == [] && tdls == [] && gtkIdx == 0 && igtkIdx == 0 && !groupTkip
      && (forall i | 0 <= i < 4 :: gtk[i] == [] && rsc[i] == ZERO_PN)
      && (forall i | 0 <= i < 8 :: igtk[i] == [] && ipn[i] == 0)
    }

    constructor (bssid: Mac)
      ensures this.bssid == bssid && Zeroed()
    {
      this.bssid := bssid;
      mldMacAddr, sta, tdls, gtkIdx, igtkIdx, groupTkip := ZERO_MAC, [], [], 0, 0, false;
      gtk, rsc := [[], [], [], []], [ZERO_PN, ZERO_PN, ZERO_PN, ZERO_PN];
      igtk, ipn := [[], [], [], [], [], [], [], []], [0, 0, 0, 0, 0, 0, 0, 0];
    }

    /** sta_find: the first station of the list with this address. */
    method StaFind(addr: Mac) returns (r: Sta?)
      ensures r == FirstSta(sta, addr)
    {
      assert sta[0..] == sta;
      for i := 0 to |sta|
        invariant FirstSta(sta, addr) == FirstSta(sta[i..], addr)
      {
        assert sta[i..][1..] == sta[i + 1..];
        if sta[i].addr == addr {
          return sta[i];
        }
      }
      return null;
    }

    /** sta_get: group addresses have no entry; a new address gets one at the head of the list. */
    method StaGet(addr: Mac) returns (r: Sta?)
      modifies this`sta
      ensures if GroupAddress(addr) then r == null && sta == old(sta)
              else if FirstSta(old(sta), addr) != null then r == FirstSta(old(sta), addr) && sta == old(sta)
              else r != null && fresh(r) && r.addr == addr && r.bss == this && r.Zeroed() && sta == [r] + old(sta)
    {
      if addr[0] & 0x01 != 0 {
        return null;
      }
      r := StaFind(addr);
      if r != null {
        return;
      }
      r := new Sta(this, addr);
      sta := [r] + sta;
    }
  }

  /** All stations of a list of BSSes, and all direct links. */
  ghost function Stations(bs: seq<Bss>): set<Sta>
    reads bs`sta
  {
    set b, s | b in bs && s in b.sta :: s
  }

  ghost function Links(bs: seq<Bss>): set<Tdls>
    reads bs`tdls
  {
    set b, t | b in bs && t in b.tdls :: t
  }

  class Wlantest {
    var bss: seq<Bss>
    var monitorUp: bool
    var sent: seq<Octets>

    constructor ()
      ensures bss == [] && sent == []
    {
      bss, monitorUp, sent := [], true, [];
    }

    /** bss_find: the first BSS of the list with this BSSID. */
    method BssFind(bssid: Mac) returns (r: Bss?)
      ensures r == FirstBss(bss, bssid)
    {
      assert bss[0..] == bss;
      for i := 0 to |bss|
        invariant FirstBss(bss, bssid) == FirstBss(bss[i..], bssid)
      {
        assert bss[i..][1..] == bss[i + 1..];
        if bss[i].bssid == bssid {
          return bss[i];
        }
      }
      return null;
    }

    /** bss_get: as sta_get, one level up. */
    method BssGet(bssid: Mac) returns (r: Bss?)
      modifies this`bss
      ensures if GroupAddress(bssid) then r == null && bss == old(bss)
              else if FirstBss(old(bss), bssid) != null then r == FirstBss(old(bss), bssid) && bss == old(bss)
              else r != null && fresh(r) && r.bssid == bssid && r.Zeroed() && bss == [r] + old(bss)
    {
      if bssid[0] & 0x01 != 0 {
        return null;
      }
      r := BssFind(bssid);
      if r != null {
        return;
      }
      r := new Bss(bssid);
      bss := [r] + bss;
    }
  }
}
