/** Installing a pairwise key on a station and on every entry of the same MLD station. */
module StaKeys {
  import opened Bits
  import opened Frames
  import opened Tracking

  /** Another entry that sta_new_ptk gives the key to. */
  ghost predicate SharesKey(sta: Sta, o: Sta)
    reads sta.bss, o, o.bss
  {
    && o != sta
    && (o.addr == sta.addr || sta.addr in o.linkAddr)
    && o.bss.mldMacAddr == sta.bss.mldMacAddr
  }

  /** The part of a station's state that an installation may change. */
  datatype KeyState = KeyState(ptk: Octets, ptkSet: bool, toDs: PnTable, fromDs: PnTable, mldMacAddr: Mac)

  function StateOf(s: Sta): KeyState
    reads s
  {
    KeyState(s.ptk, s.ptkSet, s.rscToDs, s.rscFromDs, s.mldMacAddr)
  }

  /** A key just installed: every packet number starts again. */
  predicate Fresh(k: KeyState, ptk: Octets, mldMacAddr: Mac)
  {
    k.ptk == ptk && k.ptkSet && k.toDs == ZERO_TABLE && k.fromDs == ZERO_TABLE && k.mldMacAddr == mldMacAddr
  }

  /** sta_copy_ptk. */
  method CopyPtk(sta: Sta, ptk: Octets)
    modifies sta`ptk, sta`ptkSet, sta`rscToDs, sta`rscFromDs
    ensures Fresh(StateOf(sta), ptk, sta.mldMacAddr)
    ensures forall i | 0 <= i <= 16 :: sta.rscToDs[i] == sta.rscFromDs[i] == [0, 0, 0, 0, 0, 0]
  {
    sta.ptk, sta.ptkSet := ptk, true;
    sta.rscToDs, sta.rscFromDs := ZERO_TABLE, ZERO_TABLE;
  }

  /** The address comparisons of sta_new_ptk. */
  method Matches(sta: Sta, o: Sta) returns (r: bool)
    ensures r <==> o.addr == sta.addr || sta.addr in o.linkAddr
  {
    r := sta.addr == o.addr;
    var link := 0;
    while !r && link < MAX_MLD_LINKS
      invariant 0 <= link <= MAX_MLD_LINKS
      invariant r ==> o.addr == sta.addr || sta.addr in o.linkAddr
      invariant !r ==> o.addr != sta.addr && sta.addr !in o.linkAddr[..link]
    {
      if o.linkAddr[link] == sta.addr {
        r := true;
      }
      link := link + 1;
    }
    assert o.linkAddr[..MAX_MLD_LINKS] == o.linkAddr;
  }

  ghost function Others(bss: Bss, sta: Sta): set<Sta>
    reads bss
  {
    set s | s in bss.sta && s != sta
  }

  method InstallOn(o: Sta, sta: Sta, ptk: Octets)
    requires o != sta
    modifies o`ptk, o`ptkSet, o`rscToDs, o`rscFromDs, o`mldMacAddr
    ensures Fresh(StateOf(o), ptk, sta.mldMacAddr)
  {
    CopyPtk(o, ptk);
    o.mldMacAddr := sta.mldMacAddr;
  }

  /** The inner loop: one BSS's stations. */
  method InstallInBss(bss: Bss, sta: Sta, ptk: Octets)
    modifies Others(bss, sta)`ptk, Others(bss, sta)`ptkSet, Others(bss, sta)`rscToDs, Others(bss, sta)`rscFromDs, Others(bss, sta)`mldMacAddr
    ensures forall o | o in bss.sta && o != sta ::
              && SharesKey(sta, o) == old(SharesKey(sta, o))
              && if old(SharesKey(sta, o)) then Fresh(StateOf(o), ptk, sta.mldMacAddr) else StateOf(o) == old(StateOf(o))
    ensures forall o | o in bss.sta :: o.linkAddr == old(o.linkAddr) && o.tkip == old(o.tkip)
  {
    hide Fresh;
    for j := 0 to |bss.sta|
      invariant forall o | o in bss.sta && o != sta :: SharesKey(sta, o) == old(SharesKey(sta, o))
      invariant forall o | o in bss.sta[..j] && o != sta ::
                  if old(SharesKey(sta, o)) then Fresh(StateOf(o), ptk, sta.mldMacAddr) else StateOf(o) == old(StateOf(o))
      invariant forall o | o in bss.sta[j..] && o !in bss.sta[..j] && o != sta :: StateOf(o) == old(StateOf(o))
    {
      var o := bss.sta[j];
      assert bss.sta[..j + 1] == bss.sta[..j] + [o];
      assert bss.sta[j..] == [o] + bss.sta[j + 1..];
      if o != sta {
        var match0 := Matches(sta, o);
        if match0 && sta.bss.mldMacAddr == o.bss.mldMacAddr {
          InstallOn(o, sta, ptk);
        }
      }
    }
    assert bss.sta[..|bss.sta|] == bss.sta;
  }

  /** Stations in done are settled, the others as they were. */
  ghost predicate Progress(all: set<Sta>, done: set<Sta>, shares: set<Sta>, was: map<Sta, KeyState>, sta: Sta, ptk: Octets, mld: Mac)
    reads all
  {
    && sta in all && done <= all <= was.Keys
    && Fresh(StateOf(sta), ptk, mld)
    && (forall o | o in done && o != sta :: if o in shares then Fresh(StateOf(o), ptk, mld) else StateOf(o) == was[o])
    && (forall o | o in all - done && o != sta :: StateOf(o) == was[o])
  }

  ghost predicate SharersAre(all: set<Sta>, shares: set<Sta>, sta: Sta)
    reads all, sta.bss, set o | o in all :: o.bss
  {
    forall o | o in all && o != sta :: SharesKey(sta, o) <==> o in shares
  }

  lemma MldOf(sta: Sta, ptk: Octets, mld: Mac)
    requires Fresh(StateOf(sta), ptk, mld)
    ensures sta.mldMacAddr == mld
  {
  }

  method InstallStep(bss: Bss, sta: Sta, ptk: Octets, ghost all: set<Sta>, ghost done: set<Sta>, ghost shares: set<Sta>,
                     ghost was: map<Sta, KeyState>, ghost mld: Mac)
    requires (set s | s in bss.sta) <= all && SharersAre(all, shares, sta) && Progress(all, done, shares, was, sta, ptk, mld)
    modifies Others(bss, sta)`ptk, Others(bss, sta)`ptkSet, Others(bss, sta)`rscToDs, Others(bss, sta)`rscFromDs, Others(bss, sta)`mldMacAddr
    ensures SharersAre(all, shares, sta)
    ensures Progress(all, done + (set s | s in bss.sta), shares, was, sta, ptk, mld)
  {
    hide SharesKey, StateOf;
    assert sta.mldMacAddr == mld by { MldOf(sta, ptk, mld); }
    InstallInBss(bss, sta, ptk);
  }

  lemma AllDone(bs: seq<Bss>, done: set<Sta>)
    requires forall k | 0 <= k < |bs| :: (set s | s in bs[k].sta) <= done
    ensures Stations(bs) <= done
  {
    forall b, s | b in bs && s in b.sta
      ensures s in done
    {
      var k :| 0 <= k < |bs| && bs[k] == b;
      assert s in (set s | s in bs[k].sta);
    }
  }

  lemma InBss(bs: seq<Bss>, bss: Bss)
    requires bss in bs
    ensures (set s | s in bss.sta) <= Stations(bs)
  {
  }

  /** The outer loop: every BSS. */
  method InstallAll(bs: seq<Bss>, sta: Sta, ptk: Octets, ghost all: set<Sta>, ghost shares: set<Sta>,
                    ghost was: map<Sta, KeyState>, ghost mld: Mac)
    requires all == Stations(bs) && SharersAre(all, shares, sta) && Progress(all, {}, shares, was, sta, ptk, mld)
    modifies all`ptk, all`ptkSet, all`rscToDs, all`rscFromDs, all`mldMacAddr
    ensures Progress(all, all, shares, was, sta, ptk, mld)
  {
    hide SharersAre, Progress, Stations;
    ghost var done: set<Sta> := {};
    for i := 0 to |bs|
      invariant forall k | 0 <= k < i :: (set s | s in bs[k].sta) <= done
      invariant done <= all == Stations(bs)
      invariant SharersAre(all, shares, sta) && Progress(all, done, shares, was, sta, ptk, mld)
    {
      var bss := bs[i];
      InBss(bs, bss);
      InstallStep(bss, sta, ptk, all, done, shares, was, mld);
      done := done + set s | s in bss.sta;
    }
    AllDone(bs, done);
    assert done == all;
  }

  /** The station itself, before the loops. */
  method InstallFirst(sta: Sta, ptk: Octets, ghost all: set<Sta>, ghost shares: set<Sta>, ghost was: map<Sta, KeyState>)
    requires sta in all && all <= was.Keys && SharersAre(all, shares, sta) && forall o | o in all :: was[o] == StateOf(o)
    modifies sta`ptk, sta`ptkSet, sta`rscToDs, sta`rscFromDs
    ensures sta.mldMacAddr == old(sta.mldMacAddr)
    ensures SharersAre(all, shares, sta) && Progress(all, {}, shares, was, sta, ptk, sta.mldMacAddr)
  {
    hide Fresh;
    CopyPtk(sta, ptk);
  }

  /** sta_new_ptk: the station, and every entry that shares its key, hold it with fresh counters; no other entry changes. */
  method NewPtk(wt: Wlantest, sta: Sta, ptk: Octets)
    requires sta in Stations(wt.bss)
    modifies Stations(wt.bss)`ptk, Stations(wt.bss)`ptkSet, Stations(wt.bss)`rscToDs, Stations(wt.bss)`rscFromDs, Stations(wt.bss)`mldMacAddr
    ensures wt.bss == old(wt.bss) && Stations(wt.bss) == old(Stations(wt.bss))
    ensures forall o | o in Stations(wt.bss) ::
              if o == sta || old(SharesKey(sta, o)) then Fresh(StateOf(o), ptk, old(sta.mldMacAddr))
              else StateOf(o) == old(StateOf(o))
    ensures forall o | o in Stations(wt.bss) :: o.linkAddr == old(o.linkAddr) && o.tkip == old(o.tkip)
  {
    hide Fresh, StateOf, SharesKey;
    ghost var all := Stations(wt.bss);
    ghost var shares := set o | o in all && SharesKey(sta, o);
    ghost var was := map o | o in all :: StateOf(o);
    InstallFirst(sta, ptk, all, shares, was);
    InstallAll(wt.bss, sta, ptk, all, shares, was, sta.mldMacAddr);
  }
}
