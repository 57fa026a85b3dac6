/** Runs of injection requests: counters and air after a run are functions of the requests and the state at its start. */
module InjectRun {
  import opened Bits
  import opened Frames
  import opened Counters
  import opened Aead
  import opened Tracking
  import opened Nonces
  import Bip
  import opened Inject

  datatype Request = Request(bss: Bss?, sta: Sta?, frame: Octets, prot: Protection, ok: bool)

  /** What a request comes to: sent as it is, or by which route and under which key. */
  datatype Event = Event(plain: bool, route: Route, key: Key, frame: Octets, incorrect: bool, ok: bool)

  /** A request as the control interface makes it: for listed entries, with a header's length of frame. */
  ghost predicate Proper(r: Request, bs: seq<Bss>)
    reads bs`sta
  {
    |r.frame| >= 24 && (r.bss != null ==> r.bss in bs) && (r.sta != null ==> r.sta in Stations(bs))
  }

  ghost function EventOf(up: bool, bs: seq<Bss>, r: Request): (e: Event)
    requires Proper(r, bs)
    reads bs`sta, bs`tdls, bs`gtk, bs`gtkIdx, bs`igtk, bs`igtkIdx, bs`groupTkip
    reads Stations(bs)`ptkSet, Stations(bs)`ptk, Stations(bs)`tkip, Links(bs)`tk
    ensures Within(e.route, bs, Stations(bs), Links(bs)) && e.frame == r.frame
  {
    RouteWithin(up, bs, r.bss, r.sta, r.frame, r.prot);
    var route := RequestRoute(up, bs, r.bss, r.sta, r.frame, r.prot);
    Event(SendsPlain(up, r.bss, r.sta, r.frame, r.prot), route, KeyOf(route), r.frame, r.prot == IncorrectKey, r.ok)
  }

  /** What every request of a run comes to, all told from the state at its start. */
  ghost function Plan(up: bool, bs: seq<Bss>, rs: seq<Request>): (plan: seq<Event>)
    requires forall r | r in rs :: Proper(r, bs)
    reads bs`sta, bs`tdls, bs`gtk, bs`gtkIdx, bs`igtk, bs`igtkIdx, bs`groupTkip
    reads Stations(bs)`ptkSet, Stations(bs)`ptk, Stations(bs)`tkip, Links(bs)`tk
    ensures |plan| == |rs| && forall i | 0 <= i < |rs| :: plan[i] == EventOf(up, bs, rs[i])
  {
    if rs == [] then [] else Plan(up, bs, rs[..|rs| - 1]) + [EventOf(up, bs, rs[|rs| - 1])]
  }

  // Counters and air of a run, on values -----------------------------------------------------------

  /** Every event can be carried out on the counters given. */
  ghost predicate Runs(plan: seq<Event>, x: Snap)
  {
    forall i | 0 <= i < |plan| :: Takes(plan[i].route, plan[i].frame) && Known(plan[i].route, x)
  }

  predicate SameEntries(x: Snap, y: Snap)
  {
    x.ipn.Keys == y.ipn.Keys && x.rsc.Keys == y.rsc.Keys && x.sta.Keys == y.sta.Keys && x.tdls.Keys == y.tdls.Keys
  }

  lemma NextSame(route: Route, x: Snap, frame: Octets)
    requires Takes(route, frame) && Known(route, x)
    ensures SameEntries(x, Next(route, x, frame))
  {
    hide Readable, NextIpn, NextRsc, BumpedPair;
  }

  lemma SameKnown(route: Route, x: Snap, y: Snap)
    requires SameEntries(x, y)
    ensures Known(route, x) == Known(route, y)
  {
  }

  /** The counters after a run. */
  ghost function RunTo(plan: seq<Event>, x: Snap): (y: Snap)
    requires Runs(plan, x)
    ensures SameEntries(x, y)
  {
    if plan == [] then x
    else
      var e, y := plan[|plan| - 1], RunTo(plan[..|plan| - 1], x);
      SameKnown(e.route, x, y);
      NextSame(e.route, y, e.frame);
      Next(e.route, y, e.frame)
  }

  /** What an event puts on the air, with the counters as they stand. */
  ghost function Given(c: Crypto, x: Snap, e: Event): seq<Octets>
    requires c.Sound() && Takes(e.route, e.frame) && Known(e.route, x)
  {
    OnAir(if e.plain then Some(e.frame) else SentAt(c, x, e.route, e.key, e.frame, e.incorrect), e.ok)
  }

  /** What event i of a run puts on the air. */
  ghost function GivenAt(c: Crypto, plan: seq<Event>, x: Snap, i: nat): seq<Octets>
    requires c.Sound() && Runs(plan, x) && i < |plan|
  {
    var y := RunTo(plan[..i], x);
    SameKnown(plan[i].route, x, y);
    Given(c, y, plan[i])
  }

  /** Everything a run puts on the air, in order. */
  ghost function Air(c: Crypto, plan: seq<Event>, x: Snap, n: nat): seq<Octets>
    requires c.Sound() && Runs(plan, x) && n <= |plan|
  {
    if n == 0 then [] else Air(c, plan, x, n - 1) + GivenAt(c, plan, x, n - 1)
  }

  // One request on the heap ------------------------------------------------------------------------

  /** A BSS list with entries before those it started with, none of which has stations or links, or a BSSID among them. */
  ghost predicate Grown(more: seq<Bss>, bs: seq<Bss>)
    reads more`sta, more`tdls
  {
    && |more| >= |bs| && more[|more| - |bs|..] == bs
    && forall i | 0 <= i < |more| - |bs| ::
         more[i].sta == [] && more[i].tdls == [] && FirstBss(bs, more[i].bssid) == null
  }

  lemma GrownLists(more: seq<Bss>, bs: seq<Bss>)
    requires Grown(more, bs)
    ensures Stations(more) == Stations(bs) && Links(more) == Links(bs) && forall b | b in bs :: b in more
  {
    assert more == more[..|more| - |bs|] + bs;
  }

  lemma {:induction false} FirstGrown(more: seq<Bss>, bs: seq<Bss>, bssid: Mac)
    requires Grown(more, bs)
    ensures FirstBss(more, bssid) == FirstBss(bs, bssid)
         || (FirstBss(bs, bssid) == null && FirstBss(more, bssid) != null && FirstBss(more, bssid).sta == [])
  {
    if |more| == |bs| {
      assert more == bs;
    } else {
      var rest := more[1..];
      assert rest[|rest| - |bs|..] == bs;
      assert forall i | 0 <= i < |rest| - |bs| :: rest[i] == more[i + 1];
      FirstGrown(rest, bs, bssid);
    }
  }

  lemma PeerGrown(more: seq<Bss>, bs: seq<Bss>, f: Octets)
    requires Grown(more, bs) && |f| >= 24
    ensures PeerRoute(more, f) == PeerRoute(bs, f)
  {
    hide Grown;
    FirstGrown(more, bs, Addr3(f));
  }

  /** Entries that a run adds do not change what a request comes to. */
  lemma EventGrown(up: bool, more: seq<Bss>, bs: seq<Bss>, r: Request)
    requires Grown(more, bs) && Proper(r, bs)
    ensures Proper(r, more) && EventOf(up, more, r) == EventOf(up, bs, r)
  {
    hide Grown, PeerRoute, RouteOf, Attempted, StaToSta, Stations, SendsPlain, KeyOf;
    GrownLists(more, bs);
    PeerGrown(more, bs, r.frame);
  }

  /** More BSS entries, with the others as they are. */
  predicate Extends(big: Snap, x: Snap)
  {
    && (forall b | b in x.ipn :: b in big.ipn && big.ipn[b] == x.ipn[b])
    && (forall b | b in x.rsc :: b in big.rsc && big.rsc[b] == x.rsc[b])
    && big.sta == x.sta && big.tdls == x.tdls
  }

  lemma SnapshotExtends(more: seq<Bss>, bs: seq<Bss>, stas: set<Sta>, ts: set<Tdls>)
    requires forall b | b in bs :: b in more
    ensures Extends(Snapshot(more, stas, ts), Snapshot(bs, stas, ts))
    ensures var x := Snapshot(bs, stas, ts); x.ipn.Keys == x.rsc.Keys == set b | b in bs
  {
  }

  lemma NextExtends(big: Snap, x: Snap, route: Route, frame: Octets)
    requires Extends(big, x) && Takes(route, frame) && Known(route, x)
    ensures Known(route, big) && Extends(Next(route, big, frame), Next(route, x, frame))
  {
    hide Readable, NextIpn, NextRsc, BumpedPair;
  }

  lemma ExtendsOne(big: Snap, x: Snap, y: Snap)
    requires Extends(big, x) && Extends(big, y) && SameEntries(x, y)
    ensures x == y
  {
    assert x.ipn == y.ipn && x.rsc == y.rsc;
  }

  lemma SentExtends(c: Crypto, big: Snap, x: Snap, route: Route, key: Key, frame: Octets, incorrect: bool)
    requires c.Sound() && Extends(big, x) && Takes(route, frame) && Known(route, x)
    ensures Known(route, big) && SentAt(c, big, route, key, frame, incorrect) == SentAt(c, x, route, key, frame, incorrect)
  {
    hide Readable, Encapsulated, HdrLen, NextPn, BipFrame, GroupFrame, NextIpn, NextRsc;
  }

  /** One more entry at the head, with a BSSID of its own and neither stations nor links. */
  ghost predicate NewEntry(more: seq<Bss>, bs: seq<Bss>)
    reads more`sta, more`tdls
  {
    |more| > 0 && more[1..] == bs && more[0].sta == [] && more[0].tdls == [] && FirstBss(bs, more[0].bssid) == null
  }

  /** One request: what goes on the air, the result and the counters are those of its event. */
  method InjectEvent(c: Crypto, wt: Wlantest, r: Request, ghost bs: seq<Bss>, ghost stas: set<Sta>, ghost ts: set<Tdls>)
    returns (ret: int)
    requires c.Sound() && bs == wt.bss && stas == Stations(bs) && ts == Links(bs) && Proper(r, bs)
    requires Takes(EventOf(wt.monitorUp, bs, r).route, r.frame)
    modifies wt`sent, wt`bss, bs`ipn, bs`rsc, stas`rscFromDs, stas`rscToDs, ts`rscInit, ts`rscResp
    ensures var e, x := old(EventOf(wt.monitorUp, bs, r)), old(Snapshot(bs, stas, ts));
            && Known(e.route, x) && Snapshot(bs, stas, ts) == Next(e.route, x, r.frame)
            && var out := Given(c, x, e);
               wt.sent == old(wt.sent) + out && ret == if out == [] then -1 else 0
    ensures wt.bss == bs || (NewEntry(wt.bss, bs) && fresh(wt.bss[0]))
  {
    hide Snapshot, Next, SentAt, RequestRoute, SendsPlain, Attempted, Covered, Stations, Links, Within, FirstBss, KeyOf, Known, Takes;
    var result, _, _ := InjectRequest(c, wt, r.bss, r.sta, r.frame, r.prot, r.ok);
    ret := result;
  }

  lemma SnapshotSame(bs: seq<Bss>, stas: set<Sta>, ts: set<Tdls>, x: Snap, route: Route, frame: Octets)
    requires Takes(route, frame) && Known(route, x) && x.ipn.Keys == x.rsc.Keys == (set b | b in bs)
    requires x.sta.Keys == stas && x.tdls.Keys == ts
    ensures SameEntries(Snapshot(bs, stas, ts), Next(route, x, frame))
  {
    hide Next;
    NextSame(route, x, frame);
  }

  lemma GrownMore(more: seq<Bss>, next: seq<Bss>, bs: seq<Bss>)
    requires Grown(more, bs)
    requires next == more || NewEntry(next, more)
    ensures Grown(next, bs)
  {
  }

  /** The same in the course of a run, where the list may have grown. */
  method InjectStep(c: Crypto, wt: Wlantest, r: Request, ghost bs: seq<Bss>, ghost stas: set<Sta>, ghost ts: set<Tdls>)
    returns (ret: int)
    requires c.Sound() && Grown(wt.bss, bs) && stas == Stations(bs) && ts == Links(bs) && Proper(r, bs)
    requires Takes(EventOf(wt.monitorUp, bs, r).route, r.frame)
    modifies wt`sent, wt`bss, wt.bss`ipn, wt.bss`rsc, stas`rscFromDs, stas`rscToDs, ts`rscInit, ts`rscResp
    ensures var e, x := old(EventOf(wt.monitorUp, bs, r)), old(Snapshot(bs, stas, ts));
            && Known(e.route, x) && Snapshot(bs, stas, ts) == Next(e.route, x, r.frame)
            && var out := Given(c, x, e);
               wt.sent == old(wt.sent) + out && ret == if out == [] then -1 else 0
    ensures Grown(wt.bss, bs)
    ensures wt.bss == old(wt.bss) || (|wt.bss| > 0 && fresh(wt.bss[0]) && wt.bss[1..] == old(wt.bss))
  {
    hide Snapshot, Next, SentAt, EventOf, Stations, Links, Within, Extends, FirstBss, Known, Takes, Proper, SameEntries;
    ghost var more, e := wt.bss, EventOf(wt.monitorUp, bs, r);
    GrownLists(more, bs);
    EventGrown(wt.monitorUp, more, bs, r);
    WithinKnown(e.route, bs, stas, ts);
    SnapshotExtends(more, bs, stas, ts);
    ghost var big, x := Snapshot(more, stas, ts), Snapshot(bs, stas, ts);
    SentExtends(c, big, x, e.route, e.key, r.frame, e.incorrect);
    NextExtends(big, x, e.route, r.frame);
    ret := InjectEvent(c, wt, r, more, stas, ts);
    SnapshotExtends(more, bs, stas, ts);
    SnapshotSame(bs, stas, ts, x, e.route, r.frame);
    ExtendsOne(Snapshot(more, stas, ts), Snapshot(bs, stas, ts), Next(e.route, x, r.frame));
    GrownMore(more, wt.bss, bs);
  }

  // The run on the heap ----------------------------------------------------------------------------

  lemma PlanRuns(up: bool, bs: seq<Bss>, rs: seq<Request>, stas: set<Sta>, ts: set<Tdls>)
    requires stas == Stations(bs) && ts == Links(bs) && forall r | r in rs :: Proper(r, bs)
    requires var plan := Plan(up, bs, rs); forall i | 0 <= i < |plan| :: Takes(plan[i].route, plan[i].frame)
    ensures Runs(Plan(up, bs, rs), Snapshot(bs, stas, ts))
  {
    hide Snapshot, Takes, Known, Proper, Within;
    var plan := Plan(up, bs, rs);
    forall i | 0 <= i < |plan|
      ensures Known(plan[i].route, Snapshot(bs, stas, ts))
    {
      assert rs[i] in rs;
      WithinKnown(plan[i].route, bs, stas, ts);
    }
  }

  lemma RunsPrefix(plan: seq<Event>, x: Snap, i: nat)
    requires Runs(plan, x) && i < |plan|
    ensures Runs(plan[..i], x) && Runs(plan[..i + 1], x) && Known(plan[i].route, RunTo(plan[..i], x))
    ensures RunTo(plan[..i + 1], x) == Next(plan[i].route, RunTo(plan[..i], x), plan[i].frame)
  {
    hide Takes, Known, Next;
    SameKnown(plan[i].route, x, RunTo(plan[..i], x));
    assert plan[..i + 1][..i] == plan[..i];
  }

  lemma NothingRun(c: Crypto, plan: seq<Event>, x: Snap)
    requires c.Sound() && Runs(plan, x)
    ensures Runs(plan[..0], x) && RunTo(plan[..0], x) == x && Air(c, plan, x, 0) == []
  {
  }

  /** A plan holds what each request comes to in the current state. */
  ghost predicate Settled(up: bool, bs: seq<Bss>, stas: set<Sta>, ts: set<Tdls>, rs: seq<Request>, plan: seq<Event>)
    reads bs`sta, bs`tdls, bs`gtk, bs`gtkIdx, bs`igtk, bs`igtkIdx, bs`groupTkip, stas`ptkSet, stas`ptk, stas`tkip, ts`tk
  {
    && stas == Stations(bs) && ts == Links(bs) && |plan| == |rs|
    && forall i | 0 <= i < |rs| :: Proper(rs[i], bs) && plan[i] == EventOf(up, bs, rs[i])
  }

  lemma PlanSettled(up: bool, bs: seq<Bss>, rs: seq<Request>)
    requires forall r | r in rs :: Proper(r, bs)
    ensures Settled(up, bs, Stations(bs), Links(bs), rs, Plan(up, bs, rs))
  {
    hide Proper, EventOf;
    assert forall i | 0 <= i < |rs| :: rs[i] in rs;
  }

  /** One request of a settled run, which stays settled: a step changes counters only. */
  method InjectSettled(c: Crypto, wt: Wlantest, rs: seq<Request>, i: nat, ghost bs: seq<Bss>, ghost stas: set<Sta>,
                       ghost ts: set<Tdls>, ghost plan: seq<Event>) returns (ret: int)
    requires c.Sound() && Grown(wt.bss, bs)
    requires Settled(wt.monitorUp, bs, stas, ts, rs, plan) && i < |rs| && Takes(plan[i].route, plan[i].frame)
    modifies wt`sent, wt`bss, wt.bss`ipn, wt.bss`rsc, stas`rscFromDs, stas`rscToDs, ts`rscInit, ts`rscResp
    ensures Settled(wt.monitorUp, bs, stas, ts, rs, plan) && i < |plan|
    ensures var x := old(Snapshot(bs, stas, ts));
            && Known(plan[i].route, x) && Snapshot(bs, stas, ts) == Next(plan[i].route, x, plan[i].frame)
            && var out := Given(c, x, plan[i]);
               wt.sent == old(wt.sent) + out && ret == if out == [] then -1 else 0
    ensures Grown(wt.bss, bs)
    ensures wt.bss == old(wt.bss) || (|wt.bss| > 0 && fresh(wt.bss[0]) && wt.bss[1..] == old(wt.bss))
  {
    hide Takes, Known, Snapshot, Next, Given, Proper, Within, Grown, EventOf, Stations, Links;
    ret := InjectStep(c, wt, rs[i], bs, stas, ts);
  }

  method InjectNext(c: Crypto, wt: Wlantest, rs: seq<Request>, i: nat, ghost bs: seq<Bss>, ghost stas: set<Sta>,
                    ghost ts: set<Tdls>, ghost plan: seq<Event>, ghost x: Snap) returns (ret: int)
    requires c.Sound() && Grown(wt.bss, bs)
    requires Settled(wt.monitorUp, bs, stas, ts, rs, plan) && Runs(plan, x) && i < |rs|
    requires Runs(plan[..i], x) && Snapshot(bs, stas, ts) == RunTo(plan[..i], x)
    modifies wt`sent, wt`bss, wt.bss`ipn, wt.bss`rsc, stas`rscFromDs, stas`rscToDs, ts`rscInit, ts`rscResp
    ensures Settled(wt.monitorUp, bs, stas, ts, rs, plan) && i < |plan|
    ensures Runs(plan[..i + 1], x) && Snapshot(bs, stas, ts) == RunTo(plan[..i + 1], x)
    ensures var out := GivenAt(c, plan, x, i);
            wt.sent == old(wt.sent) + out && ret == if out == [] then -1 else 0
    ensures Grown(wt.bss, bs)
    ensures wt.bss == old(wt.bss) || (|wt.bss| > 0 && fresh(wt.bss[0]) && wt.bss[1..] == old(wt.bss))
  {
    hide Takes, Known, Snapshot, Next, Given, RunTo, Within, Grown, EventOf, Proper, Stations, Links;
    RunsPrefix(plan, x, i);
    ret := InjectSettled(c, wt, rs, i, bs, stas, ts, plan);
  }

  lemma NotGrown(bs: seq<Bss>)
    ensures Grown(bs, bs)
  {
  }

  lemma AirMore(c: Crypto, plan: seq<Event>, x: Snap, i: nat, before: seq<Octets>)
    requires c.Sound() && Runs(plan, x) && i < |plan|
    ensures before + Air(c, plan, x, i) + GivenAt(c, plan, x, i) == before + Air(c, plan, x, i + 1)
  {
  }

  /**
   * Any sequence of requests. What each comes to is settled by the state at the start; the air then holds what the
   * events give, in order, and the counters stand where the events take them.
   */
  method InjectAll(c: Crypto, wt: Wlantest, rs: seq<Request>, ghost bs: seq<Bss>, ghost stas: set<Sta>, ghost ts: set<Tdls>,
                   ghost plan: seq<Event>, ghost x: Snap)
    returns (rets: seq<int>)
    requires c.Sound() && bs == wt.bss && stas == Stations(bs) && ts == Links(bs) && x == Snapshot(bs, stas, ts)
    requires (forall r | r in rs :: Proper(r, bs)) && plan == Plan(wt.monitorUp, bs, rs)
    requires forall i | 0 <= i < |plan| :: Takes(plan[i].route, plan[i].frame)
    modifies wt`sent, wt`bss, bs`ipn, bs`rsc, stas`rscFromDs, stas`rscToDs, ts`rscInit, ts`rscResp
    ensures Runs(plan, x) && Snapshot(bs, stas, ts) == RunTo(plan, x)
    ensures wt.sent == old(wt.sent) + Air(c, plan, x, |plan|)
    ensures |rets| == |rs| && forall i | 0 <= i < |rs| :: rets[i] == if GivenAt(c, plan, x, i) == [] then -1 else 0
    ensures Grown(wt.bss, bs)
  {
    hide Takes, Known, Snapshot, Next, GivenAt, Runs, RunTo, Within, FirstBss, Grown, Air, Settled, Plan, Proper, Stations, Links;
    PlanRuns(wt.monitorUp, bs, rs, stas, ts);
    PlanSettled(wt.monitorUp, bs, rs);
    NothingRun(c, plan, x);
    NotGrown(bs);
    rets := [];
    for i := 0 to |rs|
      invariant |rets| == i && Grown(wt.bss, bs) && Runs(plan[..i], x) && Snapshot(bs, stas, ts) == RunTo(plan[..i], x)
      invariant Settled(wt.monitorUp, bs, stas, ts, rs, plan)
      invariant wt.sent == old(wt.sent) + Air(c, plan, x, i)
      invariant forall k | 0 <= k < i :: rets[k] == if GivenAt(c, plan, x, k) == [] then -1 else 0
      invariant forall k | 0 <= k < |wt.bss| :: wt.bss[k] in bs || fresh(wt.bss[k])
    {
      var ret := InjectNext(c, wt, rs, i, bs, stas, ts, plan, x);
      rets := rets + [ret];
      AirMore(c, plan, x, i, old(wt.sent));
    }
    assert plan[..|rs|] == plan;
  }

  // What a run puts on the air ---------------------------------------------------------------------

  /** The frame as given goes out for plain events only; every other event gives nothing or one longer frame. */
  lemma PlainOnly(c: Crypto, plan: seq<Event>, x: Snap, i: nat)
    requires c.Sound() && Runs(plan, x) && i < |plan|
    ensures var e, out := plan[i], GivenAt(c, plan, x, i);
            if e.plain then out == (if e.ok then [e.frame] else []) else out == [] || (|out| == 1 && |out[0]| > |e.frame|)
  {
    hide SentAt, RunTo, Takes, Known;
    var e, y := plan[i], RunTo(plan[..i], x);
    SameKnown(e.route, x, y);
    SentLonger(c, y, e.route, e.key, e.frame, e.incorrect);
  }

  /** Routes that seal a frame under a pair of counter tables. */
  predicate Paired(route: Route)
  {
    route.ByPtk? || route.ByTpk?
  }

  /** The counters that event i finds on its route. */
  ghost function LinkAt(plan: seq<Event>, x: Snap, i: nat): Link
    requires Runs(plan, x) && i < |plan| && Paired(plan[i].route)
  {
    var y := RunTo(plan[..i], x);
    SameKnown(plan[i].route, x, y);
    LinkIn(plan[i].route, y)
  }

  ghost function NonceAt(plan: seq<Event>, x: Snap, i: nat): Octets
    requires Runs(plan, x) && i < |plan| && Paired(plan[i].route) && Sendable(plan[i].frame)
  {
    SentNonce(LinkAt(plan, x, i), plan[i].frame)
  }

  /** What a CCMP event on a pairwise or direct route puts on the air is sealed under its key and that nonce. */
  lemma SealedAt(c: Crypto, plan: seq<Event>, x: Snap, i: nat)
    requires c.Sound() && Runs(plan, x) && i < |plan| && Paired(plan[i].route) && !plan[i].plain && !plan[i].key.tkip
    ensures var e, out := plan[i], GivenAt(c, plan, x, i);
            if !e.ok || !Sendable(e.frame) then out == []
            else
              var h := Head(Ccmp, e.frame, HdrLen(e.frame), NextPn(LinkAt(plan, x, i), e.frame), 0);
              out == [h + c.ccm.seal(KeyFor(e.key.octets, e.incorrect), NonceAt(plan, x, i), Aad(Ccmp, h, NO_OVERRIDE),
                                     e.frame[HdrLen(e.frame)..])]
  {
    hide SentAt, RunTo, Known, LinkIn, Readable, HdrLen, NextPn, SentNonce, Head, Aad;
    var e, y := plan[i], RunTo(plan[..i], x);
    SameKnown(e.route, x, y);
    SentNonceUsed(c, y, e.route, e.key, e.frame, e.incorrect);
  }

  /**
   * What goes out by a route other than BIP can be read with the key of its entry, and with 64 octets of 0x11 for a
   * request with an incorrect key.
   */
  lemma OpenedAt(c: Crypto, plan: seq<Event>, x: Snap, i: nat)
    requires c.Sound() && Runs(plan, x) && i < |plan| && !plan[i].plain && !plan[i].route.ByIgtk? && !plan[i].key.tkip
    ensures var e, out := plan[i], GivenAt(c, plan, x, i);
            out == [] || Reads(c, if e.incorrect then seq(64, _ => 0x11) else e.key.octets, e.route, e.frame, out[0])
  {
    hide SentAt, RunTo, Known, Reads, Readable;
    var e, y := plan[i], RunTo(plan[..i], x);
    SameKnown(e.route, x, y);
    SentKey(c, y, e.route, e.key, e.frame, e.incorrect);
  }

  // Nonces of a run --------------------------------------------------------------------------------

  /** The frames of a run that took a route. */
  ghost function FramesBy(plan: seq<Event>, route: Route): seq<Octets>
  {
    if plan == [] then []
    else FramesBy(plan[..|plan| - 1], route) + if plan[|plan| - 1].route == route then [plan[|plan| - 1].frame] else []
  }

  lemma {:induction false} FramesReadable(plan: seq<Event>, x: Snap, route: Route)
    requires Runs(plan, x) && Paired(route)
    ensures AllReadable(FramesBy(plan, route))
  {
    hide Readable, Known;
    if plan != [] {
      FramesReadable(plan[..|plan| - 1], x, route);
    }
  }

  lemma {:induction false} FramesPrefix(plan: seq<Event>, i: nat)
    requires i < |plan|
    ensures var route := plan[i].route;
            var n, fs := |FramesBy(plan[..i], route)|, FramesBy(plan, route);
            n < |fs| && fs[..n] == FramesBy(plan[..i], route) && fs[n] == plan[i].frame
  {
    var init := plan[..|plan| - 1];
    if i == |plan| - 1 {
      assert plan[..i] == init;
    } else {
      FramesPrefix(init, i);
      assert init[..i] == plan[..i];
    }
  }

  lemma FramesGrow(plan: seq<Event>, i: nat, j: nat)
    requires i < j <= |plan|
    ensures |FramesBy(plan[..i], plan[i].route)| < |FramesBy(plan[..j], plan[i].route)|
  {
    FramesPrefix(plan[..j], i);
    assert plan[..j][..i] == plan[..i];
  }

  /** Stations are reached by the BSS they are listed in. */
  predicate AtHome(route: Route)
  {
    route.ByPtk? ==> route.bssid == route.s.bss.bssid
  }

  ghost predicate AllAtHome(plan: seq<Event>)
  {
    forall i | 0 <= i < |plan| :: AtHome(plan[i].route)
  }

  /** One event moves the counters of its own route and of no other. */
  lemma LinkStep(x: Snap, e: Event, route: Route)
    requires Takes(e.route, e.frame) && Known(e.route, x) && Known(route, x) && Paired(route) && AtHome(route) && AtHome(e.route)
    ensures var y := Next(e.route, x, e.frame);
            && Known(route, y)
            && LinkIn(route, y) == if e.route == route then Bumped(LinkIn(route, x), e.frame) else LinkIn(route, x)
  {
    hide Readable, Bumped, NextIpn, NextRsc;
  }

  lemma {:induction false} LinkAfterRun(plan: seq<Event>, x: Snap, route: Route)
    requires Runs(plan, x) && AllAtHome(plan) && Known(route, x) && Paired(route) && AtHome(route)
    ensures AllReadable(FramesBy(plan, route)) && Known(route, RunTo(plan, x))
    ensures LinkIn(route, RunTo(plan, x)) == After(LinkIn(route, x), FramesBy(plan, route))
  {
    hide Takes, Known, Next, LinkIn, Readable, Bumped, AtHome;
    FramesReadable(plan, x, route);
    SameKnown(route, x, RunTo(plan, x));
    if plan != [] {
      var init, e := plan[..|plan| - 1], plan[|plan| - 1];
      LinkAfterRun(init, x, route);
      SameKnown(e.route, x, RunTo(init, x));
      LinkStep(RunTo(init, x), e, route);
      var fs := FramesBy(plan, route);
      assert e.route == route ==> fs[..|fs| - 1] == FramesBy(init, route);
      assert e.route != route ==> fs == FramesBy(init, route);
    }
  }

  /** How often a run uses one counter of a route. */
  ghost function UsesBy(plan: seq<Event>, x: Snap, route: Route, t: Slot): nat
    requires Runs(plan, x) && Known(route, x) && Paired(route)
  {
    FramesReadable(plan, x, route);
    Uses(LinkIn(route, x).anchor, FramesBy(plan, route), t)
  }

  /**
   * In any run, no two frames sealed under one station's PTK or one direct link's TPK share a nonce, up to 2^48 uses of
   * each of its counters.
   */
  lemma RunNoncesDistinct(plan: seq<Event>, x: Snap, i: nat, j: nat)
    requires Runs(plan, x) && AllAtHome(plan) && i < j < |plan| && plan[i].route == plan[j].route && Paired(plan[i].route)
    requires Sendable(plan[i].frame) && Sendable(plan[j].frame)
    requires forall t: Slot | t.tid <= 16 :: UsesBy(plan, x, plan[i].route, t) <= PN_SPACE
    ensures NonceAt(plan, x, i) != NonceAt(plan, x, j)
  {
    hide Readable, HdrLen, SentNonce, After, Uses, FramesBy, Takes, Known, RunTo, LinkIn, AtHome;
    var route := plan[i].route;
    var link, fs := LinkIn(route, x), FramesBy(plan, route);
    var m, n := |FramesBy(plan[..i], route)|, |FramesBy(plan[..j], route)|;
    FramesReadable(plan, x, route);
    FramesPrefix(plan, i);
    FramesPrefix(plan, j);
    FramesGrow(plan, i, j);
    LinkAfterRun(plan[..i], x, route);
    LinkAfterRun(plan[..j], x, route);
    NoncesDistinct(link, fs);
    assert RunNonce(link, fs, m) == NonceAt(plan, x, i);
    assert RunNonce(link, fs, n) == NonceAt(plan, x, j);
  }

  /** Every station is listed in its own BSS. */
  ghost predicate OwnLists(bs: seq<Bss>)
    reads bs`sta
  {
    forall b, s | b in bs && s in b.sta :: s.bss == b
  }

  lemma RouteAtHome(up: bool, bs: seq<Bss>, r: Request)
    requires OwnLists(bs) && Proper(r, bs) && (r.sta != null ==> r.bss == r.sta.bss)
    ensures AtHome(EventOf(up, bs, r).route)
  {
    hide Attempted, StaToSta, PeerRoute, SendsPlain;
    PeerRouteShape(bs, r.frame);
  }

  /** With such lists, and stations asked for in their own BSS, every route is at home. */
  lemma PlanAtHome(up: bool, bs: seq<Bss>, rs: seq<Request>)
    requires OwnLists(bs) && forall r | r in rs :: Proper(r, bs) && (r.sta != null ==> r.bss == r.sta.bss)
    ensures AllAtHome(Plan(up, bs, rs))
  {
    hide AtHome, Proper, OwnLists, EventOf;
    var plan := Plan(up, bs, rs);
    forall i | 0 <= i < |plan|
      ensures AtHome(plan[i].route)
    {
      assert rs[i] in rs;
      RouteAtHome(up, bs, rs[i]);
    }
  }

  // Group frames of a run --------------------------------------------------------------------------

  lemma GroupStep(x: Snap, e: Event, b: Bss, k: Index4)
    requires Takes(e.route, e.frame) && Known(e.route, x) && b in x.rsc
    ensures var y := Next(e.route, x, e.frame);
            b in y.rsc && y.rsc[b][k] == if e.route == ByGtk(b, k) then Incremented(x.rsc[b][k]) else x.rsc[b][k]
  {
    hide Readable, BumpedPair, NextIpn, Incremented;
  }

  /** The group counter of a key stands at its start advanced by the frames under that key. */
  lemma {:induction false} GroupAfterRun(plan: seq<Event>, x: Snap, b: Bss, k: Index4)
    requires Runs(plan, x) && b in x.rsc
    ensures b in RunTo(plan, x).rsc
    ensures RunTo(plan, x).rsc[b][k] == Advanced(x.rsc[b][k], |FramesBy(plan, ByGtk(b, k))|)
  {
    hide Takes, Known, Next, Incremented;
    if plan != [] {
      var init, e := plan[..|plan| - 1], plan[|plan| - 1];
      GroupAfterRun(init, x, b, k);
      SameKnown(e.route, x, RunTo(init, x));
      GroupStep(RunTo(init, x), e, b, k);
      NextOfAdvanced(x.rsc[b][k], |FramesBy(init, ByGtk(b, k))|);
    }
  }

  predicate GroupSendable(f: Octets)
  {
    |f| >= 24 && |f| >= GroupHdrLen(f)
  }

  /** The nonce of event i on a group route. */
  ghost function GroupNonceAt(plan: seq<Event>, x: Snap, i: nat): Octets
    requires Runs(plan, x) && i < |plan| && plan[i].route.ByGtk? && GroupSendable(plan[i].frame)
  {
    var b, k := plan[i].route.b, plan[i].route.g;
    GroupNonce(plan[i].frame, NextRsc(RunTo(plan[..i], x).rsc[b], k)[k], k as bv8)
  }

  lemma GroupSealedAt(c: Crypto, plan: seq<Event>, x: Snap, i: nat)
    requires c.Sound() && Runs(plan, x) && i < |plan| && plan[i].route.ByGtk? && !plan[i].plain && !plan[i].key.tkip
    ensures var e, out := plan[i], GivenAt(c, plan, x, i);
            if !e.ok || !GroupSendable(e.frame) then out == []
            else
              var n, k := GroupHdrLen(e.frame), e.route.g;
              var h := Head(Ccmp, e.frame, n, NextRsc(RunTo(plan[..i], x).rsc[e.route.b], k)[k], k as bv8);
              out == [h + c.ccm.seal(KeyFor(e.key.octets, e.incorrect), GroupNonceAt(plan, x, i), Aad(Ccmp, h, NO_OVERRIDE), e.frame[n..])]
  {
    hide SentAt, RunTo, GroupHdrLen, NextRsc, GroupNonce, Head, Aad;
    var e, y := plan[i], RunTo(plan[..i], x);
    SameKnown(e.route, x, y);
    GroupNonceUsed(c, y, e.route.b, e.route.g, e.key, e.frame, e.incorrect);
  }

  /**
   * In any run, two frames under one group key share a nonce exactly when priority and sender agree and 2^48 divides
   * the number of frames under that key from one to the other.
   */
  lemma GroupRunRepeats(plan: seq<Event>, x: Snap, i: nat, j: nat)
    requires Runs(plan, x) && i < j < |plan| && plan[i].route == plan[j].route && plan[i].route.ByGtk?
    requires GroupSendable(plan[i].frame) && GroupSendable(plan[j].frame)
    ensures var route := plan[i].route;
            var m, n := |FramesBy(plan[..i], route)|, |FramesBy(plan[..j], route)|;
            var pn := Advanced(x.rsc[route.b][route.g], m + 1);
            m < n < |FramesBy(plan, route)|
            && (GroupNonceAt(plan, x, i) == GroupNonceAt(plan, x, j) <==>
                  && GroupPriority(plan[i].frame, pn) == GroupPriority(plan[j].frame, pn)
                  && Addr2(plan[i].frame) == Addr2(plan[j].frame) && (n - m) % PN_SPACE == 0)
  {
    hide GroupHdrLen, GroupNonce, GroupPriority, Advanced, Incremented, FramesBy, RunTo, Takes;
    var route := plan[i].route;
    var start, fs := x.rsc[route.b][route.g], FramesBy(plan, route);
    FramesPrefix(plan, i);
    FramesPrefix(plan, j);
    FramesGrow(plan, i, j);
    GroupAfterRun(plan[..i], x, route.b, route.g);
    GroupAfterRun(plan[..j], x, route.b, route.g);
    var m, n := |FramesBy(plan[..i], route)|, |FramesBy(plan[..j], route)|;
    GroupNonceRepeats(start, fs, m, n, route.g as bv8);
  }

  // BIP frames of a run ----------------------------------------------------------------------------

  const IPN_WRAP: nat := 0x1_0000_0000_0000_0000

  lemma IpnStep(x: Snap, e: Event, b: Bss, k: Index8)
    requires Takes(e.route, e.frame) && Known(e.route, x) && b in x.ipn
    ensures var y := Next(e.route, x, e.frame);
            b in y.ipn && y.ipn[b][k] == if e.route == ByIgtk(b, k) then (x.ipn[b][k] + 1) % IPN_WRAP else x.ipn[b][k]
  {
    hide Readable, BumpedPair, NextRsc;
  }

  lemma NextModulo(a: nat, b: nat)
    requires a % IPN_WRAP == b % IPN_WRAP
    ensures (a + 1) % IPN_WRAP == (b + 1) % IPN_WRAP && (a + 1) % IPN_WRAP % IPN_WRAP == (a + 1) % IPN_WRAP
  {
  }

  /** The packet number of an IGTK stands at its start plus the number of frames under that key, modulo 2^64. */
  lemma {:induction false} IpnAfterRun(plan: seq<Event>, x: Snap, b: Bss, k: Index8)
    requires Runs(plan, x) && b in x.ipn
    ensures b in RunTo(plan, x).ipn
    ensures RunTo(plan, x).ipn[b][k] % IPN_WRAP == (x.ipn[b][k] + |FramesBy(plan, ByIgtk(b, k))|) % IPN_WRAP
  {
    hide Takes, Known, Next;
    if plan != [] {
      var init, e := plan[..|plan| - 1], plan[|plan| - 1];
      IpnAfterRun(init, x, b, k);
      SameKnown(e.route, x, RunTo(init, x));
      IpnStep(RunTo(init, x), e, b, k);
      NextModulo(RunTo(init, x).ipn[b][k], x.ipn[b][k] + |FramesBy(init, ByIgtk(b, k))|);
    }
  }

  lemma Modulo48(v: nat)
    ensures v % IPN_WRAP % PN_SPACE == v % PN_SPACE
  {
    assert IPN_WRAP == PN_SPACE * 0x1_0000;
  }

  lemma BipFields(c: Crypto, y: Snap, e: Event, total: nat)
    requires c.Sound() && |e.frame| >= 24 && e.route.ByIgtk? && e.route.b in y.ipn
    requires y.ipn[e.route.b][e.route.i] % IPN_WRAP == total % IPN_WRAP
    ensures var k: Octets := if e.incorrect then seq(|e.key.octets|, _ => 0x11) else e.key.octets;
            var ipn, n := NextIpn(y.ipn[e.route.b], e.route.i)[e.route.i], |e.frame|;
            var sent := Bip.Protected(c.cmac, k, [], e.frame, Bip.LeOctets(e.route.i, 2), Bip.LeOctets(ipn, 6),
                                      if |k| == 32 then 16 else 8);
            && sent[..n] == e.frame && Bip.LeValue(sent[n + 2..n + 4]) == e.route.i
            && Bip.LeValue(sent[n + 4..n + 10]) == (total + 1) % PN_SPACE
  {
    hide Bip.Protected, Bip.LeOctets, Bip.LeValue, Power;
    var k: Octets := if e.incorrect then seq(|e.key.octets|, _ => 0x11) else e.key.octets;
    var ipn := NextIpn(y.ipn[e.route.b], e.route.i)[e.route.i];
    Bip.ElementSent(c.cmac, k, [], e.frame, Bip.LeOctets(e.route.i, 2), Bip.LeOctets(ipn, 6), if |k| == 32 then 16 else 8);
    Bip.LeFieldReads(e.route.i, 2);
    Bip.LeFieldReads(ipn, 6);
    Bip.FieldWidths();
    NextModulo(y.ipn[e.route.b][e.route.i], total);
    Modulo48(total + 1);
  }

  /** On the air, event i on a BIP route carries its key ID, and as packet number the next one after the run so far. */
  lemma BipSentAt(c: Crypto, plan: seq<Event>, x: Snap, i: nat)
    requires c.Sound() && Runs(plan, x) && i < |plan| && plan[i].route.ByIgtk? && !plan[i].plain
    ensures var e, out := plan[i], GivenAt(c, plan, x, i);
            if !e.ok then out == []
            else
              var n, m := |e.frame|, |FramesBy(plan[..i], e.route)|;
              && |out| == 1 && |out[0]| >= n + 10 && out[0][..n] == e.frame
              && Bip.LeValue(out[0][n + 2..n + 4]) == e.route.i
              && Bip.LeValue(out[0][n + 4..n + 10]) == (x.ipn[e.route.b][e.route.i] + m + 1) % PN_SPACE
  {
    hide SentAt, RunTo, FramesBy, Bip.Protected, Bip.LeOctets, Bip.LeValue, Power, NextIpn;
    var e, y := plan[i], RunTo(plan[..i], x);
    SameKnown(e.route, x, y);
    SentKey(c, y, e.route, e.key, e.frame, e.incorrect);
    IpnAfterRun(plan[..i], x, e.route.b, e.route.i);
    BipFields(c, y, e, x.ipn[e.route.b][e.route.i] + |FramesBy(plan[..i], e.route)|);
  }

  /** In any run, two frames under one IGTK carry the same packet number exactly when 2^48 divides their distance. */
  lemma BipRunRepeats(c: Crypto, plan: seq<Event>, x: Snap, i: nat, j: nat)
    requires c.Sound() && Runs(plan, x) && i < j < |plan| && plan[i].route == plan[j].route && plan[i].route.ByIgtk?
    requires !plan[i].plain && !plan[j].plain && plan[i].ok && plan[j].ok
    ensures var route, f, g := plan[i].route, plan[i].frame, plan[j].frame;
            var m, n := |FramesBy(plan[..i], route)|, |FramesBy(plan[..j], route)|;
            var s, t := GivenAt(c, plan, x, i), GivenAt(c, plan, x, j);
            && m < n && |s| == |t| == 1 && |s[0]| >= |f| + 10 && |t[0]| >= |g| + 10
            && (Bip.LeValue(s[0][|f| + 4..|f| + 10]) == Bip.LeValue(t[0][|g| + 4..|g| + 10]) <==> (n - m) % PN_SPACE == 0)
  {
    hide GivenAt, FramesBy, Bip.LeValue, RunTo;
    var route := plan[i].route;
    BipSentAt(c, plan, x, i);
    BipSentAt(c, plan, x, j);
    FramesGrow(plan, i, j);
    var start, m, n := x.ipn[route.b][route.i], |FramesBy(plan[..i], route)|, |FramesBy(plan[..j], route)|;
    ModEqual(start + m + 1, start + n + 1, PN_SPACE);
  }
}
