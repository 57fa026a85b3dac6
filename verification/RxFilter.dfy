/** Received frames: the retransmission filter and power save state of a station. */
module RxFilter {
  import opened Bits
  import opened Frames

  const STYPE_PSPOLL: bv16 := 10

  /** BSSID, station address and direction of a frame, when it concerns one station of a BSS. */
  function Endpoints(f: Octets): Option<(Mac, Mac, bool)>
  {
    if |f| < 16 || f[4] & 0x01 != 0 then None
    else
      var fc := Fc(f);
      if FcType(fc) == TYPE_CTRL then
        if FcStype(fc) == STYPE_PSPOLL then Some((f[4..10], f[10..16], true)) else None
      else if |f| < 24 then None
      else if FcType(fc) == TYPE_MGMT then
        if Addr3(f) == Addr2(f) then Some((Addr3(f), Addr1(f), false))
        else if Addr3(f) == Addr1(f) then Some((Addr3(f), Addr2(f), true))
        else None
      else if FcType(fc) == TYPE_DATA then
        if fc & (TODS | FROMDS) == FROMDS then Some((Addr2(f), Addr1(f), false))
        else if fc & (TODS | FROMDS) == TODS then Some((Addr1(f), Addr2(f), true))
        else None
      else None
  }

  /** A frame of one station: its octets, its direction, and whether decrypting it fails later on. */
  datatype Rx = Rx(f: Octets, toAp: bool, failed: bool)
  {
    ghost predicate Valid()
    {
      Endpoints(f).Some? && Endpoints(f).value.2 == toAp && Fc(f) & 0x0003 == 0
    }
  }

  lemma EndOctets(x0: bv8, x1: bv8)
    ensures var fc := Le16(x0, x1);
            && (FcType(fc) == TYPE_MGMT <==> x0 & 0x0c == 0) && (FcType(fc) == TYPE_DATA <==> x0 & 0x0c == 0x08)
            && (FcType(fc) == TYPE_CTRL <==> x0 & 0x0c == 0x04)
            && (FcType(fc) == TYPE_CTRL && FcStype(fc) == STYPE_PSPOLL <==> x0 & 0xfc == 0xa4)
            && (fc & (TODS | FROMDS) == FROMDS <==> x1 & 0x03 == 0x02) && (fc & (TODS | FROMDS) == TODS <==> x1 & 0x03 == 0x01)
            && (fc & 0x0003 == 0 <==> x0 & 0x03 == 0)
  {
  }

  /** rx_get_sta, up to its lookups: the BSSID and station address it looks for, and the direction. */
  method GetEnds(f: Octets) returns (r: Option<(Mac, Mac, bool)>)
    requires |f| >= 5
    ensures r == Endpoints(f)
  {
    hide FcType, FcStype, Le16;
    EndOctets(f[0], f[1]);
    if f[4] & 0x01 != 0 {
      return None;
    }
    if f[0] & 0x0c == 0 {
      if |f| < 24 {
        return None;
      }
      if f[16..22] == f[10..16] {
        return Some((f[16..22], f[4..10], false));
      }
      if f[16..22] != f[4..10] {
        return None;
      }
      return Some((f[16..22], f[10..16], true));
    } else if f[0] & 0x0c == 0x08 {
      if |f| < 24 {
        return None;
      }
      if f[1] & 0x03 == 0x02 {
        return Some((f[10..16], f[4..10], false));
      }
      if f[1] & 0x03 == 0x01 {
        return Some((f[4..10], f[10..16], true));
      }
      return None;
    } else if f[0] & 0xfc == 0xa4 && |f| >= 16 {
      return Some((f[4..10], f[10..16], true));
    }
    return None;
  }

  predicate PsPoll(f: Octets)
    requires |f| >= 2
  {
    FcType(Fc(f)) == TYPE_CTRL
  }

  predicate Retry(f: Octets)
    requires |f| >= 2
  {
    Fc(f) & RETRY != 0
  }

  function SeqCtrl(f: Octets): bv16
    requires |f| >= 24
  {
    Le16(f[22], f[23])
  }

  /** Which sequence number slot a data or management frame uses. */
  datatype Slot = Slot(toAp: bool, tid: nat)

  function TidOf(f: Octets): (t: nat)
    requires |f| >= 24
    ensures t <= 16
  {
    if QosData(Fc(f)) && |f| >= 26 then NibbleRange(f[24]); (f[24] & 0x0f) as nat else 16
  }

  function SlotOf(r: Rx): (s: Slot)
    requires |r.f| >= 24
    ensures s.tid <= 16
  {
    Slot(r.toAp, TidOf(r.f))
  }

  type Slots = s: seq<bv16> | |s| == 17 witness seq(17, _ => 0xffff)

  const INITIAL: bv16 := 0xffff

  datatype State = State(toSta: Slots, toAp: Slots, allowDuplicate: bool, pwrmgt: bool, pspoll: bool)

  const FRESH := State(seq(17, _ => INITIAL), seq(17, _ => INITIAL), false, false, false)

  function At(st: State, s: Slot): bv16
    requires s.tid <= 16
  {
    if s.toAp then st.toAp[s.tid] else st.toSta[s.tid]
  }

  function Noted(st: State, s: Slot, v: bv16): (r: State)
    requires s.tid <= 16
    ensures forall t: Slot | t.tid <= 16 :: At(r, t) == if t == s then v else At(st, t)
    ensures r.allowDuplicate == st.allowDuplicate && r.pwrmgt == st.pwrmgt && r.pspoll == st.pspoll
  {
    if s.toAp then st.(toAp := st.toAp[s.tid := v]) else st.(toSta := st.toSta[s.tid := v])
  }

  predicate Drops(st: State, r: Rx)
    requires |r.f| >= 24
  {
    Retry(r.f) && SeqCtrl(r.f) == At(st, SlotOf(r)) && !st.allowDuplicate
  }

  /** rx_update_ps. */
  function PowerSaved(st: State, r: Rx): State
    requires |r.f| >= 2
  {
    if !r.toAp then
      if st.pwrmgt && !st.pspoll then st else st.(pspoll := false)
    else
      st.(pwrmgt := Fc(r.f) & PWRMGT != 0, pspoll := PsPoll(r.f))
  }

  /** rx_frame for the station's frames. */
  function Step(st: State, r: Rx): State
    requires r.Valid()
  {
    if PsPoll(r.f) then PowerSaved(st, r)
    else if Drops(st, r) then st
    else PowerSaved(Noted(st, SlotOf(r), SeqCtrl(r.f)), r).(allowDuplicate := r.failed)
  }

  predicate Accepted(st: State, r: Rx)
    requires r.Valid()
  {
    PsPoll(r.f) || !Drops(st, r)
  }

  lemma KindOf(r: Rx)
    requires r.Valid()
    ensures |r.f| >= 16 && (!PsPoll(r.f) ==> |r.f| >= 24) && (PsPoll(r.f) ==> r.toAp)
  {
  }

  lemma KindOctets(x0: bv8, x1: bv8)
    ensures QosData(Le16(x0, x1)) <==> x0 & 0x8c == 0x88
    ensures FcType(Le16(x0, x1)) == TYPE_CTRL <==> x0 & 0x0c == 0x04
    ensures Le16(x0, x1) & RETRY != 0 <==> x1 & 0x08 != 0
    ensures Le16(x0, x1) & PWRMGT != 0 <==> x1 & 0x10 != 0
  {
  }

  /** The TID of a QoS data frame, and 16 for all others. */
  method FrameTid(f: Octets) returns (tid: nat)
    requires |f| >= 24
    ensures tid == TidOf(f)
  {
    hide QosData, Le16;
    KindOctets(f[0], f[1]);
    tid := 16;
    if f[0] & 0x8c == 0x88 && |f| >= 26 {
      NibbleRange(f[24]);
      tid := (f[24] & 0x0f) as nat;
    }
  }

  class Station {
    var seqToSta: Slots
    var seqToAp: Slots
    var allowDuplicate: bool
    var pwrmgt: bool
    var pspoll: bool

    ghost function Value(): State
      reads this
    {
      State(seqToSta, seqToAp, allowDuplicate, pwrmgt, pspoll)
    }

    /** As sta_get makes it, with 0xff octets in every slot. */
    constructor ()
      ensures Value() == FRESH
    {
      seqToSta, seqToAp := seq(17, _ => INITIAL), seq(17, _ => INITIAL);
      allowDuplicate, pwrmgt, pspoll := false, false, false;
    }

    /** rx_duplicate. */
    method Duplicate(r: Rx) returns (dup: bool)
      requires |r.f| >= 24
      modifies this`seqToSta, this`seqToAp, this`allowDuplicate
      ensures dup <==> old(Drops(Value(), r))
      ensures dup ==> Value() == old(Value())
      ensures !dup ==> Value() == Noted(old(Value()), SlotOf(r), SeqCtrl(r.f)).(allowDuplicate := false)
    {
      var tid := FrameTid(r.f);
      var last := if r.toAp then seqToAp[tid] else seqToSta[tid];
      if Retry(r.f) && SeqCtrl(r.f) == last && !allowDuplicate {
        return true;
      }
      if r.toAp {
        seqToAp := seqToAp[tid := SeqCtrl(r.f)];
      } else {
        seqToSta := seqToSta[tid := SeqCtrl(r.f)];
      }
      allowDuplicate := false;
      return false;
    }

    /** rx_update_ps. */
    method UpdatePs(r: Rx)
      requires r.Valid()
      modifies this`pwrmgt, this`pspoll
      ensures Value() == PowerSaved(old(Value()), r)
    {
      hide Endpoints;
      KindOf(r);
      if !r.toAp {
        if !(pwrmgt && !pspoll) {
          pspoll := false;
        }
        return;
      }
      pspoll := false;
      var fc := Fc(r.f);
      if pwrmgt && fc & PWRMGT == 0 {
        pwrmgt := false;
      } else if !pwrmgt && fc & PWRMGT != 0 {
        pwrmgt := true;
      }
      if PsPoll(r.f) {
        pspoll := true;
      }
    }

    /** rx_frame; the handler of an accepted frame sets allow_duplicate when it cannot decrypt. */
    method RxFrame(r: Rx) returns (accepted: bool)
      requires r.Valid()
      modifies this
      ensures Value() == Step(old(Value()), r) && accepted == Accepted(old(Value()), r)
    {
      hide Endpoints, Noted;
      KindOf(r);
      if PsPoll(r.f) {
        UpdatePs(r);
        return true;
      }
      var dup := Duplicate(r);
      if dup {
        return false;
      }
      UpdatePs(r);
      if r.failed {
        allowDuplicate := true;
      }
      return true;
    }
  }

  // Runs against the history ------------------------------------------------------------------

  ghost predicate AllValid(rs: seq<Rx>)
  {
    forall i | 0 <= i < |rs| :: rs[i].Valid()
  }

  ghost function Final(st: State, rs: seq<Rx>): State
    requires AllValid(rs)
  {
    if rs == [] then st else Step(Final(st, rs[..|rs| - 1]), rs[|rs| - 1])
  }

  /** The frames of a run that are passed on. */
  ghost function Passed(st: State, rs: seq<Rx>): (ps: seq<Rx>)
    requires AllValid(rs)
    ensures AllValid(ps)
  {
    if rs == [] then []
    else
      var init := rs[..|rs| - 1];
      Passed(st, init) + if Accepted(Final(st, init), rs[|rs| - 1]) then [rs[|rs| - 1]] else []
  }

  /** The last sequence control field passed on in a slot; all ones when there is none. */
  ghost function LastSeq(ps: seq<Rx>, s: Slot): bv16
    requires AllValid(ps)
  {
    if ps == [] then INITIAL
    else
      var r := ps[|ps| - 1];
      KindOf(r);
      if !PsPoll(r.f) && SlotOf(r) == s then SeqCtrl(r.f) else LastSeq(ps[..|ps| - 1], s)
  }

  /** Whether decrypting the last data or management frame passed on failed. */
  ghost predicate LastFailed(ps: seq<Rx>)
    requires AllValid(ps)
  {
    ps != [] &&
    var r := ps[|ps| - 1];
    KindOf(r);
    if PsPoll(r.f) then LastFailed(ps[..|ps| - 1]) else r.failed
  }

  /** The Power Management bit of the last frame passed on from the station. */
  ghost predicate LastPm(ps: seq<Rx>)
    requires AllValid(ps)
  {
    ps != [] &&
    var r := ps[|ps| - 1];
    KindOf(r);
    if r.toAp then Fc(r.f) & PWRMGT != 0 else LastPm(ps[..|ps| - 1])
  }

  ghost predicate LastIsPoll(ps: seq<Rx>)
    requires AllValid(ps)
  {
    ps != [] && (KindOf(ps[|ps| - 1]); PsPoll(ps[|ps| - 1].f))
  }

  /** The state says about the frames passed on what the filter and the power save tracking need. */
  ghost predicate Reflects(st: State, ps: seq<Rx>)
    requires AllValid(ps)
  {
    && (forall s: Slot | s.tid <= 16 :: At(st, s) == LastSeq(ps, s))
    && st.allowDuplicate == LastFailed(ps) && st.pwrmgt == LastPm(ps) && st.pspoll == LastIsPoll(ps)
  }

  lemma SlotStep(st: State, ps: seq<Rx>, r: Rx, s: Slot)
    requires AllValid(ps) && r.Valid() && Accepted(st, r) && s.tid <= 16 && At(st, s) == LastSeq(ps, s)
    ensures At(Step(st, r), s) == LastSeq(ps + [r], s)
  {
    hide Endpoints, Noted, SlotOf, SeqCtrl, PsPoll, Drops;
    KindOf(r);
    var qs := ps + [r];
    assert qs[..|qs| - 1] == ps && qs[|qs| - 1] == r;
  }

  lemma FlagsStep(st: State, ps: seq<Rx>, r: Rx)
    requires AllValid(ps) && r.Valid() && Accepted(st, r)
    requires st.allowDuplicate == LastFailed(ps) && st.pwrmgt == LastPm(ps) && st.pspoll == LastIsPoll(ps)
    ensures var t, qs := Step(st, r), ps + [r];
            t.allowDuplicate == LastFailed(qs) && t.pwrmgt == LastPm(qs) && t.pspoll == LastIsPoll(qs)
  {
    hide Endpoints, Noted, SlotOf, SeqCtrl, Drops;
    KindOf(r);
    var qs := ps + [r];
    assert qs[..|qs| - 1] == ps && qs[|qs| - 1] == r;
  }

  lemma ReflectsStep(st: State, ps: seq<Rx>, r: Rx)
    requires AllValid(ps) && Reflects(st, ps) && r.Valid() && Accepted(st, r)
    ensures Reflects(Step(st, r), ps + [r])
  {
    hide Step, Accepted, At, LastSeq, LastFailed, LastPm, LastIsPoll;
    FlagsStep(st, ps, r);
    forall s: Slot | s.tid <= 16
      ensures At(Step(st, r), s) == LastSeq(ps + [r], s)
    {
      SlotStep(st, ps, r, s);
    }
  }

  lemma FreshReflects()
    ensures Reflects(FRESH, [])
  {
  }

  lemma DroppedIsIdle(st: State, r: Rx)
    requires r.Valid() && !Accepted(st, r)
    ensures Step(st, r) == st
  {
    hide Endpoints;
    KindOf(r);
  }

  /** After every run of a new entry, the state is a function of the frames passed on. */
  lemma {:induction false} StateReflectsHistory(rs: seq<Rx>)
    requires AllValid(rs)
    ensures Reflects(Final(FRESH, rs), Passed(FRESH, rs))
  {
    hide Step, Accepted, Reflects;
    if rs == [] {
      FreshReflects();
    } else {
      var init, r := rs[..|rs| - 1], rs[|rs| - 1];
      StateReflectsHistory(init);
      if Accepted(Final(FRESH, init), r) {
        ReflectsStep(Final(FRESH, init), Passed(FRESH, init), r);
      } else {
        DroppedIsIdle(Final(FRESH, init), r);
        assert Passed(FRESH, rs) == Passed(FRESH, init);
      }
    }
  }

  /**
   * A frame is dropped exactly when it is a Retry of the last frame passed on in its slot (or carries the
   * initial all-ones value there), and the last frame passed on did not fail to decrypt.
   */
  lemma DroppedExactly(rs: seq<Rx>, r: Rx)
    requires AllValid(rs) && r.Valid()
    ensures !Accepted(Final(FRESH, rs), r) <==>
              (KindOf(r); var ps := Passed(FRESH, rs);
              !PsPoll(r.f) && Retry(r.f) && SeqCtrl(r.f) == LastSeq(ps, SlotOf(r)) && !LastFailed(ps))
  {
    hide Endpoints, SlotOf, SeqCtrl, Final, Passed, LastSeq, LastFailed, LastPm, LastIsPoll;
    KindOf(r);
    StateReflectsHistory(rs);
  }

  lemma ValidOctets(r: Rx)
    ensures r.Valid() <==> Endpoints(r.f).Some? && Endpoints(r.f).value.2 == r.toAp && r.f[0] & 0x03 == 0
  {
    if |r.f| >= 2 {
      EndOctets(r.f[0], r.f[1]);
    }
  }

  // The filter on octets --------------------------------------------------------------------------

  predicate WithTid(f: Octets)
  {
    |f| >= 26 && f[0] & 0x8c == 0x88
  }

  /** Same direction, and both without a TID or with the same one. */
  predicate Alike(a: Rx, b: Rx)
  {
    && a.toAp == b.toAp && WithTid(a.f) == WithTid(b.f)
    && (WithTid(a.f) && WithTid(b.f) ==> a.f[24] & 0x0f == b.f[24] & 0x0f)
  }

  lemma NibbleInjective(x: bv8, y: bv8)
    requires (x & 0x0f) as nat == (y & 0x0f) as nat
    ensures x & 0x0f == y & 0x0f
  {
    OfValue(x & 0x0f);
    OfValue(y & 0x0f);
  }

  lemma TidOctets(f: Octets)
    requires |f| >= 24
    ensures if WithTid(f) then TidOf(f) == (f[24] & 0x0f) as nat < 16 else TidOf(f) == 16
  {
    hide QosData, Le16;
    KindOctets(f[0], f[1]);
    if WithTid(f) {
      NibbleRange(f[24]);
    }
  }

  /** Slots are told apart by direction and TID, and frames without a TID have one of their own. */
  lemma SlotsExactly(a: Rx, b: Rx)
    requires |a.f| >= 24 && |b.f| >= 24
    ensures SlotOf(a) == SlotOf(b) <==> Alike(a, b)
  {
    hide TidOf;
    TidOctets(a.f);
    TidOctets(b.f);
    if WithTid(a.f) && WithTid(b.f) && SlotOf(a) == SlotOf(b) {
      NibbleInjective(a.f[24], b.f[24]);
    }
  }

  /** The sequence control octets of the last frame like r, or the initial ones. */
  ghost function LastLike(ps: seq<Rx>, r: Rx): Octets
    requires AllValid(ps)
  {
    if ps == [] then [0xff, 0xff]
    else
      var p := ps[|ps| - 1];
      KindOf(p);
      if p.f[0] & 0x0c != 0x04 && Alike(p, r) then p.f[22..24] else LastLike(ps[..|ps| - 1], r)
  }

  lemma Le16Injective(a: bv8, b: bv8, c: bv8, d: bv8)
    ensures Le16(a, b) == Le16(c, d) <==> a == c && b == d
  {
  }

  lemma SeqOctets(f: Octets, lo: bv8, hi: bv8)
    requires |f| >= 24
    ensures SeqCtrl(f) == Le16(lo, hi) <==> f[22..24] == [lo, hi]
    ensures Le16(0xff, 0xff) == INITIAL
  {
    Le16Injective(f[22], f[23], lo, hi);
    assert f[22..24] == [f[22], f[23]];
  }

  lemma {:induction false} LastSeqOctets(ps: seq<Rx>, r: Rx)
    requires AllValid(ps) && |r.f| >= 24
    ensures |LastLike(ps, r)| == 2 && LastSeq(ps, SlotOf(r)) == Le16(LastLike(ps, r)[0], LastLike(ps, r)[1])
  {
    hide Endpoints, SlotOf, Le16, Alike;
    if ps == [] {
      SeqOctets(r.f, 0xff, 0xff);
    } else {
      var p := ps[|ps| - 1];
      KindOf(p);
      KindOctets(p.f[0], p.f[1]);
      LastSeqOctets(ps[..|ps| - 1], r);
      if p.f[0] & 0x0c != 0x04 {
        SlotsExactly(p, r);
      }
    }
  }

  /**
   * On the octets: a frame is dropped exactly when it is no PS-Poll, has Retry set, repeats the sequence control octets
   * of the last frame passed on with its direction and TID, and the last frame passed on did not fail to decrypt.
   */
  lemma DroppedOnOctets(rs: seq<Rx>, r: Rx)
    requires AllValid(rs) && r.Valid()
    ensures !Accepted(Final(FRESH, rs), r) <==>
              (KindOf(r); var ps := Passed(FRESH, rs);
              r.f[0] & 0x0c != 0x04 && r.f[1] & 0x08 != 0 && r.f[22..24] == LastLike(ps, r) && !LastFailed(ps))
  {
    hide Endpoints, SlotOf, SeqCtrl, Final, Passed, LastSeq, LastFailed, LastLike, Le16, Accepted;
    KindOf(r);
    KindOctets(r.f[0], r.f[1]);
    DroppedExactly(rs, r);
    var ps := Passed(FRESH, rs);
    if r.f[0] & 0x0c != 0x04 {
      LastSeqOctets(ps, r);
      var l := LastLike(ps, r);
      SeqOctets(r.f, l[0], l[1]);
      assert l == [l[0], l[1]];
    }
  }

  lemma {:induction false} NoneLike(ps: seq<Rx>, r: Rx)
    requires AllValid(ps) && forall p | p in ps :: !Alike(p, r)
    ensures LastLike(ps, r) == [0xff, 0xff]
  {
    hide Alike, Endpoints;
    if ps != [] {
      NoneLike(ps[..|ps| - 1], r);
    }
  }

  /** A frame that is the first passed on with its direction and TID is passed on, a retransmission or not. */
  lemma FirstOfItsTid(rs: seq<Rx>, r: Rx)
    requires AllValid(rs) && r.Valid() && (forall p | p in Passed(FRESH, rs) :: !Alike(p, r))
    requires |r.f| >= 24 ==> r.f[22..24] != [0xff, 0xff]
    ensures Accepted(Final(FRESH, rs), r)
  {
    hide Accepted, Final, Passed, Alike, LastLike, LastFailed, Endpoints;
    KindOf(r);
    DroppedOnOctets(rs, r);
    NoneLike(Passed(FRESH, rs), r);
  }

  // Retransmissions leave no trace ------------------------------------------------------------

  /** A retransmission of f. */
  ghost predicate CopyOf(f: Rx, c: Rx)
    requires f.Valid() && c.Valid()
  {
    KindOf(f); KindOf(c);
    !PsPoll(f.f) && !PsPoll(c.f) && Retry(c.f) && SlotOf(c) == SlotOf(f) && SeqCtrl(c.f) == SeqCtrl(f.f)
  }

  /** A frame of another slot that decrypts, or a PS-Poll. */
  ghost predicate Elsewhere(f: Rx, o: Rx)
    requires f.Valid() && o.Valid()
  {
    KindOf(f); KindOf(o);
    PsPoll(o.f) || (!PsPoll(f.f) && SlotOf(o) != SlotOf(f) && !o.failed)
  }

  /** mixed is others, in order, with any number of copies of f put in anywhere. */
  ghost predicate Interleaved(f: Rx, others: seq<Rx>, mixed: seq<Rx>)
    requires f.Valid() && AllValid(others) && AllValid(mixed)
    decreases |mixed|
  {
    if mixed == [] then others == []
    else if others != [] && mixed[|mixed| - 1] == others[|others| - 1]
            && Interleaved(f, others[..|others| - 1], mixed[..|mixed| - 1])
    then Elsewhere(f, others[|others| - 1])
    else CopyOf(f, mixed[|mixed| - 1]) && Interleaved(f, others, mixed[..|mixed| - 1])
  }

  /** The state holds f in its slot and filters. */
  ghost predicate Guards(st: State, f: Rx)
    requires f.Valid()
  {
    KindOf(f);
    !PsPoll(f.f) && At(st, SlotOf(f)) == SeqCtrl(f.f) && !st.allowDuplicate
  }

  lemma GuardsKept(st: State, f: Rx, o: Rx)
    requires f.Valid() && o.Valid() && Guards(st, f) && Elsewhere(f, o)
    ensures Guards(Step(st, o), f)
  {
    hide Endpoints, Noted, SlotOf, SeqCtrl;
    KindOf(f);
    KindOf(o);
  }

  lemma CopyDropped(st: State, f: Rx, c: Rx)
    requires f.Valid() && c.Valid() && Guards(st, f) && CopyOf(f, c)
    ensures Step(st, c) == st && !Accepted(st, c)
  {
    hide Endpoints, Noted, SlotOf, SeqCtrl;
    KindOf(f);
    KindOf(c);
  }

  lemma {:induction false} CopiesVanish(st: State, f: Rx, others: seq<Rx>, mixed: seq<Rx>)
    requires f.Valid() && AllValid(others) && AllValid(mixed) && Guards(st, f) && Interleaved(f, others, mixed)
    ensures Final(st, mixed) == Final(st, others) && Passed(st, mixed) == Passed(st, others)
    ensures Guards(Final(st, others), f)
    decreases |mixed|
  {
    hide Step, Accepted, Guards, Elsewhere, CopyOf;
    if mixed != [] {
      var init, last := mixed[..|mixed| - 1], mixed[|mixed| - 1];
      if others != [] && last == others[|others| - 1] && Interleaved(f, others[..|others| - 1], init) {
        CopiesVanish(st, f, others[..|others| - 1], init);
        GuardsKept(Final(st, others[..|others| - 1]), f, last);
      } else {
        CopiesVanish(st, f, others, init);
        CopyDropped(Final(st, init), f, last);
      }
    }
  }

  lemma RunStart(st: State)
    ensures Final(st, []) == st && Passed(st, []) == []
  {
  }

  lemma RunStep(st: State, rs: seq<Rx>)
    requires AllValid(rs) && rs != []
    ensures var init, r := rs[..|rs| - 1], rs[|rs| - 1];
            && Final(st, rs) == Step(Final(st, init), r)
            && Passed(st, rs) == Passed(st, init) + if Accepted(Final(st, init), r) then [r] else []
  {
    hide Step, Accepted;
  }

  lemma {:induction false} FinalAppend(st: State, a: seq<Rx>, b: seq<Rx>)
    requires AllValid(a) && AllValid(b)
    ensures AllValid(a + b) && Final(st, a + b) == Final(Final(st, a), b)
    ensures Passed(st, a + b) == Passed(st, a) + Passed(Final(st, a), b)
  {
    hide Step, Accepted, Final, Passed;
    assert forall i | 0 <= i < |a + b| :: (a + b)[i] == if i < |a| then a[i] else b[i - |a|];
    if b == [] {
      assert a + b == a;
      RunStart(Final(st, a));
      assert Passed(st, a) + [] == Passed(st, a);
    } else {
      var init, r := b[..|b| - 1], b[|b| - 1];
      FinalAppend(st, a, init);
      assert (a + b)[..|a + b| - 1] == a + init;
      RunStep(st, a + b);
      RunStep(Final(st, a), b);
    }
  }

  lemma StepGuards(st: State, f: Rx)
    requires f.Valid() && !f.failed && !(KindOf(f); PsPoll(f.f)) && Accepted(st, f)
    ensures Guards(Step(st, f), f)
  {
    hide Endpoints, Noted, SlotOf, SeqCtrl;
    KindOf(f);
  }

  /**
   * After a frame that is passed on and decrypts, copies of it in any number and place among frames of
   * other slots change neither the frames passed on nor the state, for whatever comes before and after.
   */
  lemma RetransmissionsVanish(before: seq<Rx>, f: Rx, others: seq<Rx>, mixed: seq<Rx>, after: seq<Rx>)
    requires AllValid(before) && AllValid(others) && AllValid(mixed) && AllValid(after)
    requires f.Valid() && !f.failed && !(KindOf(f); PsPoll(f.f)) && Accepted(Final(FRESH, before), f)
    requires Interleaved(f, others, mixed)
    ensures AllValid(before + [f] + mixed + after) && AllValid(before + [f] + others + after)
    ensures Final(FRESH, before + [f] + mixed + after) == Final(FRESH, before + [f] + others + after)
    ensures Passed(FRESH, before + [f] + mixed + after) == Passed(FRESH, before + [f] + others + after)
  {
    hide Accepted, Guards, Interleaved, Passed;
    var head := before + [f];
    FinalAppend(FRESH, before, [f]);
    var st := Final(FRESH, head);
    StepGuards(Final(FRESH, before), f);
    assert [f][..0] == [];
    assert st == Step(Final(FRESH, before), f);
    CopiesVanish(st, f, others, mixed);
    FinalAppend(FRESH, head, mixed);
    FinalAppend(FRESH, head, others);
    FinalAppend(FRESH, head + mixed, after);
    FinalAppend(FRESH, head + others, after);
  }
}
