/** The security fields that a BSS entry derives from its stored WPA and RSN elements. */
module BssCache {
  import opened Bits
  import opened Frames
  import opened Tracking

  /** Cipher, key management and capability masks, as sets of bit numbers. */
  type Mask = set<nat>

  const PROTO_RSN: nat := 1
  const CAPAB_MFPC: nat := 7
  const CIPHER_WEP40: nat := 1
  const CAPAB_PRIVACY: nat := 4

  /** What parsing an element yields. */
  datatype IeData = IeData(proto: Mask, pairwise: Mask, group: Mask, keyMgmt: Mask, capab: Mask, mgmtGroup: Mask)

  datatype Parsers = Parsers(wpa: Octets -> Option<IeData>, rsn: Octets -> Option<IeData>)

  /** A stored element: 257 octets, with 0 in the first one when there is none. */
  type Stored = s: Octets | |s| == 257 witness seq(257, _ => 0)

  /** An element as received: identifier, length, and that many octets. */
  predicate Element(e: Octets)
  {
    2 <= |e| <= 257 && e[0] != 0 && |e| == 2 + e[1] as nat
  }

  lemma LengthOctet(x: bv8)
    ensures x as nat <= 255
  {
  }

  /** The element a buffer holds. */
  function Held(s: Stored): (r: Octets)
    ensures |r| <= 257
  {
    LengthOctet(s[1]);
    s[..2 + s[1] as nat]
  }

  datatype Derived = Derived(proto: Mask, pairwise: Mask, group: Mask, keyMgmt: Mask, rsnCapab: Mask, mgmtGroup: Mask)

  const NOTHING := Derived({}, {}, {}, {}, {}, {})

  function WithElement(d: Derived, e: Option<IeData>): Derived
  {
    if e.None? then d
    else Derived(d.proto + e.value.proto, d.pairwise + e.value.pairwise, d.group + e.value.group,
                 d.keyMgmt + e.value.keyMgmt, e.value.capab, d.mgmtGroup + e.value.mgmtGroup)
  }

  /** What a stored element parses to, if there is one and it parses. */
  function Read(parse: Octets -> Option<IeData>, s: Stored): Option<IeData>
  {
    if s[0] == 0 then None else parse(Held(s))
  }

  /** The derived fields from the parsed elements; none tells that neither is stored. */
  function Combined(w: Option<IeData>, r: Option<IeData>, none: bool, capab: Mask): Derived
  {
    var b := WithElement(WithElement(NOTHING, w), r);
    var c := if PROTO_RSN in b.proto && CAPAB_MFPC in b.rsnCapab then b else b.(mgmtGroup := {});
    if none && CAPAB_PRIVACY in capab then c.(group := {CIPHER_WEP40}) else c
  }

  /** The six derived fields as one function of the stored elements and the capabilities. */
  function Derive(p: Parsers, wpaie: Stored, rsnie: Stored, capab: Mask): Derived
  {
    Combined(Read(p.wpa, wpaie), Read(p.rsn, rsnie), wpaie[0] == 0 && rsnie[0] == 0, capab)
  }

  /** The element fields of a frame that the update reads. */
  datatype Elems = Elems(ssid: Option<Octets>, rsn: Option<Octets>, wpa: Option<Octets>, s1gCapab: bool, mle: Option<Octets>)

  predicate WellFormed(e: Elems)
  {
    && (e.rsn.Some? ==> Element(e.rsn.value))
    && (e.wpa.Some? ==> Element(e.wpa.value))
  }

  datatype FrameKind = OtherFrame | Beacon | ProbeResp

  /** The tracked part of a BSS entry, as a value. */
  datatype Entry = Entry(capab: Mask, prevCapab: Mask, ssid: Octets, wpaie: Stored, rsnie: Stored, derived: Derived,
                         mldAddr: Mac, linkId: Option<nat>, parseError: bool)

  const EMPTY: Stored := seq(257, _ => 0)

  /** A new entry, all zeros. */
  const FRESH := Entry({}, {}, [], EMPTY, EMPTY, NOTHING, ZERO_MAC, None, false)

  predicate BadSsid(e: Elems, kind: FrameKind)
  {
    kind != OtherFrame && (e.ssid.None? || |e.ssid.value| > 32)
  }

  /** A stored element after a frame: overwritten, cleared, or kept. */
  function Restored(s: Stored, e: Option<Octets>, keepMissing: bool): Stored
    requires e.Some? ==> Element(e.value)
  {
    if e.Some? then Overlay(s, 0, e.value)
    else if keepMissing then s
    else s[0 := 0]
  }

  /** The AP MLD address, learned once. */
  function LearnedMld(known: Mac, mle: Option<Octets>): Mac
  {
    if known == ZERO_MAC && mle.Some? && |mle.value| >= 9 && mle.value[2] as nat >= 7 then mle.value[3..9] else known
  }

  /** The AP MLD link ID, learned once, when the element says it is present. */
  function LearnedLink(known: Option<nat>, mle: Option<Octets>): Option<nat>
  {
    if known.None? && mle.Some? && |mle.value| >= 10 && mle.value[2] as nat >= 8 && mle.value[0] & 0x10 != 0
       && (mle.value[9] & 0x0f) as nat < MAX_MLD_LINKS
    then Some((mle.value[9] & 0x0f) as nat) else known
  }

  /** Whether a frame changes a stored element. */
  predicate Changes(s: Stored, e: Option<Octets>, keepMissing: bool)
    requires e.Some? ==> Element(e.value)
  {
    if e.Some? then s[0] == 0 || s[..|e.value|] != e.value else !keepMissing && s[0] != 0
  }

  lemma UnchangedKept(s: Stored, e: Option<Octets>, keepMissing: bool)
    requires (e.Some? ==> Element(e.value)) && !Changes(s, e, keepMissing)
    ensures Restored(s, e, keepMissing) == s
  {
  }

  /** What an accepted frame does to everything but the derived fields. */
  function StoredFrom(x: Entry, e: Elems, kind: FrameKind): Entry
    requires WellFormed(e) && !BadSsid(e, kind)
  {
    x.(ssid := if kind == OtherFrame then x.ssid else e.ssid.value,
       wpaie := Restored(x.wpaie, e.wpa, false),
       rsnie := Restored(x.rsnie, e.rsn, e.s1gCapab && kind == Beacon),
       mldAddr := LearnedMld(x.mldAddr, e.mle), linkId := LearnedLink(x.linkId, e.mle))
  }

  /** Derived fields computed again from what is stored. */
  function Reparsed(p: Parsers, x: Entry): Entry
  {
    x.(prevCapab := x.capab, derived := Derive(p, x.wpaie, x.rsnie, x.capab))
  }

  /** bss_update: the derived fields are computed again only when an element or the capabilities changed. */
  function Updated(p: Parsers, x: Entry, e: Elems, kind: FrameKind): Entry
    requires WellFormed(e)
  {
    if BadSsid(e, kind) then x.(parseError := true)
    else if || x.capab != x.prevCapab || Changes(x.rsnie, e.rsn, e.s1gCapab && kind == Beacon)
            || Changes(x.wpaie, e.wpa, false)
    then Reparsed(p, StoredFrom(x, e, kind))
    else StoredFrom(x, e, kind)
  }

  /** The simple form: everything computed again for every frame. */
  function Recomputed(p: Parsers, x: Entry, e: Elems, kind: FrameKind): Entry
    requires WellFormed(e)
  {
    if BadSsid(e, kind) then x.(parseError := true) else Reparsed(p, StoredFrom(x, e, kind))
  }

  ghost predicate Consistent(p: Parsers, x: Entry)
  {
    x.derived == Derive(p, x.wpaie, x.rsnie, x.prevCapab)
  }

  /** From a consistent entry, computing again only on a change gives what always computing again would. */
  lemma UpdatedIsRecomputed(p: Parsers, x: Entry, e: Elems, kind: FrameKind)
    requires WellFormed(e) && Consistent(p, x)
    ensures Updated(p, x, e, kind) == Recomputed(p, x, e, kind)
  {
    hide Derive, Restored, LearnedMld, LearnedLink, Element, Changes;
    if !Changes(x.rsnie, e.rsn, e.s1gCapab && kind == Beacon) {
      UnchangedKept(x.rsnie, e.rsn, e.s1gCapab && kind == Beacon);
    }
    if !Changes(x.wpaie, e.wpa, false) {
      UnchangedKept(x.wpaie, e.wpa, false);
    }
  }

  /** The entry's fields, updated in place. */
  class Record {
    var capab: Mask
    var prevCapab: Mask
    var ssid: Octets
    var wpaie: Stored
    var rsnie: Stored
    var derived: Derived
    var mldAddr: Mac
    var linkId: Option<nat>
    var parseError: bool

    ghost function Value(): Entry
      reads this
    {
      Entry(capab, prevCapab, ssid, wpaie, rsnie, derived, mldAddr, linkId, parseError)
    }

    constructor ()
      ensures Value() == FRESH
    {
      capab, prevCapab, ssid, wpaie, rsnie, derived := {}, {}, [], EMPTY, EMPTY, NOTHING;
      mldAddr, linkId, parseError := ZERO_MAC, None, false;
    }

    /** One stored element: overwritten and compared, or cleared when it has gone. */
    method StoreElement(s: Stored, e: Option<Octets>, keepMissing: bool) returns (r: Stored, update: bool)
      requires e.Some? ==> Element(e.value)
      ensures r == Restored(s, e, keepMissing)
      ensures update == Changes(s, e, keepMissing)
    {
      r, update := s, false;
      if e.None? && !keepMissing {
        if s[0] != 0 {
          r := s[0 := 0];
          update := true;
        }
      } else if e.Some? {
        if s[0] == 0 || s[..|e.value|] != e.value {
          update := true;
        }
        r := Overlay(s, 0, e.value);
      }
    }

    /** The re-parse at the end of an update. */
    method Reparse(p: Parsers)
      modifies this`derived, this`prevCapab
      ensures prevCapab == capab && derived == Derive(p, wpaie, rsnie, capab)
    {
      prevCapab := capab;
      derived := NOTHING;
      if wpaie[0] != 0 {
        var data := p.wpa(Held(wpaie));
        if data.Some? {
          derived := WithElement(derived, data);
        }
      }
      if rsnie[0] != 0 {
        var data := p.rsn(Held(rsnie));
        if data.Some? {
          derived := WithElement(derived, data);
        }
      }
      if !(PROTO_RSN in derived.proto) || !(CAPAB_MFPC in derived.rsnCapab) {
        derived := derived.(mgmtGroup := {});
      }
      if wpaie[0] == 0 && rsnie[0] == 0 && CAPAB_PRIVACY in capab {
        derived := derived.(group := {CIPHER_WEP40});
      }
    }

    /** The AP MLD address and link ID from a Basic Multi-Link element, if they are not known yet. */
    method LearnIdentity(mle: Option<Octets>)
      modifies this`mldAddr, this`linkId
      ensures mldAddr == LearnedMld(old(mldAddr), mle) && linkId == LearnedLink(old(linkId), mle)
    {
      if mldAddr == [0, 0, 0, 0, 0, 0] && mle.Some? && |mle.value| >= 2 + 1 + 6 && mle.value[2] as nat >= 1 + 6 {
        mldAddr := mle.value[3..9];
      }
      if linkId.None? && mle.Some? && |mle.value| >= 2 + 1 + 6 + 1 && mle.value[2] as nat >= 1 + 6 + 1
         && mle.value[0] & 0x10 != 0 {
        var id := (mle.value[9] & 0x0f) as nat;
        if id < 15 {
          linkId := Some(id);
        }
      }
    }

    /** The stores of bss_update, and whether the derived fields have to be computed again. */
    method Store(e: Elems, kind: FrameKind) returns (update: bool)
      requires WellFormed(e) && !BadSsid(e, kind)
      modifies this`ssid, this`rsnie, this`wpaie, this`mldAddr, this`linkId
      ensures Value() == StoredFrom(old(Value()), e, kind)
      ensures update == old(capab != prevCapab || Changes(rsnie, e.rsn, e.s1gCapab && kind == Beacon) || Changes(wpaie, e.wpa, false))
    {
      hide Restored, LearnedMld, LearnedLink, Element, Changes;
      update := capab != prevCapab;
      if kind != OtherFrame && ssid != e.ssid.value {
        ssid := e.ssid.value;
      }
      var changed;
      rsnie, changed := StoreElement(rsnie, e.rsn, e.s1gCapab && kind == Beacon);
      update := update || changed;
      wpaie, changed := StoreElement(wpaie, e.wpa, false);
      update := update || changed;
      LearnIdentity(e.mle);
    }

    /** bss_update. */
    method Update(p: Parsers, e: Elems, kind: FrameKind)
      requires WellFormed(e)
      modifies this
      ensures Value() == Updated(p, old(Value()), e, kind)
      ensures old(Consistent(p, Value())) ==> Value() == Recomputed(p, old(Value()), e, kind) && Consistent(p, Value())
    {
      hide Derive, StoredFrom, Element, Changes;
      ghost var x := Value();
      if Consistent(p, x) {
        UpdatedIsRecomputed(p, x, e, kind);
      }
      if kind != OtherFrame && (e.ssid.None? || |e.ssid.value| > 32) {
        parseError := true;
        return;
      }
      var update := Store(e, kind);
      if update {
        Reparse(p);
      }
    }
  }

  // Runs --------------------------------------------------------------------------------------

  /** What happens to an entry: the caller stores new capabilities, or a frame updates it. */
  datatype Event = Capabilities(c: Mask) | Frame(e: Elems, kind: FrameKind)

  function Applied(p: Parsers, x: Entry, ev: Event): Entry
    requires ev.Frame? ==> WellFormed(ev.e)
  {
    match ev
    case Capabilities(c) => x.(capab := c)
    case Frame(e, kind) => Updated(p, x, e, kind)
  }

  ghost predicate AllWellFormed(evs: seq<Event>)
  {
    forall ev | ev in evs && ev.Frame? :: WellFormed(ev.e)
  }

  ghost function Run(p: Parsers, x: Entry, evs: seq<Event>): Entry
    requires AllWellFormed(evs)
  {
    if evs == [] then x else Applied(p, Run(p, x, evs[..|evs| - 1]), evs[|evs| - 1])
  }

  /** After every run the derived fields are one function of the stored elements and the last used capabilities. */
  lemma {:induction false} RunConsistent(p: Parsers, evs: seq<Event>)
    requires AllWellFormed(evs)
    ensures Consistent(p, Run(p, FRESH, evs))
  {
    if evs != [] {
      hide Derive, Updated;
      var init, last := evs[..|evs| - 1], evs[|evs| - 1];
      RunConsistent(p, init);
      if last.Frame? {
        UpdatedIsRecomputed(p, Run(p, FRESH, init), last.e, last.kind);
      }
    }
  }

  /** An accepted frame leaves no capability change pending: the fields fit the capabilities of the moment. */
  lemma AcceptedIsCurrent(p: Parsers, evs: seq<Event>)
    requires AllWellFormed(evs) && evs != []
    requires var last := evs[|evs| - 1]; last.Frame? && !BadSsid(last.e, last.kind)
    ensures var x := Run(p, FRESH, evs); x.derived == Derive(p, x.wpaie, x.rsnie, x.capab)
  {
    hide Derive, Updated;
    var init, last := evs[..|evs| - 1], evs[|evs| - 1];
    RunConsistent(p, init);
    UpdatedIsRecomputed(p, Run(p, FRESH, init), last.e, last.kind);
  }

  /** A bit that one of two parsed elements has in a field. */
  predicate Either(a: Option<IeData>, b: Option<IeData>, field: IeData -> Mask, bit: nat)
  {
    (a.Some? && bit in field(a.value)) || (b.Some? && bit in field(b.value))
  }

  /** The meaning of the derived fields, bit by bit, from the elements stored and the capabilities they were read with. */
  ghost predicate Meant(wpa: Option<IeData>, rsn: Option<IeData>, none: bool, capab: Mask, d: Derived)
  {
    && (forall bit :: bit in d.proto <==> Either(wpa, rsn, (e: IeData) => e.proto, bit))
    && (forall bit :: bit in d.pairwise <==> Either(wpa, rsn, (e: IeData) => e.pairwise, bit))
    && (forall bit :: bit in d.keyMgmt <==> Either(wpa, rsn, (e: IeData) => e.keyMgmt, bit))
    && (if none && 4 in capab then d.group == {1}
        else forall bit :: bit in d.group <==> Either(wpa, rsn, (e: IeData) => e.group, bit))
    && d.rsnCapab == (if rsn.Some? then rsn.value.capab else if wpa.Some? then wpa.value.capab else {})
    && (forall bit :: bit in d.mgmtGroup <==>
                      1 in d.proto && 7 in d.rsnCapab && Either(wpa, rsn, (e: IeData) => e.mgmtGroup, bit))
  }

  lemma CombinedMeans(w: Option<IeData>, r: Option<IeData>, none: bool, capab: Mask)
    ensures Meant(w, r, none, capab, Combined(w, r, none, capab))
  {
    if w.None? {
    } else if r.None? {
    } else {
    }
  }

  lemma DeriveMeans(p: Parsers, wpaie: Stored, rsnie: Stored, capab: Mask)
    ensures Meant(Read(p.wpa, wpaie), Read(p.rsn, rsnie), wpaie[0] == 0 && rsnie[0] == 0, capab, Derive(p, wpaie, rsnie, capab))
  {
    hide Meant, Combined, Read;
    CombinedMeans(Read(p.wpa, wpaie), Read(p.rsn, rsnie), wpaie[0] == 0 && rsnie[0] == 0, capab);
  }

  /** So after every run each derived bit is one that a stored element has, and each such bit is there. */
  lemma RunMeans(p: Parsers, evs: seq<Event>)
    requires AllWellFormed(evs)
    ensures var x := Run(p, FRESH, evs);
            Meant(Read(p.wpa, x.wpaie), Read(p.rsn, x.rsnie), x.wpaie[0] == 0 && x.rsnie[0] == 0, x.prevCapab, x.derived)
  {
    hide Derive, Meant;
    var x := Run(p, FRESH, evs);
    RunConsistent(p, evs);
    DeriveMeans(p, x.wpaie, x.rsnie, x.prevCapab);
  }

  /** A stored element reads as the element received, and a cleared one as nothing. */
  lemma RestoredReads(parse: Octets -> Option<IeData>, s: Stored, e: Option<Octets>, keepMissing: bool)
    requires e.Some? ==> Element(e.value)
    ensures var r := Restored(s, e, keepMissing);
            && Read(parse, r) == (if e.Some? then parse(e.value) else if keepMissing then Read(parse, s) else None)
            && (r[0] == 0 <==> e.None? && (keepMissing ==> s[0] == 0))
  {
    if e.Some? {
      var r := Restored(s, e, keepMissing);
      assert r[0] == e.value[0] && r[1] == e.value[1];
      assert r[..|e.value|] == e.value;
    }
  }

  /**
   * After an accepted frame the derived fields mean what the frame's own elements and the current capabilities say; only
   * a short beacon without an RSN element leaves the one that was stored.
   */
  lemma AcceptedMeans(p: Parsers, evs: seq<Event>)
    requires AllWellFormed(evs) && evs != []
    requires var last := evs[|evs| - 1]; last.Frame? && !BadSsid(last.e, last.kind)
    ensures var was, x, e := Run(p, FRESH, evs[..|evs| - 1]), Run(p, FRESH, evs), evs[|evs| - 1].e;
            var keep := e.s1gCapab && evs[|evs| - 1].kind == Beacon;
            Meant(if e.wpa.Some? then p.wpa(e.wpa.value) else None,
                  if e.rsn.Some? then p.rsn(e.rsn.value) else if keep then Read(p.rsn, was.rsnie) else None,
                  e.wpa.None? && e.rsn.None? && (keep ==> was.rsnie[0] == 0), x.capab, x.derived)
  {
    hide Derive, Meant, Restored, Changes, Element, LearnedMld, LearnedLink, Read;
    var was, x, last := Run(p, FRESH, evs[..|evs| - 1]), Run(p, FRESH, evs), evs[|evs| - 1];
    AcceptedIsCurrent(p, evs);
    assert last in evs;
    RestoredReads(p.wpa, was.wpaie, last.e.wpa, false);
    RestoredReads(p.rsn, was.rsnie, last.e.rsn, last.e.s1gCapab && last.kind == Beacon);
    DeriveMeans(p, x.wpaie, x.rsnie, x.capab);
  }

  /** A refused frame changes nothing but the error flag, so a pending change is caught up by the next frame. */
  lemma RefusedIsForgotten(p: Parsers, x: Entry, bad: Event, next: Event)
    requires bad.Frame? && WellFormed(bad.e) && BadSsid(bad.e, bad.kind)
    requires next.Frame? && WellFormed(next.e)
    ensures Applied(p, Applied(p, x, bad), next) == Applied(p, x, next).(parseError := true)
  {
    hide Derive, Restored, LearnedMld, LearnedLink, Changes;
  }

  /** The AP MLD address and link ID, once learned, stay for the rest of any run. */
  lemma {:induction false} IdentityKept(p: Parsers, x: Entry, evs: seq<Event>)
    requires AllWellFormed(evs)
    ensures x.mldAddr != ZERO_MAC ==> Run(p, x, evs).mldAddr == x.mldAddr
    ensures x.linkId.Some? ==> Run(p, x, evs).linkId == x.linkId
  {
    hide Derive, Restored, Changes;
    if evs != [] {
      IdentityKept(p, x, evs[..|evs| - 1]);
    }
  }
}
