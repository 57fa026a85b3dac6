/** The HLR/AuC gateway: sequence numbers per IMSI and their resynchronization. */
module Auc {
  import opened Bits
  import opened Frames
  import opened Counters
  import Sqn

  type SqnOctets = s: Octets | |s| == 6 witness [0, 0, 0, 0, 0, 0]

  datatype Milenage = Milenage(imsi: string, keys: Octets, sqn: SqnOctets)

  /** The first entry for an IMSI, as get_milenage finds it; |db| when there is none. */
  function First(db: seq<Milenage>, imsi: string): (i: nat)
    ensures i <= |db| && (i < |db| ==> db[i].imsi == imsi) && forall j | 0 <= j < i :: db[j].imsi != imsi
  {
    if db == [] || db[0].imsi == imsi then 0 else 1 + First(db[1..], imsi)
  }

  /** Requests that reach the sequence numbers. A random number generator failure stops a request early. */
  datatype Command = AkaReqAuth(imsi: string, randomOk: bool)
                   | AkaAuts(imsi: string, resync: Option<SqnOctets>)  // None when MAC-S is wrong

  function NextSqn(s: SqnOctets, k: Sqn.IndLen): (r: SqnOctets)
  {
    Sqn.BeOctets(Sqn.Incremented(BeValue(s), k), 6)
  }

  lemma NextSqnValue(s: SqnOctets, k: Sqn.IndLen)
    ensures BeValue(NextSqn(s, k)) == Sqn.Incremented(BeValue(s), k)
  {
    Sqn.IncrementedParts(BeValue(s), k);
    Sqn.BeOctetsValue(Sqn.Incremented(BeValue(s), k), 6);
    Sqn.Space();
    ModSmall(Sqn.Incremented(BeValue(s), k), Sqn.SQN_SPACE);
  }

  /** The database after a command. */
  function Step(db: seq<Milenage>, k: Sqn.IndLen, c: Command): (r: seq<Milenage>)
    ensures |r| == |db| && forall i | 0 <= i < |db| :: r[i].imsi == db[i].imsi && r[i].keys == db[i].keys
  {
    var i := First(db, c.imsi);
    if i == |db| then db
    else match c
      case AkaReqAuth(_, ok) => if ok then db[i := db[i].(sqn := NextSqn(db[i].sqn, k))] else db
      case AkaAuts(_, resync) => if resync.Some? then db[i := db[i].(sqn := resync.value)] else db
  }

  class Gateway {
    var db: seq<Milenage>
    const indLen: Sqn.IndLen
    var sqnChanges: bool

    constructor (db: seq<Milenage>, indLen: Sqn.IndLen)
      ensures this.db == db && this.indLen == indLen && !sqnChanges
    {
      this.db, this.indLen, sqnChanges := db, indLen, false;
    }

    /** get_milenage. */
    method GetMilenage(imsi: string) returns (i: nat)
      ensures i == First(db, imsi)
    {
      i := 0;
      while i < |db| && db[i].imsi != imsi
        invariant i <= |db| && forall j | 0 <= j < i :: db[j].imsi != imsi
      {
        i := i + 1;
      }
    }

    /** aka_req_auth: the SQN that goes into the authentication vector, or nothing for an unknown IMSI. */
    method AkaReq(imsi: string, randomOk: bool) returns (r: Option<SqnOctets>)
      modifies this`db, this`sqnChanges
      ensures db == Step(old(db), indLen, AkaReqAuth(imsi, randomOk))
      ensures r.Some? <==> randomOk && First(old(db), imsi) < |old(db)|
      ensures r.Some? ==> r.value == db[First(old(db), imsi)].sqn
      ensures sqnChanges == (old(sqnChanges) || r.Some?)
    {
      var i := GetMilenage(imsi);
      if i == |db| || !randomOk {
        return None;
      }
      var sqn := new bv8[6](_ => 0);
      Put(sqn, 0, db[i].sqn);
      assert sqn[..] == db[i].sqn;
      Sqn.IncSqn(sqn, indLen);
      NextSqnValue(db[i].sqn, indLen);
      BeValueInjective(sqn[..], NextSqn(db[i].sqn, indLen));
      db := db[i := db[i].(sqn := sqn[..])];
      sqnChanges := true;
      r := Some(sqn[..]);
    }

    /** aka_auts, with the outcome of the MAC-S check. */
    method Auts(imsi: string, resync: Option<SqnOctets>) returns (ret: int)
      modifies this`db, this`sqnChanges
      ensures db == Step(old(db), indLen, AkaAuts(imsi, resync))
      ensures ret == if First(old(db), imsi) == |old(db)| then -1 else 0
      ensures sqnChanges == (old(sqnChanges) || (ret == 0 && resync.Some?))
    {
      var i := GetMilenage(imsi);
      if i == |db| {
        return -1;
      }
      if resync.Some? {
        db := db[i := db[i].(sqn := resync.value)];
        sqnChanges := true;
      }
      return 0;
    }
  }

  // Runs of commands --------------------------------------------------------------------------

  function Run(db: seq<Milenage>, k: Sqn.IndLen, cs: seq<Command>): (r: seq<Milenage>)
    ensures |r| == |db|
  {
    if cs == [] then db else Step(Run(db, k, cs[..|cs| - 1]), k, cs[|cs| - 1])
  }

  /** The SQN that an IMSI was last set to by a resynchronization, or started with. */
  function Base(start: SqnOctets, cs: seq<Command>, imsi: string): SqnOctets
  {
    if cs == [] then start
    else
      var c := cs[|cs| - 1];
      if c.AkaAuts? && c.imsi == imsi && c.resync.Some? then c.resync.value else Base(start, cs[..|cs| - 1], imsi)
  }

  /** Requests for an IMSI since then. */
  function Requests(cs: seq<Command>, imsi: string): nat
  {
    if cs == [] then 0
    else
      var c := cs[|cs| - 1];
      if c.AkaAuts? && c.imsi == imsi && c.resync.Some? then 0
      else Requests(cs[..|cs| - 1], imsi) + if c.AkaReqAuth? && c.imsi == imsi && c.randomOk then 1 else 0
  }

  lemma {:induction false} FirstKept(db: seq<Milenage>, e: seq<Milenage>, imsi: string)
    requires |db| == |e| && forall i | 0 <= i < |db| :: db[i].imsi == e[i].imsi
    ensures First(db, imsi) == First(e, imsi)
  {
    var i, j := First(db, imsi), First(e, imsi);
  }

  lemma {:induction false} RunImsis(db: seq<Milenage>, k: Sqn.IndLen, cs: seq<Command>, i: nat)
    requires i < |db|
    ensures Run(db, k, cs)[i].imsi == db[i].imsi
  {
    if cs != [] {
      RunImsis(db, k, cs[..|cs| - 1], i);
    }
  }

  lemma FirstFinds(db: seq<Milenage>, imsi: string, i: nat)
    requires i < |db|
    ensures First(db, imsi) == i ==> db[i].imsi == imsi
    ensures db[i].imsi == imsi ==> First(db, imsi) == First(db, db[i].imsi)
  {
  }

  /** What one command does to one entry. */
  lemma StepSqn(db: seq<Milenage>, k: Sqn.IndLen, c: Command, i: nat)
    requires i < |db|
    ensures Step(db, k, c)[i].sqn ==
            if First(db, db[i].imsi) != i || c.imsi != db[i].imsi then db[i].sqn
            else if c.AkaReqAuth? && c.randomOk then NextSqn(db[i].sqn, k)
            else if c.AkaAuts? && c.resync.Some? then c.resync.value
            else db[i].sqn
  {
    hide First, NextSqn;
    FirstFinds(db, c.imsi, i);
  }

  lemma AfterMore(v: nat, k: Sqn.IndLen, n: nat)
    ensures Sqn.After(v, k, 0) == v && Sqn.After(v, k, n + 1) == Sqn.Incremented(Sqn.After(v, k, n), k)
  {
  }

  /**
   * After every run of commands for any IMSIs, an entry that its IMSI finds holds its base value advanced by
   * its requests since then, and every other entry still holds what it started with.
   */
  lemma {:induction false} RunSqn(db: seq<Milenage>, k: Sqn.IndLen, cs: seq<Command>, i: nat)
    requires i < |db|
    ensures First(db, db[i].imsi) == i ==>
              BeValue(Run(db, k, cs)[i].sqn)
              == Sqn.After(BeValue(Base(db[i].sqn, cs, db[i].imsi)), k, Requests(cs, db[i].imsi))
    ensures First(db, db[i].imsi) != i ==> Run(db, k, cs)[i].sqn == db[i].sqn
  {
    hide First, Step, NextSqn, BeValue, Sqn.After, Sqn.Incremented;
    AfterMore(BeValue(Base(db[i].sqn, cs, db[i].imsi)), k, 0);
    if cs != [] {
      var init, c := cs[..|cs| - 1], cs[|cs| - 1];
      var now := Run(db, k, init);
      RunSqn(db, k, init, i);
      forall j | 0 <= j < |db|
        ensures now[j].imsi == db[j].imsi
      {
        RunImsis(db, k, init, j);
      }
      FirstKept(now, db, db[i].imsi);
      StepSqn(now, k, c, i);
      NextSqnValue(now[i].sqn, k);
      AfterMore(BeValue(Base(db[i].sqn, init, db[i].imsi)), k, Requests(init, db[i].imsi));
    }
  }

  /** Between resynchronizations, two requests for one IMSI get the same SQN only whole periods apart. */
  lemma IssuedRepeats(db: seq<Milenage>, k: Sqn.IndLen, cs: seq<Command>, ds: seq<Command>, i: nat)
    requires i < |db| && First(db, db[i].imsi) == i
    requires Base(db[i].sqn, cs, db[i].imsi) == Base(db[i].sqn, ds, db[i].imsi)
    requires Requests(cs, db[i].imsi) <= Requests(ds, db[i].imsi)
    ensures Run(db, k, cs)[i].sqn == Run(db, k, ds)[i].sqn <==>
              (Requests(ds, db[i].imsi) - Requests(cs, db[i].imsi)) % Sqn.Period(k) == 0
  {
    hide First, Run, Base, Requests;
    RunSqn(db, k, cs, i);
    RunSqn(db, k, ds, i);
    var base := Base(db[i].sqn, cs, db[i].imsi);
    BeValueBound(base);
    Sqn.Space();
    Sqn.Repeats(BeValue(base), k, Requests(cs, db[i].imsi), Requests(ds, db[i].imsi));
    var x, y := Run(db, k, cs)[i].sqn, Run(db, k, ds)[i].sqn;
    if BeValue(x) == BeValue(y) {
      BeValueInjective(x, y);
    }
  }
}
