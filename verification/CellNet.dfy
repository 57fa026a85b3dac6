/** The 3GPP Cellular Network information: PLMN list from MCC,MNC pairs (parse_3gpp_cell_net). */
module CellNet {
  import opened Bits
  import opened Frames

  predicate Allowed(c: char) { '0' <= c <= '9' || c == ';' || c == ',' }

  /** The first c from i on, or the end. */
  function Find(s: string, c: char, i: nat): (k: nat)
    requires i <= |s|
    ensures i <= k <= |s| && (k < |s| ==> s[k] == c) && forall j | i <= j < k :: s[j] != c
    decreases |s| - i
  {
    if i == |s| || s[i] == c then i else Find(s, c, i + 1)
  }

  datatype Plmn = Plmn(mcc: string, mnc: string)

  predicate RightSize(p: Plmn)
  {
    |p.mcc| == 3 && (|p.mnc| == 2 || |p.mnc| == 3)
  }

  /** Where the pass goes on after a pair that ends at e. */
  function Next(s: string, e: nat): (n: nat)
    requires e <= |s|
    ensures e <= n <= |s|
  {
    if e < |s| then e + 1 else e
  }

  function Joined(p: Plmn, rest: Option<seq<Plmn>>): Option<seq<Plmn>>
  {
    if !RightSize(p) || rest.None? then None else Some([p] + rest.value)
  }

  /** The pairs that the second pass takes from i on; nothing when it stops at an error. */
  function Pairs(s: string, i: nat): Option<seq<Plmn>>
    requires i <= |s|
    decreases |s| - i
  {
    if i == |s| then Some([])
    else
      var c := Find(s, ',', i);
      if c == |s| then None
      else
        var e := Find(s, ';', c + 1);
        Joined(Plmn(s[i..c], s[c + 1..e]), Pairs(s, Next(s, e)))
  }

  /** Semicolons from i on. */
  function Semicolons(s: string, i: nat): nat
    requires i <= |s|
    decreases |s| - i
  {
    if i == |s| then 0 else Semicolons(s, i + 1) + if s[i] == ';' then 1 else 0
  }

  /** The difference of a character and '0', cut to an octet. */
  function Digit(c: char): (d: bv8)
    requires Allowed(c)
  {
    if c == ';' then 0x0b else if c == ',' then 0xfc else (c as int - '0' as int) as bv8
  }

  lemma DigitValue(c: char)
    requires Allowed(c)
    ensures Digit(c) as int == (c as int - '0' as int) % 256
  {
    if c != ';' && c != ',' {
      ByteOf(c as int - '0' as int);
    }
  }

  function Nibbles(high: bv8, low: bv8): bv8 { (high << 4) | low }

  function Bcd(p: Plmn): (r: Octets)
    requires RightSize(p) && (forall i | 0 <= i < 3 :: Allowed(p.mcc[i])) && (forall i | 0 <= i < |p.mnc| :: Allowed(p.mnc[i]))
    ensures |r| == 3
  {
    [Nibbles(Digit(p.mcc[1]), Digit(p.mcc[0])),
     if |p.mnc| == 2 then 0xf0 | Digit(p.mcc[2]) else Nibbles(Digit(p.mnc[2]), Digit(p.mcc[2])),
     Nibbles(Digit(p.mnc[1]), Digit(p.mnc[0]))]
  }

  ghost predicate Clean(ps: seq<Plmn>)
  {
    forall p | p in ps :: RightSize(p) && (forall i | 0 <= i < 3 :: Allowed(p.mcc[i])) && (forall i | 0 <= i < |p.mnc| :: Allowed(p.mnc[i]))
  }

  ghost function AllBcd(ps: seq<Plmn>): (r: Octets)
    requires Clean(ps)
    ensures |r| == 3 * |ps|
  {
    if ps == [] then [] else AllBcd(ps[..|ps| - 1]) + Bcd(ps[|ps| - 1])
  }

  lemma {:induction false} SemicolonsSplit(s: string, i: nat, e: nat)
    requires i <= e <= |s|
    ensures Semicolons(s, i) >= Semicolons(s, e)
    decreases e - i
  {
    if i < e {
      SemicolonsSplit(s, i + 1, e);
    }
  }

  lemma PairsEnds(s: string, i: nat)
    requires i <= |s| && Find(s, ',', i) == |s|
    ensures Pairs(s, i) == if i == |s| then Some([]) else None
  {
  }

  lemma PairsAt(s: string, i: nat, c: nat, e: nat)
    requires i < |s| && c == Find(s, ',', i) < |s| && e == Find(s, ';', c + 1)
    ensures Pairs(s, i) == Joined(Plmn(s[i..c], s[c + 1..e]), Pairs(s, Next(s, e)))
  {
  }

  lemma SemicolonAt(s: string, e: nat)
    requires e <= |s| && (e < |s| ==> s[e] == ';')
    ensures Semicolons(s, e) == if e < |s| then Semicolons(s, e + 1) + 1 else 0
  {
  }

  lemma NoPairs(s: string)
    ensures Pairs(s, |s|) == Some([])
  {
  }

  /** The pairs never outnumber the slots counted in the first pass. */
  lemma {:induction false} PairsFit(s: string, i: nat)
    requires i <= |s| && Pairs(s, i).Some?
    ensures |Pairs(s, i).value| <= Semicolons(s, i) + 1
    ensures i < |s| && Semicolons(s, i) == 0 ==> |Pairs(s, i).value| == 1
    decreases |s| - i
  {
    hide Find, RightSize, Pairs, Semicolons;
    var c := Find(s, ',', i);
    if c == |s| {
      PairsEnds(s, i);
    } else {
      var e := Find(s, ';', c + 1);
      PairsAt(s, i, c, e);
      SemicolonsSplit(s, i, e);
      SemicolonAt(s, e);
      if e < |s| {
        PairsFit(s, e + 1);
      } else {
        NoPairs(s);
      }
    }
  }

  const MAX_SLOTS: nat := 42  // 1 + 3 * 42 == 0x7f

  ghost predicate AllAllowed(s: string)
  {
    forall i | 0 <= i < |s| :: Allowed(s[i])
  }

  lemma {:induction false} PairsClean(s: string, i: nat)
    requires i <= |s| && AllAllowed(s) && Pairs(s, i).Some?
    ensures Clean(Pairs(s, i).value)
    decreases |s| - i
  {
    if i < |s| {
      var c := Find(s, ',', i);
      var e := Find(s, ';', c + 1);
      PairsClean(s, Next(s, e));
    }
  }

  function Header(count: nat): (r: Octets)
    requires count <= MAX_SLOTS
    ensures |r| == 5
  {
    [0, (3 + count * 3) as bv8, 0, (1 + count * 3) as bv8, count as bv8]
  }

  ghost predicate Accepted(buf: string)
  {
    AllAllowed(buf) && Semicolons(buf, 0) + 1 <= MAX_SLOTS && Pairs(buf, 0).Some?
  }

  ghost function Info(buf: string): Octets
    requires Accepted(buf)
  {
    PairsClean(buf, 0);
    PairsFit(buf, 0);
    var count, ps := Semicolons(buf, 0) + 1, Pairs(buf, 0).value;
    Header(count) + AllBcd(ps) + ZeroOctets(3 * (count - |ps|))
  }

  lemma NoBcd()
    ensures AllBcd([]) == []
  {
  }

  lemma OneMoreBcd(ps: seq<Plmn>, p: Plmn)
    requires Clean(ps) && Clean([p])
    ensures Clean(ps + [p]) && AllBcd(ps + [p]) == AllBcd(ps) + Bcd(p)
  {
    hide Bcd;
    assert p in [p];
    assert (ps + [p])[..|ps|] == ps;
  }

  function Prefixed(done: seq<Plmn>, rest: Option<seq<Plmn>>): Option<seq<Plmn>>
  {
    if rest.None? then None else Some(done + rest.value)
  }

  method WriteSlot(info: array<bv8>, ipos: nat, slot: Octets) returns (end: nat)
    requires |slot| == 3 && ipos + 3 <= info.Length
    modifies info
    ensures end == ipos + 3 && info[..end] == old(info[..ipos]) + slot
    ensures forall k | end <= k < info.Length :: info[k] == old(info[k])
  {
    Put(info, ipos, slot);
    end := ipos + 3;
  }

  lemma PairsStep(done: seq<Plmn>, p: Plmn, rest: Option<seq<Plmn>>)
    ensures !RightSize(p) ==> Prefixed(done, Joined(p, rest)).None?
    ensures RightSize(p) ==> Prefixed(done, Joined(p, rest)) == Prefixed(done + [p], rest)
  {
    if rest.Some? {
      assert done + ([p] + rest.value) == done + [p] + rest.value;
    }
  }

  lemma SlotsStep(s: string, i: nat, e: nat)
    requires i < e <= |s| && (e < |s| ==> s[e] == ';')
    ensures var n := Next(s, e); n < |s| ==> Semicolons(s, n) + 1 <= Semicolons(s, i)
  {
    SemicolonsSplit(s, i, e);
  }

  /** The second pass: a slot for each pair, from the fifth octet on. */
  method FillSlots(buf: string, count: nat, info: array<bv8>) returns (ok: bool)
    requires AllAllowed(buf) && count == Semicolons(buf, 0) + 1 && info.Length == 5 + 3 * count
    requires forall k | 5 <= k < info.Length :: info[k] == 0
    modifies info
    ensures ok == Pairs(buf, 0).Some?
    ensures ok ==>
              var ps := Pairs(buf, 0).value;
              && Clean(ps) && |ps| <= count
              && info[..] == old(info[..5]) + AllBcd(ps) + ZeroOctets(3 * (count - |ps|))
  {
    hide Bcd, Pairs, AllBcd;
    var ipos, pos := 5, 0;
    ghost var head, done: seq<Plmn> := info[..5], [];
    assert Pairs(buf, 0).Some? ==> done + Pairs(buf, 0).value == Pairs(buf, 0).value;
    NoBcd();
    while pos < |buf|
      invariant pos <= |buf| && Clean(done) && ipos == 5 + 3 * |done| <= info.Length
      invariant Pairs(buf, 0) == Prefixed(done, Pairs(buf, pos))
      invariant |done| + Semicolons(buf, pos) + (if pos < |buf| then 1 else 0) <= count
      invariant info[..ipos] == head + AllBcd(done)
      invariant forall k | ipos <= k < info.Length :: info[k] == 0
      decreases |buf| - pos
    {
      var c := Find(buf, ',', pos);
      if c == |buf| {
        PairsEnds(buf, pos);
        return false;
      }
      var e := Find(buf, ';', c + 1);
      var p := Plmn(buf[pos..c], buf[c + 1..e]);
      PairsAt(buf, pos, c, e);
      PairsStep(done, p, Pairs(buf, Next(buf, e)));
      if c - pos != 3 || (e - c - 1 != 2 && e - c - 1 != 3) {
        return false;
      }
      SlotsStep(buf, pos, e);
      ipos := WriteSlot(info, ipos, Bcd(p));
      OneMoreBcd(done, p);
      done := done + [p];
      pos := Next(buf, e);
    }
    PairsEnds(buf, |buf|);
    assert done + [] == done;
    ok := true;
    assert info[ipos..] == ZeroOctets(3 * (count - |done|));
    assert info[..] == info[..ipos] + info[ipos..];
  }

  lemma HeaderOctets(count: nat)
    requires count <= MAX_SLOTS
    ensures var h := Header(count);
            && h == [0, (3 + count * 3) as bv8, 0, (1 + count * 3) as bv8, count as bv8]
            && h[1] as nat == 3 + count * 3 && h[3] as nat == 1 + count * 3 && h[4] as nat == count
  {
    ByteOf(3 + count * 3);
    ByteOf(1 + count * 3);
    ByteOf(count);
  }

  /** The first pass: no other characters, and one slot more than there are semicolons. */
  method CountSlots(buf: string) returns (r: Option<nat>)
    ensures r == if AllAllowed(buf) then Some(Semicolons(buf, 0) + 1) else None
  {
    var count: nat := 1;
    for i := 0 to |buf|
      invariant forall j | 0 <= j < i :: Allowed(buf[j])
      invariant count + Semicolons(buf, i) == Semicolons(buf, 0) + 1
    {
      if !Allowed(buf[i]) {
        return None;
      }
      if buf[i] == ';' {
        count := count + 1;
      }
    }
    r := Some(count);
  }

  /** The header, and slots of zeros. */
  method NewInfo(count: nat) returns (info: array<bv8>)
    requires count <= MAX_SLOTS
    ensures fresh(info) && info.Length == 5 + 3 * count && info[..5] == Header(count)
    ensures forall k | 5 <= k < info.Length :: info[k] == 0
  {
    info := new bv8[2 + 3 + count * 3](_ => 0);
    Put(info, 0, [0, (3 + count * 3) as bv8, 0, (1 + count * 3) as bv8, count as bv8]);
  }

  lemma HeaderCounts(count: nat, v: Octets)
    requires count <= MAX_SLOTS && |v| == 5 + 3 * count && v[..5] == Header(count)
    ensures v[0] == 0 && v[2] == 0 && v[1] as nat == |v| - 2 && v[3] as nat == |v| - 4 && v[4] as nat == count
  {
    hide Header;
    HeaderOctets(count);
    assert forall i | 0 <= i < 5 :: v[i] == v[..5][i];
  }

  /** parse_3gpp_cell_net: header, one slot per pair, and zeros in slots that no pair fills. */
  method ParseCellNet(buf: string) returns (r: Option<Octets>)
    ensures r == if Accepted(buf) then Some(Info(buf)) else None
    ensures r.Some? ==>
              var v := r.value;
              && |v| == 5 + 3 * (Semicolons(buf, 0) + 1) && v[0] == 0 && v[2] == 0
              && v[1] as nat == |v| - 2 && v[3] as nat == |v| - 4 && v[4] as nat == Semicolons(buf, 0) + 1
  {
    hide Bcd, Header, Pairs, AllBcd, AllAllowed, Semicolons;
    var slots := CountSlots(buf);
    if slots.None? {
      return None;
    }
    var count := slots.value;
    if 1 + count * 3 > 0x7f {
      return None;
    }
    var info := NewInfo(count);
    var ok := FillSlots(buf, count, info);
    if ok {
      HeaderCounts(count, info[..]);
    }
    r := if ok then Some(info[..]) else None;
  }

  // Well-formed lists ------------------------------------------------------------------------------

  predicate Digits(s: string)
  {
    forall i | 0 <= i < |s| :: '0' <= s[i] <= '9'
  }

  ghost predicate WellFormed(ps: seq<Plmn>)
  {
    forall p | p in ps :: RightSize(p) && Digits(p.mcc) && Digits(p.mnc)
  }

  /** MCC,MNC pairs separated by semicolons. */
  function Text(ps: seq<Plmn>): string
  {
    if ps == [] then ""
    else if |ps| == 1 then ps[0].mcc + "," + ps[0].mnc
    else ps[0].mcc + "," + ps[0].mnc + ";" + Text(ps[1..])
  }

  lemma SmallOctet(n: bv8)
    requires n <= 15
    ensures n as int <= 15
  {
  }

  function ToChar(n: bv8): char
    requires n <= 15
  {
    SmallOctet(n);
    ('0' as int + n as int) as char
  }

  function Low4(b: bv8): (r: bv8)
    ensures r <= 15
  {
    b & 0x0f
  }

  function High4(b: bv8): (r: bv8)
    ensures r <= 15
  {
    b >> 4
  }

  /** Reading a slot: three MCC digits, and two or three MNC digits depending on the filler. */
  function DecodedPlmn(b0: bv8, b1: bv8, b2: bv8): Plmn
  {
    Plmn([ToChar(Low4(b0)), ToChar(High4(b0)), ToChar(Low4(b1))],
         [ToChar(Low4(b2)), ToChar(High4(b2))] + if High4(b1) == 15 then [] else [ToChar(High4(b1))])
  }

  lemma DigitBack(c: char)
    requires '0' <= c <= '9'
    ensures Digit(c) <= 9 && ToChar(Digit(c)) == c
  {
  }

  lemma NibblesBack(h: bv8, l: bv8)
    requires h <= 9 && l <= 9
    ensures Low4(Nibbles(h, l)) == l && High4(Nibbles(h, l)) == h
    ensures Low4(0xf0 | l) == l && High4(0xf0 | l) == 15
  {
  }

  /** A slot gives back its pair, two- and three-digit MNCs told apart. */
  lemma SlotBack(p: Plmn)
    requires RightSize(p) && Digits(p.mcc) && Digits(p.mnc)
    ensures var b := Bcd(p); DecodedPlmn(b[0], b[1], b[2]) == p
  {
    hide Digit, ToChar, Nibbles, Low4, High4;
    DigitBack(p.mcc[0]);
    DigitBack(p.mcc[1]);
    DigitBack(p.mcc[2]);
    DigitBack(p.mnc[0]);
    DigitBack(p.mnc[1]);
    NibblesBack(Digit(p.mcc[1]), Digit(p.mcc[0]));
    NibblesBack(Digit(p.mnc[1]), Digit(p.mnc[0]));
    NibblesBack(0, Digit(p.mcc[2]));
    if |p.mnc| == 3 {
      DigitBack(p.mnc[2]);
      NibblesBack(Digit(p.mnc[2]), Digit(p.mcc[2]));
    }
  }

  lemma FindAt(s: string, c: char, i: nat, k: nat)
    requires i <= k <= |s| && (k < |s| ==> s[k] == c) && forall j | i <= j < k :: s[j] != c
    ensures Find(s, c, i) == k
  {
    var f := Find(s, c, i);
  }

  lemma FindShift(a: string, rest: string, c: char, k: nat)
    requires k <= |rest|
    ensures Find(a + rest, c, |a| + k) == |a| + Find(rest, c, k)
  {
    FindAt(a + rest, c, |a| + k, |a| + Find(rest, c, k));
  }

  lemma SliceShift(a: string, rest: string, i: nat, j: nat)
    requires i <= j <= |rest|
    ensures (a + rest)[|a| + i..|a| + j] == rest[i..j]
  {
  }

  lemma {:induction false} PairsShift(a: string, rest: string, k: nat)
    requires k <= |rest|
    ensures Pairs(a + rest, |a| + k) == Pairs(rest, k)
    decreases |rest| - k
  {
    hide Pairs, Find;
    var s, c := a + rest, Find(rest, ',', k);
    FindShift(a, rest, ',', k);
    if c == |rest| {
      PairsEnds(s, |a| + k);
      PairsEnds(rest, k);
    } else {
      var e := Find(rest, ';', c + 1);
      FindShift(a, rest, ';', c + 1);
      PairsAt(s, |a| + k, |a| + c, |a| + e);
      PairsAt(rest, k, c, e);
      SliceShift(a, rest, k, c);
      SliceShift(a, rest, c + 1, e);
      PairsShift(a, rest, Next(rest, e));
    }
  }

  lemma {:induction false} SemicolonsShift(a: string, rest: string, k: nat)
    requires k <= |rest|
    ensures Semicolons(a + rest, |a| + k) == Semicolons(rest, k)
    decreases |rest| - k
  {
    if k < |rest| {
      SemicolonsShift(a, rest, k + 1);
    }
  }

  lemma {:induction false} NoSemicolons(s: string, i: nat, e: nat)
    requires i <= e <= |s| && forall j | i <= j < e :: s[j] != ';'
    ensures Semicolons(s, i) == Semicolons(s, e)
    decreases e - i
  {
    if i < e {
      NoSemicolons(s, i + 1, e);
    }
  }

  /** The first pair of a text whose MCC and MNC are digits. */
  lemma FirstPair(p: Plmn, rest: string)
    requires RightSize(p) && Digits(p.mcc) && Digits(p.mnc) && (rest != "" ==> rest[0] == ';')
    ensures var s, e := p.mcc + "," + p.mnc + rest, 4 + |p.mnc|;
            && Pairs(s, 0) == Joined(p, Pairs(s, Next(s, e)))
            && Semicolons(s, 0) == Semicolons(s, e)
  {
    hide Pairs, Find, Semicolons;
    var s, e := p.mcc + "," + p.mnc + rest, 4 + |p.mnc|;
    assert forall i | 0 <= i < e :: s[i] == (p.mcc + "," + p.mnc)[i];
    FindAt(s, ',', 0, 3);
    FindAt(s, ';', 4, e);
    NoSemicolons(s, 0, e);
    PairsAt(s, 0, 3, e);
    assert s[0..3] == p.mcc && s[4..e] == p.mnc;
  }

  ghost predicate ReadsAs(s: string, ps: seq<Plmn>)
  {
    Pairs(s, 0) == Some(ps) && AllAllowed(s) && Semicolons(s, 0) + 1 == |ps|
  }

  lemma LastReads(p: Plmn)
    requires RightSize(p) && Digits(p.mcc) && Digits(p.mnc)
    ensures ReadsAs(p.mcc + "," + p.mnc, [p])
  {
    var s := p.mcc + "," + p.mnc;
    FirstPair(p, "");
    assert s + "" == s;
    PairsEnds(s, |s|);
    assert [p] + [] == [p];
  }

  lemma MoreReads(p: Plmn, rest: string, ps: seq<Plmn>)
    requires RightSize(p) && Digits(p.mcc) && Digits(p.mnc) && ReadsAs(rest, ps)
    ensures ReadsAs(p.mcc + "," + p.mnc + ";" + rest, [p] + ps)
  {
    hide Pairs, Find;
    var a := p.mcc + "," + p.mnc + ";";
    var s, e := a + rest, |a| - 1;
    FirstPair(p, ";" + rest);
    assert s == p.mcc + "," + p.mnc + (";" + rest);
    PairsShift(a, rest, 0);
    SemicolonsShift(a, rest, 0);
    assert s[e] == ';' && Next(s, e) == |a| + 0;
    assert Semicolons(s, e) == Semicolons(s, e + 1) + 1;
  }

  /** Reading back the text of a list: the same pairs, as many slots as pairs, no refused character. */
  lemma {:induction false} PairsOfText(ps: seq<Plmn>)
    requires WellFormed(ps) && ps != []
    ensures ReadsAs(Text(ps), ps)
  {
    hide ReadsAs;
    if |ps| == 1 {
      LastReads(ps[0]);
      assert ps == [ps[0]];
    } else {
      PairsOfText(ps[1..]);
      MoreReads(ps[0], Text(ps[1..]), ps[1..]);
      assert ps == [ps[0]] + ps[1..];
    }
  }

  ghost function Slots(r: Octets, n: nat): seq<Plmn>
    requires |r| >= 5 + 3 * n
  {
    seq(n, k requires 0 <= k < n => DecodedPlmn(r[5 + 3 * k], r[6 + 3 * k], r[7 + 3 * k]))
  }

  lemma {:induction false} AllBcdAt(ps: seq<Plmn>, k: nat)
    requires Clean(ps) && k < |ps|
    ensures AllBcd(ps)[3 * k..3 * k + 3] == Bcd(ps[k])
  {
    hide Bcd;
    var front := ps[..|ps| - 1];
    assert AllBcd(ps) == AllBcd(front) + Bcd(ps[|ps| - 1]);
    if k < |front| {
      AllBcdAt(front, k);
      assert AllBcd(ps)[3 * k..3 * k + 3] == AllBcd(front)[3 * k..3 * k + 3];
    }
  }

  lemma SlotOf(ps: seq<Plmn>, r: Octets, k: nat)
    requires WellFormed(ps) && Clean(ps) && k < |ps| && |r| == 5 + 3 * |ps| && r[5..] == AllBcd(ps)
    ensures DecodedPlmn(r[5 + 3 * k], r[6 + 3 * k], r[7 + 3 * k]) == ps[k]
  {
    hide Bcd, DecodedPlmn, AllBcd;
    AllBcdAt(ps, k);
    SlotBack(ps[k]);
    var b := AllBcd(ps)[3 * k..3 * k + 3];
    assert b[0] == r[5..][3 * k] && b[1] == r[5..][3 * k + 1] && b[2] == r[5..][3 * k + 2];
  }

  /** Up to 42 pairs written out as text are accepted, and the slots hold exactly those pairs in order. */
  lemma CellNetRoundTrip(ps: seq<Plmn>)
    requires WellFormed(ps) && 1 <= |ps| <= MAX_SLOTS
    ensures Accepted(Text(ps))
    ensures |Info(Text(ps))| == 5 + 3 * |ps| && Slots(Info(Text(ps)), |ps|) == ps
  {
    hide Bcd, Header, Pairs, AllBcd, DecodedPlmn, Text, Semicolons;
    PairsOfText(ps);
    PairsClean(Text(ps), 0);
    var r := Info(Text(ps));
    assert r[5..] == AllBcd(ps);
    forall k | 0 <= k < |ps|
      ensures DecodedPlmn(r[5 + 3 * k], r[6 + 3 * k], r[7 + 3 * k]) == ps[k]
    {
      SlotOf(ps, r, k);
    }
  }
}
