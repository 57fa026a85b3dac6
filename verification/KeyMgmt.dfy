/** The wpa_key_mgmt list: parsing it from the configuration and printing it for DUP_NETWORK. */
module KeyMgmt {
  import opened Frames

  /** Key management masks as sets of bit numbers. */
  type Mask = set<nat>

  const PASN: nat := 25
  const EPPKE: nat := 29

  /** A known suite name, with all options compiled in. */
  function Lookup(name: string): Option<nat>
  {
    if name == "WPA-PSK" then Some(1)
    else if name == "WPA-EAP" then Some(0)
    else if name == "FT-PSK" then Some(6)
    else if name == "FT-EAP" then Some(5)
    else if name == "FT-EAP-SHA384" then Some(24)
    else if name == "WPA-EAP-SHA384" then Some(28)
    else if name == "WPA-PSK-SHA256" then Some(8)
    else if name == "WPA-EAP-SHA256" then Some(7)
    else if name == "SAE" then Some(10)
    else if name == "SAE-EXT-KEY" then Some(26)
    else if name == "FT-SAE" then Some(11)
    else if name == "FT-SAE-EXT-KEY" then Some(27)
    else if name == "WPA-EAP-SUITE-B" then Some(16)
    else if name == "WPA-EAP-SUITE-B-192" then Some(17)
    else if name == "FILS-SHA256" then Some(18)
    else if name == "FILS-SHA384" then Some(19)
    else if name == "FT-FILS-SHA256" then Some(20)
    else if name == "FT-FILS-SHA384" then Some(21)
    else if name == "OWE" then Some(22)
    else if name == "DPP" then Some(23)
    else if name == "PASN" then Some(25)
    else if name == "EPPKE" then Some(29)
    else None
  }

  /** The suites that are printed, in their order. */
  const PRINTED: seq<(string, nat)> := [
    ("WPA-PSK", 1), ("WPA-EAP", 0), ("FT-PSK", 6), ("FT-EAP", 5), ("FT-EAP-SHA384", 24),
    ("FT-SAE", 11), ("FT-SAE-EXT-KEY", 27), ("FT-FILS-SHA256", 20), ("FT-FILS-SHA384", 21), ("WPA-PSK-SHA256", 8),
    ("WPA-EAP-SHA256", 7), ("SAE", 10), ("SAE-EXT-KEY", 26), ("WPA-EAP-SUITE-B", 16), ("WPA-EAP-SUITE-B-192", 17),
    ("FILS-SHA256", 18), ("FILS-SHA384", 19), ("OWE", 22), ("DPP", 23), ("WPA-EAP-SHA384", 28)]

  const ROWS: nat := 20

  function Row(i: nat): (string, nat)
    requires i < ROWS
  {
    PRINTED[i]
  }

  lemma RowLookup(i: nat)
    requires i < ROWS
    ensures Lookup(Row(i).0) == Some(Row(i).1)
  {
  }

  predicate Blank(c: char) { c == ' ' || c == '\t' }

  predicate Word(s: string)
  {
    s != "" && forall i | 0 <= i < |s| :: !Blank(s[i])
  }

  lemma RowIsWord(i: nat)
    requires i < ROWS
    ensures Word(Row(i).0)
  {
  }

  // Words ------------------------------------------------------------------------------------

  predicate AllBlank(s: string)
  {
    forall i | 0 <= i < |s| :: Blank(s[i])
  }

  /** The position of the first blank. */
  function WordLen(s: string): (n: nat)
    ensures n <= |s| && (forall i | 0 <= i < n :: !Blank(s[i])) && (n < |s| ==> Blank(s[n]))
  {
    if s == "" || Blank(s[0]) then 0 else 1 + WordLen(s[1..])
  }

  /** The words of a string. */
  function Words(s: string): seq<string>
    decreases |s|
  {
    if s == "" then []
    else if Blank(s[0]) then Words(s[1..])
    else [s[..WordLen(s)]] + Words(s[WordLen(s)..])
  }

  /** Words after gaps of blanks, and a tail. */
  function Laid(pieces: seq<(string, string)>, tail: string): string
  {
    if pieces == [] then tail else pieces[0].0 + pieces[0].1 + Laid(pieces[1..], tail)
  }

  ghost predicate Layout(pieces: seq<(string, string)>, tail: string)
  {
    && AllBlank(tail)
    && (forall i | 0 <= i < |pieces| :: AllBlank(pieces[i].0) && Word(pieces[i].1))
    && (forall i | 0 < i < |pieces| :: pieces[i].0 != "")
  }

  function Texts(pieces: seq<(string, string)>): (r: seq<string>)
    ensures |r| == |pieces|
  {
    seq(|pieces|, i requires 0 <= i < |pieces| => pieces[i].1)
  }

  lemma {:induction false} WordsSkip(gap: string, rest: string)
    requires AllBlank(gap)
    ensures Words(gap + rest) == Words(rest)
  {
    if gap == "" {
      assert gap + rest == rest;
    } else {
      WordsSkip(gap[1..], rest);
      assert (gap + rest)[1..] == gap[1..] + rest;
    }
  }

  lemma WordsFirst(w: string, rest: string)
    requires Word(w) && (rest == "" || Blank(rest[0]))
    ensures Words(w + rest) == [w] + Words(rest)
  {
    var s := w + rest;
    var n := WordLen(s);
    assert forall i | 0 <= i < |w| :: s[i] == w[i];
    assert rest != "" ==> s[|w|] == rest[0];
    assert n == |w|;
    assert s[..|w|] == w && s[|w|..] == rest;
  }

  /** However the words are laid out, reading finds them. */
  lemma {:induction false} WordsOfLaid(pieces: seq<(string, string)>, tail: string)
    requires Layout(pieces, tail)
    ensures Words(Laid(pieces, tail)) == Texts(pieces)
    decreases |pieces|
  {
    if pieces == [] {
      WordsSkip(tail, "");
      assert tail + "" == tail;
    } else {
      var (gap, w) := pieces[0];
      var rest := Laid(pieces[1..], tail);
      assert Layout(pieces[1..], tail);
      WordsOfLaid(pieces[1..], tail);
      assert rest == "" || Blank(rest[0]) by {
        if |pieces| > 1 {
          assert pieces[1..][0] == pieces[1];
          assert pieces[1].0 != "" && rest[0] == pieces[1].0[0];
        }
      }
      WordsSkip(gap, w + rest);
      assert gap + w + rest == gap + (w + rest);
      WordsFirst(w, rest);
      assert Texts(pieces) == [w] + Texts(pieces[1..]);
    }
  }

  // Parsing ----------------------------------------------------------------------------------

  ghost predicate Known(ws: seq<string>)
  {
    forall w | w in ws :: Lookup(w).Some?
  }

  ghost function MaskOf(ws: seq<string>): Mask
    requires Known(ws)
  {
    set w | w in ws :: Lookup(w).value
  }

  lemma SameMask(v: seq<string>, w: seq<string>)
    requires forall x :: x in v <==> x in w
    ensures Known(v) <==> Known(w)
    ensures Known(v) ==> MaskOf(v) == MaskOf(w)
  {
    hide Lookup;
  }

  /** Two lists of the same names are read alike: order, repeats and blanks do not matter. */
  lemma SameNames(p: seq<(string, string)>, pTail: string, q: seq<(string, string)>, qTail: string)
    requires Layout(p, pTail) && Layout(q, qTail) && forall x :: x in Texts(p) <==> x in Texts(q)
    ensures var v, w := Words(Laid(p, pTail)), Words(Laid(q, qTail));
            (Known(v) <==> Known(w)) && (Known(v) ==> MaskOf(v) == MaskOf(w))
  {
    hide Lookup, Words, Laid, Texts;
    WordsOfLaid(p, pTail);
    WordsOfLaid(q, qTail);
    SameMask(Texts(p), Texts(q));
  }

  lemma WordEnd(value: string, start: nat, end: nat)
    requires start < end <= |value| && (forall i | start <= i < end :: !Blank(value[i])) && (end < |value| ==> Blank(value[end]))
    ensures Words(value[start..]) == [value[start..end]] + Words(value[end..])
  {
    var w, rest := value[start..end], value[end..];
    assert value[start..] == w + rest;
    WordsFirst(w, rest);
  }

  /** hostapd_config_parse_key_mgmt: the suites named, whatever their order, repetition and spacing. */
  method ParseKeyMgmt(value: string) returns (r: Option<Mask>)
    ensures r.Some? <==> Known(Words(value))
    ensures r.Some? ==> r.value == MaskOf(Words(value))
  {
    hide Lookup;
    var mask: Mask := {};
    ghost var done: seq<string> := [];
    var start := 0;
    assert value[0..] == value;
    while start < |value|
      invariant 0 <= start <= |value| && Words(value) == done + Words(value[start..])
      invariant Known(done) && mask == MaskOf(done)
      decreases |value| - start
    {
      if Blank(value[start]) {
        assert value[start..][1..] == value[start + 1..];
        start := start + 1;
      } else {
        var end := start;
        while end < |value| && !Blank(value[end])
          invariant start <= end <= |value| && forall i | start <= i < end :: !Blank(value[i])
        {
          end := end + 1;
        }
        ghost var s := value[start..];
        var word := value[start..end];
        WordEnd(value, start, end);
        var akm := Lookup(word);
        assert word in Words(value);
        if akm.None? {
          return None;
        }
        done := done + [word];
        mask := mask + {akm.value};
        start := end;
      }
    }
    assert value[start..] == "";
    return Some(mask);
  }

  // Printing ---------------------------------------------------------------------------------

  /** The printed suites of a mask, from row i on. */
  function Names(mask: Mask, i: nat): seq<string>
    requires i <= ROWS
    decreases ROWS - i
  {
    if i == ROWS then []
    else (if Row(i).1 in mask then [Row(i).0] else []) + Names(mask, i + 1)
  }

  /** Each name with a space after it. */
  function Spaced(names: seq<string>): string
  {
    if names == [] then "" else names[0] + " " + Spaced(names[1..])
  }

  /** Octets that rows i and later take at most. */
  function Room(i: nat): nat
    requires i <= ROWS
    decreases ROWS - i
  {
    if i == ROWS then 0 else |Row(i).0| + 1 + Room(i + 1)
  }

  lemma AllFits()
    ensures Room(0) == 225
  {
    assert Room(18) == 19;
    assert Room(16) == 35;
    assert Room(14) == 67;
    assert Room(12) == 95;
    assert Room(10) == 114;
    assert Room(8) == 144;
    assert Room(6) == 174;
    assert Room(4) == 195;
    assert Room(2) == 209;
  }

  lemma {:induction false} SpacedAppend(a: seq<string>, b: seq<string>)
    ensures Spaced(a + b) == Spaced(a) + Spaced(b)
  {
    if a == [] {
      assert a + b == b;
    } else {
      SpacedAppend(a[1..], b);
      assert (a + b)[1..] == a[1..] + b;
    }
  }

  lemma RowStep(mask: Mask, i: nat)
    requires i < ROWS
    ensures Names(mask, i) == (if Row(i).1 in mask then [Row(i).0] else []) + Names(mask, i + 1)
    ensures Room(i) == |Row(i).0| + 1 + Room(i + 1)
  {
    hide Row;
  }

  lemma SpacedSnoc(names: seq<string>, name: string)
    ensures Spaced(names + [name]) == Spaced(names) + name + " "
  {
    SpacedAppend(names, [name]);
    assert [name][1..] == [];
  }

  /** The list without its last space. */
  function Trimmed(text: string): string
  {
    if text == "" then "" else text[..|text| - 1]
  }

  /** A buffer ran out after n whole names. */
  ghost predicate CutAfter(names: seq<string>, n: nat, buflen: nat, text: string)
  {
    && n < |names| && text == Spaced(names[..n])
    && (n == 0 || |text| < buflen) && |text| + |names[n]| + 1 >= buflen
  }

  lemma SpacedPrefix(names: seq<string>, n: nat)
    requires n < |names|
    ensures |Spaced(names)| >= |Spaced(names[..n])| + |names[n]| + 1
  {
    hide Spaced;
    SpacedSnoc(names[..n], names[n]);
    SpacedAppend(names[..n + 1], names[n + 1..]);
    assert names[..n + 1] == names[..n] + [names[n]];
    assert names == names[..n + 1] + names[n + 1..];
  }

  lemma NothingLeft(mask: Mask)
    ensures Names(mask, ROWS) == [] && Spaced([]) == "" && Room(ROWS) == 0
  {
  }

  /** hostapd_ctrl_iface_get_key_mgmt: all names, or as many whole ones as the buffer holds. */
  method GetKeyMgmt(mask: Mask, buflen: nat) returns (text: string)
    ensures var names := Names(mask, 0);
            if names == [] || |Spaced(names)| < buflen then text == Trimmed(Spaced(names))
            else exists n :: CutAfter(names, n, buflen, text)
  {
    hide Row, Names, Spaced;
    text := "";
    ghost var done: seq<string> := [];
    NothingLeft(mask);
    for i := 0 to ROWS
      invariant done + Names(mask, i) == Names(mask, 0) && text == Spaced(done)
      invariant done == [] || |text| < buflen
      invariant text == "" || text[|text| - 1] == ' '
    {
      RowStep(mask, i);
      if Row(i).1 in mask {
        var name := Row(i).0;
        if |name| + 1 >= buflen - |text| {
          assert Names(mask, 0)[..|done|] == done && Names(mask, 0)[|done|] == name;
          assert CutAfter(Names(mask, 0), |done|, buflen, text);
          SpacedPrefix(Names(mask, 0), |done|);
          return;
        }
        SpacedSnoc(done, name);
        done := done + [name];
        text := text + name + " ";
      }
    }
    assert done == Names(mask, 0);
    if |text| > 0 && text[|text| - 1] == ' ' {
      text := text[..|text| - 1];
    }
  }

  lemma {:induction false} FitsRoom(mask: Mask, i: nat)
    requires i <= ROWS
    ensures |Spaced(Names(mask, i))| <= Room(i)
    decreases ROWS - i
  {
    hide Row, Names, Room, Spaced;
    NothingLeft(mask);
    if i < ROWS {
      RowStep(mask, i);
      FitsRoom(mask, i + 1);
      SpacedSnoc([], Row(i).0);
      SpacedAppend([Row(i).0], Names(mask, i + 1));
      assert [] + [Row(i).0] == [Row(i).0];
      assert [] + Names(mask, i + 1) == Names(mask, i + 1);
    }
  }

  // Round trip -------------------------------------------------------------------------------

  /** The names with one space between them, as pieces. */
  function Pieces(names: seq<string>, first: bool): (r: seq<(string, string)>)
    ensures |r| == |names|
  {
    seq(|names|, i requires 0 <= i < |names| => (if first && i == 0 then "" else " ", names[i]))
  }

  lemma {:induction false} TrimmedIsLaid(names: seq<string>)
    requires names != []
    ensures Trimmed(Spaced(names)) == names[0] + Laid(Pieces(names[1..], false), "")
  {
    if |names| == 1 {
      assert names[1..] == [];
    } else {
      TrimmedIsLaid(names[1..]);
      var rest := names[1..];
      assert Pieces(rest, false)[1..] == Pieces(rest[1..], false);
      assert Spaced(rest) != "";
      assert Spaced(names) == names[0] + " " + Spaced(rest);
      assert Trimmed(Spaced(names)) == names[0] + " " + Trimmed(Spaced(rest));
      assert Laid(Pieces(rest, false), "") == " " + rest[0] + Laid(Pieces(rest[1..], false), "");
    }
  }

  /** Reading the printed list finds the printed names. */
  lemma WordsOfPrinted(names: seq<string>)
    requires forall n | n in names :: Word(n)
    ensures Words(Trimmed(Spaced(names))) == names
  {
    if names != [] {
      TrimmedIsLaid(names);
      var ps := Pieces(names, true);
      assert ps[1..] == Pieces(names[1..], false);
      assert Laid(ps, "") == names[0] + Laid(ps[1..], "");
      WordsOfLaid(ps, "");
      assert Texts(ps) == names;
    }
  }

  lemma {:induction false} NamesFrom(mask: Mask, i: nat, n: string)
    requires i <= ROWS
    ensures n in Names(mask, i) <==> exists k | i <= k < ROWS :: Row(k).1 in mask && Row(k).0 == n
    decreases ROWS - i
  {
    hide Row;
    if i < ROWS {
      NamesFrom(mask, i + 1, n);
    }
  }

  ghost function Printable(): Mask
  {
    set k | 0 <= k < ROWS :: Row(k).1
  }

  /** Parsing what was printed keeps exactly the printable suites; DUP_NETWORK's 256 octets lose none. */
  lemma PrintThenParse(mask: Mask)
    ensures |Spaced(Names(mask, 0))| <= 225
    ensures var ws := Words(Trimmed(Spaced(Names(mask, 0))));
            Known(ws) && MaskOf(ws) == mask * Printable()
  {
    hide Row, Lookup, Words, Trimmed, Spaced, Names, Word, Room;
    AllFits();
    FitsRoom(mask, 0);
    var names := Names(mask, 0);
    forall n | n in names
      ensures Word(n) && Lookup(n).Some? && Lookup(n).value in mask * Printable()
    {
      NamesFrom(mask, 0, n);
      var k :| 0 <= k < ROWS && Row(k).1 in mask && Row(k).0 == n;
      RowLookup(k);
      RowIsWord(k);
    }
    WordsOfPrinted(names);
    forall b | b in mask * Printable()
      ensures b in MaskOf(names)
    {
      var k :| 0 <= k < ROWS && Row(k).1 == b;
      NamesFrom(mask, 0, Row(k).0);
      RowLookup(k);
      assert Row(k).0 in names;
    }
  }

  /** A mask survives printing and parsing exactly when it holds neither PASN nor EPPKE nor a bit with no name. */
  lemma RoundTrip(mask: Mask)
    ensures (var ws := Words(Trimmed(Spaced(Names(mask, 0)))); Known(ws) && MaskOf(ws) == mask) <==> mask <= Printable()
  {
    hide Row, Lookup, Words, Trimmed, Spaced, Names;
    PrintThenParse(mask);
    assert mask * Printable() == mask <==> mask <= Printable();
  }

  lemma LookupCovered(name: string)
    requires Lookup(name).Some?
    ensures Lookup(name).value in Printable() + {PASN, EPPKE}
  {
    assert Row(0).1 == 1 && Row(1).1 == 0 && Row(2).1 == 6 && Row(3).1 == 5 && Row(4).1 == 24;
    assert Row(5).1 == 11 && Row(6).1 == 27 && Row(7).1 == 20 && Row(8).1 == 21 && Row(9).1 == 8;
    assert Row(10).1 == 7 && Row(11).1 == 10 && Row(12).1 == 26 && Row(13).1 == 16 && Row(14).1 == 17;
    assert Row(15).1 == 18 && Row(16).1 == 19 && Row(17).1 == 22 && Row(18).1 == 23 && Row(19).1 == 28;
  }

  lemma OnlyThose(w: string)
    ensures Lookup(w) == Some(PASN) ==> w == "PASN"
    ensures Lookup(w) == Some(EPPKE) ==> w == "EPPKE"
  {
  }

  /** So an accepted list without PASN and EPPKE comes back as the same mask after DUP_NETWORK. */
  lemma AcceptedSurvives(value: string)
    requires Known(Words(value)) && "PASN" !in Words(value) && "EPPKE" !in Words(value)
    ensures var mask := MaskOf(Words(value));
            var ws := Words(Trimmed(Spaced(Names(mask, 0))));
            Known(ws) && MaskOf(ws) == mask
  {
    hide Row, Words, Trimmed, Spaced, Names, Lookup, Printable;
    var mask := MaskOf(Words(value));
    forall w | w in Words(value)
      ensures Lookup(w).value in Printable()
    {
      LookupCovered(w);
      OnlyThose(w);
    }
    RoundTrip(mask);
  }
}
