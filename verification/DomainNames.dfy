/** The domain_name list in its ANQP encoding: each name after an octet with its length. */
module DomainNames {
  import opened Bits
  import opened Frames

  const COMMA: bv8 := 0x2c

  /** The position of the first comma from i on, or the end. */
  function NextComma(s: Octets, i: nat): (c: nat)
    requires i <= |s|
    ensures i <= c <= |s| && (c < |s| ==> s[c] == 0x2c) && 0x2c !in s[i..c]
    decreases |s| - i
  {
    if i == |s| || s[i] == COMMA then i
    else
      var c := NextComma(s, i + 1);
      assert s[i..c] == [s[i]] + s[i + 1..c];
      c
  }

  /** The text between commas, from i on. */
  function Names(s: Octets, i: nat): (r: seq<Octets>)
    requires i <= |s|
    ensures |r| > 0
    decreases |s| - i
  {
    var c := NextComma(s, i);
    if c == |s| then [s[i..]] else [s[i..c]] + Names(s, c + 1)
  }

  predicate AllShort(names: seq<Octets>)
  {
    forall n | n in names :: |n| <= 255
  }

  function LengthOctet(n: Octets): bv8
    requires |n| <= 255
  {
    |n| as bv8
  }

  /** A length octet, then the name. */
  function Item(name: Octets): Octets
    requires |name| <= 255
  {
    [LengthOctet(name)] + name
  }

  function Encoded(names: seq<Octets>): Octets
    requires AllShort(names)
  {
    if names == [] then [] else Item(names[0]) + Encoded(names[1..])
  }

  /** Reading the encoding back: a length octet, then that many octets of name. */
  function Decoded(s: Octets): Option<seq<Octets>>
    decreases |s|
  {
    if s == [] then Some([])
    else if |s| < 1 + s[0] as nat then None
    else
      var rest := Decoded(s[1 + s[0] as nat..]);
      if rest.None? then None else Some([s[1..1 + s[0] as nat]] + rest.value)
  }

  lemma LengthReads(n: Octets)
    requires |n| <= 255
    ensures LengthOctet(n) as nat == |n|
  {
    ByteOf(|n|);
  }

  /** Decoding gives back every list of names that can be encoded. */
  lemma {:induction false} DecodedEncoded(names: seq<Octets>)
    requires AllShort(names)
    ensures Decoded(Encoded(names)) == Some(names)
  {
    hide LengthOctet;
    if names != [] {
      var n, rest := names[0], Encoded(names[1..]);
      var s := Encoded(names);
      LengthReads(n);
      DecodedEncoded(names[1..]);
      assert s[1..1 + |n|] == n && s[1 + |n|..] == rest;
      assert names == [n] + names[1..];
    }
  }

  lemma {:induction false} EncodedAppend(a: seq<Octets>, b: seq<Octets>)
    requires AllShort(a) && AllShort(b)
    ensures AllShort(a + b) && Encoded(a + b) == Encoded(a) + Encoded(b)
  {
    hide Item;
    if a == [] {
      assert a + b == b;
    } else {
      EncodedAppend(a[1..], b);
      assert (a + b)[1..] == a[1..] + b;
      assert Item(a[0]) + (Encoded(a[1..]) + Encoded(b)) == Item(a[0]) + Encoded(a[1..]) + Encoded(b);
    }
  }

  lemma NamesStep(s: Octets, i: nat, done: seq<Octets>)
    requires i <= |s| && done + Names(s, i) == Names(s, 0)
    ensures var c := NextComma(s, i);
            && i <= c <= |s|
            && (c - i > 255 ==> !AllShort(Names(s, 0)))
            && (c == |s| ==> |Names(s, i)| == 1 && done + [s[i..c]] == Names(s, 0))
            && (c < |s| ==> |Names(s, i)| == 1 + |Names(s, c + 1)| && done + [s[i..c]] + Names(s, c + 1) == Names(s, 0))
  {
    hide NextComma;
    var c := NextComma(s, i);
    assert Names(s, i)[0] == s[i..c];
    assert (done + Names(s, i))[|done|] == s[i..c];
    if c < |s| {
      assert done + Names(s, i) == done + [s[i..c]] + Names(s, c + 1);
    }
  }

  lemma One(n: Octets)
    requires |n| <= 255
    ensures Encoded([n]) == Item(n)
  {
    hide LengthOctet;
    assert [n][1..] == [];
  }

  lemma ShortAppend(done: seq<Octets>, name: Octets)
    requires AllShort(done) && |name| <= 255
    ensures AllShort(done + [name]) && Encoded(done + [name]) == Encoded(done) + Item(name)
  {
    hide LengthOctet, Encoded;
    EncodedAppend(done, [name]);
    One(name);
  }

  lemma Nothing()
    ensures AllShort([]) && Encoded([]) == []
  {
  }

  /** os_strchr for a comma. */
  method Comma(s: Octets, i: nat) returns (c: nat)
    requires i <= |s|
    ensures c == NextComma(s, i)
  {
    c := i;
    while c < |s| && s[c] != COMMA
      invariant i <= c <= |s| && NextComma(s, i) == NextComma(s, c)
    {
      c := c + 1;
    }
  }

  lemma NamesCount(s: Octets, i: nat)
    requires i <= |s|
    ensures var c := NextComma(s, i); |Names(s, i)| == 1 + if c == |s| then 0 else |Names(s, c + 1)|
  {
    hide NextComma;
  }

  /** The first pass, which counts commas. */
  method CountNames(s: Octets) returns (n: nat)
    ensures n == |Names(s, 0)|
  {
    hide Names, NextComma;
    NamesCount(s, 0);
    n := 1;
    var i := Comma(s, 0);
    while i < |s|
      invariant i <= |s| && (i < |s| ==> s[i] == COMMA)
      invariant |Names(s, 0)| == if i < |s| then n + |Names(s, i + 1)| else n
      decreases |s| - i
    {
      NamesCount(s, i + 1);
      n := n + 1;
      i := Comma(s, i + 1);
    }
  }

  /** The domain_name branch: the list between commas, or an error when a name is longer than 255 octets. */
  method EncodeDomainNames(text: Octets) returns (r: Option<Octets>)
    ensures r.Some? <==> AllShort(Names(text, 0))
    ensures r.Some? ==> |r.value| == |text| + 1 && r.value == Encoded(Names(text, 0))
    ensures r.Some? ==> Decoded(r.value) == Some(Names(text, 0))
  {
    hide LengthOctet, Decoded, Encoded, Names, NextComma, AllShort;
    var list := new bv8[|text| + 1](_ => 0);
    var count := CountNames(text);
    var ptr: nat, from: nat := 0, 0;
    ghost var done: seq<Octets> := [];
    Nothing();
    for j := 0 to count
      invariant AllShort(done) && ptr <= |text| + 1 && list[..ptr] == Encoded(done)
      invariant j < count ==> from == ptr <= |text| && done + Names(text, from) == Names(text, 0)
      invariant j < count ==> |Names(text, from)| == count - j
      invariant j == count ==> done == Names(text, 0) && ptr == |text| + 1
    {
      var c := Comma(text, from);
      var name := text[from..c];
      NamesStep(text, from, done);
      if c - from > 255 {
        return None;
      }
      ShortAppend(done, name);
      ptr := Append(list, ptr, Item(name));
      done := done + [name];
      from := c + 1;
    }
    assert list[..ptr] == list[..];
    DecodedEncoded(Names(text, 0));
    r := Some(list[..]);
  }
}
