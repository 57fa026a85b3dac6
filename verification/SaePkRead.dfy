/** SAE-PK passwords read back from text, and the way of a password from the generator to a station. */
module SaePkRead {
  import opened Bits
  import opened Frames
  import opened Counters
  import opened Numbers
  import opened SaePkCheck
  import opened SaePkTable
  import opened SaePkText
  import SaePkBits
  import SaePkGen
  import SaePkVerify

  // Symbols: the alphabet and the padding character ------------------------------------------------

  predicate Counted(c: char)
  {
    DigitOf(c).Some? || c == '='
  }

  type Symbol = c: char | Counted(c) witness '='

  function SymbolValue(c: Symbol): Digit
  {
    if c == '=' then 0 else DigitOf(c).value
  }

  function Taken(c: char): (r: seq<Symbol>)
    ensures |r| <= 1
  {
    if Counted(c) then [c] else []
  }

  /** The characters of a text that the decoder does not skip. */
  function Symbols(s: string): (r: seq<Symbol>)
    ensures |r| <= |s|
  {
    if s == [] then [] else Symbols(s[..|s| - 1]) + Taken(s[|s| - 1])
  }

  function Vals(sym: seq<Symbol>): (vs: seq<Digit>)
    ensures |vs| == |sym|
  {
    seq(|sym|, i requires 0 <= i < |sym| => SymbolValue(sym[i]))
  }

  function Pads(sym: seq<Symbol>): (n: nat)
    ensures n <= |sym|
  {
    if sym == [] then 0 else Pads(sym[..|sym| - 1]) + (if sym[|sym| - 1] == '=' then 1 else 0)
  }

  function Extra(count: nat): (n: nat)
    ensures n < 8 && (count + n) % 8 == 0
  {
    (8 - count % 8) % 8
  }

  function Equals(n: nat): (r: string)
    ensures |r| == n
  {
    seq(n, _ => '=')
  }

  /** The symbols of a text, filled up to whole blocks of eight. */
  function Stream(text: string): seq<Symbol>
  {
    Symbols(text + Equals(Extra(|Symbols(text)|)))
  }

  /** The octets kept of the blocks: up to the first block with padding, less the octets that are padding only. */
  function Kept(sym: seq<Symbol>): (n: nat)
    ensures 8 * n <= 5 * |sym|
  {
    if |sym| < 8 then 0
    else if Pads(sym[..8]) > 0 then 5 - Pads(sym[..8]) * 5 / 8
    else 5 + Kept(sym[8..])
  }

  function WholeOctets(bits: seq<bool>, n: nat): (r: seq<bool>)
    requires 8 * n <= |bits|
    ensures |r| == 8 * n && |r| % 8 == 0
  {
    bits[..8 * n]
  }

  /** The bits a text stands for. */
  function DecodedBits(text: string): (bits: seq<bool>)
    ensures |bits| % 8 == 0
  {
    WholeOctets(QuintBits(Vals(Stream(text))), Kept(Stream(text)))
  }

  lemma {:induction false} SymbolsAppend(s: string, t: string)
    ensures Symbols(s + t) == Symbols(s) + Symbols(t)
  {
    hide Taken;
    if t == [] {
      assert s + t == s;
    } else {
      var init := t[..|t| - 1];
      SymbolsAppend(s, init);
      assert (s + t)[..|s + t| - 1] == s + init;
      assert Symbols(s) + Symbols(init) + Taken(t[|t| - 1]) == Symbols(s) + (Symbols(init) + Taken(t[|t| - 1]));
    }
  }

  lemma {:induction false} SymbolsOfEquals(n: nat)
    ensures Symbols(Equals(n)) == Equals(n)
  {
    if n > 0 {
      SymbolsOfEquals(n - 1);
      assert Equals(n)[..n - 1] == Equals(n - 1);
      assert Equals(n) == Equals(n - 1) + ['='];
    }
  }

  lemma StreamIs(text: string)
    ensures Stream(text) == Symbols(text) + Equals(Extra(|Symbols(text)|))
  {
    hide Symbols, Extra;
    SymbolsAppend(text, Equals(Extra(|Symbols(text)|)));
    SymbolsOfEquals(Extra(|Symbols(text)|));
  }

  /** The next character is skipped or is the next symbol. */
  lemma NextSymbol(full: string, i: nat)
    requires i < |full|
    ensures var c := |Symbols(full[..i])|;
            if Counted(full[i]) then c < |Symbols(full)| && Symbols(full)[c] == full[i] && |Symbols(full[..i + 1])| == c + 1
            else |Symbols(full[..i + 1])| == c
  {
    assert full == full[..i + 1] + full[i + 1..];
    SymbolsAppend(full[..i + 1], full[i + 1..]);
    assert full[..i + 1][..i] == full[..i];
  }

  // Blocks ----------------------------------------------------------------------------------------

  lemma NumOfDigit(v: Digit)
    ensures Num(FiveBits(v)) == v
  {
    hide Num;
    NumOfFive(FiveBits(v));
  }

  lemma PushSymbol(sym: seq<Symbol>, a: nat, c: nat)
    requires a <= c < |sym|
    ensures QuintBits(Vals(sym[a..c + 1])) == QuintBits(Vals(sym[a..c])) + FiveBits(SymbolValue(sym[c]))
    ensures Num(QuintBits(Vals(sym[a..c + 1]))) == Num(QuintBits(Vals(sym[a..c]))) * 32 + SymbolValue(sym[c])
    ensures Pads(sym[a..c + 1]) == Pads(sym[a..c]) + (if sym[c] == '=' then 1 else 0)
  {
    hide Num, FiveBits, SymbolValue, Power;
    var vs := Vals(sym[a..c + 1]);
    assert sym[a..c + 1][..c - a] == sym[a..c];
    assert vs[..|vs| - 1] == Vals(sym[a..c]);
    NumAppend(QuintBits(Vals(sym[a..c])), FiveBits(SymbolValue(sym[c])));
    NumOfDigit(SymbolValue(sym[c]));
    SmallPowers();
  }

  /** Octet k of a block of forty bits. */
  function BlockOctet(block: nat, k: nat): bv8
    requires k < 5
  {
    OctetOf((block / Power(2, 32 - 8 * k)) % 256)
  }

  lemma BlockOctetBits(bits: seq<bool>, k: nat)
    requires |bits| == 40 && k < 5
    ensures BitsOf([BlockOctet(Num(bits), k)]) == bits[8 * k..8 * k + 8]
  {
    hide Num, BitsOf, Power;
    NumMiddle(bits, 8 * k, 8 * k + 8);
    SmallPowers();
    OctetOfBits(bits[8 * k..8 * k + 8]);
  }

  lemma SameEights(a: seq<bool>, b: seq<bool>)
    requires |a| == |b| == 40 && forall k | 0 <= k < 5 :: a[8 * k..8 * k + 8] == b[8 * k..8 * k + 8]
    ensures a == b
  {
    assert a == a[8 * 0..8] + a[8 * 1..16] + a[8 * 2..24] + a[8 * 3..32] + a[8 * 4..40];
    assert b == b[8 * 0..8] + b[8 * 1..16] + b[8 * 2..24] + b[8 * 3..32] + b[8 * 4..40];
  }

  lemma BlockBits(o: Octets, bits: seq<bool>)
    requires |bits| == 40 && |o| == 5 && forall k | 0 <= k < 5 :: o[k] == BlockOctet(Num(bits), k)
    ensures BitsOf(o) == bits
  {
    hide Num, BitsOf, BlockOctet;
    forall k | 0 <= k < 5
      ensures BitsOf(o)[8 * k..8 * k + 8] == bits[8 * k..8 * k + 8]
    {
      BlockOctetBits(bits, k);
      BitsSlice(o, k, k + 1);
      assert o[k..k + 1] == [o[k]];
    }
    SameEights(BitsOf(o), bits);
  }

  method WriteBlock(out: array<bv8>, pos: nat, block: nat, ghost bits: seq<bool>)
    requires |bits| == 40 && block == Num(bits) && pos + 5 <= out.Length
    modifies out
    ensures BitsOf(out[..pos + 5]) == old(BitsOf(out[..pos])) + bits
  {
    hide Num, BitsOf, BlockOctet;
    ghost var was := out[..pos];
    out[pos], out[pos + 1], out[pos + 2], out[pos + 3], out[pos + 4] :=
      BlockOctet(block, 0), BlockOctet(block, 1), BlockOctet(block, 2), BlockOctet(block, 3), BlockOctet(block, 4);
    BlockBits(out[pos..pos + 5], bits);
    assert out[..pos + 5] == was + out[pos..pos + 5];
    BitsAppend(was, out[pos..pos + 5]);
  }

  // Decoding ---------------------------------------------------------------------------------------

  /** Where the decoder stands after c symbols: b blocks are written and the rest is in the block. */
  ghost predicate Reading(sym: seq<Symbol>, c: nat, b: nat, block: nat, pad: nat, o: Octets)
  {
    && 8 * b <= c <= 8 * b + 8 && c <= |sym|
    && block == Num(QuintBits(Vals(sym[8 * b..c]))) && pad == Pads(sym[8 * b..c])
    && |o| == 5 * b && BitsOf(o) == QuintBits(Vals(sym[..8 * b]))
    && Kept(sym) == 5 * b + Kept(sym[8 * b..])
  }

  ghost predicate Finished(sym: seq<Symbol>, o: Octets)
  {
    |o| == Kept(sym) && BitsOf(o) == QuintBits(Vals(sym))[..8 * Kept(sym)]
  }

  lemma NothingRead(sym: seq<Symbol>)
    ensures Reading(sym, 0, 0, 0, 0, [])
  {
    assert sym[0..] == sym;
  }

  lemma ReadSymbol(sym: seq<Symbol>, c: nat, b: nat, block: nat, pad: nat, o: Octets)
    requires Reading(sym, c, b, block, pad, o) && c < |sym| && c < 8 * b + 8
    ensures Reading(sym, c + 1, b, block * 32 + SymbolValue(sym[c]), pad + (if sym[c] == '=' then 1 else 0), o)
  {
    hide Num, BitsOf, QuintBits, Vals, Pads, Kept, SymbolValue;
    PushSymbol(sym, 8 * b, c);
  }

  lemma BitsOfPrefix(sym: seq<Symbol>, m: nat, n: nat)
    requires m <= n <= |sym|
    ensures QuintBits(Vals(sym[..n])) == QuintBits(Vals(sym[..m])) + QuintBits(Vals(sym[m..n]))
  {
    hide QuintBits, SymbolValue;
    assert Vals(sym[..n]) == Vals(sym[..m]) + Vals(sym[m..n]);
    QuintBitsAppend(Vals(sym[..m]), Vals(sym[m..n]));
  }

  lemma NoSymbols(sym: seq<Symbol>, i: nat)
    requires i <= |sym|
    ensures Num(QuintBits(Vals(sym[i..i]))) == 0 && Pads(sym[i..i]) == 0
  {
    assert sym[i..i] == [];
    assert Vals(sym[i..i]) == [];
  }

  /** A whole block is written and goes on to the next, or ends the reading. */
  lemma BlockRead(sym: seq<Symbol>, b: nat, block: nat, pad: nat, o: Octets, o': Octets)
    requires Reading(sym, 8 * b + 8, b, block, pad, o)
    requires |o'| == 5 * b + 5 && BitsOf(o') == BitsOf(o) + QuintBits(Vals(sym[8 * b..8 * b + 8]))
    ensures pad == 0 ==> Reading(sym, 8 * b + 8, b + 1, 0, 0, o')
    ensures pad > 0 ==> pad <= 8 && Finished(sym, o'[..5 * b + 5 - pad * 5 / 8])
  {
    hide Num, BitsOf, QuintBits, Vals, Pads;
    BitsOfPrefix(sym, 8 * b, 8 * b + 8);
    var rest := sym[8 * b..];
    assert rest[..8] == sym[8 * b..8 * b + 8] && rest[8..] == sym[8 * (b + 1)..];
    if pad == 0 {
      NoSymbols(sym, 8 * (b + 1));
    } else {
      var k := 5 * b + 5 - pad * 5 / 8;
      BitsSlice(o', 0, k);
      BitsOfPrefix(sym, 8 * b + 8, |sym|);
      assert sym[..|sym|] == sym && o'[0..k] == o'[..k];
      assert QuintBits(Vals(sym))[..8 * k] == BitsOf(o')[..8 * k];
    }
  }

  lemma AllRead(sym: seq<Symbol>, c: nat, b: nat, block: nat, pad: nat, o: Octets)
    requires Reading(sym, c, b, block, pad, o) && c == |sym| < 8 * b + 8 && |sym| % 8 == 0
    ensures Finished(sym, o)
  {
    hide Num, BitsOf, QuintBits, Vals, Pads;
    assert c == 8 * b;
    assert sym[..8 * b] == sym && sym[8 * b..] == [];
  }

  method CountSymbols(src: string) returns (count: nat)
    ensures count == |Symbols(src)|
  {
    count := 0;
    for i := 0 to |src|
      invariant count == |Symbols(src[..i])|
    {
      assert src[..i + 1][..i] == src[..i];
      if Counted(src[i]) {
        count := count + 1;
      }
    }
    assert src[..|src|] == src;
  }

  lemma BlockFits(sym: seq<Symbol>, b: nat, block: nat, pad: nat, o: Octets)
    requires Reading(sym, 8 * b + 8, b, block, pad, o)
    ensures 8 * b + 8 <= |sym| && block == Num(QuintBits(Vals(sym[8 * b..8 * b + 8])))
  {
  }

  /** The octets of a whole block, less those that are padding only. */
  method EndBlock(out: array<bv8>, pos: nat, block: nat, pad: nat, ghost sym: seq<Symbol>, ghost b: nat) returns (pos': nat)
    requires pos == 5 * b && pos + 5 <= out.Length && Reading(sym, 8 * b + 8, b, block, pad, out[..pos])
    modifies out
    ensures pos' <= out.Length
    ensures if pad == 0 then pos' == pos + 5 && Reading(sym, 8 * b + 8, b + 1, 0, 0, out[..pos'])
            else Finished(sym, out[..pos'])
  {
    hide Num, BitsOf, QuintBits, Vals, Pads, Kept, Reading, Finished;
    BlockFits(sym, b, block, pad, out[..pos]);
    ghost var was := out[..pos];
    WriteBlock(out, pos, block, QuintBits(Vals(sym[8 * b..8 * b + 8])));
    BlockRead(sym, b, block, pad, was, out[..pos + 5]);
    pos' := pos + 5;
    if pad > 0 {
      assert out[..pos'][..pos' - pad * 5 / 8] == out[..pos' - pad * 5 / 8];
      pos' := pos' - pad * 5 / 8;
    }
  }

  lemma NoneTaken(full: string)
    ensures |Symbols(full[..0])| == 0
  {
  }

  lemma FinishedIs(src: string, o: Octets)
    requires Finished(Stream(src), o)
    ensures BitsOf(o) == DecodedBits(src)
  {
  }

  /** sae_pk_base32_decode; nothing when no character counts. Every write is inside the buffer. */
  method Decode(src: string) returns (r: Option<Octets>)
    ensures r.None? <==> Symbols(src) == []
    ensures r.Some? ==> BitsOf(r.value) == DecodedBits(src)
  {
    hide Num, BitsOf, QuintBits, Vals, Pads, Kept, Symbols, SymbolValue, Reading, Finished, Counted;
    var count := CountSymbols(src);
    if count == 0 {
      return None;
    }
    var extra := Extra(count);
    ghost var full := src + Equals(extra);
    ghost var sym := Symbols(full);
    StreamIs(src);
    var out := new bv8[(count + extra) / 8 * 5];
    var pos: nat, block: nat, pad: nat := 0, 0, 0;
    count := 0;
    ghost var b: nat, c: nat := 0, 0;
    NothingRead(sym);
    NoneTaken(full);
    assert out[..0] == [];
    for i := 0 to |src| + extra
      invariant c == |Symbols(full[..i])| && count == c - 8 * b && 0 <= count < 8 && pos == 5 * b <= out.Length
      invariant Reading(sym, c, b, block, pad, out[..pos])
    {
      var val := if i >= |src| then '=' else src[i];
      NextSymbol(full, i);
      if Counted(val) {
        ReadSymbol(sym, c, b, block, pad, out[..pos]);
        if val == '=' {
          pad := pad + 1;
        }
        block := block * 32 + SymbolValue(val);
        count, c := count + 1, c + 1;
        if count == 8 {
          pos := EndBlock(out, pos, block, pad, sym, b);
          if pad > 0 {
            FinishedIs(src, out[..pos]);
            return Some(out[..pos]);
          }
          count, block, b := 0, 0, b + 1;
        }
      }
    }
    assert full[..|full|] == full;
    AllRead(sym, c, b, block, pad, out[..pos]);
    FinishedIs(src, out[..pos]);
    r := Some(out[..pos]);
  }

  // Texts without padding characters ---------------------------------------------------------------

  lemma PlainSymbol(c: char)
    requires c != '='
    ensures '=' !in Taken(c) && Vals(Taken(c)) == Single(c)
  {
    hide DigitOf;
  }

  /** The symbols of a text without padding characters are the alphabet's characters in it. */
  lemma {:induction false} PlainSymbols(s: string)
    requires '=' !in s
    ensures '=' !in Symbols(s) && Vals(Symbols(s)) == Values(s)
  {
    hide Taken, Single, Values, SymbolValue;
    if s == [] {
      NoValues();
    } else {
      var init, c := s[..|s| - 1], s[|s| - 1];
      PlainSymbols(init);
      PlainSymbol(c);
      assert s == init + [c];
      ValuesAppend(init, [c]);
      ValuesOne(c);
      assert Vals(Symbols(s)) == Vals(Symbols(init)) + Vals(Taken(c));
    }
  }

  lemma {:induction false} NoPads(sym: seq<Symbol>)
    requires '=' !in sym
    ensures Pads(sym) == 0
  {
    if sym != [] {
      NoPads(sym[..|sym| - 1]);
    }
  }

  lemma {:induction false} OnlyPads(sym: seq<Symbol>, n: nat)
    requires '=' !in sym
    ensures Pads(sym + Equals(n)) == n
  {
    if n == 0 {
      assert sym + Equals(0) == sym;
      NoPads(sym);
    } else {
      OnlyPads(sym, n - 1);
      assert (sym + Equals(n))[..|sym| + n - 1] == sym + Equals(n - 1);
    }
  }

  /** Filling up to whole blocks costs no bits: all octets that the digits reach into are kept. */
  lemma {:induction false} KeptPlain(sym: seq<Symbol>, n: nat)
    requires '=' !in sym && n < 8 && (|sym| + n) % 8 == 0
    ensures Kept(sym + Equals(n)) == (5 * |sym| + 7) / 8
    decreases |sym|
  {
    hide Pads, Equals;
    var all := sym + Equals(n);
    if |sym| >= 8 {
      assert all[..8] == sym[..8] && all[8..] == sym[8..] + Equals(n);
      NoPads(sym[..8]);
      KeptPlain(sym[8..], n);
    } else if |sym| > 0 {
      assert all[..8] == all;
      OnlyPads(sym, n);
    }
  }

  lemma NoDigitBits()
    ensures FiveBits(0) == Zeros(5)
  {
  }

  /** Padding characters stand for zeros. */
  lemma {:induction false} PaddingBits(n: nat)
    ensures QuintBits(Vals(Equals(n))) == Zeros(5 * n)
  {
    hide FiveBits;
    if n > 0 {
      PaddingBits(n - 1);
      NoDigitBits();
      var vs := Vals(Equals(n));
      assert vs[..n - 1] == Vals(Equals(n - 1)) && vs[n - 1] == 0;
      assert Zeros(5 * n) == Zeros(5 * n - 5) + Zeros(5);
    }
  }

  /** What a text without padding characters stands for: the bits of its digits, up to seven zeros after them. */
  lemma PlainText(text: string)
    requires '=' !in text
    ensures var vs := Values(text);
            && |DecodedBits(text)| == 8 * ((5 * |vs| + 7) / 8)
            && DecodedBits(text) == QuintBits(vs) + Zeros(8 * ((5 * |vs| + 7) / 8) - 5 * |vs|)
  {
    hide Symbols, Values, Vals, QuintBits, Kept, Extra, Equals;
    var sym := Symbols(text);
    StreamIs(text);
    PlainSymbols(text);
    KeptPlain(sym, Extra(|sym|));
    BitsOfPrefix(Stream(text), |sym|, |Stream(text)|);
    assert Stream(text)[..|sym|] == sym && Stream(text)[..|Stream(text)|] == Stream(text);
    assert Stream(text)[|sym|..|Stream(text)|] == Equals(Extra(|sym|));
    PaddingBits(Extra(|sym|));
  }

  // Round trip -------------------------------------------------------------------------------------

  lemma NotPadding(v: Digit)
    ensures CharOf(v) != '='
  {
    hide CharOf;
    DigitOfChar(v);
  }

  lemma {:induction false} DashedPlain(vs: seq<Digit>)
    ensures '=' !in Dashed(vs)
  {
    hide CharOf;
    if vs != [] {
      DashedPlain(vs[..|vs| - 1]);
      NotPadding(vs[|vs| - 1]);
    }
  }

  lemma ValuesOfEncoded(src: Octets, lenBits: nat)
    requires |src| >= (lenBits + 7) / 8
    ensures '=' !in Encoded(src, lenBits)
    ensures |Values(Encoded(src, lenBits))| == (lenBits + 4) / 5 + 1
    ensures Values(Encoded(src, lenBits))[..(lenBits + 4) / 5] == Digits(src, lenBits)
  {
    hide Dashed, CharOf, Digits, DigitOf, Accumulated;
    var vs := Digits(src, lenBits);
    var text := Dashed(vs);
    var v := Inverted(Accumulated(Values(text), 1));
    DashedPlain(vs);
    NotPadding(v);
    ValuesOfDashed(vs);
    DigitOfChar(v);
    ValuesAppend(text, [CharOf(v)]);
    ValuesOne(CharOf(v));
  }

  /** Reading what was written gives back every bit, for every number of bits. */
  lemma RoundTrip(src: Octets, lenBits: nat)
    requires |src| >= (lenBits + 7) / 8
    ensures |DecodedBits(Encoded(src, lenBits))| >= lenBits
    ensures DecodedBits(Encoded(src, lenBits))[..lenBits] == BitsOf(src)[..lenBits]
  {
    hide DecodedBits, Encoded, BitsOf, QuintBits, Values, Quints, Blocks;
    var text, n := Encoded(src, lenBits), (lenBits + 4) / 5;
    var vs, bits := Values(text), BitsOf(Blocks(src, lenBits));
    ValuesOfEncoded(src, lenBits);
    PlainText(text);
    EnoughBits(lenBits, |Blocks(src, lenBits)|);
    BitsOfQuints(bits, n);
    SameBits(src, lenBits);
    QuintBitsAppend(vs[..n], vs[n..]);
    assert vs == vs[..n] + vs[n..];
    assert QuintBits(vs)[..5 * n] == bits[..5 * n];
    assert DecodedBits(text)[..lenBits] == QuintBits(vs)[..5 * n][..lenBits] == bits[..5 * n][..lenBits];
    assert bits[..5 * n][..lenBits] == bits[..lenBits];
  }

  // From the generator to the station --------------------------------------------------------------

  /** The marks that the generator puts at the head of every group agree. */
  lemma GroupMarks(hash: Octets, sec: nat, base: Octets, j: nat)
    requires SaePkGen.SupportedHash(|hash|, sec) && SaePkVerify.Printed(|hash|, sec, j) && |base| == SaePkGen.MAX_HASH_LEN
    requires var n := 8 * |hash| / 20;
             BitsOf(base) == SaePkBits.Stretch(SaePkGen.Source(hash, sec, n), sec == 3, n)
                             + Zeros(8 * SaePkGen.MAX_HASH_LEN - 20 * n)
    ensures |base| >= (20 * j + 2) / 8 && forall i | 0 <= i < j :: BitsOf(base)[20 * i] == BitsOf(base)[0]
  {
    hide BitsOf, SaePkGen.Source;
    SaePkVerify.PrintedUsesHashOnly(|hash|, sec, j);
  }

  /** The texts that a station accepts for a hash: valid ones, by the octets they stand for. */
  ghost predicate AcceptedText(hash: Octets, text: string)
  {
    && Valid(text) && |DecodedBits(text)| >= 24
    && SaePkVerify.Accepted(hash, OctetsOf(DecodedBits(text)), |text|)
  }

  lemma SpelledPlain(text: string)
    requires WellSpelled(text)
    ensures '=' !in text
  {
  }

  lemma SpelledOne(c: char)
    ensures |Single(c)| == (if DigitOf(c).Some? then 1 else 0) && DigitOf('-').None?
  {
  }

  lemma {:induction false} SpelledValues(text: string, n: nat)
    requires WellSpelled(text) && n <= |text|
    ensures |Values(text[..n])| == n - n / 5
  {
    hide DigitOf, Values;
    if n == 0 {
      NoValues();
    } else {
      SpelledValues(text, n - 1);
      assert text[..n] == text[..n - 1] + [text[n - 1]];
      ValuesAppend(text[..n - 1], [text[n - 1]]);
      ValuesOne(text[n - 1]);
      SpelledOne(text[n - 1]);
    }
  }

  lemma SomethingDecoded(text: string)
    requires |DecodedBits(text)| > 0
    ensures Symbols(text) != []
  {
    hide Symbols, Vals, QuintBits;
    StreamIs(text);
  }

  /** A valid password always decodes, to at least eight octets. */
  lemma ValidDecodes(text: string)
    requires Valid(text)
    ensures |text| >= 14 && |DecodedBits(text)| >= 64 && Symbols(text) != []
  {
    hide DigitOf, CheckChar, DecodedBits, Symbols, Values;
    SpelledPlain(text);
    assert text[..|text|] == text;
    SpelledValues(text, |text|);
    PlainText(text);
    SomethingDecoded(text);
  }

  /** sae_pk_set_password and the comparison with a hash. */
  method VerifyText(hash: array<bv8>, text: string) returns (ok: bool)
    modifies hash
    ensures ok == AcceptedText(old(hash[..]), text)
  {
    hide BitsOf, OctetsOf, Valid, Symbols, DecodedBits, SaePkVerify.Accepted;
    var valid := ValidPassword(text);
    if valid {
      ValidDecodes(text);
    }
    if |text| < 1 || !valid {
      return false;
    }
    var decoded := Decode(text);
    if decoded.None? {
      return false;
    }
    BitsOfOctets(DecodedBits(text));
    BitsInjective(decoded.value, OctetsOf(DecodedBits(text)));
    var pw := new bv8[|decoded.value|](i requires 0 <= i < |decoded.value| => decoded.value[i]);
    assert pw[..] == decoded.value;
    ok := SaePkVerify.VerifyPassword(hash, pw, |text|);
  }

  /** The text of every password that the generator prints for a hash is accepted for it. */
  lemma PrintedPasswordVerifies(hash: Octets, sec: nat, base: Octets, j: nat)
    requires SaePkGen.SupportedHash(|hash|, sec) && SaePkVerify.Printed(|hash|, sec, j)
    requires |base| == SaePkGen.MAX_HASH_LEN && SaePkVerify.Searched(hash, sec)
    requires var n := 8 * |hash| / 20;
             BitsOf(base) == SaePkBits.Stretch(SaePkGen.Source(hash, sec, n), sec == 3, n)
                             + Zeros(8 * SaePkGen.MAX_HASH_LEN - 20 * n)
    ensures |base| >= (20 * j + 2) / 8 && AcceptedText(hash, Encoded(base, 20 * j - 5))
  {
    hide BitsOf, OctetsOf, Encoded, Valid, WellSpelled, DecodedBits, SaePkBits.Stretch, SaePkVerify.Accepted;
    GroupMarks(hash, sec, base, j);
    EncodedValid(base, j);
    EncodedSpelled(base, j);
    var bits := DecodedBits(Encoded(base, 20 * j - 5));
    RoundTrip(base, 20 * j - 5);
    BitsOfOctets(bits);
    SaePkVerify.GeneratedPasswordVerifies(hash, sec, base, OctetsOf(bits), j);
  }
}
