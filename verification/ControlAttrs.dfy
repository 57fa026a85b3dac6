/** Attributes of the wlantest control interface: identifier, length and value, each number in four octets. */
module ControlAttrs {
  import opened Bits
  import opened Frames
  import opened Counters
  import Sqn

  const U32: nat := 0x1_0000_0000

  type Word32 = n: nat | n < U32

  function Be32(v: Word32): (r: Octets)
    ensures |r| == 4
  {
    Sqn.BeOctets(v, 4)
  }

  function ReadBe32(s: Octets): (v: Word32)
    requires |s| == 4
  {
    BeValueBound(s);
    Sqn.TwoOctets();
    BeValue(s)
  }

  lemma ReadWritten(v: Word32)
    ensures ReadBe32(Be32(v)) == v
  {
    hide Sqn.BeOctets, BeValue, Power;
    Sqn.BeOctetsValue(v, 4);
    Sqn.TwoOctets();
    ModSmall(v, U32);
  }

  lemma WrittenRead(s: Octets)
    requires |s| == 4
    ensures Be32(ReadBe32(s)) == s
  {
    hide Sqn.BeOctets, BeValue;
    ReadWritten(ReadBe32(s));
    BeValueInjective(Be32(ReadBe32(s)), s);
  }

  datatype Attr = Attr(id: Word32, data: Octets)

  ghost predicate Sized(attrs: seq<Attr>)
  {
    forall i | 0 <= i < |attrs| :: |attrs[i].data| < U32
  }

  function One(a: Attr): (r: Octets)
    requires |a.data| < U32
    ensures |r| == 8 + |a.data|
  {
    Be32(a.id) + Be32(|a.data|) + a.data
  }

  ghost function Encoded(attrs: seq<Attr>): Octets
    requires Sized(attrs)
  {
    if attrs == [] then [] else One(attrs[0]) + Encoded(attrs[1..])
  }

  /** No further attribute can be read: no room for its head, or a length that leaves the buffer. */
  predicate Stuck(s: Octets)
  {
    |s| < 8 || 8 + ReadBe32(s[4..8]) > |s|
  }

  function FirstAttr(s: Octets): (a: Attr)
    requires !Stuck(s)
    ensures |a.data| < U32 && 8 + |a.data| <= |s|
  {
    Attr(ReadBe32(s[..4]), s[8..8 + ReadBe32(s[4..8])])
  }

  /** The attributes that a walk over arbitrary octets meets. */
  ghost function Parsed(s: Octets): (attrs: seq<Attr>)
    ensures Sized(attrs)
    decreases |s|
  {
    if Stuck(s) then []
    else
      var a := FirstAttr(s);
      [a] + Parsed(s[8 + |a.data|..])
  }

  lemma FirstOfOne(a: Attr, rest: Octets)
    requires |a.data| < U32
    ensures var s := One(a) + rest; !Stuck(s) && FirstAttr(s) == a && s[8 + |a.data|..] == rest
  {
    hide Be32, ReadBe32;
    var s := One(a) + rest;
    assert s[..4] == Be32(a.id);
    assert s[4..8] == Be32(|a.data|);
    ReadWritten(a.id);
    ReadWritten(|a.data|);
    assert s[8..8 + |a.data|] == a.data;
  }

  lemma OneOfFirst(s: Octets)
    requires !Stuck(s)
    ensures var a := FirstAttr(s); One(a) + s[8 + |a.data|..] == s
  {
    hide Be32, ReadBe32;
    WrittenRead(s[..4]);
    WrittenRead(s[4..8]);
    var n := ReadBe32(s[4..8]);
    assert s == s[..4] + s[4..8] + s[8..8 + n] + s[8 + n..];
  }

  /** Reading what was written gives the same attributes, whatever unreadable octets follow. */
  lemma {:induction false} ParsedEncoded(attrs: seq<Attr>, tail: Octets)
    requires Sized(attrs) && Stuck(tail)
    ensures Parsed(Encoded(attrs) + tail) == attrs
  {
    hide One, Stuck, FirstAttr;
    if attrs == [] {
      assert Encoded(attrs) + tail == tail;
    } else {
      var rest := Encoded(attrs[1..]) + tail;
      assert Encoded(attrs) + tail == One(attrs[0]) + rest;
      FirstOfOne(attrs[0], rest);
      ParsedEncoded(attrs[1..], tail);
    }
  }

  /** On any octets at all, the attributes read are a prefix written out, and what is left is unreadable. */
  lemma {:induction false} EncodedParsed(s: Octets) returns (tail: Octets)
    ensures s == Encoded(Parsed(s)) + tail && Stuck(tail)
  {
    hide One, Stuck, FirstAttr;
    if Stuck(s) {
      tail := s;
      assert [] + tail == s;
    } else {
      var a := FirstAttr(s);
      OneOfFirst(s);
      var rest := s[8 + |a.data|..];
      tail := EncodedParsed(rest);
      assert Parsed(s)[1..] == Parsed(rest);
      assert One(a) + (Encoded(Parsed(rest)) + tail) == One(a) + Encoded(Parsed(rest)) + tail;
    }
  }

  /** Index of the first attribute with an identifier, or the number of attributes. */
  ghost function First(attrs: seq<Attr>, id: Word32): (k: nat)
    ensures k <= |attrs| && (k < |attrs| ==> attrs[k].id == id) && forall i | 0 <= i < k :: attrs[i].id != id
  {
    if attrs == [] || attrs[0].id == id then 0 else 1 + First(attrs[1..], id)
  }

  datatype Range = Range(from: nat, len: nat)

  /** The range holds the value of the first attribute with the identifier. */
  ghost predicate Holds(s: Octets, id: Word32, r: Range)
  {
    var attrs := Parsed(s);
    var k := First(attrs, id);
    && k < |attrs| && r.from + r.len <= |s|
    && s[r.from..r.from + r.len] == attrs[k].data
    && r.from == |Encoded(attrs[..k])| + 8
  }

  /** A walk has passed k attributes and stands at pos. */
  ghost predicate At(buf: Octets, k: nat, pos: nat)
  {
    && pos <= |buf| && k <= |Parsed(buf)|
    && Parsed(buf[pos..]) == Parsed(buf)[k..] && pos == |Encoded(Parsed(buf)[..k])|
  }

  lemma AtStart(buf: Octets)
    ensures At(buf, 0, 0)
  {
    assert buf[0..] == buf;
    assert Parsed(buf)[..0] == [];
  }

  lemma AtEnd(buf: Octets, k: nat, pos: nat)
    requires At(buf, k, pos) && (pos + 8 <= |buf| ==> pos + 8 + ReadBe32(buf[pos + 4..pos + 8]) > |buf|)
    ensures k == |Parsed(buf)|
  {
    if pos + 8 <= |buf| {
      assert buf[pos..][4..8] == buf[pos + 4..pos + 8];
    }
    assert Stuck(buf[pos..]);
  }

  lemma FromHere(buf: Octets, pos: nat, a: nat, b: nat)
    requires a <= b && pos + b <= |buf|
    ensures buf[pos..][a..b] == buf[pos + a..pos + b] && buf[pos..][b..] == buf[pos + b..]
  {
  }

  lemma Step(s: Octets, id: Word32, n: nat)
    requires |s| >= 8 && id == ReadBe32(s[..4]) && n == ReadBe32(s[4..8]) && 8 + n <= |s|
    ensures Parsed(s) == [Attr(id, s[8..8 + n])] + Parsed(s[8 + n..])
  {
  }

  lemma {:induction false} EncodedMore(attrs: seq<Attr>, k: nat)
    requires Sized(attrs) && k < |attrs|
    ensures Encoded(attrs[..k + 1]) == Encoded(attrs[..k]) + One(attrs[k])
  {
    hide One;
    if k == 0 {
      assert attrs[..1] == [attrs[0]];
    } else {
      EncodedMore(attrs[1..], k - 1);
      assert attrs[..k + 1][1..] == attrs[1..][..k] && attrs[..k][1..] == attrs[1..][..k - 1];
      assert attrs[1..][k - 1] == attrs[k];
    }
  }

  lemma AtNext(buf: Octets, k: nat, pos: nat, id: Word32, n: nat)
    requires At(buf, k, pos) && pos + 8 + n <= |buf|
    requires id == ReadBe32(buf[pos..pos + 4]) && n == ReadBe32(buf[pos + 4..pos + 8])
    ensures k < |Parsed(buf)| && Parsed(buf)[k] == Attr(id, buf[pos + 8..pos + 8 + n])
    ensures pos == |Encoded(Parsed(buf)[..k])| && At(buf, k + 1, pos + 8 + n)
  {
    hide ReadBe32, Parsed, Encoded, Stuck, FirstAttr;
    var s, attrs := buf[pos..], Parsed(buf);
    FromHere(buf, pos, 0, 4);
    FromHere(buf, pos, 4, 8);
    FromHere(buf, pos, 8, 8 + n);
    Step(s, id, n);
    assert attrs[k] == attrs[k..][0] && attrs[k..][1..] == attrs[k + 1..];
    EncodedMore(attrs, k);
  }

  lemma FirstAt(attrs: seq<Attr>, id: Word32, k: nat)
    requires k < |attrs| && attrs[k].id == id && forall i | 0 <= i < k :: attrs[i].id != id
    ensures First(attrs, id) == k
  {
    var f := First(attrs, id);
    assert f < |attrs|;
  }

  /** attr_get on arbitrary octets. */
  method AttrGet(buf: Octets, id: Word32) returns (r: Option<Range>)
    ensures r.None? <==> forall i | 0 <= i < |Parsed(buf)| :: Parsed(buf)[i].id != id
    ensures r.Some? ==> Holds(buf, id, r.value)
  {
    hide At, Parsed, Encoded, ReadBe32, First;
    AtStart(buf);
    ghost var k := 0;
    var pos := 0;
    while pos + 8 <= |buf|
      invariant pos <= |buf| && k <= |Parsed(buf)| && At(buf, k, pos)
      invariant forall i | 0 <= i < k :: Parsed(buf)[i].id != id
      decreases |buf| - pos
    {
      var a := ReadBe32(buf[pos..pos + 4]);
      var alen := ReadBe32(buf[pos + 4..pos + 8]);
      if pos + 8 + alen > |buf| {
        AtEnd(buf, k, pos);
        return None;
      }
      AtNext(buf, k, pos, a, alen);
      if a == id {
        FirstAt(Parsed(buf), id, k);
        return Some(Range(pos + 8, alen));
      }
      k := k + 1;
      pos := pos + 8 + alen;
    }
    AtEnd(buf, k, pos);
    r := None;
  }

  // Writing ----------------------------------------------------------------------------------------

  /** attr_add_str and attr_add_be32: an attribute at pos, or nothing when it does not fit before end. */
  method AttrAdd(dst: array<bv8>, pos: Option<nat>, end: nat, a: Attr) returns (r: Option<nat>)
    requires end <= dst.Length && (pos.Some? ==> pos.value <= end) && |a.data| < U32
    modifies dst
    ensures r.Some? <==> pos.Some? && pos.value + 8 + |a.data| <= end
    ensures r.None? ==> dst[..] == old(dst[..])
    ensures r.Some? ==> r.value == pos.value + 8 + |a.data| && dst[..r.value] == old(dst[..pos.value]) + One(a)
    ensures r.Some? ==> dst[r.value..] == old(dst[pos.value + 8 + |a.data|..])
  {
    if pos.None? || end - pos.value < 8 + |a.data| {
      return None;
    }
    hide Be32;
    ghost var tail := dst[pos.value + 8 + |a.data|..];
    var p := Append(dst, pos.value, Be32(a.id));
    assert dst[p..][4 + |a.data|..] == tail;
    p := Append(dst, p, Be32(|a.data|));
    assert dst[p..][|a.data|..] == tail;
    p := Append(dst, p, a.data);
    r := Some(p);
  }

  /** attr_add_be32. */
  method AttrAddBe32(dst: array<bv8>, pos: Option<nat>, end: nat, id: Word32, val: Word32) returns (r: Option<nat>)
    requires end <= dst.Length && (pos.Some? ==> pos.value <= end)
    modifies dst
    ensures r.Some? <==> pos.Some? && pos.value + 12 <= end
    ensures r.None? ==> dst[..] == old(dst[..])
    ensures r.Some? ==> r.value == pos.value + 12 && dst[..r.value] == old(dst[..pos.value]) + One(Attr(id, Be32(val)))
    ensures r.Some? ==> dst[r.value..] == old(dst[pos.value + 12..])
  {
    r := AttrAdd(dst, pos, end, Attr(id, Be32(val)));
  }

  // Typed reads ------------------------------------------------------------------------------------

  ghost function Value(attrs: seq<Attr>, id: Word32): Option<Octets>
  {
    var k := First(attrs, id);
    if k < |attrs| then Some(attrs[k].data) else None
  }

  /** attr_get_macaddr. */
  method AttrGetMacaddr(buf: Octets, id: Word32) returns (r: Option<Octets>)
    ensures var v := Value(Parsed(buf), id); r == if v.Some? && |v.value| == 6 then v else None
  {
    var range := AttrGet(buf, id);
    if range.None? || range.value.len != 6 {
      return None;
    }
    r := Some(buf[range.value.from..range.value.from + 6]);
  }

  /** A 32-bit pattern read as an int. */
  function Signed(v: Word32): (r: int)
    ensures -0x8000_0000 <= r < 0x8000_0000 && (r - v) % U32 == 0
  {
    if v < 0x8000_0000 then v else v - U32
  }

  ghost function IntOf(attrs: seq<Attr>, id: Word32): int
  {
    var v := Value(attrs, id);
    if v.Some? && |v.value| == 4 then Signed(ReadBe32(v.value)) else -1
  }

  /** attr_get_int. */
  method AttrGetInt(buf: Octets, id: Word32) returns (r: int)
    ensures r == IntOf(Parsed(buf), id)
  {
    var range := AttrGet(buf, id);
    if range.None? || range.value.len != 4 {
      return -1;
    }
    r := Signed(ReadBe32(buf[range.value.from..range.value.from + 4]));
  }

  /**
   * A number written among other attributes is read back, as a signed one. The reader can tell it
   * from a missing attribute exactly when it is not 2^32 - 1.
   */
  lemma IntRoundTrip(before: seq<Attr>, id: Word32, v: Word32, after: seq<Attr>, tail: Octets)
    requires Sized(before) && Sized(after) && Stuck(tail) && forall i | 0 <= i < |before| :: before[i].id != id
    ensures var attrs := before + [Attr(id, Be32(v))] + after;
            var r := IntOf(Parsed(Encoded(attrs) + tail), id);
            r == Signed(v) && (r == -1 <==> v == U32 - 1)
  {
    hide Be32, ReadBe32, Stuck, Encoded, Parsed;
    var attrs := before + [Attr(id, Be32(v))] + after;
    ParsedEncoded(attrs, tail);
    FirstAt(attrs, id, |before|);
    ReadWritten(v);
  }

  // LIST_BSS ---------------------------------------------------------------------------------------

  const MAX_RESP_LEN: nat := 1000
  const SUCCESS: Word32 := 0
  const ATTR_BSSID: Word32 := 0
  const MAX_LISTED: nat := 164  // (1000 - 12) / 6

  ghost function Concat(ms: seq<Mac>): (r: Octets)
    ensures |r| == 6 * |ms|
  {
    if ms == [] then [] else Concat(ms[..|ms| - 1]) + ms[|ms| - 1]
  }

  ghost function Listed(bssids: seq<Mac>): seq<Mac>
  {
    if |bssids| <= MAX_LISTED then bssids else bssids[..MAX_LISTED]
  }

  /** The length field at a position, once the value after it is complete. */
  method FillLength(buf: array<bv8>, at: nat, pos: nat)
    requires at + 4 <= pos <= buf.Length && pos < U32
    modifies buf
    ensures buf[..pos] == old(buf[..at]) + Be32(pos - at - 4) + old(buf[at + 4..pos])
  {
    hide Be32;
    ghost var w := buf[..];
    var n := Be32(pos - at - 4);
    Put(buf, at, n);
    OverlaySlice(w, at, n, 0, at);
    OverlaySlice(w, at, n, at, at + 4);
    OverlaySlice(w, at, n, at + 4, pos);
    assert buf[..pos] == buf[..at] + buf[at..at + 4] + buf[at + 4..pos];
  }

  method AppendFitting(buf: array<bv8>, at: nat, bssids: seq<Mac>) returns (pos: nat)
    requires at == 12 && buf.Length == MAX_RESP_LEN
    modifies buf
    ensures pos == at + 6 * |Listed(bssids)| <= MAX_RESP_LEN
    ensures buf[..at] == old(buf[..at]) && buf[at..pos] == Concat(Listed(bssids))
  {
    pos := at;
    var i := 0;
    while i < |bssids| && pos + 6 <= MAX_RESP_LEN
      invariant i <= |bssids| && pos == at + 6 * i <= MAX_RESP_LEN
      invariant buf[..pos] == old(buf[..at]) + Concat(bssids[..i])
    {
      assert bssids[..i + 1][..i] == bssids[..i];
      pos := Append(buf, pos, bssids[i]);
      i := i + 1;
    }
    assert bssids[..i] == Listed(bssids);
    assert buf[..at] == buf[..pos][..at] && buf[at..pos] == buf[..pos][at..];
  }

  lemma ZeroWord()
    ensures Be32(SUCCESS) == [0, 0, 0, 0] && Be32(ATTR_BSSID) == [0, 0, 0, 0]
  {
  }

  /** ctrl_list_bss: the length field is filled in when the addresses that fit are known. */
  method ListBss(bssids: seq<Mac>) returns (resp: Octets)
    ensures |resp| <= MAX_RESP_LEN
    ensures resp == Be32(SUCCESS) + One(Attr(ATTR_BSSID, Concat(Listed(bssids))))
    ensures |Listed(bssids)| == (if |bssids| < 164 then |bssids| else 164) && |resp| == 12 + 6 * |Listed(bssids)|
    ensures resp[..8] == [0, 0, 0, 0, 0, 0, 0, 0]
  {
    ZeroWord();
    hide Be32, Concat;
    var buf := new bv8[MAX_RESP_LEN](_ => 0);
    var len := Append(buf, 0, Be32(SUCCESS) + Be32(ATTR_BSSID));
    ghost var head := buf[..len + 4];
    assert head[..len] == Be32(SUCCESS) + Be32(ATTR_BSSID);
    var pos := AppendFitting(buf, len + 4, bssids);
    assert buf[..len] == buf[..len + 4][..len] == head[..len];
    FillLength(buf, len, pos);
    resp := buf[..pos];
  }

  /** A client reads the list back as one attribute. */
  lemma ListReadable(bssids: seq<Mac>)
    ensures var a := Attr(ATTR_BSSID, Concat(Listed(bssids)));
            Parsed((Be32(SUCCESS) + One(a))[4..]) == [a]
  {
    hide One;
    var a := Attr(ATTR_BSSID, Concat(Listed(bssids)));
    assert (Be32(SUCCESS) + One(a))[4..] == One(a);
    assert Encoded([a]) + [] == One(a);
    ParsedEncoded([a], []);
  }
}
