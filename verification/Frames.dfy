/** IEEE 802.11 headers as octet strings, and writes into octet buffers. */
module Frames {
  import opened Bits

  datatype Option<+T> = None | Some(value: T)

  type Mac = s: Octets | |s| == 6 witness [0, 0, 0, 0, 0, 0]

  const TYPE_MGMT: bv16 := 0
  const TYPE_CTRL: bv16 := 1
  const TYPE_DATA: bv16 := 2
  const TYPE_EXT: bv16 := 3

  const TODS: bv16 := 0x0100
  const FROMDS: bv16 := 0x0200
  const RETRY: bv16 := 0x0800
  const PWRMGT: bv16 := 0x1000

  function Le16(b0: bv8, b1: bv8): bv16
  {
    (b1 as bv16 << 8) | b0 as bv16
  }

  function Low(v: bv16): bv8 { (v & 0xff) as bv8 }

  function High(v: bv16): bv8 { (v >> 8) as bv8 }

  function Fc(f: Octets): bv16
    requires |f| >= 2
  {
    Le16(f[0], f[1])
  }

  function FcType(fc: bv16): bv16 { (fc & 0x000c) >> 2 }

  function FcStype(fc: bv16): bv16 { (fc & 0x00f0) >> 4 }

  predicate FourAddr(fc: bv16) { fc & (TODS | FROMDS) == TODS | FROMDS }

  predicate QosData(fc: bv16) { FcType(fc) == TYPE_DATA && FcStype(fc) & 0x08 != 0 }

  /** A Frame Control field without Retry, Power Management and More Data. */
  function WithoutFlags(fc: bv16): bv16 { fc & 0xc7ff }

  function Addr1(f: Octets): Mac
    requires |f| >= 24
  {
    f[4..10]
  }

  function Addr2(f: Octets): Mac
    requires |f| >= 24
  {
    f[10..16]
  }

  function Addr3(f: Octets): Mac
    requires |f| >= 24
  {
    f[16..22]
  }

  function ZeroOctets(n: nat): (r: Octets)
    ensures |r| == n
  {
    seq(n, _ => 0)
  }

  /** Octets s with src written over them from position at. */
  function Overlay(s: Octets, at: nat, src: Octets): (r: Octets)
    requires at + |src| <= |s|
    ensures |r| == |s|
    ensures forall i | 0 <= i < |s| :: r[i] == if at <= i < at + |src| then src[i - at] else s[i]
  {
    s[..at] + src + s[at + |src|..]
  }

  /** A stretch of an overwritten string: untouched beside the new part, and overwritten around it. */
  lemma OverlaySlice(s: Octets, at: nat, src: Octets, lo: nat, hi: nat)
    requires at + |src| <= |s| && lo <= hi <= |s|
    ensures hi <= at || at + |src| <= lo ==> Overlay(s, at, src)[lo..hi] == s[lo..hi]
    ensures lo <= at && at + |src| <= hi ==> Overlay(s, at, src)[lo..hi] == Overlay(s[lo..hi], at - lo, src)
    ensures lo == at && at + |src| == hi ==> Overlay(s, at, src)[lo..hi] == src
  {
  }

  /** os_memcpy into a buffer. */
  method Put(dst: array<bv8>, at: nat, src: Octets)
    requires at + |src| <= dst.Length
    modifies dst
    ensures dst[..] == Overlay(old(dst[..]), at, src)
  {
    for i := 0 to |src|
      invariant forall k | 0 <= k < dst.Length :: dst[k] == if at <= k < at + i then src[k - at] else old(dst[k])
    {
      dst[at + i] := src[i];
    }
  }

  /** A write at the moving end of what has been filled so far. */
  method Append(dst: array<bv8>, pos: nat, src: Octets) returns (end: nat)
    requires pos + |src| <= dst.Length
    modifies dst
    ensures end == pos + |src| && dst[..end] == old(dst[..pos]) + src
    ensures dst[end..] == old(dst[pos + |src|..])
  {
    Put(dst, pos, src);
    end := pos + |src|;
  }
}
