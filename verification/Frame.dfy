/**
 * A packet as bytes on the wire: reading 16-bit words, storing them, and the
 * one's-complement sums that cover them. Offsets count from the start of the
 * frame; the IPv4 header starts behind the 14-byte Ethernet header.
 */
module Frame {
  import opened Types
  import opened Checksum

  type Bytes = seq<u8>

  // ---- Words and sums ------------------------------------------------------

  function Word(f: Bytes, o: nat): u16
    requires o + 2 <= |f|
  {
    0x100 * (f[o] as int) + f[o + 1]
  }

  function Long(f: Bytes, o: nat): u32
    requires o + 4 <= |f|
  {
    Join(Word(f, o), Word(f, o + 2))
  }

  /** `g` is `f` with the `n` bytes at `o` stored over. */
  ghost predicate Stored(f: Bytes, g: Bytes, o: nat, n: nat) {
    |g| == |f| && o + n <= |f| && forall i :: 0 <= i < |f| && !(o <= i < o + n) ==> g[i] == f[i]
  }

  function Put16(f: Bytes, o: nat, w: u16): (g: Bytes)
    requires o + 2 <= |f|
    ensures |g| == |f|
  {
    f[o := w / 0x100][o + 1 := w % 0x100]
  }

  function Put32(f: Bytes, o: nat, w: u32): (g: Bytes)
    requires o + 4 <= |f|
    ensures |g| == |f|
  {
    Put16(Put16(f, o, w / 0x1_0000), o + 2, w % 0x1_0000)
  }

  /** What was stored is read back, and nothing else moved. */
  lemma Put16Stores(f: Bytes, o: nat, w: u16)
    requires o + 2 <= |f|
    ensures Stored(f, Put16(f, o, w), o, 2) && Word(Put16(f, o, w), o) == w
  {
  }

  lemma Put32Stores(f: Bytes, o: nat, w: u32)
    requires o + 4 <= |f|
    ensures Stored(f, Put32(f, o, w), o, 4) && Long(Put32(f, o, w), o) == w
  {
    var mid := Put16(f, o, w / 0x1_0000);
    Put16Stores(f, o, w / 0x1_0000);
    Put16Stores(mid, o + 2, w % 0x1_0000);
  }

  /** The sum of the words of [lo, hi); a last odd byte is padded with zero. */
  function Sum(f: Bytes, lo: nat, hi: nat): nat
    requires lo <= hi <= |f|
    decreases hi - lo
  {
    if lo == hi then 0
    else if lo + 1 == hi then 0x100 * (f[lo] as int)
    else Word(f, lo) + Sum(f, lo + 2, hi)
  }

  /** Within [lo, hi) the two frames agree, but for the `n` bytes at `o`. */
  ghost predicate Differ(f: Bytes, g: Bytes, lo: nat, hi: nat, o: nat, n: nat) {
    |g| == |f| && hi <= |f| && forall i :: lo <= i < hi && !(o <= i < o + n) ==> g[i] == f[i]
  }

  lemma {:induction false} SumKept(f: Bytes, g: Bytes, lo: nat, hi: nat)
    requires lo <= hi && Differ(f, g, lo, hi, 0, 0)
    ensures Sum(g, lo, hi) == Sum(f, lo, hi)
    decreases hi - lo
  {
    if lo + 1 < hi {
      SumKept(f, g, lo + 2, hi);
    }
  }

  lemma {:induction false} SumSplits(f: Bytes, lo: nat, mid: nat, hi: nat)
    requires lo <= mid <= hi <= |f| && (mid - lo) % 2 == 0
    ensures Sum(f, lo, hi) == Sum(f, lo, mid) + Sum(f, mid, hi)
    decreases mid - lo
  {
    if lo < mid {
      SumSplits(f, lo + 2, mid, hi);
    }
  }

  /** A changed word moves the sum of a range that holds it by the difference. */
  lemma {:induction false} SumMoved(f: Bytes, g: Bytes, lo: nat, hi: nat, o: nat)
    requires lo <= o && o + 2 <= hi && (o - lo) % 2 == 0 && Differ(f, g, lo, hi, o, 2)
    ensures Sum(g, lo, hi) == Sum(f, lo, hi) - Word(f, o) + Word(g, o)
    decreases hi - lo
  {
    if o == lo {
      SumKept(f, g, lo + 2, hi);
    } else {
      SumMoved(f, g, lo + 2, hi, o);
    }
  }

  lemma SumMovedTwice(f: Bytes, g: Bytes, lo: nat, hi: nat, o: nat, p: nat)
    requires lo <= o && o + 2 <= hi && (o - lo) % 2 == 0 && lo <= p && p + 2 <= hi && (p - lo) % 2 == 0
    requires (o + 2 <= p || p + 2 <= o) && |g| == |f| && hi <= |f|
    requires forall i :: lo <= i < hi && !(o <= i < o + 2) && !(p <= i < p + 2) ==> g[i] == f[i]
    ensures Sum(g, lo, hi) == Sum(f, lo, hi) - Word(f, o) + Word(g, o) - Word(f, p) + Word(g, p)
  {
    var mid := f[o := g[o]][o + 1 := g[o + 1]];
    SumMoved(f, mid, lo, hi, o);
    SumMoved(mid, g, lo, hi, p);
  }

  /** A header in which a checksum and a 32-bit address changed. */
  lemma SumMovedThrice(f: Bytes, g: Bytes, lo: nat, hi: nat, c: nat, at: nat)
    requires lo <= c && c + 2 <= at && at + 4 <= hi && (c - lo) % 2 == 0 && (at - lo) % 2 == 0
    requires |g| == |f| && hi <= |f|
    requires forall i :: lo <= i < hi && !(c <= i < c + 2) && !(at <= i < at + 4) ==> g[i] == f[i]
    ensures Sum(g, lo, hi) == Sum(f, lo, hi) - Word(f, c) + Word(g, c)
                              - Word(f, at) - Word(f, at + 2) + Word(g, at) + Word(g, at + 2)
  {
    var mid := f[c := g[c]][c + 1 := g[c + 1]];
    SumMoved(f, mid, lo, hi, c);
    SumMovedTwice(mid, g, lo, hi, at, at + 2);
  }

  // ---- Ranges that cut words in half ---------------------------------------

  /** The part of the word at `o` that lies before `end`. */
  function WordBefore(f: Bytes, o: nat, end: nat): nat
    requires o + 2 <= |f|
  {
    if end <= o then 0 else if o + 1 == end then 0x100 * (f[o] as int) else Word(f, o)
  }

  /** The part of a word stored at `o` that lies behind `end`. */
  function WordBehind(w: u16, o: nat, end: nat): u16 {
    if o + 2 <= end then 0 else if o + 1 == end then w % 0x100 else w
  }

  lemma BeforeAndBehind(f: Bytes, o: nat, end: nat)
    requires o + 2 <= |f|
    ensures WordBefore(f, o, end) == Word(f, o) - WordBehind(Word(f, o), o, end)
  {
  }

  /** One changed word, which the range may hold, cut in half or not reach. */
  lemma SumMovedPart(f: Bytes, g: Bytes, lo: nat, hi: nat, o: nat)
    requires lo <= hi <= |f| && lo <= o && o + 2 <= |f| && (o - lo) % 2 == 0 && Differ(f, g, lo, hi, o, 2)
    ensures Sum(g, lo, hi) == Sum(f, lo, hi) - WordBefore(f, o, hi) + WordBefore(g, o, hi)
  {
    if hi <= o {
      SumKept(f, g, lo, hi);
    } else if hi == o + 1 {
      SumSplits(f, lo, o, hi);
      SumSplits(g, lo, o, hi);
      SumKept(f, g, lo, o);
    } else {
      SumMoved(f, g, lo, hi, o);
    }
  }

  predicate InWord(os: seq<nat>, i: nat) {
    exists k :: 0 <= k < |os| && os[k] <= i < os[k] + 2
  }

  /** Words of the frame, an even way behind `lo` and apart from each other. */
  ghost predicate Words(f: Bytes, lo: nat, os: seq<nat>) {
    && (forall k :: 0 <= k < |os| ==> lo <= os[k] && os[k] + 2 <= |f| && (os[k] - lo) % 2 == 0)
    && (forall j, k :: 0 <= j < k < |os| ==> os[j] + 2 <= os[k] || os[k] + 2 <= os[j])
  }

  /** By how much words change a sum that ends at `hi`. */
  function Moved(f: Bytes, g: Bytes, os: seq<nat>, hi: nat): int
    requires |g| == |f| && forall k :: 0 <= k < |os| ==> os[k] + 2 <= |f|
  {
    if |os| == 0 then 0
    else WordBefore(g, os[0], hi) - WordBefore(f, os[0], hi) + Moved(f, g, os[1..], hi)
  }

  lemma {:induction false} MovedIsLocal(f: Bytes, f': Bytes, g: Bytes, os: seq<nat>, hi: nat)
    requires |g| == |f| == |f'| && (forall k :: 0 <= k < |os| ==> os[k] + 2 <= |f|)
    requires forall k :: 0 <= k < |os| ==> f'[os[k]] == f[os[k]] && f'[os[k] + 1] == f[os[k] + 1]
    ensures Moved(f', g, os, hi) == Moved(f, g, os, hi)
    decreases os
  {
    if |os| > 0 {
      MovedIsLocal(f, f', g, os[1..], hi);
    }
  }

  /** The frame with one word taken from another. */
  function WordTaken(f: Bytes, g: Bytes, o: nat): (mid: Bytes)
    requires |g| == |f| && o + 2 <= |f|
    ensures |mid| == |f| && mid[o] == g[o] && mid[o + 1] == g[o + 1]
    ensures forall i :: 0 <= i < |f| && !(o <= i < o + 2) ==> mid[i] == f[i]
  {
    f[o := g[o]][o + 1 := g[o + 1]]
  }

  lemma OneWordLess(f: Bytes, g: Bytes, mid: Bytes, lo: nat, hi: nat, o: nat, os: seq<nat>, rest: seq<nat>)
    requires hi <= |f| == |g| == |mid| && |os| > 0 && o == os[0] && rest == os[1..] && o + 2 <= |f|
    requires mid[o] == g[o] && mid[o + 1] == g[o + 1]
    requires forall i :: 0 <= i < |f| && !(o <= i < o + 2) ==> mid[i] == f[i]
    requires forall i :: lo <= i < hi && !InWord(os, i) ==> g[i] == f[i]
    ensures forall i :: lo <= i < hi && !InWord(rest, i) ==> g[i] == mid[i]
  {
    forall i | lo <= i < hi && !InWord(rest, i)
      ensures g[i] == mid[i]
    {
      if InWord(os, i) {
        var k :| 0 <= k < |os| && os[k] <= i < os[k] + 2;
        assert k > 0 ==> rest[k - 1] == os[k];
      }
    }
  }

  lemma OtherWordsStay(f: Bytes, mid: Bytes, lo: nat, o: nat, os: seq<nat>, rest: seq<nat>)
    requires |mid| == |f| && Words(f, lo, os) && |os| > 0 && o == os[0] && rest == os[1..]
    requires forall i :: 0 <= i < |f| && !(o <= i < o + 2) ==> mid[i] == f[i]
    ensures Words(mid, lo, rest)
    ensures forall k :: 0 <= k < |rest| ==> mid[rest[k]] == f[rest[k]] && mid[rest[k] + 1] == f[rest[k] + 1]
  {
    assert forall k :: 0 <= k < |rest| ==> rest[k] == os[k + 1];
  }

  /** Changed words move a sum by their parts in its range. */
  lemma {:induction false} SumMovedAt(f: Bytes, g: Bytes, lo: nat, hi: nat, os: seq<nat>)
    requires lo <= hi <= |f| && |g| == |f| && Words(f, lo, os)
    requires forall i :: lo <= i < hi && !InWord(os, i) ==> g[i] == f[i]
    ensures Sum(g, lo, hi) == Sum(f, lo, hi) + Moved(f, g, os, hi)
    decreases os
  {
    if |os| == 0 {
      SumKept(f, g, lo, hi);
    } else {
      var o, rest := os[0], os[1..];
      var mid := WordTaken(f, g, o);
      SumMovedPart(f, mid, lo, hi, o);
      OneWordLess(f, g, mid, lo, hi, o, os, rest);
      OtherWordsStay(f, mid, lo, o, os, rest);
      SumMovedAt(mid, g, lo, hi, rest);
      MovedIsLocal(f, mid, g, rest, hi);
    }
  }

  // ---- The IPv4 header -----------------------------------------------------

  const ETH_LEN: nat := 14
  const IP_CHECK: nat := 24
  const IP_SADDR: nat := 26
  const IP_DADDR: nat := 30

  /** The frame holds an Ethernet and a 20-byte IPv4 header. */
  predicate HasIp(f: Bytes) {
    |f| >= 34
  }

  function Ihl(f: Bytes): nat
    requires HasIp(f)
  {
    f[14] % 16
  }

  function L4Offset(f: Bytes): nat
    requires HasIp(f)
  {
    ETH_LEN + Ihl(f) * 4
  }

  function FragOffset(f: Bytes): nat
    requires HasIp(f)
  {
    Word(f, 20) % 0x2000
  }

  function ProtoOf(number: u8): Proto {
    if number == 6 then Tcp else if number == 17 then Udp else if number == 1 then Icmp else OtherProto(number)
  }

  function IpProto(f: Bytes): Proto
    requires HasIp(f)
  {
    ProtoOf(f[23])
  }

  /** Length of the L4 header each protocol needs before its fields are read. */
  function L4HeaderLen(proto: Proto): nat {
    if proto == Tcp then 20 else 8
  }

  predicate HasL4(f: Bytes) {
    HasIp(f) && Ihl(f) >= 5 && !IpProto(f).OtherProto? && L4Offset(f) + L4HeaderLen(IpProto(f)) <= |f|
  }

  /** Where each protocol keeps its checksum, counted from its L4 header. */
  function L4CheckAt(proto: Proto): nat {
    match proto
    case Tcp => 16
    case Udp => 6
    case _ => 2
  }

  /** An ICMP type that carries an Identifier. */
  predicate IsEcho(type_: u8) {
    type_ == 8 || type_ == 0
  }

  /** An ICMP type that carries a copy of the packet that caused it. */
  predicate IsIcmpError(type_: u8) {
    type_ == 3 || type_ == 4 || type_ == 5 || type_ == 11 || type_ == 12
  }

  predicate HasEchoId(f: Bytes) {
    HasL4(f) && IpProto(f) == Icmp && FragOffset(f) == 0 && IsEcho(f[L4Offset(f)])
  }

  /** The fields a NAT key is built from; the Identifier of an Echo fills both ports. */
  function TupleOf(f: Bytes): Option<Tuple> {
    if !HasL4(f) || (IpProto(f) == Icmp && !HasEchoId(f)) then None
    else
      var l4 := L4Offset(f);
      var ports := if IpProto(f) == Icmp then (Word(f, l4 + 4), Word(f, l4 + 4)) else (Word(f, l4), Word(f, l4 + 2));
      Some(Tuple(Long(f, IP_SADDR), Long(f, IP_DADDR), ports.0, ports.1, IpProto(f)))
  }

  // ---- Validity ------------------------------------------------------------

  predicate HeaderValid(f: Bytes, lo: nat, hi: nat)
    requires lo <= hi <= |f|
  {
    Same(Sum(f, lo, hi), 0)
  }

  predicate IpValid(f: Bytes) {
    HasIp(f) && Ihl(f) >= 5 && L4Offset(f) <= |f| && HeaderValid(f, ETH_LEN, L4Offset(f))
  }

  /**
   * Whether an L4 checksum holds. `addrs` is where the pseudo-header addresses
   * sit, [l4, end) is the part of the segment in the frame, and `rest` is the
   * sum of all else it covers: the constant part of the pseudo-header and any
   * bytes beyond the frame. A UDP checksum of zero means there is none.
   */
  predicate SegmentValid(f: Bytes, proto: Proto, addrs: nat, l4: nat, end: nat, rest: int)
    requires addrs + 8 <= |f| && l4 + L4CheckAt(proto) + 2 <= end <= |f|
  {
    match proto
    case Tcp => Same(Sum(f, addrs, addrs + 8) + Sum(f, l4, end) + rest, 0)
    case Udp => Word(f, l4 + 6) == 0 || Same(Sum(f, addrs, addrs + 8) + Sum(f, l4, end) + rest, 0)
    case Icmp => Same(Sum(f, l4, end) + rest, 0)
    case OtherProto(_) => true
  }

  /** The L4 checksum of the frame's own packet, which covers [L4Offset, end). */
  predicate L4Valid(f: Bytes, end: nat, rest: int)
    requires HasL4(f) && L4Offset(f) + L4HeaderLen(IpProto(f)) <= end <= |f|
  {
    SegmentValid(f, IpProto(f), IP_SADDR, L4Offset(f), end, rest)
  }
}
