/**
 * The packet an ICMP error copies: parsing it, and repairing one address and
 * one port of the copy while keeping three nested checksums right.
 */
module FrameQuote {
  import opened Types
  import opened Checksum
  import opened Frame
  import opened FrameRewrite

  // ---- Parsing -------------------------------------------------------------

  /**
   * A parsed copy. Offsets count from the start of the frame; a copied L4
   * checksum that is absent or cut off has no offset.
   */
  datatype Quote = Quote(icmpOff: nat, ipOff: nat, l4Off: nat, l4CheckAt: Option<nat>, t: Tuple,
                         ipCheck: u16, l4Check: u16, hasPseudo: bool)

  /** The packet is an ICMP error message that reaches its ICMP header. */
  predicate CarriesQuote(f: Bytes) {
    && HasIp(f) && Ihl(f) >= 5 && IpProto(f) == Icmp && FragOffset(f) == 0
    && L4Offset(f) + 8 <= |f| && IsIcmpError(f[L4Offset(f)])
  }

  /** An IPv4 header with offset zero at `ip`, and eight bytes behind it. */
  predicate QuotesIp(f: Bytes, ip: nat) {
    && ip + 20 <= |f| && f[ip] / 16 == 4 && f[ip] % 16 >= 5 && Word(f, ip + 6) % 0x2000 == 0
    && ip + (f[ip] % 16) * 4 + 8 <= |f|
  }

  function ReadQuote(f: Bytes): Option<Quote> {
    if !CarriesQuote(f) || !QuotesIp(f, L4Offset(f) + 8) then None
    else
      var ip := L4Offset(f) + 8;
      QuoteAt(f, L4Offset(f), ip, ip + (f[ip] % 16) * 4)
  }

  /** The fields of a copy whose headers start at `ip` and `l4`. */
  function QuoteAt(f: Bytes, icmp: nat, ip: nat, l4: nat): Option<Quote>
    requires ip + 20 <= |f| && l4 + 8 <= |f|
  {
    var saddr, daddr, check := Long(f, ip + 12), Long(f, ip + 16), Word(f, ip + 10);
    match ProtoOf(f[ip + 9])
    case Tcp =>
      var at := if l4 + 18 <= |f| then Some(l4 + 16) else None;
      Some(Quote(icmp, ip, l4, at, Tuple(saddr, daddr, Word(f, l4), Word(f, l4 + 2), Tcp),
                 check, if at.Some? then Word(f, at.value) else 0, true))
    case Udp =>
      var at := if Word(f, l4 + 6) != 0 then Some(l4 + 6) else None;
      Some(Quote(icmp, ip, l4, at, Tuple(saddr, daddr, Word(f, l4), Word(f, l4 + 2), Udp),
                 check, Word(f, l4 + 6), true))
    case Icmp =>
      if !IsEcho(f[l4]) then None
      else
        Some(Quote(icmp, ip, l4, Some(l4 + 2), Tuple(saddr, daddr, Word(f, l4 + 4), Word(f, l4 + 4), Icmp),
                   check, Word(f, l4 + 2), false))
    case OtherProto(_) => None
  }

  // ---- Rewriting -----------------------------------------------------------

  function OldAddr(q: Quote, outerIsSource: bool): Addr {
    if outerIsSource then q.t.daddr else q.t.saddr
  }

  function OldPort(q: Quote, outerIsSource: bool): Port {
    if outerIsSource then q.t.dport else q.t.sport
  }

  function QuoteAddrAt(q: Quote, outerIsSource: bool): nat {
    q.ipOff + (if outerIsSource then 16 else 12)
  }

  function QuotePortAt(q: Quote, outerIsSource: bool): nat {
    q.l4Off + PortAt(q.t.proto, !outerIsSource)
  }

  /** The copied L4 checksum: the address counts only under a pseudo-header. */
  function NewL4Check(q: Quote, was: u32, becomes: u32, port: u16, port': u16): u16 {
    if q.l4CheckAt.None? then q.l4Check
    else
      var c := if q.hasPseudo then Csum16Replace(q.l4Check, was, becomes) else q.l4Check;
      Csum16Replace(c, port, port')
  }

  function Swapped(diff: u32, was: u32, becomes: u32): u32 {
    CsumAdd(CsumSub(diff, was), becomes)
  }

  /** One difference for every word that moves inside the copy. */
  function QuoteDiff(q: Quote, was: u32, becomes: u32, ipCheck: u16, port: u16, port': u16, l4Check: u16): u32 {
    var diff := Swapped(Swapped(Swapped(0, was, becomes), q.ipCheck, ipCheck), port, port');
    if q.l4CheckAt.None? then diff else Swapped(diff, q.l4Check, l4Check)
  }

  /** The checksum helper given a difference instead of an old and a new field. */
  function ReplaceByDiff(check: u16, diff: u32): u16 {
    CsumFold(CsumAdd(diff, Complement32(check)))
  }

  predicate Fits(f: Bytes, q: Quote) {
    && q.icmpOff + 8 <= q.ipOff && q.ipOff + 20 <= q.l4Off && q.l4Off + 8 <= |f|
    && (q.l4CheckAt.Some? ==> q.l4CheckAt.value + 2 <= |f|)
  }

  /** The three checksums a rewrite stores: outer ICMP, copied IP, copied L4. */
  datatype Checks = Checks(icmp: u16, ip: u16, l4: u16)

  function NewChecks(q: Quote, icmp: u16, was: u32, becomes: u32, port: u16, port': u16): Checks {
    var ipCheck := Csum16Replace(q.ipCheck, was, becomes);
    var l4Check := NewL4Check(q, was, becomes, port, port');
    Checks(ReplaceByDiff(icmp, QuoteDiff(q, was, becomes, ipCheck, port, port', l4Check)), ipCheck, l4Check)
  }

  // ---- The arithmetic of the five fields -----------------------------------

  lemma SwappedApart(diff: u32, was: u32, becomes: u32) returns (k: int)
    ensures Swapped(diff, was, becomes) == diff - was + becomes + MODULUS * k
  {
    var without := CsumSub(diff, was);
    var k1 := Apart(without, diff - was);
    var k2 := Apart(CsumAdd(without, becomes), without + becomes);
    k := k1 + k2;
  }

  lemma ReplaceByDiffApart(check: u16, diff: u32) returns (k: int)
    ensures ReplaceByDiff(check, diff) == check - diff + MODULUS * k
  {
    var c := Complement32(check);
    var k1 := Apart(c, 0 - check);
    var k2 := Apart(CsumAdd(diff, c), diff + c);
    var k3 := Apart(ReplaceByDiff(check, diff), 0 - CsumAdd(diff, c));
    k := k3 - k2 - k1;
  }

  lemma NewL4CheckApart(q: Quote, was: u32, becomes: u32, port: u16, port': u16) returns (k: int)
    requires q.l4CheckAt.Some?
    ensures NewL4Check(q, was, becomes, port, port') ==
            q.l4Check + (if q.hasPseudo then was - becomes else 0) + port - port' + MODULUS * k
  {
    var c := if q.hasPseudo then Csum16Replace(q.l4Check, was, becomes) else q.l4Check;
    var k1 := 0;
    if q.hasPseudo {
      k1 := Apart(c, q.l4Check + was - becomes);
    }
    var k2 := Apart(Csum16Replace(c, port, port'), c + port - port');
    k := k1 + k2;
  }

  lemma QuoteDiffApart(q: Quote, was: u32, becomes: u32, ipCheck: u16, port: u16, port': u16, l4Check: u16)
    returns (k: int)
    ensures QuoteDiff(q, was, becomes, ipCheck, port, port', l4Check) ==
            becomes - was + ipCheck - q.ipCheck + port' - port
            + (if q.l4CheckAt.None? then 0 else l4Check - q.l4Check) + MODULUS * k
  {
    var d1 := Swapped(0, was, becomes);
    var d2 := Swapped(d1, q.ipCheck, ipCheck);
    var d3 := Swapped(d2, port, port');
    var k1 := SwappedApart(0, was, becomes);
    var k2 := SwappedApart(d1, q.ipCheck, ipCheck);
    var k3 := SwappedApart(d2, port, port');
    k := k1 + k2 + k3;
    if q.l4CheckAt.Some? {
      var k4 := SwappedApart(d3, q.l4Check, l4Check);
      k := k + k4;
    }
  }

  // ---- What a parsed copy is -----------------------------------------------

  /** What parsing says about the frame, offset by offset. */
  ghost predicate Parsed(f: Bytes, q: Quote) {
    && Fits(f, q) && 34 <= q.icmpOff && q.ipOff == q.icmpOff + 8 && (q.l4Off - q.ipOff) % 2 == 0
    && q.ipCheck == Word(f, q.ipOff + 10) && q.t.saddr == Long(f, q.ipOff + 12) && q.t.daddr == Long(f, q.ipOff + 16)
    && !q.t.proto.OtherProto? && q.hasPseudo == (q.t.proto != Icmp)
    && q.t.sport == Word(f, q.l4Off + PortAt(q.t.proto, true))
    && q.t.dport == Word(f, q.l4Off + PortAt(q.t.proto, false))
    && (match q.l4CheckAt
        case Some(c) =>
          c == q.l4Off + L4CheckAt(q.t.proto) && q.l4Check == Word(f, c) && (q.t.proto == Udp ==> q.l4Check != 0)
        case None => if q.t.proto == Udp then Word(f, q.l4Off + 6) == 0 else q.t.proto == Tcp && q.l4Off + 18 > |f|)
  }

  lemma ReadQuoteParses(f: Bytes)
    requires ReadQuote(f).Some?
    ensures Parsed(f, ReadQuote(f).value)
  {
  }

  // ---- What the rewrite stores ---------------------------------------------

  /** Only the address, the port and the three checksums differ. */
  ghost predicate QuoteStored(f: Bytes, g: Bytes, q: Quote, at: nat, port: nat) {
    && |g| == |f|
    && forall i | 0 <= i < |f| && !(q.icmpOff + 2 <= i < q.icmpOff + 4) && !(q.ipOff + 10 <= i < q.ipOff + 12) &&
                  !(at <= i < at + 4) && !(port <= i < port + 2) &&
                  !(q.l4CheckAt.Some? && q.l4CheckAt.value <= i < q.l4CheckAt.value + 2) :: g[i] == f[i]
  }

  /** How the three checksums moved, each up to multiples of the modulus. */
  ghost predicate QuoteChecked(f: Bytes, g: Bytes, q: Quote, at: nat, port: nat, a: int, b: int, c: int)
    requires Fits(f, q) && |g| == |f| && at + 4 <= |f| && port + 2 <= |f|
  {
    && Word(g, q.ipOff + 10) == Word(f, q.ipOff + 10) + Long(f, at) - Long(g, at) + MODULUS * a
    && (q.l4CheckAt.Some? ==>
          if q.hasPseudo then Follows(f, g, q.l4CheckAt.value, at, port, b)
          else FollowsPort(f, g, q.l4CheckAt.value, port, b))
    && Word(g, q.icmpOff + 2) == Word(f, q.icmpOff + 2)
         - (Long(g, at) - Long(f, at) + Word(g, q.ipOff + 10) - Word(f, q.ipOff + 10) + Word(g, port) - Word(f, port)
            + (if q.l4CheckAt.None? then 0 else Word(g, q.l4CheckAt.value) - Word(f, q.l4CheckAt.value)))
         + MODULUS * c
  }

  lemma NewChecksApart(q: Quote, icmp: u16, was: u32, becomes: u32, port: u16, port': u16)
    returns (a: int, b: int, c: int)
    ensures var n := NewChecks(q, icmp, was, becomes, port, port');
            && n.ip == q.ipCheck + was - becomes + MODULUS * a
            && (q.l4CheckAt.Some? ==>
                  n.l4 == q.l4Check + (if q.hasPseudo then was - becomes else 0) + port - port' + MODULUS * b)
            && n.icmp == icmp - (becomes - was + n.ip - q.ipCheck + port' - port
                                 + (if q.l4CheckAt.None? then 0 else n.l4 - q.l4Check)) + MODULUS * c
  {
    var ipCheck := Csum16Replace(q.ipCheck, was, becomes);
    var l4Check := NewL4Check(q, was, becomes, port, port');
    a := Apart(ipCheck, q.ipCheck + was - becomes);
    b := 0;
    if q.l4CheckAt.Some? {
      b := NewL4CheckApart(q, was, becomes, port, port');
    }
    var k := QuoteDiffApart(q, was, becomes, ipCheck, port, port', l4Check);
    var k' := ReplaceByDiffApart(icmp, QuoteDiff(q, was, becomes, ipCheck, port, port', l4Check));
    c := k' - k;
  }

  /** The stored words, compared with the ones they replace. */
  lemma ChecksMoved(f: Bytes, g: Bytes, q: Quote, outerIsSource: bool, addr: Addr, port: Port, n: Checks, a: int,
                    b: int, c: int)
    requires Parsed(f, q) && |g| == |f|
    requires Holds(f, g, q, QuoteAddrAt(q, outerIsSource), QuotePortAt(q, outerIsSource), addr, port, n)
    requires var was, wasPort := OldAddr(q, outerIsSource), OldPort(q, outerIsSource);
             && n.ip == q.ipCheck + was - addr + MODULUS * a
             && (q.l4CheckAt.Some? ==>
                   n.l4 == q.l4Check + (if q.hasPseudo then was - addr else 0) + wasPort - port + MODULUS * b)
             && n.icmp == Word(f, q.icmpOff + 2) - (addr - was + n.ip - q.ipCheck + port - wasPort
                                 + (if q.l4CheckAt.None? then 0 else n.l4 - q.l4Check)) + MODULUS * c
    ensures QuoteChecked(f, g, q, QuoteAddrAt(q, outerIsSource), QuotePortAt(q, outerIsSource), a, b, c)
  {
  }

  /** The fields of `g` hold these values, and every other byte is that of `f`. */
  ghost predicate Holds(f: Bytes, g: Bytes, q: Quote, at: nat, portAt: nat, addr: Addr, port: Port, n: Checks) {
    && QuoteStored(f, g, q, at, portAt) && Fits(f, q) && at + 4 <= |f| && portAt + 2 <= |f|
    && Long(g, at) == addr && Word(g, portAt) == port
    && Word(g, q.icmpOff + 2) == n.icmp && Word(g, q.ipOff + 10) == n.ip
    && (q.l4CheckAt.Some? ==> Word(g, q.l4CheckAt.value) == n.l4)
  }

  /** `g` is `f` with its copy rewritten: this fixes every byte of `g`. */
  ghost predicate QuoteRewritten(f: Bytes, g: Bytes, q: Quote, outerIsSource: bool, addr: Addr, port: Port) {
    && Fits(f, q)
    && Holds(f, g, q, QuoteAddrAt(q, outerIsSource), QuotePortAt(q, outerIsSource), addr, port,
             NewChecks(q, Word(f, q.icmpOff + 2), OldAddr(q, outerIsSource), addr, OldPort(q, outerIsSource), port))
  }

  lemma RewrittenChecks(f: Bytes, g: Bytes, q: Quote, outerIsSource: bool, addr: Addr, port: Port)
    returns (a: int, b: int, c: int)
    requires Parsed(f, q) && QuoteRewritten(f, g, q, outerIsSource, addr, port)
    ensures QuoteChecked(f, g, q, QuoteAddrAt(q, outerIsSource), QuotePortAt(q, outerIsSource), a, b, c)
  {
    var was, wasPort := OldAddr(q, outerIsSource), OldPort(q, outerIsSource);
    var n := NewChecks(q, Word(f, q.icmpOff + 2), was, addr, wasPort, port);
    a, b, c := NewChecksApart(q, Word(f, q.icmpOff + 2), was, addr, wasPort, port);
    ChecksMoved(f, g, q, outerIsSource, addr, port, n, a, b, c);
  }

  // ---- The three sums ------------------------------------------------------

  /** The fields a rewrite may name. */
  ghost predicate Names(q: Quote, at: nat, portAt: nat) {
    && (at == q.ipOff + 12 || at == q.ipOff + 16)
    && (portAt == q.l4Off + PortAt(q.t.proto, true) || portAt == q.l4Off + PortAt(q.t.proto, false))
  }

  lemma CopiedHeaderKept(f: Bytes, g: Bytes, q: Quote, at: nat, portAt: nat, a: int)
    requires Parsed(f, q) && Names(q, at, portAt) && QuoteStored(f, g, q, at, portAt)
    requires Word(g, q.ipOff + 10) == Word(f, q.ipOff + 10) + Long(f, at) - Long(g, at) + MODULUS * a
    ensures Sum(g, q.ipOff, q.l4Off) == Sum(f, q.ipOff, q.l4Off) + MODULUS * (a + Word(f, at) - Word(g, at))
  {
    HeaderSumKept(f, g, q.ipOff, q.l4Off, at, a);
  }

  /** The copy has an L4 checksum, and the message reaches to its end. */
  predicate ReachesCheck(q: Quote, end: nat) {
    q.l4CheckAt.Some? && q.l4CheckAt.value + 2 <= end
  }

  lemma CopiedSegmentKept(f: Bytes, g: Bytes, q: Quote, at: nat, portAt: nat, end: nat, b: int) returns (k: int)
    requires Parsed(f, q) && Names(q, at, portAt) && QuoteStored(f, g, q, at, portAt) && ReachesCheck(q, end)
    requires portAt + 2 <= end <= |f|
    requires if q.hasPseudo then Follows(f, g, q.l4CheckAt.value, at, portAt, b)
             else FollowsPort(f, g, q.l4CheckAt.value, portAt, b)
    ensures Covered(g, q.t.proto, q.ipOff, q.l4Off, end) == Covered(f, q.t.proto, q.ipOff, q.l4Off, end) + MODULUS * k
  {
    k := CoveredKept(f, g, q.t.proto, q.ipOff, q.l4Off, at, portAt, end, b);
  }

  // ---- The message sum -----------------------------------------------------

  /** The words a rewrite may move. */
  function MovedWords(q: Quote, at: nat, portAt: nat): seq<nat> {
    [q.icmpOff + 2, q.ipOff + 10, at, at + 2, portAt] + (if q.l4CheckAt.Some? then [q.l4CheckAt.value] else [])
  }

  /** Where they lie: inside the frame, an even way from the start of the message, and apart. */
  ghost predicate FieldsApart(q: Quote, at: nat, portAt: nat, len: nat) {
    var base := q.icmpOff;
    && base + 12 <= at && q.ipOff == base + 8 && q.ipOff + 12 <= at && (at - base) % 2 == 0 && at + 4 <= portAt
    && portAt + 2 <= len && (portAt - base) % 2 == 0
    && (q.l4CheckAt.Some? ==>
          var c := q.l4CheckAt.value;
          at + 4 <= c && c + 2 <= len && (c - base) % 2 == 0 && (portAt + 2 <= c || c + 2 <= portAt))
  }

  lemma FieldsLieApart(f: Bytes, q: Quote, at: nat, portAt: nat)
    requires Parsed(f, q) && Names(q, at, portAt)
    ensures FieldsApart(q, at, portAt, |f|)
  {
  }

  lemma MovedWordsAreWords(f: Bytes, q: Quote, at: nat, portAt: nat)
    requires FieldsApart(q, at, portAt, |f|)
    ensures Words(f, q.icmpOff, MovedWords(q, at, portAt))
  {
  }

  lemma OnlyMovedWordsDiffer(f: Bytes, g: Bytes, q: Quote, at: nat, portAt: nat)
    requires QuoteStored(f, g, q, at, portAt)
    ensures forall i :: 0 <= i < |f| && !InWord(MovedWords(q, at, portAt), i) ==> g[i] == f[i]
  {
    var os := MovedWords(q, at, portAt);
    assert os[0] == q.icmpOff + 2 && os[1] == q.ipOff + 10 && os[2] == at && os[3] == at + 2 && os[4] == portAt;
    assert q.l4CheckAt.Some? ==> os[5] == q.l4CheckAt.value;
  }

  lemma MovedSplits(f: Bytes, g: Bytes, o: nat, os: seq<nat>, hi: nat)
    requires |g| == |f| && o + 2 <= |f| && forall k :: 0 <= k < |os| ==> os[k] + 2 <= |f|
    ensures Moved(f, g, [o] + os, hi) == WordBefore(g, o, hi) - WordBefore(f, o, hi) + Moved(f, g, os, hi)
  {
    assert ([o] + os)[1..] == os;
  }

  lemma MovedFive(f: Bytes, g: Bytes, a: nat, b: nat, c: nat, d: nat, e: nat, os: seq<nat>, hi: nat)
    requires |g| == |f| && a + 2 <= |f| && b + 2 <= |f| && c + 2 <= |f| && d + 2 <= |f| && e + 2 <= |f|
    requires forall k :: 0 <= k < |os| ==> os[k] + 2 <= |f|
    ensures Moved(f, g, [a, b, c, d, e] + os, hi) ==
            WordBefore(g, a, hi) - WordBefore(f, a, hi) + WordBefore(g, b, hi) - WordBefore(f, b, hi)
            + WordBefore(g, c, hi) - WordBefore(f, c, hi) + WordBefore(g, d, hi) - WordBefore(f, d, hi)
            + WordBefore(g, e, hi) - WordBefore(f, e, hi) + Moved(f, g, os, hi)
  {
    MovedSplits(f, g, e, os, hi);
    MovedSplits(f, g, d, [e] + os, hi);
    MovedSplits(f, g, c, [d] + ([e] + os), hi);
    MovedSplits(f, g, b, [c] + ([d] + ([e] + os)), hi);
    MovedSplits(f, g, a, [b] + ([c] + ([d] + ([e] + os))), hi);
    assert [a, b, c, d, e] + os == [a] + ([b] + ([c] + ([d] + ([e] + os))));
  }

  /** The part of the copied L4 checksum before `end`, or nothing when there is none. */
  function CheckBefore(f: Bytes, q: Quote, end: nat): nat
    requires Fits(f, q)
  {
    if q.l4CheckAt.None? then 0 else WordBefore(f, q.l4CheckAt.value, end)
  }

  lemma QuoteWordsMoved(f: Bytes, g: Bytes, q: Quote, at: nat, portAt: nat, end: nat)
    requires Fits(f, q) && |g| == |f| && at + 4 <= |f| && portAt + 2 <= |f|
    ensures Moved(f, g, MovedWords(q, at, portAt), end) ==
            WordBefore(g, q.icmpOff + 2, end) - WordBefore(f, q.icmpOff + 2, end)
            + WordBefore(g, q.ipOff + 10, end) - WordBefore(f, q.ipOff + 10, end)
            + WordBefore(g, at, end) - WordBefore(f, at, end) + WordBefore(g, at + 2, end) - WordBefore(f, at + 2, end)
            + WordBefore(g, portAt, end) - WordBefore(f, portAt, end) + CheckBefore(g, q, end) - CheckBefore(f, q, end)
  {
    var last := if q.l4CheckAt.Some? then [q.l4CheckAt.value] else [];
    MovedFive(f, g, q.icmpOff + 2, q.ipOff + 10, at, at + 2, portAt, last, end);
  }

  lemma MessageSumMoved(f: Bytes, g: Bytes, q: Quote, at: nat, portAt: nat, end: nat)
    requires Parsed(f, q) && Names(q, at, portAt) && QuoteStored(f, g, q, at, portAt) && q.icmpOff <= end <= |f|
    ensures Words(f, q.icmpOff, MovedWords(q, at, portAt))
    ensures Sum(g, q.icmpOff, end) == Sum(f, q.icmpOff, end) + Moved(f, g, MovedWords(q, at, portAt), end)
  {
    FieldsLieApart(f, q, at, portAt);
    MovedWordsAreWords(f, q, at, portAt);
    OnlyMovedWordsDiffer(f, g, q, at, portAt);
    SumMovedAt(f, g, q.icmpOff, end, MovedWords(q, at, portAt));
  }

  // ---- What the message does not cover -------------------------------------

  /**
   * The part of the moved fields behind `end`. Parsing asks only whether the
   * frame reaches a field, so a trailer may hold it, or half of it.
   */
  function FieldsBehind(q: Quote, at: nat, portAt: nat, n: Checks, addr: u32, port: u16, end: nat): nat {
    WordBehind(n.icmp, q.icmpOff + 2, end) + WordBehind(n.ip, q.ipOff + 10, end)
    + WordBehind(addr / 0x1_0000, at, end) + WordBehind(addr % 0x1_0000, at + 2, end) + WordBehind(port, portAt, end)
    + (if q.l4CheckAt.None? then 0 else WordBehind(n.l4, q.l4CheckAt.value, end))
  }

  /** The fields of a frame, read from the frame itself. */
  function CheckWord(f: Bytes, q: Quote): u16
    requires Fits(f, q)
  {
    if q.l4CheckAt.None? then 0 else Word(f, q.l4CheckAt.value)
  }

  function ChecksOf(f: Bytes, q: Quote): Checks
    requires Fits(f, q)
  {
    Checks(Word(f, q.icmpOff + 2), Word(f, q.ipOff + 10), CheckWord(f, q))
  }

  function BehindIn(f: Bytes, q: Quote, at: nat, portAt: nat, end: nat): nat
    requires Fits(f, q) && at + 4 <= |f| && portAt + 2 <= |f|
  {
    FieldsBehind(q, at, portAt, ChecksOf(f, q), Long(f, at), Word(f, portAt), end)
  }

  lemma LongSplits(f: Bytes, o: nat)
    requires o + 4 <= |f|
    ensures Word(f, o) == Long(f, o) / 0x1_0000 && Word(f, o + 2) == Long(f, o) % 0x1_0000
  {
  }

  /** Each field has a part before and a part behind the message end. */
  lemma FieldsBefore(f: Bytes, q: Quote, at: nat, portAt: nat, end: nat)
    requires Fits(f, q) && at + 4 <= |f| && portAt + 2 <= |f|
    ensures WordBefore(f, q.icmpOff + 2, end) + WordBefore(f, q.ipOff + 10, end) + WordBefore(f, at, end)
            + WordBefore(f, at + 2, end) + WordBefore(f, portAt, end) + CheckBefore(f, q, end) ==
            Word(f, q.icmpOff + 2) + Word(f, q.ipOff + 10) + Word(f, at) + Word(f, at + 2) + Word(f, portAt)
            + CheckWord(f, q) - BehindIn(f, q, at, portAt, end)
  {
    LongSplits(f, at);
    BeforeAndBehind(f, q.icmpOff + 2, end);
    BeforeAndBehind(f, q.ipOff + 10, end);
    BeforeAndBehind(f, at, end);
    BeforeAndBehind(f, at + 2, end);
    BeforeAndBehind(f, portAt, end);
    if q.l4CheckAt.Some? {
      BeforeAndBehind(f, q.l4CheckAt.value, end);
    }
  }

  /** Sum by sum: the outer checksum takes back everything that moved, the part behind the message included. */
  lemma OuterBalances(s: int, s': int, icmp: int, icmp': int, ip: int, ip': int, hi: u16, lo: u16, hi': u16, lo': u16,
                      p: int, p': int, l: int, l': int, o: int, o': int, c: int)
    requires s' == s + (icmp' + ip' + hi' + lo' + p' + l' - o') - (icmp + ip + hi + lo + p + l - o)
    requires icmp' == icmp - (Join(hi', lo') - Join(hi, lo) + ip' - ip + p' - p + l' - l) + MODULUS * c
    ensures s' == s + o - o' + MODULUS * (c + hi - hi')
  {
  }

  lemma OuterSumShifted(f: Bytes, g: Bytes, q: Quote, at: nat, portAt: nat, end: nat, a: int, b: int, c: int)
    requires Parsed(f, q) && Names(q, at, portAt) && QuoteStored(f, g, q, at, portAt) && q.icmpOff <= end <= |f|
    requires QuoteChecked(f, g, q, at, portAt, a, b, c)
    ensures Sum(g, q.icmpOff, end) == Sum(f, q.icmpOff, end)
            + BehindIn(f, q, at, portAt, end) - BehindIn(g, q, at, portAt, end)
            + MODULUS * (c + Word(f, at) - Word(g, at))
  {
    MessageSumMoved(f, g, q, at, portAt, end);
    QuoteWordsMoved(f, g, q, at, portAt, end);
    FieldsBefore(f, q, at, portAt, end);
    FieldsBefore(g, q, at, portAt, end);
    OuterBalances(Sum(f, q.icmpOff, end), Sum(g, q.icmpOff, end), Word(f, q.icmpOff + 2), Word(g, q.icmpOff + 2),
                  Word(f, q.ipOff + 10), Word(g, q.ipOff + 10),
                  Word(f, at), Word(f, at + 2), Word(g, at), Word(g, at + 2),
                  Word(f, portAt), Word(g, portAt), CheckWord(f, q), CheckWord(g, q),
                  BehindIn(f, q, at, portAt, end), BehindIn(g, q, at, portAt, end), c);
  }

  /**
   * What the caller can ask before the rewrite: the parts of the moved fields
   * that lie behind the message end add up, as a one's-complement sum, to what
   * they will add up to afterwards.
   */
  predicate TailKept(q: Quote, outerIsSource: bool, icmp: u16, addr: Addr, port: Port, end: nat) {
    var at, portAt := QuoteAddrAt(q, outerIsSource), QuotePortAt(q, outerIsSource);
    var was, wasPort := OldAddr(q, outerIsSource), OldPort(q, outerIsSource);
    Same(FieldsBehind(q, at, portAt, Checks(icmp, q.ipCheck, q.l4Check), was, wasPort, end),
         FieldsBehind(q, at, portAt, NewChecks(q, icmp, was, addr, wasPort, port), addr, port, end))
  }

  /** Only fields that are there count. */
  lemma BehindReadsFields(q: Quote, at: nat, portAt: nat, m: Checks, n: Checks, addr: u32, port: u16, end: nat)
    requires m.icmp == n.icmp && m.ip == n.ip && (q.l4CheckAt.Some? ==> m.l4 == n.l4)
    ensures FieldsBehind(q, at, portAt, m, addr, port, end) == FieldsBehind(q, at, portAt, n, addr, port, end)
  {
  }

  lemma BehindBefore(f: Bytes, q: Quote, outerIsSource: bool, end: nat)
    requires Parsed(f, q)
    ensures var at, portAt := QuoteAddrAt(q, outerIsSource), QuotePortAt(q, outerIsSource);
            BehindIn(f, q, at, portAt, end) ==
            FieldsBehind(q, at, portAt, Checks(Word(f, q.icmpOff + 2), q.ipCheck, q.l4Check),
                         OldAddr(q, outerIsSource), OldPort(q, outerIsSource), end)
  {
    var at, portAt := QuoteAddrAt(q, outerIsSource), QuotePortAt(q, outerIsSource);
    BehindReadsFields(q, at, portAt, ChecksOf(f, q), Checks(Word(f, q.icmpOff + 2), q.ipCheck, q.l4Check),
                      OldAddr(q, outerIsSource), OldPort(q, outerIsSource), end);
  }

  lemma BehindAfter(f: Bytes, g: Bytes, q: Quote, at: nat, portAt: nat, addr: Addr, port: Port, n: Checks, end: nat)
    requires Holds(f, g, q, at, portAt, addr, port, n)
    ensures BehindIn(g, q, at, portAt, end) == FieldsBehind(q, at, portAt, n, addr, port, end)
  {
    BehindReadsFields(q, at, portAt, ChecksOf(g, q), n, addr, port, end);
  }

  lemma TailIsBehind(f: Bytes, g: Bytes, q: Quote, outerIsSource: bool, addr: Addr, port: Port, end: nat)
    requires Parsed(f, q) && QuoteRewritten(f, g, q, outerIsSource, addr, port)
    ensures var at, portAt := QuoteAddrAt(q, outerIsSource), QuotePortAt(q, outerIsSource);
            Same(BehindIn(f, q, at, portAt, end), BehindIn(g, q, at, portAt, end)) <==>
            TailKept(q, outerIsSource, Word(f, q.icmpOff + 2), addr, port, end)
  {
    BehindBefore(f, q, outerIsSource, end);
    var was, wasPort := OldAddr(q, outerIsSource), OldPort(q, outerIsSource);
    BehindAfter(f, g, q, QuoteAddrAt(q, outerIsSource), QuotePortAt(q, outerIsSource), addr, port,
                NewChecks(q, Word(f, q.icmpOff + 2), was, addr, wasPort, port), end);
  }

  // ---- A checksum in the trailer -------------------------------------------

  /**
   * The same for a message that reaches the copied port: it holds the whole
   * copied checksum, or the part of it that lies outside does not move. A word
   * that lies outside stays put, as a sum, exactly when the old address and port
   * add up to what the new ones do.
   */
  predicate Contained(q: Quote, was: u32, becomes: u32, port: u16, port': u16, end: nat) {
    || q.l4CheckAt.None? || ReachesCheck(q, end)
    || (if q.l4CheckAt.value + 1 == end then NewL4Check(q, was, becomes, port, port') % 0x100 == q.l4Check % 0x100
        else Same(was + port, becomes + port'))
  }

  lemma BytesAreApart(a: u8, b: u8)
    ensures Same(a, b) <==> a == b
  {
  }

  lemma ShiftedWord(x: int, x': int, was: int, becomes: int, k: int)
    requires x' == x + was - becomes + MODULUS * k
    ensures Same(x, x') <==> Same(was, becomes)
  {
    if Same(x, x') {
      var j := Apart(x, x');
      SameBy(was, becomes, 0 - j - k);
    }
    if Same(was, becomes) {
      var j := Apart(was, becomes);
      SameBy(x, x', 0 - j - k);
    }
  }

  lemma NewL4CheckMoves(q: Quote, was: u32, becomes: u32, port: u16, port': u16)
    requires q.l4CheckAt.Some? && q.hasPseudo
    ensures Same(q.l4Check, NewL4Check(q, was, becomes, port, port')) <==> Same(was + port, becomes + port')
  {
    var k := NewL4CheckApart(q, was, becomes, port, port');
    ShiftedWord(q.l4Check, NewL4Check(q, was, becomes, port, port'), was + port, becomes + port', k);
  }

  lemma TornCheckMoves(q: Quote, was: u32, becomes: u32, port: u16, port': u16, end: nat)
    requires q.l4CheckAt.Some? && q.hasPseudo && !ReachesCheck(q, end)
    ensures Same(WordBehind(q.l4Check, q.l4CheckAt.value, end),
                 WordBehind(NewL4Check(q, was, becomes, port, port'), q.l4CheckAt.value, end)) <==>
            Contained(q, was, becomes, port, port', end)
  {
    NewL4CheckMoves(q, was, becomes, port, port');
    BytesAreApart(q.l4Check % 0x100, NewL4Check(q, was, becomes, port, port') % 0x100);
  }

  /** Only the copied checksum can lie behind a message that reaches the copied port. */
  lemma OnlyCheckIsBehind(q: Quote, at: nat, portAt: nat, n: Checks, addr: u32, port: u16, end: nat)
    requires q.icmpOff + 4 <= q.ipOff && q.ipOff + 12 <= portAt && at + 4 <= portAt && portAt + 2 <= end
    ensures FieldsBehind(q, at, portAt, n, addr, port, end) ==
            if q.l4CheckAt.None? || ReachesCheck(q, end) then 0 else WordBehind(n.l4, q.l4CheckAt.value, end)
  {
  }

  /** Then the condition is about the address, the port and the message end alone. */
  lemma TailKeptIsContained(f: Bytes, q: Quote, outerIsSource: bool, icmp: u16, addr: Addr, port: Port, end: nat)
    requires Parsed(f, q) && QuotePortAt(q, outerIsSource) + 2 <= end
    ensures TailKept(q, outerIsSource, icmp, addr, port, end) <==>
            Contained(q, OldAddr(q, outerIsSource), addr, OldPort(q, outerIsSource), port, end)
  {
    var at, portAt := QuoteAddrAt(q, outerIsSource), QuotePortAt(q, outerIsSource);
    var was, wasPort := OldAddr(q, outerIsSource), OldPort(q, outerIsSource);
    OnlyCheckIsBehind(q, at, portAt, Checks(icmp, q.ipCheck, q.l4Check), was, wasPort, end);
    OnlyCheckIsBehind(q, at, portAt, NewChecks(q, icmp, was, addr, wasPort, port), addr, port, end);
    if q.l4CheckAt.Some? && !ReachesCheck(q, end) {
      TornCheckMoves(q, was, addr, wasPort, port, end);
    }
  }

  /** A shift by two parts that may differ, up to the modulus. */
  lemma ShiftDecides(sum: int, sum': int, rest: int, o: int, o': int, k: int)
    requires sum' == sum + o - o' + MODULUS * k
    ensures Same(o, o') ==> (Same(sum' + rest, 0) <==> Same(sum + rest, 0))
    ensures Same(sum + rest, 0) ==> (Same(sum' + rest, 0) <==> Same(o, o'))
  {
    if Same(o, o') {
      var j := Apart(o, o');
      ShiftKeepsValid(sum, sum', rest, j + k);
    }
    if Same(sum + rest, 0) && Same(sum' + rest, 0) {
      var i := Apart(sum + rest, 0);
      var j := Apart(sum' + rest, 0);
      SameBy(o, o', j - i - k);
    }
  }

  // ---- Main results --------------------------------------------------------

  /** The three checksums of an ICMP error: the message, the copied header, the copied segment. */
  predicate MessageValid(f: Bytes, q: Quote, end: nat, rest: int)
    requires q.icmpOff <= end <= |f|
  {
    Same(Sum(f, q.icmpOff, end) + rest, 0)
  }

  predicate CopyValid(f: Bytes, q: Quote)
    requires Fits(f, q)
  {
    HeaderValid(f, q.ipOff, q.l4Off)
  }

  predicate CopiedSegmentValid(f: Bytes, q: Quote, end: nat, rest: int)
    requires Fits(f, q) && q.l4CheckAt.Some? && q.l4Off + L4CheckAt(q.t.proto) + 2 <= end <= |f|
  {
    SegmentValid(f, q.t.proto, q.ipOff + 12, q.l4Off, end, rest)
  }

  /** The message reaches the copied port and the copied checksum. */
  predicate ReachesSegment(q: Quote, portAt: nat, end: nat) {
    portAt + 2 <= end && ReachesCheck(q, end)
  }

  /** How the three sums moved; `o` and `o'` are what lies behind the message before and after. */
  ghost predicate QuoteSumsAgree(f: Bytes, g: Bytes, q: Quote, portAt: nat, end: nat, o: int, o': int,
                                 k1: int, k2: int, k3: int)
    requires Fits(f, q) && |g| == |f| && q.icmpOff <= end <= |f| && q.l4Off <= portAt
  {
    && Sum(g, q.icmpOff, end) == Sum(f, q.icmpOff, end) + o - o' + MODULUS * k1
    && Sum(g, q.ipOff, q.l4Off) == Sum(f, q.ipOff, q.l4Off) + MODULUS * k2
    && (ReachesSegment(q, portAt, end) ==>
          Covered(g, q.t.proto, q.ipOff, q.l4Off, end) == Covered(f, q.t.proto, q.ipOff, q.l4Off, end) + MODULUS * k3)
  }

  lemma RewrittenSums(f: Bytes, g: Bytes, q: Quote, outerIsSource: bool, addr: Addr, port: Port, end: nat)
    returns (o: int, o': int, k1: int, k2: int, k3: int)
    requires Parsed(f, q) && QuoteRewritten(f, g, q, outerIsSource, addr, port) && q.icmpOff <= end <= |f|
    ensures QuoteSumsAgree(f, g, q, QuotePortAt(q, outerIsSource), end, o, o', k1, k2, k3)
    ensures Same(o, o') <==> TailKept(q, outerIsSource, Word(f, q.icmpOff + 2), addr, port, end)
  {
    var at, portAt := QuoteAddrAt(q, outerIsSource), QuotePortAt(q, outerIsSource);
    var a, b, c := RewrittenChecks(f, g, q, outerIsSource, addr, port);
    TailIsBehind(f, g, q, outerIsSource, addr, port, end);
    OuterSumShifted(f, g, q, at, portAt, end, a, b, c);
    CopiedHeaderKept(f, g, q, at, portAt, a);
    o, o' := BehindIn(f, q, at, portAt, end), BehindIn(g, q, at, portAt, end);
    k1, k2, k3 := c + Word(f, at) - Word(g, at), a + Word(f, at) - Word(g, at), 0;
    if ReachesSegment(q, portAt, end) {
      k3 := CopiedSegmentKept(f, g, q, at, portAt, end, b);
    }
  }

  lemma QuoteSumsKeepValid(f: Bytes, g: Bytes, q: Quote, portAt: nat, end: nat, rest: int, o: int, o': int,
                           k1: int, k2: int, k3: int)
    requires Fits(f, q) && |g| == |f| && q.icmpOff <= end <= |f| && q.l4Off <= portAt && !q.t.proto.OtherProto?
    requires q.l4CheckAt.Some? ==> q.l4CheckAt.value == q.l4Off + L4CheckAt(q.t.proto)
    requires q.l4CheckAt.Some? && q.t.proto == Udp ==> Word(f, q.l4CheckAt.value) != 0
    requires QuoteSumsAgree(f, g, q, portAt, end, o, o', k1, k2, k3)
    ensures && (Same(o, o') ==> (MessageValid(g, q, end, rest) <==> MessageValid(f, q, end, rest)))
            && (MessageValid(f, q, end, rest) ==> (MessageValid(g, q, end, rest) <==> Same(o, o')))
    ensures CopyValid(g, q) <==> CopyValid(f, q)
    ensures ReachesSegment(q, portAt, end) && CopiedSegmentValid(f, q, end, rest) ==>
              CopiedSegmentValid(g, q, end, rest)
  {
    ShiftDecides(Sum(f, q.icmpOff, end), Sum(g, q.icmpOff, end), rest, o, o', k1);
    ShiftKeepsValid(Sum(f, q.ipOff, q.l4Off), Sum(g, q.ipOff, q.l4Off), 0, k2);
    if ReachesSegment(q, portAt, end) && CopiedSegmentValid(f, q, end, rest) {
      SegmentStaysValid(f, g, q.t.proto, q.ipOff, q.l4Off, end, k3, rest);
    }
  }

  /**
   * One field change, three nested checksums, wherever the message ends.
   * Rewriting the copy keeps the copied IP checksum and the copied L4 checksum
   * valid if they were; it keeps a valid outer ICMP checksum valid exactly when
   * what lies behind the message end adds up as before.
   */
  lemma QuoteRewriteKeepsValid(f: Bytes, g: Bytes, q: Quote, outerIsSource: bool, addr: Addr, port: Port,
                               end: nat, rest: int)
    requires ReadQuote(f) == Some(q) && QuoteRewritten(f, g, q, outerIsSource, addr, port)
    requires q.icmpOff <= end <= |f|
    ensures |g| == |f|
    ensures var kept := TailKept(q, outerIsSource, Word(f, q.icmpOff + 2), addr, port, end);
            && (kept ==> (MessageValid(g, q, end, rest) <==> MessageValid(f, q, end, rest)))
            && (MessageValid(f, q, end, rest) ==> (MessageValid(g, q, end, rest) <==> kept))
    ensures CopyValid(g, q) <==> CopyValid(f, q)
    ensures q.l4CheckAt.Some? ==> q.l4CheckAt.value == q.l4Off + L4CheckAt(q.t.proto)
    ensures ReachesSegment(q, QuotePortAt(q, outerIsSource), end) && CopiedSegmentValid(f, q, end, rest) ==>
              CopiedSegmentValid(g, q, end, rest)
  {
    ReadQuoteParses(f);
    var o, o', k1, k2, k3 := RewrittenSums(f, g, q, outerIsSource, addr, port, end);
    QuoteSumsKeepValid(f, g, q, QuotePortAt(q, outerIsSource), end, rest, o, o', k1, k2, k3);
  }

  /** The part of a rewrite that a parser sees: where it stored, the address and the port. */
  ghost predicate FieldsStored(f: Bytes, g: Bytes, q: Quote, at: nat, portAt: nat, addr: Addr, port: Port) {
    && QuoteStored(f, g, q, at, portAt) && at + 4 <= |f| && portAt + 2 <= |f|
    && Long(g, at) == addr && Word(g, portAt) == port
  }

  lemma RewrittenStores(f: Bytes, g: Bytes, q: Quote, outerIsSource: bool, addr: Addr, port: Port)
    requires QuoteRewritten(f, g, q, outerIsSource, addr, port)
    ensures FieldsStored(f, g, q, QuoteAddrAt(q, outerIsSource), QuotePortAt(q, outerIsSource), addr, port)
  {
  }

  /** Bytes a quote rewrite leaves alone: all that decides how the copy parses. */
  lemma ShapeKept(f: Bytes, g: Bytes, q: Quote, at: nat, portAt: nat)
    requires Parsed(f, q) && Names(q, at, portAt) && QuoteStored(f, g, q, at, portAt)
    ensures forall i :: 0 <= i < q.icmpOff + 2 ==> g[i] == f[i]
    ensures forall i :: q.ipOff <= i < q.ipOff + 10 ==> g[i] == f[i]
    ensures q.t.proto == Icmp ==> g[q.l4Off] == f[q.l4Off]
  {
  }

  /** Each field of the tuple, read back from the rewritten frame. */
  lemma FieldsReadBack(f: Bytes, g: Bytes, q: Quote, outerIsSource: bool, addr: Addr, port: Port)
    requires Parsed(f, q)
    requires FieldsStored(f, g, q, QuoteAddrAt(q, outerIsSource), QuotePortAt(q, outerIsSource), addr, port)
    ensures var t := Renamed(q.t, !outerIsSource, addr, port);
            && Long(g, q.ipOff + 12) == t.saddr && Long(g, q.ipOff + 16) == t.daddr
            && Word(g, q.l4Off + PortAt(q.t.proto, true)) == t.sport
            && Word(g, q.l4Off + PortAt(q.t.proto, false)) == t.dport
  {
  }

  lemma QuoteAtReads(g: Bytes, icmp: nat, ip: nat, l4: nat, t: Tuple)
    requires ip + 20 <= |g| && l4 + 8 <= |g| && !t.proto.OtherProto? && t.WellFormed()
    requires ProtoOf(g[ip + 9]) == t.proto && (t.proto == Icmp ==> IsEcho(g[l4]))
    requires Long(g, ip + 12) == t.saddr && Long(g, ip + 16) == t.daddr
    requires Word(g, l4 + PortAt(t.proto, true)) == t.sport && Word(g, l4 + PortAt(t.proto, false)) == t.dport
    ensures var r := QuoteAt(g, icmp, ip, l4);
            r.Some? && r.value.t == t && r.value.icmpOff == icmp && r.value.ipOff == ip && r.value.l4Off == l4
  {
  }

  lemma QuoteAtRenamed(f: Bytes, g: Bytes, q: Quote, outerIsSource: bool, addr: Addr, port: Port)
    requires Parsed(f, q) && ProtoOf(f[q.ipOff + 9]) == q.t.proto && (q.t.proto == Icmp ==> IsEcho(f[q.l4Off]))
    requires FieldsStored(f, g, q, QuoteAddrAt(q, outerIsSource), QuotePortAt(q, outerIsSource), addr, port)
    ensures var r := QuoteAt(g, q.icmpOff, q.ipOff, q.l4Off);
            && r.Some? && r.value.t == Renamed(q.t, !outerIsSource, addr, port)
            && r.value.icmpOff == q.icmpOff && r.value.ipOff == q.ipOff && r.value.l4Off == q.l4Off
  {
    ShapeKept(f, g, q, QuoteAddrAt(q, outerIsSource), QuotePortAt(q, outerIsSource));
    FieldsReadBack(f, g, q, outerIsSource, addr, port);
    QuoteAtReads(g, q.icmpOff, q.ipOff, q.l4Off, Renamed(q.t, !outerIsSource, addr, port));
  }

  lemma ParsedShape(f: Bytes)
    requires ReadQuote(f).Some?
    ensures var q := ReadQuote(f).value;
            && CarriesQuote(f) && q.icmpOff == L4Offset(f) && q.ipOff == q.icmpOff + 8 && QuotesIp(f, q.ipOff)
            && q.l4Off == q.ipOff + (f[q.ipOff] % 16) * 4
            && ProtoOf(f[q.ipOff + 9]) == q.t.proto && (q.t.proto == Icmp ==> IsEcho(f[q.l4Off]))
  {
  }

  lemma ShapeReadsAlike(f: Bytes, g: Bytes, icmp: nat, ip: nat)
    requires CarriesQuote(f) && icmp == L4Offset(f) && ip == icmp + 8 && QuotesIp(f, ip) && |g| == |f|
    requires forall i :: 0 <= i < icmp + 2 ==> g[i] == f[i]
    requires forall i :: ip <= i < ip + 10 ==> g[i] == f[i]
    ensures CarriesQuote(g) && L4Offset(g) == icmp && QuotesIp(g, ip)
    ensures ReadQuote(g) == QuoteAt(g, icmp, ip, ip + (f[ip] % 16) * 4)
    ensures Long(g, IP_SADDR) == Long(f, IP_SADDR) && Long(g, IP_DADDR) == Long(f, IP_DADDR)
  {
    ReadersKept(f, g);
  }

  lemma ShapedFieldsRename(f: Bytes, g: Bytes, q: Quote, outerIsSource: bool, addr: Addr, port: Port)
    requires Parsed(f, q) && CarriesQuote(f) && q.icmpOff == L4Offset(f) && q.ipOff == q.icmpOff + 8
    requires QuotesIp(f, q.ipOff)
    requires q.l4Off == q.ipOff + (f[q.ipOff] % 16) * 4
    requires ProtoOf(f[q.ipOff + 9]) == q.t.proto && (q.t.proto == Icmp ==> IsEcho(f[q.l4Off]))
    requires FieldsStored(f, g, q, QuoteAddrAt(q, outerIsSource), QuotePortAt(q, outerIsSource), addr, port)
    ensures ReadQuote(g).Some? && ReadQuote(g).value.t == Renamed(q.t, !outerIsSource, addr, port)
    ensures var r := ReadQuote(g).value; r.icmpOff == q.icmpOff && r.ipOff == q.ipOff && r.l4Off == q.l4Off
    ensures Long(g, IP_SADDR) == Long(f, IP_SADDR) && Long(g, IP_DADDR) == Long(f, IP_DADDR)
  {
    ShapeKept(f, g, q, QuoteAddrAt(q, outerIsSource), QuotePortAt(q, outerIsSource));
    ShapeReadsAlike(f, g, q.icmpOff, q.ipOff);
    QuoteAtRenamed(f, g, q, outerIsSource, addr, port);
  }

  lemma FieldsStoredRenames(f: Bytes, g: Bytes, q: Quote, outerIsSource: bool, addr: Addr, port: Port)
    requires ReadQuote(f) == Some(q)
    requires FieldsStored(f, g, q, QuoteAddrAt(q, outerIsSource), QuotePortAt(q, outerIsSource), addr, port)
    ensures ReadQuote(g).Some? && ReadQuote(g).value.t == Renamed(q.t, !outerIsSource, addr, port)
    ensures var r := ReadQuote(g).value; r.icmpOff == q.icmpOff && r.ipOff == q.ipOff && r.l4Off == q.l4Off
    ensures Long(g, IP_SADDR) == Long(f, IP_SADDR) && Long(g, IP_DADDR) == Long(f, IP_DADDR)
  {
    ReadQuoteParses(f);
    ParsedShape(f);
    ShapedFieldsRename(f, g, q, outerIsSource, addr, port);
  }

  /** Read again, the copy shows the new address and port on the mirrored side, and parses as before. */
  lemma QuoteRewriteRenames(f: Bytes, g: Bytes, q: Quote, outerIsSource: bool, addr: Addr, port: Port)
    requires ReadQuote(f) == Some(q) && QuoteRewritten(f, g, q, outerIsSource, addr, port)
    ensures ReadQuote(g).Some? && ReadQuote(g).value.t == Renamed(q.t, !outerIsSource, addr, port)
    ensures var r := ReadQuote(g).value; r.icmpOff == q.icmpOff && r.ipOff == q.ipOff && r.l4Off == q.l4Off
    ensures Long(g, IP_SADDR) == Long(f, IP_SADDR) && Long(g, IP_DADDR) == Long(f, IP_DADDR)
  {
    RewrittenStores(f, g, q, outerIsSource, addr, port);
    FieldsStoredRenames(f, g, q, outerIsSource, addr, port);
  }

  /** The outer IP header is not touched, so its checksum stays as it was. */
  lemma QuoteRewriteKeepsOuterHeader(f: Bytes, g: Bytes, q: Quote, outerIsSource: bool, addr: Addr, port: Port)
    requires ReadQuote(f) == Some(q) && QuoteRewritten(f, g, q, outerIsSource, addr, port)
    ensures IpValid(g) <==> IpValid(f)
  {
    ReadQuoteParses(f);
    ShapeKept(f, g, q, QuoteAddrAt(q, outerIsSource), QuotePortAt(q, outerIsSource));
    ReadersKept(f, g);
    SumKept(f, g, ETH_LEN, L4Offset(f));
  }

  lemma WordFixesBytes(g: Bytes, h: Bytes, o: nat)
    requires |h| == |g| && o + 2 <= |g| && Word(g, o) == Word(h, o)
    ensures g[o] == h[o] && g[o + 1] == h[o + 1]
  {
  }

  lemma LongFixesBytes(g: Bytes, h: Bytes, o: nat)
    requires |h| == |g| && o + 4 <= |g| && Long(g, o) == Long(h, o)
    ensures g[o..o + 4] == h[o..o + 4]
  {
    WordFixesBytes(g, h, o);
    WordFixesBytes(g, h, o + 2);
  }

  lemma HeldValuesFixTheFrame(f: Bytes, g: Bytes, h: Bytes, q: Quote, at: nat, portAt: nat, addr: Addr, port: Port,
                              n: Checks)
    requires Holds(f, g, q, at, portAt, addr, port, n) && Holds(f, h, q, at, portAt, addr, port, n)
    ensures g == h
  {
    WordFixesBytes(g, h, portAt);
    WordFixesBytes(g, h, q.icmpOff + 2);
    WordFixesBytes(g, h, q.ipOff + 10);
    LongFixesBytes(g, h, at);
    assert forall i | at <= i < at + 4 :: g[i] == g[at..at + 4][i - at] && h[i] == h[at..at + 4][i - at];
    if q.l4CheckAt.Some? {
      WordFixesBytes(g, h, q.l4CheckAt.value);
    }
  }

  /** The relation names one frame: every byte of the result is fixed. */
  lemma QuoteRewriteIsUnique(f: Bytes, g: Bytes, h: Bytes, q: Quote, outerIsSource: bool, addr: Addr, port: Port)
    requires QuoteRewritten(f, g, q, outerIsSource, addr, port) && QuoteRewritten(f, h, q, outerIsSource, addr, port)
    ensures g == h
  {
    HeldValuesFixTheFrame(f, g, h, q, QuoteAddrAt(q, outerIsSource), QuotePortAt(q, outerIsSource), addr, port,
      NewChecks(q, Word(f, q.icmpOff + 2), OldAddr(q, outerIsSource), addr, OldPort(q, outerIsSource), port));
  }
}
