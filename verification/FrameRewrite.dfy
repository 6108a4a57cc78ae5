/**
 * The address and port rewrites, and what they keep: valid checksums stay
 * valid and nothing but the rewritten field and its checksums moves. A packet
 * is told by where its IPv4 header (`ip`) and its L4 header (`l4`) start, so
 * the same facts serve a frame's own packet and the copy inside an ICMP error.
 */
module FrameRewrite {
  import opened Types
  import opened Checksum
  import opened Frame

  // ---- The rewrites --------------------------------------------------------

  /**
   * The kernel's checksum helper: the checksum after a field under it became
   * another. The rewrites work with any helper that keeps the sum.
   */
  datatype Helper = Helper(update: (u16, u32, u32) -> u16)

  predicate Keeps(kernel: Helper, check: u16, was: u32, becomes: u32) {
    Same(kernel.update(check, was, becomes), check + was - becomes)
  }

  ghost predicate Sound(kernel: Helper) {
    forall check: u16, was: u32, becomes: u32 :: Keeps(kernel, check, was, becomes)
  }

  /** The helper that computes what the kernel computes, and what the copy rewrite computes itself. */
  lemma ReplaceIsSound()
    ensures Sound(Helper(Csum16Replace))
  {
  }

  /** A checksum helper call: the word at `at` after `was` became `becomes` under it. */
  function ReplaceCheck(kernel: Helper, f: Bytes, at: nat, was: u32, becomes: u32): Bytes
    requires at + 2 <= |f|
  {
    Put16(f, at, kernel.update(Word(f, at), was, becomes))
  }

  /** The L4 checksum after a pseudo-header address changed; None drops the packet. */
  function UpdateL4Check(kernel: Helper, f: Bytes, was: u32, becomes: u32): (r: Option<Bytes>)
    requires HasIp(f)
    ensures r.Some? ==> |r.value| == |f|
  {
    if Ihl(f) < 5 then None
    else if FragOffset(f) != 0 then Some(f)
    else match IpProto(f)
      case Tcp =>
        if L4Offset(f) + 20 > |f| then None else Some(ReplaceCheck(kernel, f, L4Offset(f) + 16, was, becomes))
      case Udp =>
        if L4Offset(f) + 8 > |f| then None
        else if Word(f, L4Offset(f) + 6) == 0 then Some(f)
        else Some(ReplaceCheck(kernel, f, L4Offset(f) + 6, was, becomes))
      case _ => Some(f)
  }

  function AddrAt(isSource: bool): nat {
    if isSource then IP_SADDR else IP_DADDR
  }

  /** The frame with one address rewritten and every checksum that covers it refreshed. */
  function RewriteAddr(kernel: Helper, f: Bytes, isSource: bool, addr: Addr): Option<Bytes> {
    if !HasIp(f) then None
    else
      var was := Long(f, AddrAt(isSource));
      if was == addr then Some(f)
      else match UpdateL4Check(kernel, ReplaceCheck(kernel, f, IP_CHECK, was, addr), was, addr)
        case None => None
        case Some(g) => Some(Put32(g, AddrAt(isSource), addr))
  }

  /** Where the port to rewrite sits; an Echo has its Identifier instead, for either side. */
  function PortAt(proto: Proto, isSource: bool): nat {
    if proto == Icmp then 4 else if isSource then 0 else 2
  }

  function RewritePort(kernel: Helper, f: Bytes, isSource: bool, port: Port): Option<Bytes> {
    if !HasL4(f) || (IpProto(f) == Icmp && !HasEchoId(f)) then None
    else
      var at, check := L4Offset(f) + PortAt(IpProto(f), isSource), L4Offset(f) + L4CheckAt(IpProto(f));
      var was := Word(f, at);
      if was == port then Some(f)
      else if IpProto(f) == Udp && Word(f, check) == 0 then Some(Put16(f, at, port))
      else Some(Put16(ReplaceCheck(kernel, f, check, was, port), at, port))
  }

  // ---- What a checksum has to do -------------------------------------------

  /**
   * The word at `check` moved against the 32-bit field at `at` and the word at
   * `port`: equal as one's-complement sums, `q` multiples of the modulus apart.
   */
  ghost predicate Follows(f: Bytes, g: Bytes, check: nat, at: nat, port: nat, q: int)
    requires |g| == |f| && check + 2 <= |f| && at + 4 <= |f| && port + 2 <= |f|
  {
    Word(g, check) == Word(f, check) + Long(f, at) - Long(g, at) + Word(f, port) - Word(g, port) + MODULUS * q
  }

  /** The same for a checksum without a pseudo-header, which covers no address. */
  ghost predicate FollowsPort(f: Bytes, g: Bytes, check: nat, port: nat, q: int)
    requires |g| == |f| && check + 2 <= |f| && port + 2 <= |f|
  {
    Word(g, check) == Word(f, check) + Word(f, port) - Word(g, port) + MODULUS * q
  }

  /** Within [lo, hi) only the IP checksum, an address, a port and an L4 checksum differ. */
  ghost predicate OnlyFields(f: Bytes, g: Bytes, lo: nat, hi: nat, ip: nat, at: nat, port: nat, check: nat) {
    && |g| == |f| && hi <= |f|
    && forall i | lo <= i < hi && !(ip + 10 <= i < ip + 12) && !(at <= i < at + 4) &&
                  !(port <= i < port + 2) && !(check <= i < check + 2) :: g[i] == f[i]
  }

  /** Where the fields of a packet may sit. */
  predicate Layout(ip: nat, l4: nat, at: nat, port: nat, check: nat, end: nat) {
    && ip + 20 <= l4 && (at == ip + 12 || at == ip + 16)
    && l4 <= port && port + 2 <= end && (port - l4) % 2 == 0
    && l4 <= check && check + 2 <= end && (check - l4) % 2 == 0
    && (port + 2 <= check || check + 2 <= port)
  }

  /** The header checksum absorbs the address: the sum moves by multiples of the modulus. */
  lemma HeaderSumKept(f: Bytes, g: Bytes, ip: nat, l4: nat, at: nat, q: int)
    requires |g| == |f| && ip + 20 <= l4 <= |f| && (at == ip + 12 || at == ip + 16)
    requires forall i :: ip <= i < l4 && !(ip + 10 <= i < ip + 12) && !(at <= i < at + 4) ==> g[i] == f[i]
    requires Word(g, ip + 10) == Word(f, ip + 10) + Long(f, at) - Long(g, at) + MODULUS * q
    ensures Sum(g, ip, l4) == Sum(f, ip, l4) + MODULUS * (q + Word(f, at) - Word(g, at))
  {
    SumMovedThrice(f, g, ip, l4, ip + 10, at);
  }

  lemma PseudoSumMoved(f: Bytes, g: Bytes, ip: nat, at: nat)
    requires |g| == |f| && ip + 20 <= |f| && (at == ip + 12 || at == ip + 16)
    requires forall i :: ip + 12 <= i < ip + 20 && !(at <= i < at + 4) ==> g[i] == f[i]
    ensures Sum(g, ip + 12, ip + 20) ==
            Sum(f, ip + 12, ip + 20) - Word(f, at) - Word(f, at + 2) + Word(g, at) + Word(g, at + 2)
  {
    SumMovedTwice(f, g, ip + 12, ip + 20, at, at + 2);
  }

  lemma SegmentSumKept(f: Bytes, g: Bytes, ip: nat, l4: nat, at: nat, port: nat, check: nat, end: nat, q: int)
    requires Layout(ip, l4, at, port, check, end) && OnlyFields(f, g, ip, end, ip, at, port, check)
    requires Follows(f, g, check, at, port, q)
    ensures Sum(g, ip + 12, ip + 20) + Sum(g, l4, end) ==
            Sum(f, ip + 12, ip + 20) + Sum(f, l4, end) + MODULUS * (q + Word(f, at) - Word(g, at))
  {
    PseudoSumMoved(f, g, ip, at);
    SumMovedTwice(f, g, l4, end, port, check);
  }

  lemma PlainSegmentSumKept(f: Bytes, g: Bytes, ip: nat, l4: nat, at: nat, port: nat, check: nat, end: nat, q: int)
    requires Layout(ip, l4, at, port, check, end) && OnlyFields(f, g, ip, end, ip, at, port, check)
    requires FollowsPort(f, g, check, port, q)
    ensures Sum(g, l4, end) == Sum(f, l4, end) + MODULUS * q
  {
    SumMovedTwice(f, g, l4, end, port, check);
  }

  lemma ShiftKeepsValid(sum: int, sum': int, rest: int, k: int)
    requires sum' == sum + MODULUS * k
    ensures Same(sum' + rest, 0) <==> Same(sum + rest, 0)
  {
    if Same(sum + rest, 0) {
      var q := Apart(sum + rest, 0);
      SameBy(sum' + rest, 0, q + k);
    }
    if Same(sum' + rest, 0) {
      var q := Apart(sum' + rest, 0);
      SameBy(sum + rest, 0, q - k);
    }
  }

  /** What the L4 checksum of each protocol has to have done. An absent UDP checksum stays absent. */
  ghost predicate CheckFollows(f: Bytes, g: Bytes, proto: Proto, check: nat, at: nat, port: nat, q: int)
    requires |g| == |f| && check + 2 <= |f| && at + 4 <= |f| && port + 2 <= |f|
  {
    match proto
    case Tcp => Follows(f, g, check, at, port, q)
    case Udp => if Word(f, check) == 0 then Word(g, check) == 0 else Follows(f, g, check, at, port, q)
    case Icmp => FollowsPort(f, g, check, port, q)
    case OtherProto(_) => true
  }

  /** What an L4 checksum covers in the frame; only ICMP leaves the addresses out. */
  function Covered(f: Bytes, proto: Proto, ip: nat, l4: nat, end: nat): nat
    requires ip + 20 <= |f| && l4 <= end <= |f|
  {
    if proto == Icmp then Sum(f, l4, end) else Sum(f, ip + 12, ip + 20) + Sum(f, l4, end)
  }

  /** A checksum that followed its fields keeps what it covers, up to multiples of the modulus. */
  lemma CoveredKept(f: Bytes, g: Bytes, proto: Proto, ip: nat, l4: nat, at: nat, port: nat, end: nat, q: int)
    returns (k: int)
    requires Layout(ip, l4, at, port, l4 + L4CheckAt(proto), end)
    requires OnlyFields(f, g, ip, end, ip, at, port, l4 + L4CheckAt(proto))
    requires CheckFollows(f, g, proto, l4 + L4CheckAt(proto), at, port, q)
    ensures proto == Udp && Word(f, l4 + 6) == 0 ==> Word(g, l4 + 6) == 0
    ensures !proto.OtherProto? && !(proto == Udp && Word(f, l4 + 6) == 0) ==>
              Covered(g, proto, ip, l4, end) == Covered(f, proto, ip, l4, end) + MODULUS * k
  {
    var check := l4 + L4CheckAt(proto);
    if proto == Icmp {
      PlainSegmentSumKept(f, g, ip, l4, at, port, check, end, q);
      k := q;
    } else if proto == Tcp || (proto == Udp && Word(f, check) != 0) {
      SegmentSumKept(f, g, ip, l4, at, port, check, end, q);
      k := q + Word(f, at) - Word(g, at);
    } else {
      k := 0;
    }
  }

  /** Keeping what a checksum covers keeps it valid. */
  lemma SegmentStaysValid(f: Bytes, g: Bytes, proto: Proto, ip: nat, l4: nat, end: nat, k: int, rest: int)
    requires |g| == |f| && ip + 20 <= |f| && l4 + L4CheckAt(proto) + 2 <= end <= |f|
    requires proto == Udp && Word(f, l4 + 6) == 0 ==> Word(g, l4 + 6) == 0
    requires !proto.OtherProto? && !(proto == Udp && Word(f, l4 + 6) == 0) ==>
               Covered(g, proto, ip, l4, end) == Covered(f, proto, ip, l4, end) + MODULUS * k
    requires SegmentValid(f, proto, ip + 12, l4, end, rest)
    ensures SegmentValid(g, proto, ip + 12, l4, end, rest)
  {
    if !proto.OtherProto? && !(proto == Udp && Word(f, l4 + 6) == 0) {
      ShiftKeepsValid(Covered(f, proto, ip, l4, end), Covered(g, proto, ip, l4, end), rest, k);
    }
  }

  // ---- The address rewrite -------------------------------------------------

  /** Whether the frame holds an L4 checksum that covers the addresses. */
  predicate CoversAddr(f: Bytes) {
    HasL4(f) && FragOffset(f) == 0 &&
    (IpProto(f) == Tcp || (IpProto(f) == Udp && Word(f, L4Offset(f) + 6) != 0))
  }

  function L4Check(f: Bytes): nat
    requires HasIp(f)
  {
    L4Offset(f) + L4CheckAt(IpProto(f))
  }

  lemma ReplaceCheckMoves(kernel: Helper, f: Bytes, at: nat, was: u32, becomes: u32) returns (q: int)
    requires Sound(kernel)
    requires at + 2 <= |f|
    ensures var g := ReplaceCheck(kernel, f, at, was, becomes);
            Stored(f, g, at, 2) && Word(g, at) == Word(f, at) + was - becomes + MODULUS * q
  {
    assert Keeps(kernel, Word(f, at), was, becomes);
    q := Apart(kernel.update(Word(f, at), was, becomes), Word(f, at) + was - becomes);
    Put16Stores(f, at, kernel.update(Word(f, at), was, becomes));
  }

  /** Bytes that tell the kind of packet are not touched by storing elsewhere. */
  lemma ReadersKept(f: Bytes, g: Bytes)
    requires HasIp(f) && |g| == |f| && g[14] == f[14] && g[20] == f[20] && g[21] == f[21] && g[23] == f[23]
    ensures Ihl(g) == Ihl(f) && L4Offset(g) == L4Offset(f) && IpProto(g) == IpProto(f) && FragOffset(g) == FragOffset(f)
    ensures HasL4(g) == HasL4(f)
  {
  }

  lemma UpdateL4CheckFields(kernel: Helper, f: Bytes, was: u32, becomes: u32) returns (q: int)
    requires Sound(kernel)
    requires HasIp(f) && UpdateL4Check(kernel, f, was, becomes).Some?
    ensures var g := UpdateL4Check(kernel, f, was, becomes).value;
            if CoversAddr(f) then
              Stored(f, g, L4Check(f), 2) && Word(g, L4Check(f)) == Word(f, L4Check(f)) + was - becomes + MODULUS * q
            else g == f
  {
    q := 0;
    if CoversAddr(f) {
      q := ReplaceCheckMoves(kernel, f, L4Check(f), was, becomes);
    }
  }

  /**
   * Exactly what an address rewrite does: the address becomes the new one, the
   * IP checksum and, where one covers it, the L4 checksum follow, and every
   * other byte stays.
   */
  ghost predicate AddrRewritten(f: Bytes, g: Bytes, at: nat, addr: int, q1: int, q2: int) {
    && AddrStored(f, g, at, addr)
    && Word(g, IP_CHECK) == Word(f, IP_CHECK) + Long(f, at) - addr + MODULUS * q1
    && (CoversAddr(f) ==> Word(g, L4Check(f)) == Word(f, L4Check(f)) + Long(f, at) - addr + MODULUS * q2)
  }

  ghost predicate AddrStored(f: Bytes, g: Bytes, at: nat, addr: int) {
    && HasIp(f) && |g| == |f| && (at == IP_SADDR || at == IP_DADDR)
    && Long(g, at) == addr
    && forall i | 0 <= i < |f| && !(IP_CHECK <= i < IP_CHECK + 2) && !(at <= i < at + 4) &&
                  !(CoversAddr(f) && L4Check(f) <= i < L4Check(f) + 2) :: g[i] == f[i]
  }

  lemma CoversAddrKept(f: Bytes, g: Bytes)
    requires HasIp(f) && Stored(f, g, IP_CHECK, 2)
    ensures CoversAddr(g) == CoversAddr(f) && L4Check(g) == L4Check(f)
  {
    ReadersKept(f, g);
  }

  /** The three stores of an address rewrite, put together. */
  lemma AddrStoresCompose(f: Bytes, g1: Bytes, g2: Bytes, g: Bytes, at: nat, addr: int, q1: int, q2: int)
    requires HasIp(f) && (at == IP_SADDR || at == IP_DADDR) && Stored(f, g1, IP_CHECK, 2)
    requires Word(g1, IP_CHECK) == Word(f, IP_CHECK) + Long(f, at) - addr + MODULUS * q1
    requires if CoversAddr(f) then
               Stored(g1, g2, L4Check(f), 2) &&
               Word(g2, L4Check(f)) == Word(g1, L4Check(f)) + Long(f, at) - addr + MODULUS * q2
             else g2 == g1
    requires Stored(g2, g, at, 4) && Long(g, at) == addr
    ensures AddrRewritten(f, g, at, addr, q1, q2)
  {
  }

  lemma RewriteAddrFields(kernel: Helper, f: Bytes, isSource: bool, addr: Addr) returns (q1: int, q2: int)
    requires Sound(kernel)
    requires RewriteAddr(kernel, f, isSource, addr).Some?
    ensures AddrRewritten(f, RewriteAddr(kernel, f, isSource, addr).value, AddrAt(isSource), addr, q1, q2)
  {
    var was := Long(f, AddrAt(isSource));
    q1, q2 := 0, 0;
    if was != addr {
      var g1 := ReplaceCheck(kernel, f, IP_CHECK, was, addr);
      q1 := ReplaceCheckMoves(kernel, f, IP_CHECK, was, addr);
      CoversAddrKept(f, g1);
      q2 := UpdateL4CheckFields(kernel, g1, was, addr);
      Put32Stores(UpdateL4Check(kernel, g1, was, addr).value, AddrAt(isSource), addr);
      AddrStoresCompose(f, g1, UpdateL4Check(kernel, g1, was, addr).value, RewriteAddr(kernel, f, isSource, addr).value,
                        AddrAt(isSource), addr, q1, q2);
    }
  }

  /** The part of a valid frame's packet that a rewrite must keep valid. */
  predicate Valid(f: Bytes, end: nat, rest: int) {
    IpValid(f) && HasL4(f) && FragOffset(f) == 0 &&
    L4Offset(f) + L4HeaderLen(IpProto(f)) <= end <= |f| && L4Valid(f, end, rest)
  }

  /** Two frames whose header sum and L4 cover agree up to multiples of the modulus. */
  ghost predicate SumsAgree(f: Bytes, g: Bytes, end: nat, k1: int, k2: int) {
    && HasL4(f) && |g| == |f| && L4Offset(f) + L4HeaderLen(IpProto(f)) <= end <= |f|
    && g[14] == f[14] && g[20] == f[20] && g[21] == f[21] && g[23] == f[23]
    && Sum(g, ETH_LEN, L4Offset(f)) == Sum(f, ETH_LEN, L4Offset(f)) + MODULUS * k1
    && (if IpProto(f) == Udp && Word(f, L4Offset(f) + 6) == 0 then Word(g, L4Offset(f) + 6) == 0
        else Covered(g, IpProto(f), ETH_LEN, L4Offset(f), end) ==
             Covered(f, IpProto(f), ETH_LEN, L4Offset(f), end) + MODULUS * k2)
  }

  lemma SumsKeepValid(f: Bytes, g: Bytes, end: nat, rest: int, k1: int, k2: int)
    requires SumsAgree(f, g, end, k1, k2) && Valid(f, end, rest)
    ensures Valid(g, end, rest)
  {
    ReadersKept(f, g);
    var l4 := L4Offset(f);
    ShiftKeepsValid(Sum(f, ETH_LEN, l4), Sum(g, ETH_LEN, l4), 0, k1);
    SegmentStaysValid(f, g, IpProto(f), ETH_LEN, l4, end, k2, rest);
  }

  lemma HeaderAfter(f: Bytes, g: Bytes, at: nat, port: nat, q1: int)
    requires HasL4(f) && (at == IP_SADDR || at == IP_DADDR) && port >= L4Offset(f)
    requires OnlyFields(f, g, 0, |f|, ETH_LEN, at, port, L4Check(f))
    requires Word(g, IP_CHECK) == Word(f, IP_CHECK) + Long(f, at) - Long(g, at) + MODULUS * q1
    ensures Sum(g, ETH_LEN, L4Offset(f)) == Sum(f, ETH_LEN, L4Offset(f)) + MODULUS * (q1 + Word(f, at) - Word(g, at))
    ensures g[14] == f[14] && g[20] == f[20] && g[21] == f[21] && g[23] == f[23]
  {
    HeaderSumKept(f, g, ETH_LEN, L4Offset(f), at, q1);
  }

  lemma SegmentAfter(f: Bytes, g: Bytes, at: nat, port: nat, end: nat, q2: int) returns (k2: int)
    requires HasL4(f) && L4Offset(f) + L4HeaderLen(IpProto(f)) <= end <= |f|
    requires Layout(ETH_LEN, L4Offset(f), at, port, L4Check(f), end)
    requires OnlyFields(f, g, 0, |f|, ETH_LEN, at, port, L4Check(f))
    requires CheckFollows(f, g, IpProto(f), L4Check(f), at, port, q2)
    ensures if IpProto(f) == Udp && Word(f, L4Offset(f) + 6) == 0 then Word(g, L4Offset(f) + 6) == 0
            else Covered(g, IpProto(f), ETH_LEN, L4Offset(f), end) ==
                 Covered(f, IpProto(f), ETH_LEN, L4Offset(f), end) + MODULUS * k2
  {
    k2 := CoveredKept(f, g, IpProto(f), ETH_LEN, L4Offset(f), at, port, end, q2);
  }

  lemma SumsAfter(f: Bytes, g: Bytes, at: nat, port: nat, end: nat, q1: int, q2: int) returns (k1: int, k2: int)
    requires HasL4(f) && L4Offset(f) + L4HeaderLen(IpProto(f)) <= end <= |f|
    requires Layout(ETH_LEN, L4Offset(f), at, port, L4Check(f), end)
    requires OnlyFields(f, g, 0, |f|, ETH_LEN, at, port, L4Check(f))
    requires Word(g, IP_CHECK) == Word(f, IP_CHECK) + Long(f, at) - Long(g, at) + MODULUS * q1
    requires CheckFollows(f, g, IpProto(f), L4Check(f), at, port, q2)
    ensures SumsAgree(f, g, end, k1, k2)
  {
    HeaderAfter(f, g, at, port, q1);
    k1 := q1 + Word(f, at) - Word(g, at);
    k2 := SegmentAfter(f, g, at, port, end, q2);
  }

  /** The port field stands in for the one an address rewrite does not have: it does not move. */
  lemma AddrLayout(f: Bytes, at: nat, end: nat)
    requires HasL4(f) && (at == IP_SADDR || at == IP_DADDR) && L4Offset(f) + L4HeaderLen(IpProto(f)) <= end <= |f|
    ensures Layout(ETH_LEN, L4Offset(f), at, L4Offset(f) + PortAt(IpProto(f), true), L4Check(f), end)
  {
  }

  lemma AddrOnlyFields(f: Bytes, g: Bytes, at: nat, addr: int, port: nat)
    requires AddrStored(f, g, at, addr) && HasL4(f)
    ensures OnlyFields(f, g, 0, |f|, ETH_LEN, at, port, L4Check(f))
  {
  }

  lemma AddrCheckFollows(f: Bytes, g: Bytes, at: nat, addr: int, q1: int, q2: int)
    requires AddrRewritten(f, g, at, addr, q1, q2) && HasL4(f) && FragOffset(f) == 0
    ensures CheckFollows(f, g, IpProto(f), L4Check(f), at, L4Offset(f) + PortAt(IpProto(f), true),
                         if CoversAddr(f) then q2 else 0)
  {
  }

  lemma AddrRewrittenSums(f: Bytes, g: Bytes, at: nat, addr: int, q1: int, q2: int, end: nat) returns (k1: int, k2: int)
    requires AddrRewritten(f, g, at, addr, q1, q2) && HasL4(f) && FragOffset(f) == 0
    requires L4Offset(f) + L4HeaderLen(IpProto(f)) <= end <= |f|
    ensures SumsAgree(f, g, end, k1, k2)
  {
    var port := L4Offset(f) + PortAt(IpProto(f), true);
    AddrLayout(f, at, end);
    AddrOnlyFields(f, g, at, addr, port);
    AddrCheckFollows(f, g, at, addr, q1, q2);
    k1, k2 := SumsAfter(f, g, at, port, end, q1, if CoversAddr(f) then q2 else 0);
  }

  lemma RewriteAddrKeepsValid(kernel: Helper, f: Bytes, isSource: bool, addr: Addr, end: nat, rest: int)
    requires Sound(kernel)
    requires RewriteAddr(kernel, f, isSource, addr).Some? && Valid(f, end, rest)
    ensures Valid(RewriteAddr(kernel, f, isSource, addr).value, end, rest)
  {
    var g := RewriteAddr(kernel, f, isSource, addr).value;
    var q1, q2 := RewriteAddrFields(kernel, f, isSource, addr);
    var k1, k2 := AddrRewrittenSums(f, g, AddrAt(isSource), addr, q1, q2, end);
    SumsKeepValid(f, g, end, rest, k1, k2);
  }

  lemma AddrStoredTuple(f: Bytes, g: Bytes, isSource: bool, addr: Addr)
    requires TupleOf(f).Some? && AddrStored(f, g, AddrAt(isSource), addr)
    ensures var t := TupleOf(f).value;
            TupleOf(g) == Some(if isSource then t.(saddr := addr) else t.(daddr := addr))
  {
    ReadersKept(f, g);
  }

  lemma RewriteAddrStores(kernel: Helper, f: Bytes, isSource: bool, addr: Addr)
    requires Sound(kernel)
    requires RewriteAddr(kernel, f, isSource, addr).Some?
    ensures AddrStored(f, RewriteAddr(kernel, f, isSource, addr).value, AddrAt(isSource), addr)
  {
    var _, _ := RewriteAddrFields(kernel, f, isSource, addr);
  }

  lemma RewriteAddrSucceeds(kernel: Helper, f: Bytes, isSource: bool, addr: Addr)
    requires HasL4(f)
    ensures RewriteAddr(kernel, f, isSource, addr).Some?
  {
    var was := Long(f, AddrAt(isSource));
    Put16Stores(f, IP_CHECK, kernel.update(Word(f, IP_CHECK), was, addr));
    ReadersKept(f, ReplaceCheck(kernel, f, IP_CHECK, was, addr));
  }

  /** An address rewrite moves one address of the tuple and nothing else of it. */
  lemma RewriteAddrTuple(kernel: Helper, f: Bytes, isSource: bool, addr: Addr)
    requires Sound(kernel)
    requires TupleOf(f).Some?
    ensures RewriteAddr(kernel, f, isSource, addr).Some?
    ensures var t := TupleOf(f).value;
            TupleOf(RewriteAddr(kernel, f, isSource, addr).value) ==
            Some(if isSource then t.(saddr := addr) else t.(daddr := addr))
  {
    RewriteAddrSucceeds(kernel, f, isSource, addr);
    RewriteAddrStores(kernel, f, isSource, addr);
    AddrStoredTuple(f, RewriteAddr(kernel, f, isSource, addr).value, isSource, addr);
  }

  // ---- The port rewrite ----------------------------------------------------

  /** Exactly what a port rewrite stores: the port, and the checksum if there is one. */
  ghost predicate PortStored(f: Bytes, g: Bytes, at: nat, port: int) {
    && HasL4(f) && |g| == |f| && at + 2 <= |f| && Word(g, at) == port
    && forall i | 0 <= i < |f| && !(at <= i < at + 2) && !(L4Check(f) <= i < L4Check(f) + 2) :: g[i] == f[i]
  }

  lemma PortStoresCompose(f: Bytes, g1: Bytes, g: Bytes, at: nat, port: int, q: int)
    requires HasL4(f) && Stored(f, g1, L4Check(f), 2) && Stored(g1, g, at, 2) && Word(g, at) == port
    requires at + 2 <= L4Check(f) || L4Check(f) + 2 <= at
    requires Word(g1, L4Check(f)) == Word(f, L4Check(f)) + Word(f, at) - port + MODULUS * q
    ensures PortStored(f, g, at, port) && FollowsPort(f, g, L4Check(f), at, q)
  {
  }

  lemma RewritePortFields(kernel: Helper, f: Bytes, isSource: bool, port: Port) returns (q: int)
    requires Sound(kernel)
    requires RewritePort(kernel, f, isSource, port).Some?
    ensures HasIp(f)
    ensures var g, at := RewritePort(kernel, f, isSource, port).value, L4Offset(f) + PortAt(IpProto(f), isSource);
            && PortStored(f, g, at, port)
            && (if IpProto(f) == Udp && Word(f, L4Check(f)) == 0 then Word(g, L4Check(f)) == 0
                else FollowsPort(f, g, L4Check(f), at, q))
  {
    var at := L4Offset(f) + PortAt(IpProto(f), isSource);
    q := 0;
    if Word(f, at) != port && IpProto(f) == Udp && Word(f, L4Check(f)) == 0 {
      Put16Stores(f, at, port);
    } else if Word(f, at) != port {
      q := ReplaceCheckMoves(kernel, f, L4Check(f), Word(f, at), port);
      Put16Stores(ReplaceCheck(kernel, f, L4Check(f), Word(f, at), port), at, port);
      PortStoresCompose(f, ReplaceCheck(kernel, f, L4Check(f), Word(f, at), port),
                        RewritePort(kernel, f, isSource, port).value, at, port, q);
    }
  }

  lemma PortStoredSums(f: Bytes, g: Bytes, isSource: bool, port: int, end: nat, q: int) returns (k1: int, k2: int)
    requires HasL4(f) && L4Offset(f) + L4HeaderLen(IpProto(f)) <= end <= |f|
    requires var at := L4Offset(f) + PortAt(IpProto(f), isSource);
             && PortStored(f, g, at, port)
             && (if IpProto(f) == Udp && Word(f, L4Check(f)) == 0 then Word(g, L4Check(f)) == 0
                 else FollowsPort(f, g, L4Check(f), at, q))
    ensures SumsAgree(f, g, end, k1, k2)
  {
    k1, k2 := SumsAfter(f, g, IP_SADDR, L4Offset(f) + PortAt(IpProto(f), isSource), end, 0, q);
  }

  lemma RewritePortSums(kernel: Helper, f: Bytes, isSource: bool, port: Port, end: nat) returns (k1: int, k2: int)
    requires Sound(kernel)
    requires RewritePort(kernel, f, isSource, port).Some? && L4Offset(f) + L4HeaderLen(IpProto(f)) <= end <= |f|
    ensures SumsAgree(f, RewritePort(kernel, f, isSource, port).value, end, k1, k2)
  {
    var q := RewritePortFields(kernel, f, isSource, port);
    k1, k2 := PortStoredSums(f, RewritePort(kernel, f, isSource, port).value, isSource, port, end, q);
  }

  lemma RewritePortKeepsValid(kernel: Helper, f: Bytes, isSource: bool, port: Port, end: nat, rest: int)
    requires Sound(kernel)
    requires RewritePort(kernel, f, isSource, port).Some? && Valid(f, end, rest)
    ensures Valid(RewritePort(kernel, f, isSource, port).value, end, rest)
  {
    var k1, k2 := RewritePortSums(kernel, f, isSource, port, end);
    SumsKeepValid(f, RewritePort(kernel, f, isSource, port).value, end, rest, k1, k2);
  }

  lemma PortStoredTuple(f: Bytes, g: Bytes, isSource: bool, port: Port)
    requires TupleOf(f).Some? && PortStored(f, g, L4Offset(f) + PortAt(IpProto(f), isSource), port)
    ensures var t := TupleOf(f).value;
            TupleOf(g) == Some(if isSource then t.WithSource(t.saddr, port) else t.WithDestination(t.daddr, port))
  {
    ReadersKept(f, g);
  }

  lemma RewritePortTuple(kernel: Helper, f: Bytes, isSource: bool, port: Port)
    requires Sound(kernel)
    requires TupleOf(f).Some?
    ensures RewritePort(kernel, f, isSource, port).Some?
    ensures var t := TupleOf(f).value;
            TupleOf(RewritePort(kernel, f, isSource, port).value) ==
            Some(if isSource then t.WithSource(t.saddr, port) else t.WithDestination(t.daddr, port))
  {
    var _ := RewritePortFields(kernel, f, isSource, port);
    PortStoredTuple(f, RewritePort(kernel, f, isSource, port).value, isSource, port);
  }

  // ---- Address and port together -------------------------------------------

  /** One side of a packet rewritten: its address, then its port. */
  function Rewrite(kernel: Helper, f: Bytes, isSource: bool, addr: Addr, port: Port): Option<Bytes> {
    match RewriteAddr(kernel, f, isSource, addr)
    case None => None
    case Some(g) => RewritePort(kernel, g, isSource, port)
  }

  function Renamed(t: Tuple, isSource: bool, addr: Addr, port: Port): Tuple {
    if isSource then t.WithSource(addr, port) else t.WithDestination(addr, port)
  }

  /** Every packet with a tuple can be rewritten, and only the named side of its tuple changes. */
  lemma RewriteRenames(kernel: Helper, f: Bytes, isSource: bool, addr: Addr, port: Port)
    requires Sound(kernel)
    requires TupleOf(f).Some?
    ensures Rewrite(kernel, f, isSource, addr, port).Some?
    ensures TupleOf(Rewrite(kernel, f, isSource, addr, port).value) ==
            Some(Renamed(TupleOf(f).value, isSource, addr, port))
  {
    RewriteAddrTuple(kernel, f, isSource, addr);
    RewritePortTuple(kernel, RewriteAddr(kernel, f, isSource, addr).value, isSource, port);
  }

  lemma RewriteKeepsValid(kernel: Helper, f: Bytes, isSource: bool, addr: Addr, port: Port, end: nat, rest: int)
    requires Sound(kernel)
    requires Rewrite(kernel, f, isSource, addr, port).Some? && Valid(f, end, rest)
    ensures Valid(Rewrite(kernel, f, isSource, addr, port).value, end, rest)
  {
    RewriteAddrKeepsValid(kernel, f, isSource, addr, end, rest);
    RewritePortKeepsValid(kernel, RewriteAddr(kernel, f, isSource, addr).value, isSource, port, end, rest);
  }
}
