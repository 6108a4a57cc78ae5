/**
 * Frames whose trailer holds what looks like a copied checksum: the message
 * ends before it, the frame does not. Repairing the copy leaves such a message
 * with a wrong checksum.
 */
module FrameTrailer {
  import opened Types
  import opened Checksum
  import opened Frame
  import opened FrameRewrite
  import opened FrameQuote
  import opened FrameBuffer
  import opened FrameNat

  /** Every parsed copy can be rewritten: the stores never overlap and never leave the frame. */
  lemma RewriteExists(f: Bytes, q: Quote, outerIsSource: bool, addr: Addr, port: Port) returns (g: Bytes)
    requires Parsed(f, q)
    ensures QuoteRewritten(f, g, q, outerIsSource, addr, port)
  {
    var n := NewChecks(q, Word(f, q.icmpOff + 2), OldAddr(q, outerIsSource), addr, OldPort(q, outerIsSource), port);
    g := StoresExist(f, q, QuoteAddrAt(q, outerIsSource), QuotePortAt(q, outerIsSource), addr, port, n);
  }

  lemma StoresExist(f: Bytes, q: Quote, at: nat, portAt: nat, addr: Addr, port: Port, n: Checks) returns (g: Bytes)
    requires Parsed(f, q) && Names(q, at, portAt)
    ensures Holds(f, g, q, at, portAt, addr, port, n)
  {
    assert Spaced(q, at, portAt, |f|);
    var g1 := Put16(f, q.icmpOff + 2, n.icmp);
    Put16Stores(f, q.icmpOff + 2, n.icmp);
    var g2 := Put32(g1, at, addr);
    Put32Stores(g1, at, addr);
    var g3 := Put16(g2, q.ipOff + 10, n.ip);
    Put16Stores(g2, q.ipOff + 10, n.ip);
    var g4 := Put16(g3, portAt, port);
    Put16Stores(g3, portAt, port);
    g := g4;
    if q.l4CheckAt.Some? {
      g := Put16(g4, q.l4CheckAt.value, n.l4);
      Put16Stores(g4, q.l4CheckAt.value, n.l4);
    }
    StoresCompose(f, g1, g2, g3, g4, g, q, at, portAt, addr, port, n);
  }

  // ---- The frames ----------------------------------------------------------

  /** The bytes that are not zero: version and IHL, protocol, ICMP type and checksum, and of the copy the same two. */
  predicate SetAt(i: nat) {
    i == 14 || i == 23 || i == 34 || i == 36 || i == 37 || i == 42 || i == 51
  }

  /** An ICMP error over a copied packet of a protocol, in a frame of `len` bytes that ends with `last`. */
  ghost predicate Torn(f: Bytes, len: nat, proto: u8, last: u8) {
    && |f| == len >= 70 && f[14] == 0x45 && f[23] == 1 && f[34] == 3 && f[36] == 0xB7 && f[37] == 0xFF - proto
    && f[42] == 0x45 && f[51] == proto && f[len - 1] == last
    && forall i :: 0 <= i < len - 1 && !SetAt(i) ==> f[i] == 0
  }

  lemma TornFrameExists(len: nat, proto: u8, last: u8) returns (f: Bytes)
    requires len >= 70
    ensures Torn(f, len, proto, last)
  {
    var zeros := seq(len, (i: nat) => 0 as u8);
    f := zeros[14 := 0x45][23 := 1][34 := 3][36 := 0xB7][37 := 0xFF - proto][42 := 0x45][51 := proto][len - 1 := last];
  }

  lemma TornCarriesQuote(f: Bytes, len: nat, proto: u8, last: u8)
    requires Torn(f, len, proto, last)
    ensures CarriesQuote(f) && L4Offset(f) == 34 && QuotesIp(f, 42) && f[42] % 16 == 5
  {
    assert f[20] == 0 && f[21] == 0 && f[48] == 0 && f[49] == 0;
  }

  lemma ZeroWord(f: Bytes, o: nat)
    requires o + 2 <= |f| && f[o] == 0 && f[o + 1] == 0
    ensures Word(f, o) == 0
  {
  }

  /** Addresses, ports and the copied IP checksum are all zero. */
  lemma TornFieldsAreZero(f: Bytes, len: nat, proto: u8, last: u8)
    requires Torn(f, len, proto, last)
    ensures Word(f, 52) == 0 && Long(f, 54) == 0 && Long(f, 58) == 0 && Word(f, 62) == 0 && Word(f, 64) == 0
  {
    ZeroWord(f, 52);
    ZeroWord(f, 54);
    ZeroWord(f, 56);
    ZeroWord(f, 58);
    ZeroWord(f, 60);
    ZeroWord(f, 62);
    ZeroWord(f, 64);
  }

  lemma {:induction false} ZerosAddNothing(f: Bytes, lo: nat, hi: nat)
    requires lo <= hi <= |f| && forall i :: lo <= i < hi ==> f[i] == 0
    ensures Sum(f, lo, hi) == 0
    decreases hi - lo
  {
    if lo + 1 < hi {
      ZerosAddNothing(f, lo + 2, hi);
    }
  }

  /** The message adds up to 0xFFFF wherever it ends in the copied L4 header. */
  lemma TornIsValid(f: Bytes, len: nat, proto: u8, last: u8, q: Quote, end: nat)
    requires Torn(f, len, proto, last) && q.icmpOff == 34 && 52 <= end < len
    ensures MessageValid(f, q, end, 0)
  {
    ZerosAddNothing(f, 38, 42);
    ZerosAddNothing(f, 44, 50);
    ZerosAddNothing(f, 52, end);
    SumSplits(f, 38, 42, end);
    SumSplits(f, 44, 50, end);
    assert Sum(f, 50, end) == proto;
    assert Sum(f, 42, end) == 0x4500 + proto;
    assert Sum(f, 34, end) == 0xFFFF;
  }

  /** A valid message breaks when the rewrite moves the copied checksum behind its end. */
  lemma TornMessageBreaks(f: Bytes, q: Quote, end: nat) returns (g: Bytes)
    requires ReadQuote(f) == Some(q) && QuotePortAt(q, true) + 2 <= end <= |f| && q.icmpOff <= end
    ensures QuoteRewritten(f, g, q, true, 1, 0) && |g| == |f|
    ensures MessageValid(f, q, end, 0) && !Contained(q, OldAddr(q, true), 1, OldPort(q, true), 0, end) ==>
              !MessageValid(g, q, end, 0)
  {
    ReadQuoteParses(f);
    g := RewriteExists(f, q, true, 1, 0);
    TailKeptIsContained(f, q, true, Word(f, q.icmpOff + 2), 1, 0, end);
    QuoteRewriteKeepsValid(f, g, q, true, 1, 0, end, 0);
  }

  /** The rewrite of the outer address that follows leaves the message as it is. */
  lemma OuterAddrRepairsNothing(kernel: Helper, f: Bytes, g: Bytes, q: Quote, end: nat) returns (h: Bytes)
    requires Sound(kernel) && ReadQuote(f) == Some(q) && QuoteRewritten(f, g, q, true, 1, 0) && q.icmpOff <= end <= |f|
    ensures RewriteAddr(kernel, g, true, 1) == Some(h) && |h| == |g| == |f|
    ensures MessageValid(h, q, end, 0) == MessageValid(g, q, end, 0)
  {
    ReadQuoteParses(f);
    QuoteRewriteRenames(f, g, q, true, 1, 0);
    ErrorAddrSucceeds(kernel, g, true, 1);
    h := RewriteAddr(kernel, g, true, 1).value;
    RewriteAddrStores(kernel, g, true, 1);
    OuterAddrKeepsMessage(g, h, AddrAt(true), 1);
    OuterAddrKeepsSums(g, h, q, end, 0);
  }

  // ---- TCP -----------------------------------------------------------------

  /** Eight bytes of a TCP header in the message; the checksum would lie in the trailer. */
  function TcpQuote(): Quote {
    Quote(34, 42, 62, Some(78), Tuple(0, 0, 0, 0, Tcp), 0, 0, true)
  }

  lemma TcpParses(f: Bytes)
    requires Torn(f, 80, 6, 0)
    ensures ReadQuote(f) == Some(TcpQuote())
  {
    TornCarriesQuote(f, 80, 6, 0);
    TornFieldsAreZero(f, 80, 6, 0);
    ZeroWord(f, 78);
  }

  lemma TcpIsNotContained()
    ensures !Contained(TcpQuote(), 0, 1, 0, 0, 70)
  {
  }

  /** Its checksum is right; after the copied destination has gone from address 0 to address 1 it is wrong. */
  lemma TornCheckBreaksTheMessage() returns (f: Bytes, g: Bytes)
    ensures |f| == 80 && ReadQuote(f) == Some(TcpQuote()) && QuoteRewritten(f, g, TcpQuote(), true, 1, 0)
    ensures |g| == |f| && MessageValid(f, TcpQuote(), 70, 0) && !MessageValid(g, TcpQuote(), 70, 0)
  {
    f := TornFrameExists(80, 6, 0);
    TcpParses(f);
    TornIsValid(f, 80, 6, 0, TcpQuote(), 70);
    TcpIsNotContained();
    g := TornMessageBreaks(f, TcpQuote(), 70);
  }

  /** So the error leaves the NAT with a wrong checksum, whatever checksum helper the kernel brings. */
  lemma TornErrorLeavesWrong(kernel: Helper) returns (f: Bytes, g: Bytes, h: Bytes)
    requires Sound(kernel)
    ensures ReadQuote(f) == Some(TcpQuote()) && QuoteRewritten(f, g, TcpQuote(), true, 1, 0)
    ensures RewriteAddr(kernel, g, true, 1) == Some(h)
    ensures |h| == |f| == 80 && MessageValid(f, TcpQuote(), 70, 0) && !MessageValid(h, TcpQuote(), 70, 0)
  {
    f, g := TornCheckBreaksTheMessage();
    h := OuterAddrRepairsNothing(kernel, f, g, TcpQuote(), 70);
  }

  // ---- UDP -----------------------------------------------------------------

  /** Six bytes of a UDP header in the message; its checksum, 1, is all of the trailer. */
  function UdpQuote(): Quote {
    Quote(34, 42, 62, Some(68), Tuple(0, 0, 0, 0, Udp), 0, 1, true)
  }

  lemma UdpParses(f: Bytes)
    requires Torn(f, 70, 17, 1)
    ensures ReadQuote(f) == Some(UdpQuote())
  {
    TornCarriesQuote(f, 70, 17, 1);
    TornFieldsAreZero(f, 70, 17, 1);
    assert f[68] == 0 && f[69] == 1;
    assert Word(f, 68) == 1;
  }

  /** The same for a message that ends inside the eight copied bytes. */
  lemma ShortUdpBreaksTheMessage() returns (f: Bytes, g: Bytes)
    ensures |f| == 70 && ReadQuote(f) == Some(UdpQuote()) && QuoteRewritten(f, g, UdpQuote(), true, 1, 0)
    ensures |g| == |f| && MessageValid(f, UdpQuote(), 68, 0) && !MessageValid(g, UdpQuote(), 68, 0)
  {
    f := TornFrameExists(70, 17, 1);
    UdpParses(f);
    TornIsValid(f, 70, 17, 1, UdpQuote(), 68);
    assert !Contained(UdpQuote(), 0, 1, 0, 0, 68);
    g := TornMessageBreaks(f, UdpQuote(), 68);
  }
}
