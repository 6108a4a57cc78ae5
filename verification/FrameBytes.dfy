/**
 * The parsers told byte by byte: which frames show a tuple, which carry a copy
 * that can be repaired, and what the 1:1 fix-up answers for each frame.
 */
module FrameBytes {
  import opened Types
  import opened Checksum
  import opened Frame
  import opened FrameRewrite
  import opened FrameQuote
  import opened FrameBuffer

  /** Sixteen and thirty-two bits in network order. */
  function Two(f: Bytes, o: nat): int
    requires o + 2 <= |f|
  {
    f[o] as int * 256 + f[o + 1]
  }

  function Four(f: Bytes, o: nat): int
    requires o + 4 <= |f|
  {
    f[o] as int * 16777216 + f[o + 1] as int * 65536 + f[o + 2] as int * 256 + f[o + 3]
  }

  /** Where the packet behind the IPv4 header at `ip` starts: four bytes per unit of its length field. */
  function Behind(f: Bytes, ip: nat): nat
    requires ip < |f|
  {
    ip + 4 * (f[ip] % 16)
  }

  /** An IPv4 header of 20 bytes or more at offset zero of its datagram. */
  predicate FirstHeader(f: Bytes, ip: nat) {
    ip + 20 <= |f| && f[ip] % 16 >= 5 && Two(f, ip + 6) % 8192 == 0
  }

  // ---- Tuples --------------------------------------------------------------

  /** A TCP header of 20 bytes, eight bytes of UDP, or an unfragmented Echo: request 8, answer 0. */
  predicate ShowsTuple(f: Bytes) {
    && |f| >= 34 && f[14] % 16 >= 5
    && var l4 := Behind(f, 14);
       || (f[23] == 6 && l4 + 20 <= |f|)
       || (f[23] == 17 && l4 + 8 <= |f|)
       || (f[23] == 1 && l4 + 8 <= |f| && FirstHeader(f, 14) && (f[l4] == 8 || f[l4] == 0))
  }

  lemma WordsAreTwo(f: Bytes, o: nat)
    requires o + 2 <= |f|
    ensures Word(f, o) == Two(f, o)
  {
  }

  lemma LongsAreFour(f: Bytes, o: nat)
    requires o + 4 <= |f|
    ensures Long(f, o) == Four(f, o)
  {
  }

  /** The tuple of a frame: addresses and ports where the standards put them, the Identifier of an Echo twice. */
  lemma TupleIsReadFromBytes(f: Bytes)
    ensures TupleOf(f).Some? <==> ShowsTuple(f)
    ensures ShowsTuple(f) ==>
              var t, l4 := TupleOf(f).value, Behind(f, 14);
              && t.saddr == Four(f, 26) && t.daddr == Four(f, 30)
              && t.proto == (if f[23] == 6 then Tcp else if f[23] == 17 then Udp else Icmp)
              && t.sport == (if f[23] == 1 then Two(f, l4 + 4) else Two(f, l4))
              && t.dport == (if f[23] == 1 then Two(f, l4 + 4) else Two(f, l4 + 2))
  {
    if |f| >= 34 {
      WordsAreTwo(f, 20);
      LongsAreFour(f, 26);
      LongsAreFour(f, 30);
    }
  }

  // ---- Which rewrites go through -------------------------------------------

  /** An L4 checksum that covers the addresses lies within the frame; only the first fragment has one. */
  predicate AddrWritable(f: Bytes) {
    && |f| >= 34 && f[14] % 16 >= 5
    && (Two(f, 20) % 8192 == 0 ==>
          && (f[23] == 6 ==> Behind(f, 14) + 20 <= |f|)
          && (f[23] == 17 ==> Behind(f, 14) + 8 <= |f|))
  }

  lemma CheckUpdates(kernel: Helper, f: Bytes, g: Bytes, was: u32, becomes: u32)
    requires HasIp(f) && Stored(f, g, IP_CHECK, 2)
    ensures UpdateL4Check(kernel, g, was, becomes).Some? <==> AddrWritable(f)
  {
    ReadersKept(f, g);
    WordsAreTwo(f, 20);
  }

  /** An address rewrite goes through exactly if the address is there or the checksums over it are within reach. */
  lemma AddrRewritesGoThrough(kernel: Helper, f: Bytes, isSource: bool, addr: Addr)
    ensures var r := RewriteAddr(kernel, f, isSource, addr);
            if |f| >= 34 && Four(f, if isSource then 26 else 30) == addr then r == Some(f)
            else r.Some? <==> AddrWritable(f)
  {
    if |f| >= 34 {
      var was := Long(f, AddrAt(isSource));
      LongsAreFour(f, AddrAt(isSource));
      Put16Stores(f, IP_CHECK, kernel.update(Word(f, IP_CHECK), was, addr));
      CheckUpdates(kernel, f, ReplaceCheck(kernel, f, IP_CHECK, was, addr), was, addr);
    }
  }

  /** A port rewrite goes through exactly on the frames that show a tuple. */
  lemma PortRewritesGoThrough(kernel: Helper, f: Bytes, isSource: bool, port: Port)
    ensures RewritePort(kernel, f, isSource, port).Some? <==> ShowsTuple(f)
  {
    TupleIsReadFromBytes(f);
  }

  // ---- Copies --------------------------------------------------------------

  /** An unfragmented ICMP message of type 3, 4, 5, 11 or 12. */
  predicate ErrorMessage(f: Bytes) {
    && |f| >= 34 && f[23] == 1 && FirstHeader(f, 14)
    && Behind(f, 14) + 8 <= |f| && f[Behind(f, 14)] in {3, 4, 5, 11, 12}
  }

  /** The copy in it: an IPv4 header at offset zero and eight bytes of TCP, UDP or an Echo behind it. */
  predicate ReadableCopy(f: Bytes) {
    && ErrorMessage(f)
    && var ip := Behind(f, 14) + 8;
    && FirstHeader(f, ip) && f[ip] / 16 == 4
    && var l4 := Behind(f, ip);
       l4 + 8 <= |f| && (f[ip + 9] == 6 || f[ip + 9] == 17 || (f[ip + 9] == 1 && (f[l4] == 8 || f[l4] == 0)))
  }

  lemma ErrorsCarryCopies(f: Bytes)
    ensures CarriesQuote(f) <==> ErrorMessage(f)
    ensures CarriesQuote(f) ==> L4Offset(f) == Behind(f, 14)
  {
    if |f| >= 34 {
      WordsAreTwo(f, 20);
    }
  }

  lemma CopiedHeaderReads(f: Bytes, ip: nat)
    ensures QuotesIp(f, ip) <==> FirstHeader(f, ip) && f[ip] / 16 == 4 && Behind(f, ip) + 8 <= |f|
  {
    if ip + 20 <= |f| {
      WordsAreTwo(f, ip + 6);
    }
  }

  /** Which frames have a copy that can be repaired, and what its addresses are. */
  lemma CopyIsReadFromBytes(f: Bytes)
    ensures ReadQuote(f).Some? <==> ReadableCopy(f)
    ensures ReadableCopy(f) ==>
              var t, ip := ReadQuote(f).value.t, Behind(f, 14) + 8;
              && t.saddr == Four(f, ip + 12) && t.daddr == Four(f, ip + 16)
              && t.proto == (if f[ip + 9] == 6 then Tcp else if f[ip + 9] == 17 then Udp else Icmp)
              && var l4 := Behind(f, ip);
              && t.sport == (if f[ip + 9] == 1 then Two(f, l4 + 4) else Two(f, l4))
              && t.dport == (if f[ip + 9] == 1 then Two(f, l4 + 4) else Two(f, l4 + 2))
  {
    ErrorsCarryCopies(f);
    if CarriesQuote(f) {
      CopiedHeaderReads(f, L4Offset(f) + 8);
      if QuotesIp(f, L4Offset(f) + 8) {
        CopyFieldsRead(f, L4Offset(f), L4Offset(f) + 8, Behind(f, L4Offset(f) + 8));
      }
    }
  }

  lemma CopyFieldsRead(f: Bytes, icmp: nat, ip: nat, l4: nat)
    requires ip + 20 <= |f| && l4 + 8 <= |f|
    ensures var r := QuoteAt(f, icmp, ip, l4);
            && (r.Some? <==> f[ip + 9] == 6 || f[ip + 9] == 17 || (f[ip + 9] == 1 && (f[l4] == 8 || f[l4] == 0)))
            && (r.Some? ==>
                  var t := r.value.t;
                  && t.saddr == Four(f, ip + 12) && t.daddr == Four(f, ip + 16)
                  && t.proto == (if f[ip + 9] == 6 then Tcp else if f[ip + 9] == 17 then Udp else Icmp)
                  && t.sport == (if f[ip + 9] == 1 then Two(f, l4 + 4) else Two(f, l4))
                  && t.dport == (if f[ip + 9] == 1 then Two(f, l4 + 4) else Two(f, l4 + 2)))
  {
    LongsAreFour(f, ip + 12);
    LongsAreFour(f, ip + 16);
  }

  // ---- The 1:1 fix-up ------------------------------------------------------

  /** The address of the copy that a 1:1 NAT moves: the copied packet went the other way. */
  function CopiedAddr(f: Bytes, outerIsSource: bool): int
    requires ReadableCopy(f)
  {
    Four(f, Behind(f, 14) + 8 + (if outerIsSource then 16 else 12))
  }

  /**
   * The three answers. 0 exactly for a frame with an IP header that is no error
   * message, so the outer header alone is rewritten; 1 exactly for an error whose
   * copy can be read and names the old address; -1 for all others.
   */
  lemma FixupAnswers(f: Bytes, outerIsSource: bool, oldAddr: Addr)
    ensures var code := FixupCode(f, outerIsSource, oldAddr);
            && (code == 0 <==> |f| >= 34 && !ErrorMessage(f))
            && (code == 1 <==> ReadableCopy(f) && CopiedAddr(f, outerIsSource) == oldAddr)
            && code in {-1, 0, 1}
    ensures ShowsTuple(f) ==> FixupCode(f, outerIsSource, oldAddr) == 0
  {
    ErrorsCarryCopies(f);
    CopyIsReadFromBytes(f);
  }
}
