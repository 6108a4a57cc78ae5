/**
 * Bytes and flows together: the frames the NAT handlers write are the packets
 * the conntrack model speaks of, with every checksum still right.
 */
module FrameNat {
  import opened Types
  import opened Conntrack
  import opened NatPlane
  import opened NatInvariant
  import opened NatReplies
  import opened NatRoundTrip
  import opened Checksum
  import opened Frame
  import opened FrameRewrite
  import opened FrameQuote
  import opened FrameBuffer
  import opened FrameBytes

  // ---- The packet a frame holds --------------------------------------------

  /** The tracked flags of a TCP header whose thirteenth byte is `b`. */
  function TrackedFlags(b: u8): set<TcpFlag> {
    (if b % 2 == 1 then {Fin} else {}) + (if (b / 2) % 2 == 1 then {Syn} else {}) +
    (if (b / 4) % 2 == 1 then {Rst} else {}) + (if (b / 16) % 2 == 1 then {Ack} else {})
  }

  function FlagsOf(f: Bytes): set<TcpFlag> {
    if HasL4(f) && IpProto(f) == Tcp then TrackedFlags(f[L4Offset(f) + 13]) else {}
  }

  function PacketOf(f: Bytes): Option<Packet> {
    if !HasIp(f) then None
    else if TupleOf(f).Some? then Some(Flow(TupleOf(f).value, FlagsOf(f)))
    else if ReadQuote(f).Some? then
      Some(IcmpError(Long(f, IP_SADDR), Long(f, IP_DADDR), ReadQuote(f).value.t))
    else Some(Opaque(Long(f, IP_SADDR), Long(f, IP_DADDR), IpProto(f)))
  }

  /** FIN, SYN, RST and ACK are the bits of weight 1, 2, 4 and 16. */
  predicate FlagBits(flags: set<TcpFlag>, b: int) {
    && (Fin in flags <==> b % 2 == 1) && (Syn in flags <==> (b / 2) % 2 == 1)
    && (Rst in flags <==> (b / 4) % 2 == 1) && (Ack in flags <==> (b / 16) % 2 == 1)
  }

  /** Every frame with an IPv4 header is one kind of packet, told by its bytes, with the addresses and flags they hold. */
  lemma PacketIsReadFromBytes(f: Bytes)
    ensures PacketOf(f).Some? <==> |f| >= 34
    ensures |f| >= 34 ==>
              match PacketOf(f).value
              case Flow(t, flags) =>
                && ShowsTuple(f) && TupleOf(f) == Some(t)
                && FlagBits(flags, if f[23] == 6 then f[Behind(f, 14) + 13] else 0)
              case IcmpError(saddr, daddr, _) =>
                !ShowsTuple(f) && ReadableCopy(f) && saddr == Four(f, 26) && daddr == Four(f, 30)
              case Opaque(saddr, daddr, proto) =>
                && !ShowsTuple(f) && !ReadableCopy(f) && saddr == Four(f, 26) && daddr == Four(f, 30)
                && proto == (match f[23] case 6 => Tcp case 17 => Udp case 1 => Icmp case n => OtherProto(n))
  {
    TupleIsReadFromBytes(f);
    CopyIsReadFromBytes(f);
    if |f| >= 34 {
      LongsAreFour(f, 26);
      LongsAreFour(f, 30);
    }
  }

  // ---- The handlers' rewrites ----------------------------------------------

  /** What a translating handler writes: the source, and unless it is plain NAPT the destination. */
  function TranslateFrame(kernel: Helper, f: Bytes, plan: Plan, port: Port): Option<Bytes> {
    match Rewrite(kernel, f, true, plan.natAddr, port)
    case None => None
    case Some(g) => if plan.out == NaptOut then Some(g) else Rewrite(kernel, g, false, plan.peerAddr, plan.peerPort)
  }

  /** What a reply hook writes, from the recorded entry. */
  function ReverseFrame(kernel: Helper, f: Bytes, v: CtVal): Option<Bytes> {
    if v.action == SvcNaptIn || v.action == SharedIn then
      match Rewrite(kernel, f, true, v.newSaddr, v.newSport)
      case None => None
      case Some(g) => Rewrite(kernel, g, false, v.newDaddr, v.newDport)
    else Rewrite(kernel, f, false, v.newDaddr, v.newDport)
  }

  // ---- TCP flags survive ---------------------------------------------------

  lemma RewriteAddrKeepsFlags(kernel: Helper, f: Bytes, isSource: bool, addr: Addr)
    requires Sound(kernel)
    requires RewriteAddr(kernel, f, isSource, addr).Some?
    ensures FlagsOf(RewriteAddr(kernel, f, isSource, addr).value) == FlagsOf(f)
  {
    RewriteAddrStores(kernel, f, isSource, addr);
    AddrStoredKeepsFlags(f, RewriteAddr(kernel, f, isSource, addr).value, AddrAt(isSource), addr);
  }

  lemma AddrStoredKeepsFlags(f: Bytes, g: Bytes, at: nat, addr: int)
    requires AddrStored(f, g, at, addr)
    ensures FlagsOf(g) == FlagsOf(f)
  {
    ReadersKept(f, g);
    if HasL4(f) && IpProto(f) == Tcp {
      assert g[L4Offset(f) + 13] == f[L4Offset(f) + 13];
    }
  }

  lemma PortStoredKeepsFlags(f: Bytes, g: Bytes, isSource: bool, port: int)
    requires HasL4(f) && PortStored(f, g, L4Offset(f) + PortAt(IpProto(f), isSource), port)
    ensures FlagsOf(g) == FlagsOf(f)
  {
    ReadersKept(f, g);
    if IpProto(f) == Tcp {
      assert g[L4Offset(f) + 13] == f[L4Offset(f) + 13];
    }
  }

  lemma RewritePortKeepsFlags(kernel: Helper, f: Bytes, isSource: bool, port: Port)
    requires Sound(kernel)
    requires RewritePort(kernel, f, isSource, port).Some?
    ensures FlagsOf(RewritePort(kernel, f, isSource, port).value) == FlagsOf(f)
  {
    var _ := RewritePortFields(kernel, f, isSource, port);
    PortStoredKeepsFlags(f, RewritePort(kernel, f, isSource, port).value, isSource, port);
  }

  /** One side rewritten, as a packet: the flow is renamed and its flags stay. */
  lemma RewriteIsRenamedFlow(kernel: Helper, f: Bytes, isSource: bool, addr: Addr, port: Port)
    requires Sound(kernel)
    requires TupleOf(f).Some?
    ensures Rewrite(kernel, f, isSource, addr, port).Some?
    ensures var g := Rewrite(kernel, f, isSource, addr, port).value;
            TupleOf(g) == Some(Renamed(TupleOf(f).value, isSource, addr, port)) && FlagsOf(g) == FlagsOf(f)
  {
    RewriteRenames(kernel, f, isSource, addr, port);
    RewriteAddrKeepsFlags(kernel, f, isSource, addr);
    RewritePortKeepsFlags(kernel, RewriteAddr(kernel, f, isSource, addr).value, isSource, port);
  }

  // ---- Frames and steps agree ----------------------------------------------

  /** The frame a translating handler sends is the packet its step forwards, still valid. */
  lemma TranslateFrameAgrees(kernel: Helper, f: Bytes, plan: Plan, port: Port, end: nat, rest: int)
    requires Sound(kernel)
    requires TupleOf(f) == Some(plan.fwd.t)
    ensures TranslateFrame(kernel, f, plan, port).Some?
    ensures PacketOf(TranslateFrame(kernel, f, plan, port).value) == Some(Flow(plan.Translated(port), FlagsOf(f)))
    ensures Valid(f, end, rest) ==> Valid(TranslateFrame(kernel, f, plan, port).value, end, rest)
  {
    RewriteIsRenamedFlow(kernel, f, true, plan.natAddr, port);
    var g := Rewrite(kernel, f, true, plan.natAddr, port).value;
    if Valid(f, end, rest) {
      RewriteKeepsValid(kernel, f, true, plan.natAddr, port, end, rest);
    }
    if plan.out != NaptOut {
      RewriteIsRenamedFlow(kernel, g, false, plan.peerAddr, plan.peerPort);
      if Valid(f, end, rest) {
        RewriteKeepsValid(kernel, g, false, plan.peerAddr, plan.peerPort, end, rest);
      }
    }
  }

  /** The frame a reply hook delivers is the packet its step delivers, still valid. */
  lemma ReverseFrameAgrees(kernel: Helper, f: Bytes, v: CtVal, end: nat, rest: int)
    requires Sound(kernel)
    requires TupleOf(f).Some?
    ensures ReverseFrame(kernel, f, v).Some?
    ensures PacketOf(ReverseFrame(kernel, f, v).value) == Some(Flow(Reversed(TupleOf(f).value, v), FlagsOf(f)))
    ensures Valid(f, end, rest) ==> Valid(ReverseFrame(kernel, f, v).value, end, rest)
  {
    var g := f;
    if v.action == SvcNaptIn || v.action == SharedIn {
      RewriteIsRenamedFlow(kernel, f, true, v.newSaddr, v.newSport);
      g := Rewrite(kernel, f, true, v.newSaddr, v.newSport).value;
      if Valid(f, end, rest) {
        RewriteKeepsValid(kernel, f, true, v.newSaddr, v.newSport, end, rest);
      }
    }
    RewriteIsRenamedFlow(kernel, g, false, v.newDaddr, v.newDport);
    if Valid(f, end, rest) {
      RewriteKeepsValid(kernel, g, false, v.newDaddr, v.newDport, end, rest);
    }
  }

  /**
   * Round trip, on the wire. The frame a workload sends leaves as a valid frame
   * of the translated flow. Any valid frame answering that flow before either
   * side closes it, once the reply hook has rewritten it, is a valid frame of
   * exactly the mirrored flow; it is handed to the sender's own Subnet exactly
   * when the allocation was opened from there.
   */
  lemma FrameRoundTrip(kernel: Helper, w: World, env: Env, before: seq<Step>, ifindex: nat, f: Bytes, now: nat,
                       t: Tuple, subnet: SubnetId, p: Plan, between: seq<Step>, replyEnv: Env, r: Bytes, replyNow: nat,
                       end: nat, rest: int, rEnd: nat, rRest: int)
    requires Sound(kernel)
    requires FixedWorld(w, env) && FixedRun(w, env, before) && EnvIn(w, replyEnv) && RunIn(w, between)
    requires TupleOf(f) == Some(t) && Valid(f, end, rest) && TupleOf(r).Some? && Valid(r, rEnd, rRest)
    requires ifindex in env.portSubnet && env.portSubnet[ifindex] == subnet && subnet in env.subnetVpc
    requires Decide(env, CtKey(env.subnetVpc[subnet], t), subnet) == Translate(p)
    requires PodEgress(env, Run(map[], before), ifindex, Flow(t, FlagsOf(f)), now).verdict != Shot
    ensures PacketOf(f) == Some(Flow(t, FlagsOf(f))) && PacketOf(r) == Some(Flow(TupleOf(r).value, FlagsOf(r)))
    ensures var m := Run(map[], before);
            var sent := PodEgress(env, m, ifindex, Flow(t, FlagsOf(f)), now);
            && AllocatedPort(env, m, p).Some?
            && var port := AllocatedPort(env, m, p).value;
            && TranslateFrame(kernel, f, p, port).Some?
            && var g := TranslateFrame(kernel, f, p, port).value;
            && PacketOf(g) == Some(Flow(p.Translated(port), FlagsOf(f))) && Valid(g, end, rest)
            && sent.verdict == Forward(Flow(p.Translated(port), FlagsOf(f)))
            && var k := CtKey(p.revScope, p.Translated(port).Mirror());
            (TupleOf(r).value == k.t && k in sent.m && NoneCloses(between, t, k.t) ==>
               var m' := Run(sent.m, between);
               && k in m' && ReverseFrame(kernel, r, m'[k]).Some?
               && var h := ReverseFrame(kernel, r, m'[k]).value;
               && PacketOf(h) == Some(Flow(t.Mirror(), FlagsOf(r))) && Valid(h, rEnd, rRest)
               && var home := Deliver(subnet, Flow(t.Mirror(), FlagsOf(r)));
               && (replyEnv.Deliverable(subnet, t.saddr) && Claims(replyEnv, p) ==>
                     (AtReplyHook(replyEnv, m', p, Flow(k.t, FlagsOf(r)), replyNow).verdict == home
                      <==> OpenedFrom(before, p, subnet))))
  {
    var key := CtKey(env.subnetVpc[subnet], t);
    var m := Run(map[], before);
    DecidedNatAddress(env, key, subnet);
    DecideGivesPlanOk(w, env, key, subnet);
    RoundTrip(w, env, before, ifindex, p, FlagsOf(f), now, between, replyEnv, FlagsOf(r), replyNow);
    var port := AllocatedPort(env, m, p).value;
    TranslateFrameAgrees(kernel, f, p, port, end, rest);
    var k := CtKey(p.revScope, p.Translated(port).Mirror());
    var sent := PodEgress(env, m, ifindex, Flow(t, FlagsOf(f)), now);
    if TupleOf(r).value == k.t && k in sent.m && NoneCloses(between, t, k.t) {
      ReverseFrameAgrees(kernel, r, Run(sent.m, between)[k], rEnd, rRest);
    }
  }

  // ---- ICMP errors on the wire ---------------------------------------------

  lemma SameBytesSameQuote(f: Bytes, g: Bytes, icmp: nat, ip: nat, l4: nat)
    requires |g| == |f| && 34 <= ip && ip + 20 <= l4 && l4 + 8 <= |f|
    requires forall i :: 34 <= i < |f| ==> g[i] == f[i]
    ensures QuoteAt(g, icmp, ip, l4) == QuoteAt(f, icmp, ip, l4)
  {
  }

  lemma MessageKept(f: Bytes, g: Bytes, icmp: nat)
    requires CarriesQuote(f) && icmp == L4Offset(f) && |g| == |f|
    requires g[14] == f[14] && g[20] == f[20] && g[21] == f[21] && g[23] == f[23] && g[icmp] == f[icmp]
    ensures CarriesQuote(g) && L4Offset(g) == icmp
  {
    ReadersKept(f, g);
  }

  lemma CopyKept(f: Bytes, g: Bytes, ip: nat)
    requires QuotesIp(f, ip) && 34 <= ip && |g| == |f| && forall i :: 34 <= i < |f| ==> g[i] == f[i]
    ensures QuotesIp(g, ip) && g[ip] == f[ip]
  {
  }

  lemma SameReadersSameQuote(f: Bytes, g: Bytes)
    requires ReadQuote(f).Some? && |g| == |f| && g[14] == f[14] && g[20] == f[20] && g[21] == f[21] && g[23] == f[23]
    requires forall i :: 34 <= i < |f| ==> g[i] == f[i]
    ensures ReadQuote(g) == ReadQuote(f)
  {
    var icmp := L4Offset(f);
    MessageKept(f, g, icmp);
    CopyKept(f, g, icmp + 8);
    SameBytesSameQuote(f, g, icmp, icmp + 8, icmp + 8 + (f[icmp + 8] % 16) * 4);
  }

  /** Rewriting the outer address of an ICMP message leaves all behind its IP header alone. */
  lemma OuterAddrKeepsMessage(f: Bytes, g: Bytes, at: nat, addr: Addr)
    requires ReadQuote(f).Some? && AddrStored(f, g, at, addr)
    ensures ReadQuote(g) == ReadQuote(f)
    ensures forall i :: 34 <= i < |f| ==> g[i] == f[i]
  {
    assert !CoversAddr(f);
    SameReadersSameQuote(f, g);
  }

  lemma OuterAddrKeepsSums(f: Bytes, g: Bytes, q: Quote, end: nat, rest: int)
    requires Fits(f, q) && 34 <= q.icmpOff && |g| == |f| && (forall i :: 34 <= i < |f| ==> g[i] == f[i])
    requires q.icmpOff <= end <= |f|
    ensures MessageValid(g, q, end, rest) == MessageValid(f, q, end, rest)
    ensures CopyValid(g, q) == CopyValid(f, q)
    ensures q.l4CheckAt.Some? && q.l4Off + L4CheckAt(q.t.proto) + 2 <= end ==>
              CopiedSegmentValid(g, q, end, rest) == CopiedSegmentValid(f, q, end, rest)
  {
    SumKept(f, g, q.icmpOff, end);
    SumKept(f, g, q.ipOff, q.l4Off);
    SumKept(f, g, q.ipOff + 12, q.ipOff + 20);
    if q.l4Off <= end {
      SumKept(f, g, q.l4Off, end);
    }
  }

  lemma RewriteAddrKeepsIpValid(kernel: Helper, f: Bytes, isSource: bool, addr: Addr)
    requires Sound(kernel)
    requires RewriteAddr(kernel, f, isSource, addr).Some? && IpValid(f)
    ensures IpValid(RewriteAddr(kernel, f, isSource, addr).value)
  {
    var g, at := RewriteAddr(kernel, f, isSource, addr).value, AddrAt(isSource);
    var q1, q2 := RewriteAddrFields(kernel, f, isSource, addr);
    var k := AddrRewrittenHeaderSum(f, g, at, addr, q1, q2);
    ReadersKept(f, g);
    ShiftKeepsValid(Sum(f, ETH_LEN, L4Offset(f)), Sum(g, ETH_LEN, L4Offset(f)), 0, k);
  }

  lemma AddrRewrittenHeaderSum(f: Bytes, g: Bytes, at: nat, addr: Addr, q1: int, q2: int) returns (k: int)
    requires AddrRewritten(f, g, at, addr, q1, q2) && Ihl(f) >= 5 && L4Offset(f) <= |f|
    ensures Sum(g, ETH_LEN, L4Offset(f)) == Sum(f, ETH_LEN, L4Offset(f)) + MODULUS * k
  {
    HeaderSumKept(f, g, ETH_LEN, L4Offset(f), at, q1);
    k := q1 + Word(f, at) - Word(g, at);
  }

  lemma ErrorHasNoTuple(f: Bytes)
    requires ReadQuote(f).Some?
    ensures TupleOf(f).None? && HasIp(f)
    ensures PacketOf(f) == Some(IcmpError(Long(f, IP_SADDR), Long(f, IP_DADDR), ReadQuote(f).value.t))
  {
  }

  lemma OuterAddrPacket(g: Bytes, h: Bytes, isSource: bool, addr: Addr)
    requires ReadQuote(g).Some? && AddrStored(g, h, AddrAt(isSource), addr)
    ensures PacketOf(h) == Some(IcmpError(if isSource then addr else Long(g, IP_SADDR),
                                          if isSource then Long(g, IP_DADDR) else addr, ReadQuote(g).value.t))
  {
    OuterAddrKeepsMessage(g, h, AddrAt(isSource), addr);
    ErrorHasNoTuple(h);
  }

  /**
   * An ICMP error through the NAT, copy first and outer address second: the
   * receiver reads the copy with the NAT undone on the mirrored side. Both IP
   * checksums and the copied L4 checksum are still right if they were; a right
   * ICMP checksum stays so exactly when what the rewrite moved behind the end of
   * the message adds up as before.
   */
  lemma ErrorFrameAgrees(kernel: Helper, f: Bytes, g: Bytes, h: Bytes, q: Quote, outerIsSource: bool, addr: Addr,
                         port: Port,
                         end: nat, rest: int)
    requires Sound(kernel)
    requires ReadQuote(f) == Some(q) && QuoteRewritten(f, g, q, outerIsSource, addr, port)
    requires RewriteAddr(kernel, g, outerIsSource, addr) == Some(h)
    requires q.icmpOff <= end <= |f|
    ensures |h| == |f| && HasIp(f)
    ensures PacketOf(h) == Some(IcmpError(if outerIsSource then addr else Long(f, IP_SADDR),
                                          if outerIsSource then Long(f, IP_DADDR) else addr,
                                          Renamed(q.t, !outerIsSource, addr, port)))
    ensures IpValid(f) ==> IpValid(h)
    ensures Fits(f, q)
    ensures var kept := TailKept(q, outerIsSource, Word(f, q.icmpOff + 2), addr, port, end);
            && (kept ==> (MessageValid(h, q, end, rest) <==> MessageValid(f, q, end, rest)))
            && (MessageValid(f, q, end, rest) ==> (MessageValid(h, q, end, rest) <==> kept))
    ensures CopyValid(h, q) <==> CopyValid(f, q)
    ensures q.l4CheckAt.Some? ==> q.l4CheckAt.value == q.l4Off + L4CheckAt(q.t.proto)
    ensures ReachesSegment(q, QuotePortAt(q, outerIsSource), end) && CopiedSegmentValid(f, q, end, rest) ==>
              CopiedSegmentValid(h, q, end, rest)
  {
    RewrittenStores(f, g, q, outerIsSource, addr, port);
    RewriteAddrStores(kernel, g, outerIsSource, addr);
    ErrorPacketAgrees(f, g, h, q, outerIsSource, addr, port);
    ErrorChecksumsAgree(kernel, f, g, h, q, outerIsSource, addr, port, end, rest);
  }

  /** What a receiver reads, from where the two rewrites stored. */
  lemma ErrorPacketAgrees(f: Bytes, g: Bytes, h: Bytes, q: Quote, outerIsSource: bool, addr: Addr, port: Port)
    requires ReadQuote(f) == Some(q) && AddrStored(g, h, AddrAt(outerIsSource), addr)
    requires FieldsStored(f, g, q, QuoteAddrAt(q, outerIsSource), QuotePortAt(q, outerIsSource), addr, port)
    ensures |h| == |f| && HasIp(f)
    ensures PacketOf(h) == Some(IcmpError(if outerIsSource then addr else Long(f, IP_SADDR),
                                          if outerIsSource then Long(f, IP_DADDR) else addr,
                                          Renamed(q.t, !outerIsSource, addr, port)))
  {
    FieldsStoredRenames(f, g, q, outerIsSource, addr, port);
    OuterAddrPacket(g, h, outerIsSource, addr);
  }

  lemma ErrorChecksumsAgree(kernel: Helper, f: Bytes, g: Bytes, h: Bytes, q: Quote, outerIsSource: bool, addr: Addr,
                            port: Port,
                            end: nat, rest: int)
    requires Sound(kernel)
    requires ReadQuote(f) == Some(q) && QuoteRewritten(f, g, q, outerIsSource, addr, port)
    requires RewriteAddr(kernel, g, outerIsSource, addr) == Some(h)
    requires q.icmpOff <= end <= |f|
    ensures |h| == |f|
    ensures IpValid(f) ==> IpValid(h)
    ensures Fits(f, q)
    ensures var kept := TailKept(q, outerIsSource, Word(f, q.icmpOff + 2), addr, port, end);
            && (kept ==> (MessageValid(h, q, end, rest) <==> MessageValid(f, q, end, rest)))
            && (MessageValid(f, q, end, rest) ==> (MessageValid(h, q, end, rest) <==> kept))
    ensures CopyValid(h, q) <==> CopyValid(f, q)
    ensures q.l4CheckAt.Some? ==> q.l4CheckAt.value == q.l4Off + L4CheckAt(q.t.proto)
    ensures ReachesSegment(q, QuotePortAt(q, outerIsSource), end) && CopiedSegmentValid(f, q, end, rest) ==>
              CopiedSegmentValid(h, q, end, rest)
  {
    ReadQuoteParses(f);
    QuoteRewriteKeepsValid(f, g, q, outerIsSource, addr, port, end, rest);
    QuoteRewriteKeepsOuterHeader(f, g, q, outerIsSource, addr, port);
    QuoteRewriteRenames(f, g, q, outerIsSource, addr, port);
    RewriteAddrStores(kernel, g, outerIsSource, addr);
    OuterAddrKeepsMessage(g, h, AddrAt(outerIsSource), addr);
    OuterAddrKeepsSums(g, h, q, end, rest);
    if IpValid(f) {
      RewriteAddrKeepsIpValid(kernel, g, outerIsSource, addr);
    }
  }

  /**
   * A router's error about a live NAPT flow, on the wire: the frame handed to
   * the workload is the packet the step delivers, and quotes the tuple the
   * workload used.
   */
  lemma InboundErrorOnTheWire(kernel: Helper, w: World, env: Env, m: Entries, k: CtKey, f: Bytes, g: Bytes, h: Bytes,
                              q: Quote, now: nat)
    requires Sound(kernel)
    requires Inv(w, m) && env.subnetVpc == w.vpcs && k in m && m[k].action == NaptOut
    requires ReadQuote(f) == Some(q) && q.t == WireTuple(w.vpcs, k, m[k]) && HasIp(f)
    requires Long(f, IP_DADDR) in env.claimed
    requires var r := PeerKey(w.vpcs, k, m[k]);
             && r in m && env.Deliverable(m[r].nextSubnet, k.t.saddr)
             && QuoteRewritten(f, g, q, false, m[r].newDaddr, m[r].newDport)
             && RewriteAddr(kernel, g, false, m[r].newDaddr) == Some(h)
    ensures var r := PeerKey(w.vpcs, k, m[k]);
            && PacketOf(f).Some? && PacketOf(h).Some? && ReadQuote(h).Some? && ReadQuote(h).value.t == k.t
            && NodeIngress(env, m, PacketOf(f).value, now).verdict == Deliver(m[r].nextSubnet, PacketOf(h).value)
  {
    var r := PeerKey(w.vpcs, k, m[k]);
    ErrorHasNoTuple(f);
    RewrittenStores(f, g, q, false, m[r].newDaddr, m[r].newDport);
    RewriteAddrStores(kernel, g, false, m[r].newDaddr);
    ErrorPacketAgrees(f, g, h, q, false, m[r].newDaddr, m[r].newDport);
    InboundErrorQuotesTheSender(w, env, m, k, Long(f, IP_SADDR), Long(f, IP_DADDR), now);
    LiveFlowRestores(w, m, k);
    ErrorPacketIsQuote(h);
  }

  /** What the reverse entry of a live NAPT flow writes is what its workload uses. */
  lemma LiveFlowRestores(w: World, m: Entries, k: CtKey)
    requires Inv(w, m) && k in m && m[k].action == NaptOut
    ensures var r := PeerKey(w.vpcs, k, m[k]);
            r in m && m[r].newDaddr == k.t.saddr &&
            WireTuple(w.vpcs, k, m[k]).WithSource(m[r].newDaddr, m[r].newDport) == k.t
  {
    assert Paired(w.vpcs, m, k);
  }

  lemma ErrorPacketIsQuote(h: Bytes)
    requires PacketOf(h).Some? && PacketOf(h).value.IcmpError?
    ensures ReadQuote(h).Some? && PacketOf(h).value.quote == ReadQuote(h).value.t
  {
  }

  /** The same for an error a workload sends: it leaves quoting the tuple the peer used. */
  lemma OutboundErrorOnTheWire(kernel: Helper, w: World, env: Env, m: Entries, ifindex: nat, k: CtKey, f: Bytes,
                               g: Bytes, h: Bytes, q: Quote, now: nat)
    requires Sound(kernel)
    requires Inv(w, m) && env.subnetVpc == w.vpcs && k in m && m[k].action == NaptOut
    requires PortIn(env, ifindex, k.scope) && ReadQuote(f) == Some(q) && q.t == k.t.Mirror() && HasIp(f)
    requires var route := (k.scope, Long(f, IP_SADDR), Long(f, IP_DADDR));
             route in env.routes && env.routes[route].Internet?
    requires QuoteRewritten(f, g, q, true, m[k].newSaddr, m[k].newSport)
    requires RewriteAddr(kernel, g, true, m[k].newSaddr) == Some(h)
    ensures PacketOf(f).Some? && PacketOf(h).Some? && ReadQuote(h).Some?
    ensures ReadQuote(h).value.t == PeerKey(w.vpcs, k, m[k]).t
    ensures PodEgress(env, m, ifindex, PacketOf(f).value, now).verdict == Forward(PacketOf(h).value)
  {
    ErrorHasNoTuple(f);
    RewrittenStores(f, g, q, true, m[k].newSaddr, m[k].newSport);
    RewriteAddrStores(kernel, g, true, m[k].newSaddr);
    ErrorPacketAgrees(f, g, h, q, true, m[k].newSaddr, m[k].newSport);
    OutboundErrorQuotesThePeer(w, env, m, ifindex, k, Long(f, IP_SADDR), Long(f, IP_DADDR), now);
    ErrorPacketIsQuote(h);
    PeerUsesTranslation(w.vpcs, k, m[k]);
  }

  lemma PeerUsesTranslation(vpcs: SubnetVpcs, k: CtKey, v: CtVal)
    requires v.action == NaptOut && k.t.WellFormed()
    ensures k.t.Mirror().WithDestination(v.newSaddr, v.newSport) == PeerKey(vpcs, k, v).t
  {
  }

  // ---- In the buffer -------------------------------------------------------

  /** The packet rewrites of a translating handler. */
  method TranslateInPlace(kernel: Helper, a: array<u8>, plan: Plan, port: Port) returns (ok: bool)
    modifies a
    ensures ok == TranslateFrame(kernel, old(a[..]), plan, port).Some?
    ensures ok ==> a[..] == TranslateFrame(kernel, old(a[..]), plan, port).value
  {
    ok := RewriteInPlace(kernel, a, true, plan.natAddr, port);
    if ok && plan.out != NaptOut {
      ok := RewriteInPlace(kernel, a, false, plan.peerAddr, plan.peerPort);
    }
  }

  /** The reverse rewrite of a reply hook. */
  method ReverseInPlace(kernel: Helper, a: array<u8>, v: CtVal) returns (ok: bool)
    modifies a
    ensures ok == ReverseFrame(kernel, old(a[..]), v).Some?
    ensures ok ==> a[..] == ReverseFrame(kernel, old(a[..]), v).value
  {
    ok := true;
    if v.action == SvcNaptIn || v.action == SharedIn {
      ok := RewriteInPlace(kernel, a, true, v.newSaddr, v.newSport);
    }
    if ok {
      ok := RewriteInPlace(kernel, a, false, v.newDaddr, v.newDport);
    }
  }

  /** An ICMP error through the NAT: the copy first, then the outer address. */
  method RewriteErrorInPlace(kernel: Helper, a: array<u8>, outerIsSource: bool, addr: Addr, port: Port)
    returns (ok: bool, ghost mid: Bytes)
    modifies a
    ensures ok <==> ReadQuote(old(a[..])).Some?
    ensures ok ==> QuoteRewritten(old(a[..]), mid, ReadQuote(old(a[..])).value, outerIsSource, addr, port) &&
                   RewriteAddr(kernel, mid, outerIsSource, addr) == Some(a[..])
    ensures !ok ==> a[..] == old(a[..])
  {
    mid := a[..];
    var quote := ReadQuote(a[..]);
    if quote.None? {
      return false, mid;
    }
    ReadQuoteParses(a[..]);
    RewriteQuoteInPlace(a, quote.value, outerIsSource, addr, port);
    mid := a[..];
    QuoteRewriteRenames(old(a[..]), mid, quote.value, outerIsSource, addr, port);
    ErrorAddrSucceeds(kernel, mid, outerIsSource, addr);
    ok := RewriteAddrInPlace(kernel, a, outerIsSource, addr);
  }

  lemma ErrorAddrSucceeds(kernel: Helper, f: Bytes, isSource: bool, addr: Addr)
    requires ReadQuote(f).Some?
    ensures RewriteAddr(kernel, f, isSource, addr).Some?
  {
    RewriteAddrSucceeds(kernel, f, isSource, addr);
  }
}
