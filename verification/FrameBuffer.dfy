/**
 * The rewrites as they run: stores into the packet buffer, one after the
 * other, each proved to leave the frame the functions describe.
 */
module FrameBuffer {
  import opened Types
  import opened Checksum
  import opened Frame
  import opened FrameRewrite
  import opened FrameQuote

  /** The store helper, for a 16-bit field. */
  method StoreWord(a: array<u8>, o: nat, w: u16)
    requires o + 2 <= a.Length
    modifies a
    ensures a[..] == Put16(old(a[..]), o, w)
  {
    a[o] := w / 0x100;
    a[o + 1] := w % 0x100;
  }

  /** The store helper, for a 32-bit field. */
  method StoreLong(a: array<u8>, o: nat, w: u32)
    requires o + 4 <= a.Length
    modifies a
    ensures a[..] == Put32(old(a[..]), o, w)
  {
    StoreWord(a, o, w / 0x1_0000);
    StoreWord(a, o + 2, w % 0x1_0000);
  }

  /** The checksum helper: the word at `at` after `was` became `becomes` under it. */
  method ReplaceChecksum(kernel: Helper, a: array<u8>, at: nat, was: u32, becomes: u32)
    requires at + 2 <= a.Length
    modifies a
    ensures a[..] == ReplaceCheck(kernel, old(a[..]), at, was, becomes)
  {
    StoreWord(a, at, kernel.update(Word(a[..], at), was, becomes));
  }

  method UpdateL4Checksum(kernel: Helper, a: array<u8>, was: u32, becomes: u32) returns (ok: bool)
    requires HasIp(a[..])
    modifies a
    ensures ok == UpdateL4Check(kernel, old(a[..]), was, becomes).Some?
    ensures ok ==> a[..] == UpdateL4Check(kernel, old(a[..]), was, becomes).value
    ensures !ok ==> a[..] == old(a[..])
  {
    var f := a[..];
    if Ihl(f) < 5 {
      return false;
    }
    if FragOffset(f) != 0 {
      return true;
    }
    var l4 := L4Offset(f);
    if IpProto(f) == Tcp {
      if l4 + 20 > a.Length {
        return false;
      }
      ReplaceChecksum(kernel, a, l4 + 16, was, becomes);
    } else if IpProto(f) == Udp {
      if l4 + 8 > a.Length {
        return false;
      }
      if Word(f, l4 + 6) != 0 {
        ReplaceChecksum(kernel, a, l4 + 6, was, becomes);
      }
    }
    ok := true;
  }

  /** A failed rewrite may leave a half-written frame behind; its caller drops the packet. */
  method RewriteAddrInPlace(kernel: Helper, a: array<u8>, isSource: bool, addr: Addr) returns (ok: bool)
    modifies a
    ensures ok == RewriteAddr(kernel, old(a[..]), isSource, addr).Some?
    ensures ok ==> a[..] == RewriteAddr(kernel, old(a[..]), isSource, addr).value
  {
    var f := a[..];
    if !HasIp(f) {
      return false;
    }
    var was := Long(f, AddrAt(isSource));
    if was == addr {
      return true;
    }
    ReplaceChecksum(kernel, a, IP_CHECK, was, addr);
    ok := UpdateL4Checksum(kernel, a, was, addr);
    if ok {
      StoreLong(a, AddrAt(isSource), addr);
    }
  }

  method RewritePortInPlace(kernel: Helper, a: array<u8>, isSource: bool, port: Port) returns (ok: bool)
    modifies a
    ensures ok == RewritePort(kernel, old(a[..]), isSource, port).Some?
    ensures ok ==> a[..] == RewritePort(kernel, old(a[..]), isSource, port).value
    ensures !ok ==> a[..] == old(a[..])
  {
    var f := a[..];
    if !HasL4(f) || (IpProto(f) == Icmp && !HasEchoId(f)) {
      return false;
    }
    var at := L4Offset(f) + PortAt(IpProto(f), isSource);
    var check := L4Offset(f) + L4CheckAt(IpProto(f));
    var was := Word(f, at);
    if was == port {
      return true;
    }
    if !(IpProto(f) == Udp && Word(f, check) == 0) {
      ReplaceChecksum(kernel, a, check, was, port);
    }
    StoreWord(a, at, port);
    ok := true;
  }

  method RewriteInPlace(kernel: Helper, a: array<u8>, isSource: bool, addr: Addr, port: Port) returns (ok: bool)
    modifies a
    ensures ok == Rewrite(kernel, old(a[..]), isSource, addr, port).Some?
    ensures ok ==> a[..] == Rewrite(kernel, old(a[..]), isSource, addr, port).value
  {
    ok := RewriteAddrInPlace(kernel, a, isSource, addr);
    if ok {
      ok := RewritePortInPlace(kernel, a, isSource, port);
    }
  }

  // ---- The copy inside an ICMP error ---------------------------------------

  /** The five fields lie apart, inside a frame of `len` bytes. */
  ghost predicate Spaced(q: Quote, at: nat, portAt: nat, len: nat) {
    && q.icmpOff + 4 <= q.ipOff && q.ipOff + 12 <= at && at + 4 <= q.l4Off && q.l4Off <= portAt && portAt + 2 <= len
    && (q.l4CheckAt.Some? ==>
          var c := q.l4CheckAt.value; q.l4Off <= c && c + 2 <= len && (portAt + 2 <= c || c + 2 <= portAt))
  }

  lemma StoresCompose(f: Bytes, g1: Bytes, g2: Bytes, g3: Bytes, g4: Bytes, g: Bytes, q: Quote,
                      at: nat, portAt: nat, addr: Addr, port: Port, n: Checks)
    requires Fits(f, q) && Spaced(q, at, portAt, |f|)
    requires Stored(f, g1, q.icmpOff + 2, 2) && Word(g1, q.icmpOff + 2) == n.icmp
    requires Stored(g1, g2, at, 4) && Long(g2, at) == addr
    requires Stored(g2, g3, q.ipOff + 10, 2) && Word(g3, q.ipOff + 10) == n.ip
    requires Stored(g3, g4, portAt, 2) && Word(g4, portAt) == port
    requires if q.l4CheckAt.None? then g == g4
             else Stored(g4, g, q.l4CheckAt.value, 2) && Word(g, q.l4CheckAt.value) == n.l4
    ensures Holds(f, g, q, at, portAt, addr, port, n)
  {
  }

  method StoreField16(a: array<u8>, o: nat, w: u16)
    requires o + 2 <= a.Length
    modifies a
    ensures Stored(old(a[..]), a[..], o, 2) && Word(a[..], o) == w
  {
    StoreWord(a, o, w);
    Put16Stores(old(a[..]), o, w);
  }

  method StoreField32(a: array<u8>, o: nat, w: u32)
    requires o + 4 <= a.Length
    modifies a
    ensures Stored(old(a[..]), a[..], o, 4) && Long(a[..], o) == w
  {
    StoreLong(a, o, w);
    Put32Stores(old(a[..]), o, w);
  }

  /** The five stores, given the three checksums to put in place. */
  method StoreQuote(a: array<u8>, q: Quote, at: nat, portAt: nat, addr: Addr, port: Port, n: Checks)
    requires Parsed(a[..], q) && Names(q, at, portAt)
    modifies a
    ensures Holds(old(a[..]), a[..], q, at, portAt, addr, port, n)
  {
    ghost var f := a[..];
    assert Spaced(q, at, portAt, |f|);
    StoreField16(a, q.icmpOff + 2, n.icmp);
    ghost var g1 := a[..];
    StoreField32(a, at, addr);
    ghost var g2 := a[..];
    StoreField16(a, q.ipOff + 10, n.ip);
    ghost var g3 := a[..];
    StoreField16(a, portAt, port);
    ghost var g4 := a[..];
    if q.l4CheckAt.Some? {
      StoreField16(a, q.l4CheckAt.value, n.l4);
    }
    StoresCompose(f, g1, g2, g3, g4, a[..], q, at, portAt, addr, port, n);
  }

  /** Repairs one address and one port of a copy parsed from this very frame. */
  method RewriteQuoteInPlace(a: array<u8>, q: Quote, outerIsSource: bool, addr: Addr, port: Port)
    requires Parsed(a[..], q)
    modifies a
    ensures QuoteRewritten(old(a[..]), a[..], q, outerIsSource, addr, port)
  {
    var n := NewChecks(q, Word(a[..], q.icmpOff + 2), OldAddr(q, outerIsSource), addr, OldPort(q, outerIsSource), port);
    StoreQuote(a, q, QuoteAddrAt(q, outerIsSource), QuotePortAt(q, outerIsSource), addr, port, n);
  }

  // ---- 1:1 NAT -------------------------------------------------------------

  /** 1: the copy was repaired; 0: no copy to repair; -1: a copy this NAT cannot repair. */
  function FixupCode(f: Bytes, outerIsSource: bool, oldAddr: Addr): int {
    if !HasIp(f) then -1
    else if !CarriesQuote(f) then 0
    else match ReadQuote(f)
      case None => -1
      case Some(q) => if OldAddr(q, outerIsSource) != oldAddr then -1 else 1
  }

  method FixupOneToOne(a: array<u8>, outerIsSource: bool, oldAddr: Addr, newAddr: Addr) returns (code: int)
    modifies a
    ensures code == FixupCode(old(a[..]), outerIsSource, oldAddr)
    ensures code != 1 ==> a[..] == old(a[..])
    ensures code == 1 ==>
      ReadQuote(old(a[..])).Some? &&
      var q := ReadQuote(old(a[..])).value;
      QuoteRewritten(old(a[..]), a[..], q, outerIsSource, newAddr, OldPort(q, outerIsSource))
  {
    if !HasIp(a[..]) {
      return -1;
    }
    if !CarriesQuote(a[..]) {
      return 0;
    }
    var quote := ReadQuote(a[..]);
    if quote.None? || OldAddr(quote.value, outerIsSource) != oldAddr {
      return -1;
    }
    ReadQuoteParses(a[..]);
    RewriteQuoteInPlace(a, quote.value, outerIsSource, newAddr, OldPort(quote.value, outerIsSource));
    code := 1;
  }

  /** The port written back is the one the copy carries, so a 1:1 NAT moves one address of the copy and nothing else. */
  lemma FixupMovesOneAddress(f: Bytes, g: Bytes, outerIsSource: bool, newAddr: Addr)
    requires ReadQuote(f).Some?
    requires var q := ReadQuote(f).value; QuoteRewritten(f, g, q, outerIsSource, newAddr, OldPort(q, outerIsSource))
    ensures var t := ReadQuote(f).value.t;
            ReadQuote(g).Some? &&
            ReadQuote(g).value.t == if outerIsSource then t.(daddr := newAddr) else t.(saddr := newAddr)
  {
    var q := ReadQuote(f).value;
    ReadQuoteParses(f);
    QuoteRewriteRenames(f, g, q, outerIsSource, newAddr, OldPort(q, outerIsSource));
  }
}
