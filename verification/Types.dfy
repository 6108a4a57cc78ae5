/** Values every part of the data plane shares: addresses, ports, flow tuples. */
module Types {

  /** An IPv4 address, as the number it denotes (host byte order). */
  type Addr = x: int | 0 <= x < 0x1_0000_0000

  /** A TCP or UDP port, or an ICMP Echo Identifier. */
  type Port = x: int | 0 <= x < 0x1_0000

  datatype Option<+T> = None | Some(value: T)

  datatype Proto = Tcp | Udp | Icmp | OtherProto(number: nat)

  /** The TCP flags the state machine tracks; all others are masked off. */
  datatype TcpFlag = Fin | Syn | Rst | Ack

  /**
   * The five fields a flow is told by. An ICMP Echo has one Identifier, which
   * stands in both port slots.
   */
  datatype Tuple = Tuple(saddr: Addr, daddr: Addr, sport: Port, dport: Port, proto: Proto)
  {
    /** The tuple of a packet travelling the other way. */
    function Mirror(): Tuple {
      Tuple(daddr, saddr, dport, sport, proto)
    }

    /** The tuple after the source was rewritten; an Echo has one Identifier for both slots. */
    function WithSource(addr: Addr, port: Port): Tuple {
      if proto == Icmp then this.(saddr := addr, sport := port, dport := port)
      else this.(saddr := addr, sport := port)
    }

    /** The tuple after the destination was rewritten. */
    function WithDestination(addr: Addr, port: Port): Tuple {
      if proto == Icmp then this.(daddr := addr, sport := port, dport := port)
      else this.(daddr := addr, dport := port)
    }

    /** What a parser can produce: an Echo repeats its Identifier. */
    predicate WellFormed() {
      proto == Icmp ==> sport == dport
    }
  }

  /** A clock reading: 64 bits, nanoseconds. */
  type Time = x: int | 0 <= x < 0x1_0000_0000_0000_0000

  /** Unsigned subtraction of two clock readings. */
  function Elapsed(now: Time, since: Time): (d: Time)
    ensures since <= now ==> d == now - since
  {
    (now - since) % 0x1_0000_0000_0000_0000
  }

  predicate HasPorts(proto: Proto) {
    proto == Tcp || proto == Udp
  }

  function Pow2(n: nat): (r: nat)
    ensures r > 0
  {
    if n == 0 then 1 else 2 * Pow2(n - 1)
  }
}
