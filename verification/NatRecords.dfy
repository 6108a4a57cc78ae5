/**
 * What each packet leaves in the conntrack table, entry by entry: the two a new
 * flow writes, the one an old flow refreshes, the pair a close removes. A packet
 * no entry claims leaves nothing, and goes where its hook sends such packets.
 */
module NatRecords {
  import opened Types
  import opened Conntrack
  import opened NatPlane
  import opened NatInvariant
  import opened NatRoundTrip
  import opened NatOutcomes

  // ---- States --------------------------------------------------------------

  /** What an entry starts as: a SYN opens a flow, anything else is in the middle of one. */
  function Opening(proto: Proto, flags: set<TcpFlag>): CtState {
    if proto == Tcp && Syn in flags then New else Established
  }

  /** What a TCP packet turns an open entry into. */
  function Turned(was: CtState, flags: set<TcpFlag>): CtState {
    if Fin in flags then FinWait else if was == New && Ack in flags then Established else was
  }

  predicate Ends(was: CtState, flags: set<TcpFlag>) {
    Rst in flags || (Fin in flags && was == FinWait)
  }

  /** One entry met a packet: it shows the time, and for TCP the flags; an end takes it and its other half. */
  predicate Met(m: Entries, m': Entries, k: CtKey, other: CtKey, flags: set<TcpFlag>, now: nat)
    requires k in m
  {
    var v := m[k];
    if k.t.proto != Tcp then m' == m[k := v.(lastSeen := now)]
    else if Ends(v.state, flags) then m' == m - {k, other}
    else m' == m[k := v.(lastSeen := now, state := Turned(v.state, flags), flagsSeen := v.flagsSeen + flags)]
  }

  lemma ObservingMeets(vpcs: SubnetVpcs, m: Entries, k: CtKey, flags: set<TcpFlag>, now: nat)
    requires k in m && m[k].state != Closed
    ensures Met(m, ObservedIfTcp(vpcs, Touched(m, k, now), k, flags), k, OppositeKey(vpcs, k, m[k]), flags, now)
  {
    var opp := OppositeKey(vpcs, k, m[k]);
    assert m[k := m[k].(lastSeen := now)] - {opp, k} == m - {k, opp};
  }

  /** What an entry makes of the packets under its key, told field by field. */
  function Rewritten(t: Tuple, v: CtVal): Tuple {
    match v.action
    case Dnat | NaptIn =>
      Tuple(t.saddr, v.newDaddr, if t.proto == Icmp then v.newDport else t.sport, v.newDport, t.proto)
    case Snat | NaptOut =>
      Tuple(v.newSaddr, t.daddr, v.newSport, if t.proto == Icmp then v.newSport else t.dport, t.proto)
    case _ => Tuple(v.newSaddr, v.newDaddr, v.newSport, v.newDport, t.proto)
  }

  /**
   * The other half of a flow is the one under which answers to the rewritten
   * packet are looked up: in the host's keyspace for flows that leave through it,
   * in the Vpc of the entry's Subnet where it names one that is known, and in the
   * entry's own keyspace otherwise.
   */
  lemma OtherHalfMeetsTheAnswers(vpcs: SubnetVpcs, k: CtKey, v: CtVal)
    requires k.t.WellFormed()
    ensures var o := OppositeKey(vpcs, k, v);
            && (k.t.proto != Icmp ==> o.t == Rewritten(k.t, v).Mirror())
            && o.scope == if v.action == NaptOut || v.action == SvcNaptOut then 0
                          else if v.action != Dnat && v.action != Snat && v.nextSubnet in vpcs then vpcs[v.nextSubnet]
                          else k.scope
  {
  }

  // ---- New flows -----------------------------------------------------------

  /**
   * A new flow in the table: `u` under the key of its replies and, as far as
   * there is room, `v` under its own; a first packet that resets leaves neither.
   */
  predicate Opens(m: Entries, m': Entries, capacity: nat, k: CtKey, v: CtVal, r: CtKey, u: CtVal, flags: set<TcpFlag>) {
    var m1 := m[r := u];
    if k !in m1 && |m1| >= capacity then m' == m1
    else if k.t.proto == Tcp && Rst in flags then m' == m1 - {k, r}
    else m' == m1[k := v]
  }

  /** An entry under the packet's own key, right after its first packet. */
  function Outward(addr: Addr, port: Port, t: Tuple, daddr: Addr, dport: Port, subnet: SubnetId, out: Action,
                   flags: set<TcpFlag>, now: nat): CtVal {
    CtVal(addr, daddr, port, dport, subnet, out,
          if t.proto == Tcp then Turned(Opening(t.proto, flags), flags) else Established,
          if t.proto == Tcp then flags else {}, now)
  }

  /** An entry for the replies: they become `addr` and `port` talking to the workload. */
  function Inward(addr: Addr, port: Port, t: Tuple, subnet: SubnetId, back: Action, flags: set<TcpFlag>,
                  now: nat): CtVal {
    CtVal(addr, t.saddr, port, t.sport, subnet, back, Opening(t.proto, flags), {}, now)
  }

  /** An entry written and then shown the very packet that made it. */
  lemma FirstPacketIsShown(vpcs: SubnetVpcs, m: Entries, m1: Entries, capacity: nat, k: CtKey, v: CtVal, r: CtKey,
                           u: CtVal,
                           flags: set<TcpFlag>)
    requires m1 == m[r := u] && v.state == Opening(k.t.proto, flags)
    requires if k.t.proto == Tcp then OppositeKey(vpcs, k, v) == r && v.flagsSeen == flags else v.flagsSeen == {}
    ensures Opens(m, ObservedIfTcp(vpcs, Upserted(m1, capacity, k, v), k, flags), capacity, k,
                  if k.t.proto == Tcp then v.(state := Turned(v.state, flags)) else v, r, u, flags)
  {
    assert m1[k := v] - {r, k} == m1 - {k, r};
    assert flags + flags == flags;
  }

  lemma OutboundRecords(env: Env, m: Entries, p: Plan, flags: set<TcpFlag>, now: nat, port: Port)
    requires !Reuses(m, p) && AllocatedPort(env, m, p) == Some(port)
    requires p.fwd.t.proto == Tcp ==> OppositeKey(env.subnetVpc, p.fwd, p.FwdVal(port, flags, now)) == p.RevKey(port)
    ensures Opens(m, Outbound(env, m, p, flags, now).m, env.capacity, p.fwd,
                  Outward(p.natAddr, port, p.fwd.t, p.peerAddr, p.peerPort, p.outSubnet, p.out, flags, now),
                  p.RevKey(port), Inward(p.backSaddr, p.backSport, p.fwd.t, p.podSubnet, p.back, flags, now), flags)
  {
    var m1 := m[p.RevKey(port) := p.RevVal(flags, now)];
    FirstPacketIsShown(env.subnetVpc, m, m1, env.capacity, p.fwd, p.FwdVal(port, flags, now), p.RevKey(port),
                       p.RevVal(flags, now), flags);
  }

  /** A packet of a Vpc that starts a flow, as the tables stand. */
  ghost predicate Starts(env: Env, m: Entries, ifindex: nat, vpc: Scope, t: Tuple, flags: set<TcpFlag>, now: nat,
                         out: Action, u: Tuple) {
    && PortIn(env, ifindex, vpc) && Untaken(m, vpc, t) && t.WellFormed() && !Allocated(m, vpc, t, out)
    && PodEgress(env, m, ifindex, Flow(t, flags), now).verdict == Forward(Flow(u, flags))
  }

  lemma InternetFlowIsRecorded(env: Env, m: Entries, ifindex: nat, vpc: Scope, t: Tuple, flags: set<TcpFlag>, now: nat,
                               gateway: nat, u: Tuple)
    requires Starts(env, m, ifindex, vpc, t, flags, now, NaptOut, u)
    requires RouteOf(env, vpc, t) == Some(Internet(gateway)) && gateway in env.naptSrc && !t.proto.OtherProto?
    ensures Opens(m, PodEgress(env, m, ifindex, Flow(t, flags), now).m, env.capacity, CtKey(vpc, t),
                  Outward(env.naptSrc[gateway], u.sport, t, t.daddr, t.dport, 0, NaptOut, flags, now),
                  CtKey(0, u.Mirror()), Inward(0, 0, t, env.portSubnet[ifindex], NaptIn, flags, now), flags)
  {
    var p := NaptPlan(CtKey(vpc, t), env.naptSrc[gateway], env.portSubnet[ifindex]);
    UntakenIsTranslated(env, m, ifindex, p, flags, now);
    OutboundRecords(env, m, p, flags, now, u.sport);
  }

  lemma HostCallIsRecorded(env: Env, m: Entries, ifindex: nat, vpc: Scope, t: Tuple, flags: set<TcpFlag>, now: nat,
                           b: Backend, u: Tuple)
    requires Starts(env, m, ifindex, vpc, t, flags, now, SvcNaptOut, u)
    requires BackendOf(env, vpc, t) == Some(b) && HostBackend(b) && env.underlay != 0
    ensures Opens(m, PodEgress(env, m, ifindex, Flow(t, flags), now).m, env.capacity, CtKey(vpc, t),
                  Outward(env.underlay, u.sport, t, b.ip, b.port, 0, SvcNaptOut, flags, now),
                  CtKey(0, u.Mirror()), Inward(t.daddr, t.dport, t, env.portSubnet[ifindex], SvcNaptIn, flags, now),
                  flags)
  {
    var p := HostRemotePlan(CtKey(vpc, t), b, env.underlay, env.portSubnet[ifindex]);
    UntakenIsTranslated(env, m, ifindex, p, flags, now);
    OutboundRecords(env, m, p, flags, now, u.sport);
  }

  lemma SharedCallIsRecorded(env: Env, m: Entries, ifindex: nat, vpc: Scope, t: Tuple, flags: set<TcpFlag>, now: nat,
                             b: Backend, u: Tuple)
    requires Starts(env, m, ifindex, vpc, t, flags, now, SharedOut, u)
    requires BackendOf(env, vpc, t) == Some(b) && SharedBackend(b, vpc) && SharedSource(env, b).Some?
    ensures Opens(m, PodEgress(env, m, ifindex, Flow(t, flags), now).m, env.capacity, CtKey(vpc, t),
                  Outward(SharedSource(env, b).value, u.sport, t, b.ip, b.port, b.subnet, SharedOut, flags, now),
                  CtKey(env.subnetVpc[b.subnet], u.Mirror()),
                  Inward(t.daddr, t.dport, t, env.portSubnet[ifindex], SharedIn, flags, now), flags)
  {
    var p := SharedPlan(CtKey(vpc, t), b, env.subnetVpc[b.subnet], SharedSource(env, b).value, env.portSubnet[ifindex]);
    UntakenIsTranslated(env, m, ifindex, p, flags, now);
    OutboundRecords(env, m, p, flags, now, u.sport);
  }

  /** A call within the Vpc writes both halves over what is there, each if it fits, and shows neither the packet. */
  lemma OwnCallIsRecorded(env: Env, m: Entries, ifindex: nat, vpc: Scope, t: Tuple, flags: set<TcpFlag>, now: nat,
                          b: Backend)
    requires PortIn(env, ifindex, vpc) && Untaken(m, vpc, t) && BackendOf(env, vpc, t) == Some(b) && OwnBackend(b, vpc)
    ensures PodEgress(env, m, ifindex, Flow(t, flags), now).m ==
            Upserted(Upserted(m, env.capacity, CtKey(vpc, t),
                              CtVal(t.saddr, b.ip, t.sport, b.port, b.subnet, Dnat, Opening(t.proto, flags),
                                    if t.proto == Tcp then flags else {}, now)),
                     env.capacity, CtKey(vpc, Towards(t, b).Mirror()), Inward(t.daddr, t.dport, t, 0, Snat, flags, now))
  {
  }

  /** A call to this very node writes the reply's half only, over what is there. */
  lemma LocalCallIsRecorded(env: Env, m: Entries, ifindex: nat, vpc: Scope, t: Tuple, flags: set<TcpFlag>, now: nat,
                            b: Backend)
    requires PortIn(env, ifindex, vpc) && Untaken(m, vpc, t) && BackendOf(env, vpc, t) == Some(b) && b.kind == HostLocal
    ensures PodEgress(env, m, ifindex, Flow(t, flags), now).m ==
            Upserted(m, env.capacity, CtKey(0, Towards(t, b).Mirror()),
                     Inward(t.daddr, t.dport, t, env.portSubnet[ifindex], SvcNaptIn, flags, now))
  {
  }

  // ---- Old flows -----------------------------------------------------------

  /** The route still leads the packet to the handler that writes `out` entries. */
  predicate LedTo(env: Env, vpc: Scope, t: Tuple, out: Action) {
    var route, b := RouteOf(env, vpc, t), BackendOf(env, vpc, t);
    || (&& route.Some? && route.value.Internet? && route.value.gateway in env.naptSrc
        && !t.proto.OtherProto? && out == NaptOut)
    || (b.Some? && HostBackend(b.value) && env.underlay != 0 && out == SvcNaptOut)
    || (b.Some? && SharedBackend(b.value, vpc) && SharedSource(env, b.value).Some? && out == SharedOut)
  }

  /** A further packet of a translated flow meets its own entry. */
  lemma FurtherPacketMeetsItsEntry(env: Env, m: Entries, ifindex: nat, vpc: Scope, t: Tuple, flags: set<TcpFlag>,
                                   now: nat)
    requires PortIn(env, ifindex, vpc) && Untaken(m, vpc, t) && CtKey(vpc, t) in m
    requires m[CtKey(vpc, t)].state != Closed && LedTo(env, vpc, t, m[CtKey(vpc, t)].action)
    ensures Met(m, PodEgress(env, m, ifindex, Flow(t, flags), now).m, CtKey(vpc, t),
                OppositeKey(env.subnetVpc, CtKey(vpc, t), m[CtKey(vpc, t)]), flags, now)
  {
    var p := Decide(env, CtKey(vpc, t), env.portSubnet[ifindex]).plan;
    UntakenIsTranslated(env, m, ifindex, p, flags, now);
    ObservingMeets(env.subnetVpc, m, p.fwd, flags, now);
  }

  /** A flow that gets no port leaves nothing. */
  lemma RefusedFlowLeavesNothing(env: Env, m: Entries, ifindex: nat, vpc: Scope, t: Tuple, flags: set<TcpFlag>,
                                 now: nat)
    requires PortIn(env, ifindex, vpc) && Untaken(m, vpc, t)
    requires PodEgress(env, m, ifindex, Flow(t, flags), now).verdict == Shot
    ensures PodEgress(env, m, ifindex, Flow(t, flags), now).m == m
  {
    UntakenShotIsUnwritten(env, m, CtKey(vpc, t), env.portSubnet[ifindex], flags, now);
  }

  lemma UntakenShotIsUnwritten(env: Env, m: Entries, key: CtKey, subnet: SubnetId, flags: set<TcpFlag>, now: nat)
    requires RoutedOut(env, m, key, subnet, flags, now).verdict == Shot
    ensures RoutedOut(env, m, key, subnet, flags, now).m == m
  {
  }

  /** The entry that claims a packet, by the hook it comes to. */
  predicate Claims(m: Entries, s: Step, key: CtKey) {
    s.pkt.Flow? && key.t == s.pkt.t && key in m &&
    var v := m[key];
    match s
    case AtPodEgress(env, ifindex, _, _) =>
      && HasPorts(key.t.proto) && ifindex in env.portSubnet && env.portSubnet[ifindex] in env.subnetVpc
      && if Hit(m, CtKey(HOST_SCOPE, key.t), SvcNaptIn) then key.scope == HOST_SCOPE
         else key.scope == env.subnetVpc[env.portSubnet[ifindex]] && (v.action == Dnat || v.action == SharedIn)
    case AtNodeIngress(env, _, _) =>
      && key.scope == HOST_SCOPE
      && (|| (v.action == SvcNaptIn && HasPorts(key.t.proto) && key.t.daddr == env.underlay && env.underlay != 0)
          || (v.action == NaptIn && !key.t.proto.OtherProto? && key.t.daddr in env.claimed))
    case AtVxlanIngress(env, subnet, _, _) =>
      subnet in env.subnetVpc && key.scope == env.subnetVpc[subnet] && HasPorts(key.t.proto) && v.action == SharedIn
    case AtPodIngress(_, vpc, _, _) => key.scope == vpc && HasPorts(key.t.proto) && v.action == Snat
  }

  /**
   * A claimed packet. A reply whose workload cannot be reached is dropped and
   * leaves nothing; any other meets its entry, and goes on as the entry says: to
   * the workload's Subnet if it is a reply from outside, out again otherwise.
   */
  lemma ClaimedPacketMeetsItsEntry(m: Entries, s: Step, key: CtKey)
    requires Claims(m, s, key) && m[key].state != Closed
    ensures var o, v := Apply(m, s), m[key];
            var reply := v.action != Dnat && v.action != Snat;
            if reply && !s.env.Deliverable(v.nextSubnet, v.newDaddr) then o == StepResult(m, Shot)
            else
              && Met(m, o.m, key, OppositeKey(s.env.subnetVpc, key, v), s.pkt.flags, s.now)
              && o.verdict == (if reply then Deliver(v.nextSubnet, Flow(Rewritten(key.t, v), s.pkt.flags))
                               else Forward(Flow(Rewritten(key.t, v), s.pkt.flags)))
  {
    ObservingMeets(s.env.subnetVpc, m, key, s.pkt.flags, s.now);
  }

  // ---- Packets no entry claims ---------------------------------------------

  function DestinationOf(p: Packet): Addr {
    if p.Flow? then p.t.daddr else p.daddr
  }

  /** The entry an ICMP error is about: one for the packet it copies. */
  predicate IsAbout(m: Entries, s: Step, key: CtKey) {
    s.pkt.IcmpError? && key in m && key.t == s.pkt.quote.Mirror() &&
    match s
    case AtPodEgress(env, ifindex, _, _) =>
      && PortIn(env, ifindex, key.scope) && m[key].action == NaptOut
      && (key.scope, s.pkt.saddr, s.pkt.daddr) in env.routes
      && env.routes[(key.scope, s.pkt.saddr, s.pkt.daddr)].Internet?
    case AtNodeIngress(env, _, _) => key.scope == HOST_SCOPE && m[key].action == NaptIn && s.pkt.daddr in env.claimed
    case _ => false
  }

  /** Where a hook sends what it does not translate. */
  function Otherwise(s: Step): Verdict {
    match s
    case AtPodEgress(env, ifindex, pkt, _) =>
      if ifindex !in env.portSubnet || env.portSubnet[ifindex] !in env.subnetVpc then Shot
      else
        var saddr := if pkt.Flow? then pkt.t.saddr else pkt.saddr;
        if (env.subnetVpc[env.portSubnet[ifindex]], saddr, DestinationOf(pkt)) in env.routes then Shot else NotNat
    case AtNodeIngress(env, pkt, _) => if DestinationOf(pkt) in env.claimed then NotNat else ToKernel(pkt)
    case AtVxlanIngress(_, _, _, _) => NotNat
    case AtPodIngress(_, _, _, _) => NotNat
  }

  /** Replies nobody waits for, errors about nothing known and packets without a tuple change nothing. */
  lemma UnclaimedPacketsGoOn(m: Entries, s: Step)
    requires (forall key :: !Claims(m, s, key)) && (forall key :: !IsAbout(m, s, key))
    requires s.AtPodEgress? && s.pkt.Flow? ==>
               s.ifindex !in s.env.portSubnet || s.env.portSubnet[s.ifindex] !in s.env.subnetVpc
    ensures Apply(m, s) == StepResult(m, Otherwise(s))
  {
    match s
    case AtPodEgress(env, ifindex, pkt, _) =>
      if pkt.IcmpError? && ifindex in env.portSubnet && env.portSubnet[ifindex] in env.subnetVpc {
        assert !IsAbout(m, s, CtKey(env.subnetVpc[env.portSubnet[ifindex]], pkt.quote.Mirror()));
      }
    case AtNodeIngress(_, pkt, _) =>
      assert pkt.Flow? ==> !Claims(m, s, CtKey(HOST_SCOPE, pkt.t));
      assert pkt.IcmpError? ==> !IsAbout(m, s, CtKey(HOST_SCOPE, pkt.quote.Mirror()));
    case AtVxlanIngress(env, subnet, pkt, _) =>
      assert pkt.Flow? && subnet in env.subnetVpc ==> !Claims(m, s, CtKey(env.subnetVpc[subnet], pkt.t));
    case AtPodIngress(_, vpc, pkt, _) =>
      assert pkt.Flow? ==> !Claims(m, s, CtKey(vpc, pkt.t));
  }

  /**
   * An ICMP error about a translated flow. Inwards it goes to the workload, about
   * the packet the workload sent; outwards it leaves as the translated address's,
   * about the packet that reached it. Its entry shows the time and nothing else.
   */
  lemma ErrorsAreTranslated(m: Entries, s: Step, key: CtKey)
    requires IsAbout(m, s, key) && s.pkt.quote.WellFormed()
    ensures var o, v, q := Apply(m, s), m[key], s.pkt.quote;
            if s.AtNodeIngress? && !s.env.Deliverable(v.nextSubnet, v.newDaddr) then o == StepResult(m, Shot)
            else
              && o.m == m[key := v.(lastSeen := s.now)]
              && o.verdict ==
                 if s.AtNodeIngress? then
                   Deliver(v.nextSubnet,
                           IcmpError(s.pkt.saddr, v.newDaddr,
                                     Tuple(v.newDaddr, q.daddr, v.newDport,
                                           if q.proto == Icmp then v.newDport else q.dport, q.proto)))
                 else
                   Forward(IcmpError(v.newSaddr, s.pkt.daddr,
                                     Tuple(q.saddr, v.newSaddr, if q.proto == Icmp then v.newSport else q.sport,
                                           v.newSport, q.proto)))
  {
  }
}
