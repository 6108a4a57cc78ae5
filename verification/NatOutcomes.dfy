/**
 * What becomes of a workload's packet, told from the tables and the tuple alone:
 * which route and which backend lead to which outcome, and with what addresses.
 */
module NatOutcomes {
  import opened Types
  import opened Conntrack
  import opened NatPlane
  import opened NatInvariant
  import opened NatRoundTrip

  // ---- Which port a new flow gets ------------------------------------------

  /** The seed of the i-th probe. */
  function SeedAt(seed: Seed, i: nat): Seed
    decreases i
  {
    if i == 0 then seed else SeedAt(NextSeed(seed), i - 1)
  }

  /** The j-th probe from probe `i` on, which starts at `seed`, meets a reply key in use. */
  predicate TakenAt(m: Entries, p: Plan, seed: Seed, i: nat, j: nat) {
    p.RevKey(Candidate(SeedAt(seed, j), i + j)) in m
  }

  /** The probes from `i` on stop at the first free key, or after the last. */
  lemma {:induction false} ProbesStopAtFirstFree(m: Entries, capacity: nat, p: Plan, seed: Seed, i: nat)
    returns (j: nat)
    requires i <= PROBE_LIMIT && |m| < capacity
    ensures j <= PROBE_LIMIT - i && forall l: nat :: l < j ==> TakenAt(m, p, seed, i, l)
    ensures if j == PROBE_LIMIT - i then ProbeFrom(m, capacity, p, seed, i).None?
            else
              && !TakenAt(m, p, seed, i, j)
              && ProbeFrom(m, capacity, p, seed, i) == Some(Candidate(SeedAt(seed, j), i + j))
    decreases PROBE_LIMIT - i
  {
    j := 0;
    if i < PROBE_LIMIT && TakenAt(m, p, seed, i, 0) {
      var rest := ProbesStopAtFirstFree(m, capacity, p, NextSeed(seed), i + 1);
      forall l: nat | 0 < l <= rest
        ensures TakenAt(m, p, seed, i, l) == TakenAt(m, p, NextSeed(seed), i + 1, l - 1)
      {
        assert SeedAt(seed, l) == SeedAt(NextSeed(seed), l - 1);
      }
      j := rest + 1;
      assert SeedAt(seed, j) == SeedAt(NextSeed(seed), rest);
    }
  }

  /**
   * A new flow is refused exactly when the table is full or eight probes in a
   * row meet a reply key in use; otherwise it gets the first one that is free.
   */
  lemma NewFlowGetsFirstFreePort(env: Env, m: Entries, p: Plan) returns (j: nat)
    ensures |m| >= env.capacity ==> Probe(env, m, p).None?
    ensures |m| < env.capacity ==>
              && j <= 8 && (forall l: nat :: l < j ==> TakenAt(m, p, env.hash(p.fwd.t), 0, l))
              && (if j == 8 then Probe(env, m, p).None?
                  else !TakenAt(m, p, env.hash(p.fwd.t), 0, j) &&
                       Probe(env, m, p) == Some(Candidate(SeedAt(env.hash(p.fwd.t), j), j)))
  {
    j := 0;
    if |m| < env.capacity {
      j := ProbesStopAtFirstFree(m, env.capacity, p, env.hash(p.fwd.t), 0);
    } else {
      FullTableRefuses(m, env.capacity, p, env.hash(p.fwd.t), 0);
    }
  }

  lemma {:induction false} FullTableRefuses(m: Entries, capacity: nat, p: Plan, seed: Seed, i: nat)
    requires i <= PROBE_LIMIT && |m| >= capacity
    ensures ProbeFrom(m, capacity, p, seed, i).None?
    decreases PROBE_LIMIT - i
  {
    if i < PROBE_LIMIT {
      FullTableRefuses(m, capacity, p, NextSeed(seed), i + 1);
    }
  }

  /** Every unprivileged port can be tried. */
  lemma EveryPortIsReached(port: Port)
    requires port >= 1024
    ensures Candidate(port - 1024, 0) == port
  {
  }

  /** Stirring the seed loses nothing: it can be undone. */
  lemma StirringIsUndone(seed: Seed) returns (before: Seed)
    ensures NextSeed(before) == seed
  {
    var rotated := (seed % 128) * 0x200_0000 + seed / 128;
    RotationUndone(seed, rotated);
    before := AdditionUndone(rotated);
  }

  lemma AdditionUndone(sum: Seed) returns (x: Seed)
    ensures (x + 0x9e3779b1) % 0x1_0000_0000 == sum
  {
    x := if sum >= 0x9e3779b1 then sum - 0x9e3779b1 else sum - 0x9e3779b1 + 0x1_0000_0000;
  }

  lemma RotationUndone(seed: Seed, rotated: int)
    requires rotated == (seed % 128) * 0x200_0000 + seed / 128
    ensures 0 <= rotated < 0x1_0000_0000 && RotateLeft7(rotated) == seed
  {
    assert rotated / 0x200_0000 == seed % 128;
    assert rotated * 128 == (seed % 128) * 0x1_0000_0000 + (seed / 128) * 128;
  }

  // ---- Routes and backends -------------------------------------------------

  /** The route a packet of a Vpc takes; none when no NAT handler is asked. */
  function RouteOf(env: Env, vpc: Scope, t: Tuple): Option<Route> {
    if (vpc, t.saddr, t.daddr) in env.routes then Some(env.routes[(vpc, t.saddr, t.daddr)]) else None
  }

  /** The backend chosen for a call: TCP or UDP, to a Service that has one. */
  function BackendOf(env: Env, vpc: Scope, t: Tuple): Option<Backend> {
    if RouteOf(env, vpc, t) == Some(Service) && HasPorts(t.proto) && CtKey(vpc, t) in env.backends
    then Some(env.backends[CtKey(vpc, t)]) else None
  }

  predicate HostBackend(b: Backend) {
    b.kind == HostRemote || (b.kind == PodBackend && b.subnet == 0)
  }

  /** A Pod backend of the caller's own Vpc. */
  predicate OwnBackend(b: Backend, vpc: Scope) {
    b.kind == PodBackend && b.subnet != 0 && b.owner == vpc
  }

  /** A Pod backend of another Vpc. */
  predicate SharedBackend(b: Backend, vpc: Scope) {
    b.kind == PodBackend && b.subnet != 0 && b.owner != vpc
  }

  /** The address a Vpc's shared Services call from, if it has one. */
  function SharedSource(env: Env, b: Backend): Option<Addr> {
    if b.subnet !in env.subnetVpc || env.subnetVpc[b.subnet] !in env.serviceNatIp then None
    else if env.serviceNatIp[env.subnetVpc[b.subnet]] == 0 then None
    else Some(env.serviceNatIp[env.subnetVpc[b.subnet]])
  }

  /** The packet's tuple on the way to a backend. */
  function Towards(t: Tuple, b: Backend): Tuple {
    Tuple(t.saddr, b.ip, t.sport, b.port, t.proto)
  }

  /** The table still leads a packet of this tuple out the way an earlier one went. */
  predicate Allocated(m: Entries, vpc: Scope, t: Tuple, out: Action) {
    CtKey(vpc, t) in m && m[CtKey(vpc, t)].action == out
  }

  /** The tuple goes out as this one, up to the source port; an Echo shows that port in both slots. */
  predicate LeavesAs(u: Tuple, t: Tuple, saddr: Addr, daddr: Addr, dport: Port) {
    u.saddr == saddr && u.daddr == daddr && u.proto == t.proto && u.dport == if t.proto == Icmp then u.sport else dport
  }

  /**
   * A translated packet: out with this source and destination, from the port
   * allocated before or from an unprivileged one under which no reply is
   * expected yet; or dropped, if nothing was allocated before.
   */
  predicate Leaves(m: Entries, vpc: Scope, t: Tuple, flags: set<TcpFlag>, out: Action, back: Scope,
                   saddr: Addr, daddr: Addr, dport: Port, verdict: Verdict) {
    if verdict == Shot then !Allocated(m, vpc, t, out)
    else
      && verdict.Forward? && verdict.pkt.Flow? && verdict.pkt.flags == flags
      && var u := verdict.pkt.t;
      && LeavesAs(u, t, saddr, daddr, dport)
      && if Allocated(m, vpc, t, out) then u.sport == m[CtKey(vpc, t)].newSport
         else u.sport >= 1024 && CtKey(back, u.Mirror()) !in m
  }

  lemma OutboundLeaves(env: Env, m: Entries, p: Plan, flags: set<TcpFlag>, now: nat)
    requires !p.fwd.t.proto.OtherProto? && p.fwd.t.WellFormed() && (p.fwd.t.proto == Icmp ==> p.out == NaptOut)
    requires p.out == NaptOut ==> p.peerAddr == p.fwd.t.daddr && p.peerPort == p.fwd.t.dport
    ensures Leaves(m, p.fwd.scope, p.fwd.t, flags, p.out, p.revScope, p.natAddr, p.peerAddr, p.peerPort,
                   Outbound(env, m, p, flags, now).verdict)
  {
    if !Reuses(m, p) {
      ProbeFindsFreeKey(m, env.capacity, p, env.hash(p.fwd.t), 0);
    }
  }

  /** An internet route: the source becomes the gateway's address, the destination stays. */
  lemma InternetPacketLeaves(env: Env, m: Entries, ifindex: nat, vpc: Scope, t: Tuple, flags: set<TcpFlag>, now: nat,
                             gateway: nat)
    requires PortIn(env, ifindex, vpc) && Untaken(m, vpc, t) && t.WellFormed()
    requires RouteOf(env, vpc, t) == Some(Internet(gateway)) && !t.proto.OtherProto?
    ensures var verdict := PodEgress(env, m, ifindex, Flow(t, flags), now).verdict;
            if gateway in env.naptSrc then
              Leaves(m, vpc, t, flags, NaptOut, HOST_SCOPE, env.naptSrc[gateway], t.daddr, t.dport, verdict)
            else verdict == Shot
  {
    if gateway in env.naptSrc {
      var p := NaptPlan(CtKey(vpc, t), env.naptSrc[gateway], env.portSubnet[ifindex]);
      UntakenIsTranslated(env, m, ifindex, p, flags, now);
      OutboundLeaves(env, m, p, flags, now);
    }
  }

  /** A call to a host-network backend on another node: from the node's address to the backend's own port. */
  lemma HostCallLeaves(env: Env, m: Entries, ifindex: nat, vpc: Scope, t: Tuple, flags: set<TcpFlag>, now: nat,
                       b: Backend)
    requires PortIn(env, ifindex, vpc) && Untaken(m, vpc, t) && BackendOf(env, vpc, t) == Some(b) && HostBackend(b)
    ensures var verdict := PodEgress(env, m, ifindex, Flow(t, flags), now).verdict;
            if env.underlay == 0 then verdict == Shot
            else Leaves(m, vpc, t, flags, SvcNaptOut, HOST_SCOPE, env.underlay, b.ip, b.port, verdict)
  {
    if env.underlay != 0 {
      var p := HostRemotePlan(CtKey(vpc, t), b, env.underlay, env.portSubnet[ifindex]);
      UntakenIsTranslated(env, m, ifindex, p, flags, now);
      OutboundLeaves(env, m, p, flags, now);
    }
  }

  /** A call to another Vpc's backend: from the Service NAT address of the backend's Vpc. */
  lemma SharedCallLeaves(env: Env, m: Entries, ifindex: nat, vpc: Scope, t: Tuple, flags: set<TcpFlag>, now: nat,
                         b: Backend)
    requires PortIn(env, ifindex, vpc) && Untaken(m, vpc, t) && BackendOf(env, vpc, t) == Some(b)
    requires SharedBackend(b, vpc)
    ensures var verdict := PodEgress(env, m, ifindex, Flow(t, flags), now).verdict;
            var source := SharedSource(env, b);
            if source.None? then verdict == Shot
            else Leaves(m, vpc, t, flags, SharedOut, env.subnetVpc[b.subnet], source.value, b.ip, b.port, verdict)
  {
    if SharedSource(env, b).Some? {
      var p := SharedPlan(CtKey(vpc, t), b, env.subnetVpc[b.subnet], SharedSource(env, b).value,
                          env.portSubnet[ifindex]);
      UntakenIsTranslated(env, m, ifindex, p, flags, now);
      OutboundLeaves(env, m, p, flags, now);
    }
  }

  /** A call within the Vpc keeps its source; one to a backend on this very node goes to the kernel the same way. */
  lemma OwnCallLeaves(env: Env, m: Entries, ifindex: nat, vpc: Scope, t: Tuple, flags: set<TcpFlag>, now: nat,
                      b: Backend)
    requires PortIn(env, ifindex, vpc) && Untaken(m, vpc, t) && BackendOf(env, vpc, t) == Some(b)
    ensures var verdict := PodEgress(env, m, ifindex, Flow(t, flags), now).verdict;
            && (OwnBackend(b, vpc) ==> verdict == Forward(Flow(Towards(t, b), flags)))
            && (b.kind == HostLocal ==> verdict == ToKernel(Flow(Towards(t, b), flags)))
  {
  }

  lemma OthersAreRefused(env: Env, vpc: Scope, t: Tuple, subnet: SubnetId)
    requires BackendOf(env, vpc, t).None?
    requires RouteOf(env, vpc, t).Some? && RouteOf(env, vpc, t).value.Internet? ==> t.proto.OtherProto?
    ensures Decide(env, CtKey(vpc, t), subnet) == if RouteOf(env, vpc, t).None? then Elsewhere else Refuse
  {
  }

  /** Everything else is dropped, or not NAT's business when no route is there; and nothing is recorded. */
  lemma OtherPacketsEndHere(env: Env, m: Entries, ifindex: nat, vpc: Scope, t: Tuple, flags: set<TcpFlag>, now: nat)
    requires PortIn(env, ifindex, vpc) && Untaken(m, vpc, t) && BackendOf(env, vpc, t).None?
    requires RouteOf(env, vpc, t).Some? && RouteOf(env, vpc, t).value.Internet? ==> t.proto.OtherProto?
    ensures PodEgress(env, m, ifindex, Flow(t, flags), now) ==
            StepResult(m, if RouteOf(env, vpc, t).None? then NotNat else Shot)
  {
    OthersAreRefused(env, vpc, t, env.portSubnet[ifindex]);
    assert PodEgressFlow(env, m, vpc, env.portSubnet[ifindex], t, flags, now) ==
           RoutedOut(env, m, CtKey(vpc, t), env.portSubnet[ifindex], flags, now);
  }

  /** The five kinds of backend leave no other, and no two of them meet. */
  lemma BackendKindsAreDistinct(b: Backend, vpc: Scope)
    ensures HostBackend(b) || OwnBackend(b, vpc) || SharedBackend(b, vpc) || b.kind == HostLocal
    ensures !(HostBackend(b) && (OwnBackend(b, vpc) || SharedBackend(b, vpc)))
    ensures !(OwnBackend(b, vpc) && SharedBackend(b, vpc))
    ensures b.kind == HostLocal ==> !HostBackend(b) && !OwnBackend(b, vpc) && !SharedBackend(b, vpc)
  {
  }
}
