/**
 * The NAT handlers of the data plane. Each program run (pod_egress,
 * node_ingress, vxlan_ingress, pod_ingress) is one atomic step on the
 * conntrack table. The functions say what a step does; the methods of
 * `NatPrograms` do it step by step and are proved to agree.
 */
module NatPlane {
  import opened Types
  import opened Conntrack

  // ---- Packets and verdicts ------------------------------------------------

  datatype Packet =
    | Flow(t: Tuple, flags: set<TcpFlag>)              // TCP, UDP or ICMP Echo
    | IcmpError(saddr: Addr, daddr: Addr, quote: Tuple) // quotes the packet that caused it
    | Opaque(saddr: Addr, daddr: Addr, proto: Proto)    // no readable tuple

  datatype Verdict =
    | Forward(pkt: Packet)                  // leaves towards the next hop
    | Deliver(subnet: SubnetId, pkt: Packet) // handed to a workload of a Subnet
    | ToKernel(pkt: Packet)                 // local delivery by the host stack
    | Shot
    | NotNat                                // no NAT entry claims it; other paths go on

  datatype StepResult = StepResult(m: Entries, verdict: Verdict)

  // ---- Configuration tables ------------------------------------------------

  /** 32-bit values of the probe sequence. */
  type Seed = x: int | 0 <= x < 0x1_0000_0000

  datatype BackendKind = PodBackend | HostRemote | HostLocal

  datatype Backend = Backend(kind: BackendKind, ip: Addr, port: Port, subnet: SubnetId, owner: Scope)

  datatype Route = Internet(gateway: nat) | Service

  /**
   * The tables user space fills in; no step writes them. The 5-tuple hash that
   * spreads flows over the ports is a field too: nothing depends on which one
   * it is.
   */
  datatype Env = Env(
    capacity: nat,
    portSubnet: map<nat, SubnetId>,
    subnetVpc: SubnetVpcs,
    routes: map<(Scope, Addr, Addr), Route>,
    naptSrc: map<nat, Addr>,
    backends: map<CtKey, Backend>,
    underlay: Addr,
    serviceNatIp: map<Scope, Addr>,
    claimed: set<Addr>,
    neighbours: set<(SubnetId, Addr)>,
    hash: Tuple -> Seed)
  {
    /** Every address a handler may write as a translated source. */
    function NatAddrs(): set<Addr> {
      naptSrc.Values + serviceNatIp.Values + {underlay}
    }

    predicate Deliverable(subnet: SubnetId, addr: Addr) {
      subnet in subnetVpc && (subnet, addr) in neighbours
    }
  }

  // ---- Port probing --------------------------------------------------------

  const PROBE_LIMIT: nat := 8

  function RotateLeft7(x: Seed): Seed {
    (x * 128) % 0x1_0000_0000 + x / 0x200_0000
  }

  function NextSeed(seed: Seed): Seed {
    RotateLeft7((seed + 0x9e3779b1) % 0x1_0000_0000)
  }

  /** The port the i-th probe tries; the privileged ports are skipped. */
  function Candidate(seed: Seed, i: nat): (port: Port)
    ensures port >= 1024
  {
    1024 + ((seed + i) % 0x1_0000_0000) % (65536 - 1024)
  }

  // ---- What an outbound handler decides ------------------------------------

  /**
   * One port-translating decision. NAPT, the host-network Service and the
   * shared Service differ only in these fields.
   */
  datatype Plan = Plan(
    out: Action,
    back: Action,
    fwd: CtKey,
    natAddr: Addr,
    peerAddr: Addr,
    peerPort: Port,
    backSaddr: Addr,
    backSport: Port,
    revScope: Scope,
    podSubnet: SubnetId,
    outSubnet: SubnetId)
  {
    /** The key the peer's reply looks up when `port` was allocated. */
    function RevKey(port: Port): CtKey {
      CtKey(revScope,
            Tuple(peerAddr, natAddr, if fwd.t.proto == Icmp then port else peerPort, port, fwd.t.proto))
    }

    function RevVal(flags: set<TcpFlag>, now: nat): CtVal {
      CtVal(backSaddr, fwd.t.saddr, backSport, fwd.t.sport, podSubnet, back,
            SeedState(fwd.t.proto, flags), {}, now)
    }

    function FwdVal(port: Port, flags: set<TcpFlag>, now: nat): CtVal {
      CtVal(natAddr, peerAddr, port, peerPort, outSubnet, out,
            SeedState(fwd.t.proto, flags), if fwd.t.proto == Tcp then flags else {}, now)
    }

    /** The tuple the packet leaves with. NAPT leaves the destination alone. */
    function Translated(port: Port): Tuple {
      var t := fwd.t.WithSource(natAddr, port);
      if out == NaptOut then t else t.WithDestination(peerAddr, peerPort)
    }
  }

  function SeedState(proto: Proto, flags: set<TcpFlag>): CtState {
    if proto == Tcp then InitialState(flags) else Established
  }

  datatype Decision =
    | Translate(plan: Plan)
    | LocalBackend(backend: Backend)
    | PlainDnat(backend: Backend)
    | Refuse     // a NAT route that cannot be served: dropped
    | Elsewhere  // no NAT route at all: left to the other paths

  function NaptPlan(key: CtKey, hostIp: Addr, podSubnet: SubnetId): Plan {
    Plan(NaptOut, NaptIn, key, hostIp, key.t.daddr, key.t.dport, 0, 0, HOST_SCOPE, podSubnet, 0)
  }

  function HostRemotePlan(key: CtKey, b: Backend, nodeIp: Addr, podSubnet: SubnetId): Plan {
    Plan(SvcNaptOut, SvcNaptIn, key, nodeIp, b.ip, b.port, key.t.daddr, key.t.dport, HOST_SCOPE, podSubnet, 0)
  }

  function SharedPlan(key: CtKey, b: Backend, provider: Scope, snatIp: Addr, podSubnet: SubnetId): Plan {
    Plan(SharedOut, SharedIn, key, snatIp, b.ip, b.port, key.t.daddr, key.t.dport, provider, podSubnet, b.subnet)
  }

  function DecideService(env: Env, key: CtKey, b: Backend, podSubnet: SubnetId): Decision {
    if b.kind == HostLocal then LocalBackend(b)
    else if b.kind == HostRemote || b.subnet == 0 then
      if env.underlay == 0 then Refuse else Translate(HostRemotePlan(key, b, env.underlay, podSubnet))
    else if b.owner == key.scope then PlainDnat(b)
    else if b.subnet !in env.subnetVpc then Refuse
    else
      var provider := env.subnetVpc[b.subnet];
      if provider !in env.serviceNatIp || env.serviceNatIp[provider] == 0 then Refuse
      else Translate(SharedPlan(key, b, provider, env.serviceNatIp[provider], podSubnet))
  }

  /** Which handler the route of a flow leads to, and with what addresses. */
  function Decide(env: Env, key: CtKey, podSubnet: SubnetId): Decision {
    var r := (key.scope, key.t.saddr, key.t.daddr);
    if r !in env.routes then Elsewhere
    else if key.t.proto.OtherProto? then Refuse
    else match env.routes[r]
      case Internet(gateway) =>
        if gateway in env.naptSrc then Translate(NaptPlan(key, env.naptSrc[gateway], podSubnet)) else Refuse
      case Service =>
        if key.t.proto == Icmp || key !in env.backends then Refuse
        else DecideService(env, key, env.backends[key], podSubnet)
  }

  // ---- Outbound steps ------------------------------------------------------

  /** The first probed port whose reverse key is free, if the probe limit reaches one. */
  function ProbeFrom(m: Entries, capacity: nat, plan: Plan, seed: Seed, i: nat): Option<Port>
    requires i <= PROBE_LIMIT
    decreases PROBE_LIMIT - i
  {
    if i == PROBE_LIMIT then None
    else
      var port := Candidate(seed, i);
      if plan.RevKey(port) !in m && |m| < capacity then Some(port)
      else ProbeFrom(m, capacity, plan, NextSeed(seed), i + 1)
  }

  function Probe(env: Env, m: Entries, plan: Plan): Option<Port> {
    ProbeFrom(m, env.capacity, plan, env.hash(plan.fwd.t), 0)
  }

  predicate Reuses(m: Entries, plan: Plan) {
    plan.fwd in m && m[plan.fwd].action == plan.out
  }

  /** The port the flow leaves with, when it may leave at all. */
  function AllocatedPort(env: Env, m: Entries, plan: Plan): Option<Port> {
    if Reuses(m, plan) then Some(m[plan.fwd].newSport) else Probe(env, m, plan)
  }

  /** The table with both halves of the flow in it, before the packet is observed. */
  function Installed(m: Entries, capacity: nat, plan: Plan, port: Port, flags: set<TcpFlag>, now: nat): Entries {
    if Reuses(m, plan) then Touched(m, plan.fwd, now)
    else Upserted(m[plan.RevKey(port) := plan.RevVal(flags, now)], capacity, plan.fwd, plan.FwdVal(port, flags, now))
  }

  function Outbound(env: Env, m: Entries, plan: Plan, flags: set<TcpFlag>, now: nat): StepResult {
    match AllocatedPort(env, m, plan)
    case None => StepResult(m, Shot)
    case Some(port) =>
      var m1 := Installed(m, env.capacity, plan, port, flags, now);
      StepResult(ObservedIfTcp(env.subnetVpc, m1, plan.fwd, flags), Forward(Flow(plan.Translated(port), flags)))
  }

  function DnatFwdVal(key: CtKey, b: Backend, flags: set<TcpFlag>, now: nat): CtVal {
    CtVal(key.t.saddr, b.ip, key.t.sport, b.port, b.subnet, Dnat,
          SeedState(key.t.proto, flags), if key.t.proto == Tcp then flags else {}, now)
  }

  function DnatRevKey(key: CtKey, b: Backend): CtKey {
    CtKey(key.scope, Tuple(b.ip, key.t.saddr, b.port, key.t.sport, key.t.proto))
  }

  function DnatRevVal(key: CtKey, flags: set<TcpFlag>, now: nat): CtVal {
    CtVal(key.t.daddr, key.t.saddr, key.t.dport, key.t.sport, 0, Snat, SeedState(key.t.proto, flags), {}, now)
  }

  /** The same-Vpc Service: destination only, and both halves overwrite. */
  function OutboundDnat(env: Env, m: Entries, key: CtKey, b: Backend, flags: set<TcpFlag>, now: nat): StepResult {
    var m1 := Upserted(m, env.capacity, key, DnatFwdVal(key, b, flags, now));
    var m2 := Upserted(m1, env.capacity, DnatRevKey(key, b), DnatRevVal(key, flags, now));
    StepResult(m2, Forward(Flow(key.t.WithDestination(b.ip, b.port), flags)))
  }

  function LocalRevKey(key: CtKey, b: Backend): CtKey {
    CtKey(HOST_SCOPE, Tuple(b.ip, key.t.saddr, b.port, key.t.sport, key.t.proto))
  }

  function LocalRevVal(key: CtKey, podSubnet: SubnetId, flags: set<TcpFlag>, now: nat): CtVal {
    CtVal(key.t.daddr, key.t.saddr, key.t.dport, key.t.sport, podSubnet, SvcNaptIn,
          SeedState(key.t.proto, flags), {}, now)
  }

  /** The host-network Service on this very node: no forward half at all. */
  function OutboundLocal(env: Env, m: Entries, key: CtKey, b: Backend, podSubnet: SubnetId,
                         flags: set<TcpFlag>, now: nat): StepResult {
    var m1 := Upserted(m, env.capacity, LocalRevKey(key, b), LocalRevVal(key, podSubnet, flags, now));
    StepResult(m1, ToKernel(Flow(key.t.WithDestination(b.ip, b.port), flags)))
  }

  /** The route decision of pod_egress, once no recorded reply or DNAT claimed the packet. */
  function RoutedOut(env: Env, m: Entries, key: CtKey, podSubnet: SubnetId, flags: set<TcpFlag>, now: nat): StepResult {
    match Decide(env, key, podSubnet)
    case Translate(plan) => Outbound(env, m, plan, flags, now)
    case LocalBackend(b) => OutboundLocal(env, m, key, b, podSubnet, flags, now)
    case PlainDnat(b) => OutboundDnat(env, m, key, b, flags, now)
    case Refuse => StepResult(m, Shot)
    case Elsewhere => StepResult(m, NotNat)
  }

  // ---- Recorded rewrites ---------------------------------------------------

  predicate Hit(m: Entries, key: CtKey, action: Action) {
    key in m && m[key].action == action
  }

  /** The reverse rewrite of an inbound packet. Plain NAPT leaves the source alone. */
  function Reversed(t: Tuple, v: CtVal): Tuple {
    var u := if v.action == SvcNaptIn || v.action == SharedIn then t.WithSource(v.newSaddr, v.newSport) else t;
    u.WithDestination(v.newDaddr, v.newDport)
  }

  function InboundFlow(env: Env, m: Entries, key: CtKey, flags: set<TcpFlag>, now: nat): StepResult
    requires key in m
  {
    var v := m[key];
    if !env.Deliverable(v.nextSubnet, v.newDaddr) then StepResult(m, Shot)
    else
      StepResult(ObservedIfTcp(env.subnetVpc, Touched(m, key, now), key, flags),
                 Deliver(v.nextSubnet, Flow(Reversed(key.t, v), flags)))
  }

  /** An ICMP error about an inbound half: its copy is what has to be put back. */
  function InboundError(env: Env, m: Entries, key: CtKey, pkt: Packet, now: nat): StepResult
    requires key in m && pkt.IcmpError?
  {
    var v := m[key];
    if !env.Deliverable(v.nextSubnet, v.newDaddr) then StepResult(m, Shot)
    else
      StepResult(Touched(m, key, now),
                 Deliver(v.nextSubnet,
                         IcmpError(pkt.saddr, v.newDaddr, pkt.quote.WithSource(v.newDaddr, v.newDport))))
  }

  /** A destination rewrite recorded by an earlier packet of a same-Vpc Service flow. */
  function CachedDnat(env: Env, m: Entries, key: CtKey, flags: set<TcpFlag>, now: nat): StepResult
    requires key in m
  {
    var v := m[key];
    StepResult(ObservedIfTcp(env.subnetVpc, Touched(m, key, now), key, flags),
               Forward(Flow(key.t.WithDestination(v.newDaddr, v.newDport), flags)))
  }

  // ---- The programs --------------------------------------------------------

  /** pod_egress for a packet with a tuple, in the Vpc of the port it arrived on. */
  function PodEgressFlow(env: Env, m: Entries, vpc: Scope, subnet: SubnetId, t: Tuple,
                         flags: set<TcpFlag>, now: nat): StepResult {
    if HasPorts(t.proto) && Hit(m, CtKey(HOST_SCOPE, t), SvcNaptIn) then
      InboundFlow(env, m, CtKey(HOST_SCOPE, t), flags, now)
    else if HasPorts(t.proto) && Hit(m, CtKey(vpc, t), SharedIn) then
      InboundFlow(env, m, CtKey(vpc, t), flags, now)
    else if HasPorts(t.proto) && Hit(m, CtKey(vpc, t), Dnat) then
      CachedDnat(env, m, CtKey(vpc, t), flags, now)
    else
      RoutedOut(env, m, CtKey(vpc, t), subnet, flags, now)
  }

  /** pod_egress for an ICMP error a workload sends towards the internet. */
  function PodEgressError(env: Env, m: Entries, vpc: Scope, pkt: Packet, now: nat): StepResult
    requires pkt.IcmpError?
  {
    var r := (vpc, pkt.saddr, pkt.daddr);
    if r !in env.routes then StepResult(m, NotNat)
    else if !env.routes[r].Internet? then StepResult(m, Shot)
    else
      var key := CtKey(vpc, pkt.quote.Mirror());
      if !Hit(m, key, NaptOut) then StepResult(m, Shot)
      else
        var v := m[key];
        StepResult(Touched(m, key, now),
                   Forward(IcmpError(v.newSaddr, pkt.daddr, pkt.quote.WithDestination(v.newSaddr, v.newSport))))
  }

  function PodEgress(env: Env, m: Entries, ifindex: nat, pkt: Packet, now: nat): StepResult {
    if ifindex !in env.portSubnet || env.portSubnet[ifindex] !in env.subnetVpc then StepResult(m, Shot)
    else
      var subnet := env.portSubnet[ifindex];
      var vpc := env.subnetVpc[subnet];
      match pkt
      case Flow(t, flags) => PodEgressFlow(env, m, vpc, subnet, t, flags, now)
      case IcmpError(_, _, _) => PodEgressError(env, m, vpc, pkt, now)
      case Opaque(saddr, daddr, _) =>
        StepResult(m, if (vpc, saddr, daddr) in env.routes then Shot else NotNat)
  }

  function NodeIngressFlow(env: Env, m: Entries, t: Tuple, flags: set<TcpFlag>, now: nat): StepResult {
    var key := CtKey(HOST_SCOPE, t);
    if env.underlay != 0 && t.daddr == env.underlay && HasPorts(t.proto) && Hit(m, key, SvcNaptIn) then
      InboundFlow(env, m, key, flags, now)
    else if t.daddr !in env.claimed then StepResult(m, ToKernel(Flow(t, flags)))
    else if !t.proto.OtherProto? && Hit(m, key, NaptIn) then
      InboundFlow(env, m, key, flags, now)
    else StepResult(m, NotNat)
  }

  function NodeIngress(env: Env, m: Entries, pkt: Packet, now: nat): StepResult {
    match pkt
    case Flow(t, flags) => NodeIngressFlow(env, m, t, flags, now)
    case IcmpError(_, daddr, quote) =>
      if daddr !in env.claimed then StepResult(m, ToKernel(pkt))
      else
        var key := CtKey(HOST_SCOPE, quote.Mirror());
        if Hit(m, key, NaptIn) then InboundError(env, m, key, pkt, now) else StepResult(m, NotNat)
    case Opaque(_, daddr, _) =>
      StepResult(m, if daddr in env.claimed then NotNat else ToKernel(pkt))
  }

  /** The cross-node reply leg of a shared Service, in the Vpc of the tunnel's Subnet. */
  function VxlanIngress(env: Env, m: Entries, tunnelSubnet: SubnetId, pkt: Packet, now: nat): StepResult {
    if tunnelSubnet !in env.subnetVpc || !pkt.Flow? || !HasPorts(pkt.t.proto) then StepResult(m, NotNat)
    else
      var key := CtKey(env.subnetVpc[tunnelSubnet], pkt.t);
      if Hit(m, key, SharedIn) then InboundFlow(env, m, key, pkt.flags, now) else StepResult(m, NotNat)
  }

  /** The reply leg of a same-Vpc Service, on the veth of the workload that asked. */
  function PodIngress(env: Env, m: Entries, vpc: Scope, pkt: Packet, now: nat): StepResult {
    if !pkt.Flow? || !HasPorts(pkt.t.proto) then StepResult(m, NotNat)
    else
      var key := CtKey(vpc, pkt.t);
      if !Hit(m, key, Snat) then StepResult(m, NotNat)
      else
        var v := m[key];
        StepResult(ObservedIfTcp(env.subnetVpc, Touched(m, key, now), key, pkt.flags),
                   Forward(Flow(pkt.t.WithSource(v.newSaddr, v.newSport), pkt.flags)))
  }

  // ---- Runs ----------------------------------------------------------------

  /** One program run. Every step brings its own tables, so they may change between steps. */
  datatype Step =
    | AtPodEgress(env: Env, ifindex: nat, pkt: Packet, now: nat)
    | AtNodeIngress(env: Env, pkt: Packet, now: nat)
    | AtVxlanIngress(env: Env, subnet: SubnetId, pkt: Packet, now: nat)
    | AtPodIngress(env: Env, vpc: Scope, pkt: Packet, now: nat)

  function Apply(m: Entries, s: Step): StepResult {
    match s
    case AtPodEgress(env, ifindex, pkt, now) => PodEgress(env, m, ifindex, pkt, now)
    case AtNodeIngress(env, pkt, now) => NodeIngress(env, m, pkt, now)
    case AtVxlanIngress(env, subnet, pkt, now) => VxlanIngress(env, m, subnet, pkt, now)
    case AtPodIngress(env, vpc, pkt, now) => PodIngress(env, m, vpc, pkt, now)
  }

  function Run(m: Entries, steps: seq<Step>): Entries
    decreases steps
  {
    if |steps| == 0 then m else Run(Apply(m, steps[0]).m, steps[1..])
  }
}
