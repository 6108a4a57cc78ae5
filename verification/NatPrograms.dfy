/**
 * The NAT programs as they run: lookups, a bounded probe loop and writes on the
 * shared table, each proved to be the step `NatPlane` describes.
 */
module NatPrograms {
  import opened Types
  import opened Conntrack
  import opened NatPlane

  /** Claims the reply key of the first free port, without ever overwriting one in use. */
  method ClaimPort(ct: CtTable, env: Env, plan: Plan, flags: set<TcpFlag>, now: nat) returns (port: Option<Port>)
    requires ct.capacity == env.capacity
    modifies ct
    ensures port == Probe(env, old(ct.entries), plan)
    ensures ct.entries == match port
                          case None => old(ct.entries)
                          case Some(p) => old(ct.entries)[plan.RevKey(p) := plan.RevVal(flags, now)]
  {
    var seed := env.hash(plan.fwd.t);
    var i := 0;
    while i < PROBE_LIMIT
      invariant i <= PROBE_LIMIT && ct.entries == old(ct.entries)
      invariant ProbeFrom(ct.entries, env.capacity, plan, seed, i) == Probe(env, ct.entries, plan)
    {
      var candidate := Candidate(seed, i);
      var ok := ct.Insert(plan.RevKey(candidate), plan.RevVal(flags, now));
      if ok {
        return Some(candidate);
      }
      seed := NextSeed(seed);
      i := i + 1;
    }
    port := None;
  }

  /** The common body of the NAPT, host-network and shared Service handlers. */
  method HandleTranslation(ct: CtTable, env: Env, plan: Plan, flags: set<TcpFlag>, now: nat) returns (verdict: Verdict)
    requires ct.capacity == env.capacity
    modifies ct
    ensures StepResult(ct.entries, verdict) == Outbound(env, old(ct.entries), plan, flags, now)
  {
    var port: Port;
    if plan.fwd in ct.entries && ct.entries[plan.fwd].action == plan.out {
      port := ct.entries[plan.fwd].newSport;
      ct.Touch(plan.fwd, now);
    } else {
      var claimed := ClaimPort(ct, env, plan, flags, now);
      if claimed == None {
        return Shot;
      }
      port := claimed.value;
      var _ := ct.Upsert(plan.fwd, plan.FwdVal(port, flags, now));
    }
    ct.ObservePacket(env.subnetVpc, plan.fwd, flags);
    verdict := Forward(Flow(plan.Translated(port), flags));
  }

  method HandleRouted(ct: CtTable, env: Env, key: CtKey, podSubnet: SubnetId, flags: set<TcpFlag>, now: nat)
    returns (verdict: Verdict)
    requires ct.capacity == env.capacity
    modifies ct
    ensures StepResult(ct.entries, verdict) == RoutedOut(env, old(ct.entries), key, podSubnet, flags, now)
  {
    match Decide(env, key, podSubnet)
    case Translate(plan) =>
      verdict := HandleTranslation(ct, env, plan, flags, now);
    case LocalBackend(b) =>
      var _ := ct.Upsert(LocalRevKey(key, b), LocalRevVal(key, podSubnet, flags, now));
      verdict := ToKernel(Flow(key.t.WithDestination(b.ip, b.port), flags));
    case PlainDnat(b) =>
      var _ := ct.Upsert(key, DnatFwdVal(key, b, flags, now));
      var _ := ct.Upsert(DnatRevKey(key, b), DnatRevVal(key, flags, now));
      verdict := Forward(Flow(key.t.WithDestination(b.ip, b.port), flags));
    case Refuse =>
      verdict := Shot;
    case Elsewhere =>
      verdict := NotNat;
  }

  /** The reverse rewrite every reply hook shares. */
  method HandleReply(ct: CtTable, env: Env, key: CtKey, flags: set<TcpFlag>, now: nat) returns (verdict: Verdict)
    requires key in ct.entries
    modifies ct
    ensures StepResult(ct.entries, verdict) == InboundFlow(env, old(ct.entries), key, flags, now)
  {
    var v := ct.entries[key];
    if !env.Deliverable(v.nextSubnet, v.newDaddr) {
      return Shot;
    }
    ct.Touch(key, now);
    ct.ObservePacket(env.subnetVpc, key, flags);
    verdict := Deliver(v.nextSubnet, Flow(Reversed(key.t, v), flags));
  }

  method RunPodEgress(ct: CtTable, env: Env, ifindex: nat, pkt: Packet, now: nat) returns (verdict: Verdict)
    requires ct.capacity == env.capacity
    modifies ct
    ensures StepResult(ct.entries, verdict) == PodEgress(env, old(ct.entries), ifindex, pkt, now)
  {
    if ifindex !in env.portSubnet || env.portSubnet[ifindex] !in env.subnetVpc {
      return Shot;
    }
    var subnet := env.portSubnet[ifindex];
    var vpc := env.subnetVpc[subnet];
    match pkt
    case Flow(t, flags) =>
      var host, mine := CtKey(HOST_SCOPE, t), CtKey(vpc, t);
      if HasPorts(t.proto) && Hit(ct.entries, host, SvcNaptIn) {
        verdict := HandleReply(ct, env, host, flags, now);
      } else if HasPorts(t.proto) && Hit(ct.entries, mine, SharedIn) {
        verdict := HandleReply(ct, env, mine, flags, now);
      } else if HasPorts(t.proto) && Hit(ct.entries, mine, Dnat) {
        var v := ct.entries[mine];
        ct.Touch(mine, now);
        ct.ObservePacket(env.subnetVpc, mine, flags);
        verdict := Forward(Flow(t.WithDestination(v.newDaddr, v.newDport), flags));
      } else {
        verdict := HandleRouted(ct, env, mine, subnet, flags, now);
      }
    case IcmpError(saddr, daddr, quote) =>
      var r := (vpc, saddr, daddr);
      var key := CtKey(vpc, quote.Mirror());
      if r !in env.routes {
        verdict := NotNat;
      } else if !env.routes[r].Internet? || !Hit(ct.entries, key, NaptOut) {
        verdict := Shot;
      } else {
        var v := ct.entries[key];
        ct.Touch(key, now);
        verdict := Forward(IcmpError(v.newSaddr, daddr, quote.WithDestination(v.newSaddr, v.newSport)));
      }
    case Opaque(saddr, daddr, _) =>
      verdict := if (vpc, saddr, daddr) in env.routes then Shot else NotNat;
  }

  method RunNodeIngress(ct: CtTable, env: Env, pkt: Packet, now: nat) returns (verdict: Verdict)
    modifies ct
    ensures StepResult(ct.entries, verdict) == NodeIngress(env, old(ct.entries), pkt, now)
  {
    match pkt
    case Flow(t, flags) =>
      var key := CtKey(HOST_SCOPE, t);
      if env.underlay != 0 && t.daddr == env.underlay && HasPorts(t.proto) && Hit(ct.entries, key, SvcNaptIn) {
        verdict := HandleReply(ct, env, key, flags, now);
      } else if t.daddr !in env.claimed {
        verdict := ToKernel(pkt);
      } else if !t.proto.OtherProto? && Hit(ct.entries, key, NaptIn) {
        verdict := HandleReply(ct, env, key, flags, now);
      } else {
        verdict := NotNat;
      }
    case IcmpError(saddr, daddr, quote) =>
      var key := CtKey(HOST_SCOPE, quote.Mirror());
      if daddr !in env.claimed {
        verdict := ToKernel(pkt);
      } else if !Hit(ct.entries, key, NaptIn) {
        verdict := NotNat;
      } else {
        var v := ct.entries[key];
        if !env.Deliverable(v.nextSubnet, v.newDaddr) {
          return Shot;
        }
        ct.Touch(key, now);
        verdict := Deliver(v.nextSubnet, IcmpError(saddr, v.newDaddr, quote.WithSource(v.newDaddr, v.newDport)));
      }
    case Opaque(_, daddr, _) =>
      verdict := if daddr in env.claimed then NotNat else ToKernel(pkt);
  }

  method RunVxlanIngress(ct: CtTable, env: Env, tunnelSubnet: SubnetId, pkt: Packet, now: nat)
    returns (verdict: Verdict)
    modifies ct
    ensures StepResult(ct.entries, verdict) == VxlanIngress(env, old(ct.entries), tunnelSubnet, pkt, now)
  {
    verdict := NotNat;
    if tunnelSubnet in env.subnetVpc && pkt.Flow? && HasPorts(pkt.t.proto) {
      var key := CtKey(env.subnetVpc[tunnelSubnet], pkt.t);
      if Hit(ct.entries, key, SharedIn) {
        verdict := HandleReply(ct, env, key, pkt.flags, now);
      }
    }
  }

  method RunPodIngress(ct: CtTable, env: Env, vpc: Scope, pkt: Packet, now: nat) returns (verdict: Verdict)
    modifies ct
    ensures StepResult(ct.entries, verdict) == PodIngress(env, old(ct.entries), vpc, pkt, now)
  {
    verdict := NotNat;
    if pkt.Flow? && HasPorts(pkt.t.proto) {
      var key := CtKey(vpc, pkt.t);
      if Hit(ct.entries, key, Snat) {
        var v := ct.entries[key];
        ct.Touch(key, now);
        ct.ObservePacket(env.subnetVpc, key, pkt.flags);
        verdict := Forward(Flow(pkt.t.WithSource(v.newSaddr, v.newSport), pkt.flags));
      }
    }
  }
}
