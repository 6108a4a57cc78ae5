/**
 * Reply entries over whole runs: what may write them, what may take them away,
 * and whose packet made them.
 */
module NatReplies {
  import opened Types
  import opened Conntrack
  import opened NatPlane
  import opened NatInvariant

  // ---- Tables that stay put ------------------------------------------------

  /** The addresses of host-network backends, on this node or another. */
  function HostBackendIps(env: Env): set<Addr> {
    set k | k in env.backends && (env.backends[k].kind != PodBackend || env.backends[k].subnet == 0) ::
      env.backends[k].ip
  }

  /**
   * Tables with the address classes apart: a workload never has the address of a node, and
   * a Service NAT address is not the node's own.
   */
  ghost predicate FixedWorld(w: World, env: Env) {
    && EnvIn(w, env)
    && (forall s, a, b :: (s, a, b) in env.routes ==> a !in HostBackendIps(env))
    && env.underlay !in env.serviceNatIp.Values
  }

  /** Tables that decide alike. Ports, neighbours, claims, the table size and the hash may differ. */
  predicate DecideAlike(a: Env, b: Env) {
    && a.subnetVpc == b.subnetVpc && a.routes == b.routes && a.naptSrc == b.naptSrc && a.backends == b.backends
    && a.underlay == b.underlay && a.serviceNatIp == b.serviceNatIp
  }

  /** What an entry of such a run says agrees with what the tables would decide now. */
  predicate Agrees(w: World, env: Env, k: CtKey, v: CtVal) {
    var d := Decide(env, k, 0);
    && (IsOut(v.action) ==>
          && d.Translate? && d.plan.out == v.action
          && v.newSaddr == d.plan.natAddr && v.newDaddr == d.plan.peerAddr
          && v.newDport == d.plan.peerPort && v.nextSubnet == d.plan.outSubnet)
    && (v.action == Dnat ==> d.PlainDnat?)
    && (v.action == SharedIn ==> IsReplyKey(w, k))
    && (v.action == SvcNaptIn ==>
          k.t.saddr in HostBackendIps(env) && (k.t.daddr == env.underlay || k.t.daddr !in w.natAddrs))
  }

  ghost predicate FixedInv(w: World, env: Env, m: Entries) {
    Inv(w, m) && forall k :: k in m ==> Agrees(w, env, k, m[k])
  }

  // ---- Entries only change by being written or removed ---------------------

  /** Every entry of `m'` is one of `m`, at most refreshed, or one of `writes`. */
  ghost predicate WritesOnly(m: Entries, m': Entries, writes: Entries) {
    forall k :: k in m' ==>
      (k in m && SameTranslation(m[k], m'[k])) || (k in writes && SameTranslation(writes[k], m'[k]))
  }

  lemma ObserveWritesNothing(vpcs: SubnetVpcs, m: Entries, k: CtKey, flags: set<TcpFlag>, now: nat)
    ensures WritesOnly(m, ObservedIfTcp(vpcs, m, k, flags), map[])
    ensures k in m ==> WritesOnly(m, Touched(m, k, now), map[])
    ensures k in m ==> WritesOnly(m, ObservedIfTcp(vpcs, Touched(m, k, now), k, flags), map[])
  {
  }

  /** The entries a translated packet may write: none when it reuses an allocation. */
  function PlanWrites(env: Env, m: Entries, p: Plan, flags: set<TcpFlag>, now: nat): Entries {
    var port := AllocatedPort(env, m, p);
    if port.None? || Reuses(m, p) then map[]
    else map[p.RevKey(port.value) := p.RevVal(flags, now)][p.fwd := p.FwdVal(port.value, flags, now)]
  }

  /** The entries a routed packet may write. */
  function Writes(env: Env, m: Entries, key: CtKey, podSubnet: SubnetId, flags: set<TcpFlag>, now: nat): Entries {
    match Decide(env, key, podSubnet)
    case Translate(plan) => PlanWrites(env, m, plan, flags, now)
    case LocalBackend(b) => map[LocalRevKey(key, b) := LocalRevVal(key, podSubnet, flags, now)]
    case PlainDnat(b) =>
      map[key := DnatFwdVal(key, b, flags, now)][DnatRevKey(key, b) := DnatRevVal(key, flags, now)]
    case Refuse => map[]
    case Elsewhere => map[]
  }

  lemma InstallWrites(env: Env, m: Entries, p: Plan, port: Port, flags: set<TcpFlag>, now: nat)
    requires AllocatedPort(env, m, p) == Some(port)
    ensures WritesOnly(m, Installed(m, env.capacity, p, port, flags, now), PlanWrites(env, m, p, flags, now))
  {
  }

  lemma OutboundWrites(env: Env, m: Entries, p: Plan, flags: set<TcpFlag>, now: nat)
    ensures WritesOnly(m, Outbound(env, m, p, flags, now).m, PlanWrites(env, m, p, flags, now))
  {
    var port := AllocatedPort(env, m, p);
    if port.Some? {
      InstallWrites(env, m, p, port.value, flags, now);
      ObserveWritesNothing(env.subnetVpc, Installed(m, env.capacity, p, port.value, flags, now), p.fwd, flags, now);
    }
  }

  lemma RoutedOutWrites(env: Env, m: Entries, key: CtKey, podSubnet: SubnetId, flags: set<TcpFlag>, now: nat)
    ensures WritesOnly(m, RoutedOut(env, m, key, podSubnet, flags, now).m, Writes(env, m, key, podSubnet, flags, now))
  {
    match Decide(env, key, podSubnet)
    case Translate(plan) => OutboundWrites(env, m, plan, flags, now);
    case LocalBackend(b) =>
    case PlainDnat(b) =>
    case Refuse =>
    case Elsewhere =>
  }

  function StepWrites(m: Entries, s: Step): Entries {
    if s.AtPodEgress? && s.pkt.Flow? &&
       s.ifindex in s.env.portSubnet && s.env.portSubnet[s.ifindex] in s.env.subnetVpc then
      var subnet := s.env.portSubnet[s.ifindex];
      Writes(s.env, m, CtKey(s.env.subnetVpc[subnet], s.pkt.t), subnet, s.pkt.flags, s.now)
    else map[]
  }

  lemma PodEgressFlowWrites(env: Env, m: Entries, vpc: Scope, subnet: SubnetId, t: Tuple, flags: set<TcpFlag>, now: nat)
    ensures WritesOnly(m, PodEgressFlow(env, m, vpc, subnet, t, flags, now).m,
                       Writes(env, m, CtKey(vpc, t), subnet, flags, now))
  {
    var host, mine := CtKey(HOST_SCOPE, t), CtKey(vpc, t);
    if HasPorts(t.proto) && Hit(m, host, SvcNaptIn) {
      ObserveWritesNothing(env.subnetVpc, m, host, flags, now);
    } else if HasPorts(t.proto) && (Hit(m, mine, SharedIn) || Hit(m, mine, Dnat)) {
      ObserveWritesNothing(env.subnetVpc, m, mine, flags, now);
    } else {
      RoutedOutWrites(env, m, mine, subnet, flags, now);
    }
  }

  lemma NodeIngressFlowWritesNothing(env: Env, m: Entries, t: Tuple, flags: set<TcpFlag>, now: nat)
    ensures WritesOnly(m, NodeIngressFlow(env, m, t, flags, now).m, map[])
  {
    ObserveWritesNothing(env.subnetVpc, m, CtKey(HOST_SCOPE, t), flags, now);
  }

  lemma NodeIngressWritesNothing(env: Env, m: Entries, pkt: Packet, now: nat)
    ensures WritesOnly(m, NodeIngress(env, m, pkt, now).m, map[])
  {
    match pkt
    case Flow(t, flags) => NodeIngressFlowWritesNothing(env, m, t, flags, now);
    case IcmpError(_, _, quote) => ObserveWritesNothing(env.subnetVpc, m, CtKey(HOST_SCOPE, quote.Mirror()), {}, now);
    case Opaque(_, _, _) =>
  }

  lemma VxlanIngressWritesNothing(env: Env, m: Entries, subnet: SubnetId, pkt: Packet, now: nat)
    ensures WritesOnly(m, VxlanIngress(env, m, subnet, pkt, now).m, map[])
  {
    if pkt.Flow? && subnet in env.subnetVpc {
      ObserveWritesNothing(env.subnetVpc, m, CtKey(env.subnetVpc[subnet], pkt.t), pkt.flags, now);
    }
  }

  lemma PodIngressWritesNothing(env: Env, m: Entries, vpc: Scope, pkt: Packet, now: nat)
    ensures WritesOnly(m, PodIngress(env, m, vpc, pkt, now).m, map[])
  {
    if pkt.Flow? {
      ObserveWritesNothing(env.subnetVpc, m, CtKey(vpc, pkt.t), pkt.flags, now);
    }
  }

  lemma ReplyHookWritesNothing(m: Entries, s: Step)
    requires !s.AtPodEgress?
    ensures WritesOnly(m, Apply(m, s).m, map[])
  {
    match s
    case AtNodeIngress(env, pkt, now) => NodeIngressWritesNothing(env, m, pkt, now);
    case AtVxlanIngress(env, subnet, pkt, now) => VxlanIngressWritesNothing(env, m, subnet, pkt, now);
    case AtPodIngress(env, vpc, pkt, now) => PodIngressWritesNothing(env, m, vpc, pkt, now);
  }

  lemma ApplyWrites(m: Entries, s: Step)
    ensures WritesOnly(m, Apply(m, s).m, StepWrites(m, s))
  {
    if !s.AtPodEgress? {
      ReplyHookWritesNothing(m, s);
    } else if s.pkt.Flow? && s.ifindex in s.env.portSubnet && s.env.portSubnet[s.ifindex] in s.env.subnetVpc {
      var subnet := s.env.portSubnet[s.ifindex];
      PodEgressFlowWrites(s.env, m, s.env.subnetVpc[subnet], subnet, s.pkt.t, s.pkt.flags, s.now);
    }
  }

  /** The Subnet of the sender decides nothing but where the reply goes. */
  lemma DecisionIgnoresSubnet(env: Env, key: CtKey, podSubnet: SubnetId)
    ensures var d, d0 := Decide(env, key, podSubnet), Decide(env, key, 0);
            && (d.PlainDnat? ==> d0.PlainDnat?)
            && (d.Translate? ==> d0.Translate? && d0.plan == d.plan.(podSubnet := 0))
  {
  }

  predicate SafeWrites(w: World, env: Env, m: Entries, writes: Entries) {
    forall k :: k in writes ==> Agrees(w, env, k, writes[k]) && (IsReplyKey(w, k) ==> k !in m)
  }

  lemma NewPairIsSafe(w: World, env: Env, m: Entries, podSubnet: SubnetId, p: Plan, port: Port,
                      flags: set<TcpFlag>, now: nat)
    requires EnvIn(w, env) && PlanOk(w, p) && Decide(env, p.fwd, podSubnet) == Translate(p) && p.RevKey(port) !in m
    ensures SafeWrites(w, env, m, map[p.RevKey(port) := p.RevVal(flags, now)][p.fwd := p.FwdVal(port, flags, now)])
  {
    DecisionIgnoresSubnet(env, p.fwd, podSubnet);
    assert p.out == SvcNaptOut ==> p.natAddr == env.underlay;
    assert Agrees(w, env, p.fwd, p.FwdVal(port, flags, now));
    assert Agrees(w, env, p.RevKey(port), p.RevVal(flags, now));
  }

  lemma PlanWritesAreSafe(w: World, env: Env, m: Entries, podSubnet: SubnetId, p: Plan, flags: set<TcpFlag>, now: nat)
    requires EnvIn(w, env) && PlanOk(w, p) && Decide(env, p.fwd, podSubnet) == Translate(p)
    ensures SafeWrites(w, env, m, PlanWrites(env, m, p, flags, now))
  {
    var port := AllocatedPort(env, m, p);
    if port.Some? && !Reuses(m, p) {
      ProbeFindsFreeKey(m, env.capacity, p, env.hash(p.fwd.t), 0);
      NewPairIsSafe(w, env, m, podSubnet, p, port.value, flags, now);
    }
  }

  /** A write agrees with the tables, and never lands on a reply key that is in use. */
  lemma WritesAreSafe(w: World, env: Env, m: Entries, key: CtKey, podSubnet: SubnetId, flags: set<TcpFlag>, now: nat)
    requires EnvIn(w, env) && key.t.WellFormed() && podSubnet in w.vpcs && w.vpcs[podSubnet] == key.scope
    ensures SafeWrites(w, env, m, Writes(env, m, key, podSubnet, flags, now))
  {
    DecideGivesPlanOk(w, env, key, podSubnet);
    match Decide(env, key, podSubnet)
    case Translate(plan) => PlanWritesAreSafe(w, env, m, podSubnet, plan, flags, now);
    case LocalBackend(b) => assert b.ip in HostBackendIps(env);
    case PlainDnat(b) => DecisionIgnoresSubnet(env, key, podSubnet);
    case Refuse =>
    case Elsewhere =>
  }

  lemma StepWritesAreSafe(w: World, m: Entries, s: Step)
    requires StepIn(w, s)
    ensures SafeWrites(w, s.env, m, StepWrites(m, s))
  {
    if StepWrites(m, s) != map[] {
      var subnet := s.env.portSubnet[s.ifindex];
      WritesAreSafe(w, s.env, m, CtKey(s.env.subnetVpc[subnet], s.pkt.t), subnet, s.pkt.flags, s.now);
    }
  }

  lemma AlikeAgree(w: World, a: Env, b: Env, k: CtKey, v: CtVal)
    requires DecideAlike(a, b)
    ensures Agrees(w, a, k, v) == Agrees(w, b, k, v)
  {
    assert HostBackendIps(a) == HostBackendIps(b);
    assert Decide(a, k, 0) == Decide(b, k, 0);
  }

  lemma ApplyKeepsFixedInv(w: World, env: Env, m: Entries, s: Step)
    requires FixedInv(w, env, m) && StepIn(w, s) && DecideAlike(s.env, env)
    ensures FixedInv(w, env, Apply(m, s).m)
  {
    ApplyKeepsInv(w, m, s);
    ApplyWrites(m, s);
    StepWritesAreSafe(w, m, s);
    var m' := Apply(m, s).m;
    forall k | k in m'
      ensures Agrees(w, env, k, m'[k])
    {
      if k in m && SameTranslation(m[k], m'[k]) {
        assert Agrees(w, env, k, m[k]);
      } else {
        AlikeAgree(w, s.env, env, k, m'[k]);
      }
    }
  }

  /** As long as a reply entry is in the table it keeps saying what it said. */
  lemma ReplyEntryIsStable(w: World, m: Entries, s: Step, r: CtKey)
    requires StepIn(w, s) && r in m && IsReplyKey(w, r) && r in Apply(m, s).m
    ensures SameTranslation(m[r], Apply(m, s).m[r])
  {
    ApplyWrites(m, s);
    StepWritesAreSafe(w, m, s);
  }

  // ---- Runs whose decisions stay put ---------------------------------------

  ghost predicate FixedRun(w: World, env: Env, steps: seq<Step>) {
    RunIn(w, steps) && forall i :: 0 <= i < |steps| ==> DecideAlike(steps[i].env, env)
  }

  /** The entry at `r` is in the table before, between and after all the steps. */
  predicate HeldThrough(m: Entries, steps: seq<Step>, r: CtKey)
    decreases steps
  {
    r in m && (|steps| == 0 || HeldThrough(Apply(m, steps[0]).m, steps[1..], r))
  }

  lemma {:induction false} RunKeepsFixedInv(w: World, env: Env, m: Entries, steps: seq<Step>)
    requires FixedInv(w, env, m) && FixedRun(w, env, steps)
    ensures FixedInv(w, env, Run(m, steps))
    decreases steps
  {
    if |steps| != 0 {
      ApplyKeepsFixedInv(w, env, m, steps[0]);
      RunKeepsFixedInv(w, env, Apply(m, steps[0]).m, steps[1..]);
    }
  }

  lemma {:induction false} HeldEntryIsStable(w: World, m: Entries, steps: seq<Step>, r: CtKey)
    requires RunIn(w, steps) && IsReplyKey(w, r) && HeldThrough(m, steps, r)
    ensures r in Run(m, steps) && SameTranslation(m[r], Run(m, steps)[r])
    decreases steps
  {
    if |steps| != 0 {
      ReplyEntryIsStable(w, m, steps[0], r);
      HeldEntryIsStable(w, Apply(m, steps[0]).m, steps[1..], r);
    }
  }

  // ---- Who can end a flow --------------------------------------------------

  /** A closing TCP packet of the flow whose reply entry is `r`, from either side. */
  predicate EndsFlow(vpcs: SubnetVpcs, r: CtKey, v: CtVal, t: Tuple, flags: set<TcpFlag>) {
    t.proto == Tcp && (Rst in flags || Fin in flags) && (t == r.t || t == PeerKey(vpcs, r, v).t)
  }

  /** A closing TCP packet with one of the two tuples of a flow. */
  predicate Closes(s: Step, out: Tuple, back: Tuple) {
    && s.pkt.Flow? && s.pkt.t.proto == Tcp
    && (Rst in s.pkt.flags || Fin in s.pkt.flags) && (s.pkt.t == out || s.pkt.t == back)
  }

  predicate NoneCloses(steps: seq<Step>, out: Tuple, back: Tuple) {
    forall i :: 0 <= i < |steps| ==> !Closes(steps[i], out, back)
  }

  lemma ObserveEndsOnlyItsFlow(w: World, m: Entries, self: CtKey, flags: set<TcpFlag>, r: CtKey)
    requires Inv(w, m) && r in m && IsReplyKey(w, r) && r !in ObservedIfTcp(w.vpcs, m, self, flags)
    ensures EndsFlow(w.vpcs, r, m[r], self.t, flags)
  {
    assert EntryOk(w, self, m[self]) && Paired(w.vpcs, m, self);
  }

  lemma TouchThenObserveEndsOnlyItsFlow(w: World, m: Entries, self: CtKey, flags: set<TcpFlag>, now: nat, r: CtKey)
    requires Inv(w, m) && r in m && IsReplyKey(w, r) && self in m
    requires r !in ObservedIfTcp(w.vpcs, Touched(m, self, now), self, flags)
    ensures EndsFlow(w.vpcs, r, m[r], self.t, flags)
  {
    TouchAndObserveKeepInv(w, m, self, flags, now);
    ObserveEndsOnlyItsFlow(w, Touched(m, self, now), self, flags, r);
  }

  /** Installing a plan leaves every reply entry where and what it was. */
  lemma InstallKeepsReplies(w: World, env: Env, m: Entries, p: Plan, port: Port, flags: set<TcpFlag>, now: nat,
                            r: CtKey)
    requires PlanOk(w, p) && AllocatedPort(env, m, p) == Some(port) && r in m && IsReplyKey(w, r)
    ensures var m1 := Installed(m, env.capacity, p, port, flags, now); r in m1 && SameTranslation(m[r], m1[r])
  {
    if !Reuses(m, p) {
      ProbeFindsFreeKey(m, env.capacity, p, env.hash(p.fwd.t), 0);
    }
  }

  lemma OutboundEndsOnlyItsFlow(w: World, env: Env, m: Entries, p: Plan, flags: set<TcpFlag>, now: nat, r: CtKey)
    requires Inv(w, m) && PlanOk(w, p) && env.subnetVpc == w.vpcs
    requires r in m && IsReplyKey(w, r) && r !in Outbound(env, m, p, flags, now).m
    ensures EndsFlow(w.vpcs, r, m[r], p.fwd.t, flags)
  {
    var port := AllocatedPort(env, m, p).value;
    var m1 := Installed(m, env.capacity, p, port, flags, now);
    InstallKeepsInv(w, env, m, p, port, flags, now);
    InstallKeepsReplies(w, env, m, p, port, flags, now, r);
    ObserveEndsOnlyItsFlow(w, m1, p.fwd, flags, r);
    PeerReadsTranslationOnly(w.vpcs, r, m[r], m1[r]);
  }

  lemma PodEgressEndsOnlyItsFlow(w: World, env: Env, m: Entries, vpc: Scope, subnet: SubnetId, t: Tuple,
                                 flags: set<TcpFlag>, now: nat, r: CtKey)
    requires Inv(w, m) && EnvIn(w, env) && t.WellFormed() && subnet in w.vpcs && w.vpcs[subnet] == vpc
    requires r in m && IsReplyKey(w, r) && r !in PodEgressFlow(env, m, vpc, subnet, t, flags, now).m
    ensures EndsFlow(w.vpcs, r, m[r], t, flags)
  {
    var host, mine := CtKey(HOST_SCOPE, t), CtKey(vpc, t);
    if HasPorts(t.proto) && Hit(m, host, SvcNaptIn) {
      TouchThenObserveEndsOnlyItsFlow(w, m, host, flags, now, r);
    } else if HasPorts(t.proto) && (Hit(m, mine, SharedIn) || Hit(m, mine, Dnat)) {
      TouchThenObserveEndsOnlyItsFlow(w, m, mine, flags, now, r);
    } else {
      DecideGivesPlanOk(w, env, mine, subnet);
      OutboundEndsOnlyItsFlow(w, env, m, Decide(env, mine, subnet).plan, flags, now, r);
    }
  }

  /**
   * Isolation. Only a closing TCP packet of the flow itself, seen from one of
   * its two sides, can take a reply entry away; no other traffic can.
   */
  lemma OnlyItsOwnPacketsEndAFlow(w: World, m: Entries, s: Step, r: CtKey)
    requires Inv(w, m) && StepIn(w, s) && r in m && IsReplyKey(w, r) && r !in Apply(m, s).m
    ensures s.pkt.Flow? && EndsFlow(w.vpcs, r, m[r], s.pkt.t, s.pkt.flags)
  {
    if s.pkt.Flow? {
      match s
      case AtPodEgress(env, ifindex, pkt, now) =>
        var subnet := env.portSubnet[ifindex];
        PodEgressEndsOnlyItsFlow(w, env, m, env.subnetVpc[subnet], subnet, pkt.t, pkt.flags, now, r);
      case AtNodeIngress(env, pkt, now) =>
        TouchThenObserveEndsOnlyItsFlow(w, m, CtKey(HOST_SCOPE, pkt.t), pkt.flags, now, r);
      case AtVxlanIngress(env, subnet, pkt, now) =>
        TouchThenObserveEndsOnlyItsFlow(w, m, CtKey(env.subnetVpc[subnet], pkt.t), pkt.flags, now, r);
      case AtPodIngress(env, vpc, pkt, now) =>
        TouchThenObserveEndsOnlyItsFlow(w, m, CtKey(vpc, pkt.t), pkt.flags, now, r);
    }
  }

  /** A reply entry stays through any run in which neither side of its flow closes it. */
  lemma {:induction false} UnclosedEntryIsHeld(w: World, m: Entries, steps: seq<Step>, r: CtKey, t: Tuple)
    requires Inv(w, m) && RunIn(w, steps)
    requires r in m && IsReplyKey(w, r) && PeerKey(w.vpcs, r, m[r]).t == t && NoneCloses(steps, t, r.t)
    ensures HeldThrough(m, steps, r)
    decreases steps
  {
    if |steps| != 0 {
      var s := steps[0];
      if r !in Apply(m, s).m {
        OnlyItsOwnPacketsEndAFlow(w, m, s, r);
        assert Closes(s, t, r.t);
      }
      ApplyKeepsInv(w, m, s);
      ReplyEntryIsStable(w, m, s, r);
      PeerReadsTranslationOnly(w.vpcs, r, m[r], Apply(m, s).m[r]);
      assert forall i :: 0 <= i < |steps| - 1 ==> steps[1..][i] == steps[i + 1];
      UnclosedEntryIsHeld(w, Apply(m, s).m, steps[1..], r, t);
    }
  }

  // ---- Whose packet made an allocation -------------------------------------

  /** The Subnet of the port a packet leaves its workload through. */
  function SenderSubnet(s: Step): Option<SubnetId> {
    if s.AtPodEgress? && s.ifindex in s.env.portSubnet then Some(s.env.portSubnet[s.ifindex]) else None
  }

  function OpenerAfter(m: Entries, s: Step, key: CtKey, out: Action, known: Option<SubnetId>): Option<SubnetId> {
    if !Hit(Apply(m, s).m, key, out) then None else if Hit(m, key, out) then known else SenderSubnet(s)
  }

  /**
   * The Subnet that opened the allocation in use for a flow after the steps: the
   * sender of the packet since which the table has held its forward half.
   */
  function Opener(m: Entries, steps: seq<Step>, key: CtKey, out: Action, known: Option<SubnetId>): Option<SubnetId>
    decreases steps
  {
    if |steps| == 0 then known
    else Opener(Apply(m, steps[0]).m, steps[1..], key, out, OpenerAfter(m, steps[0], key, out, known))
  }

  /** The reply entry of the allocation in use names the Subnet that opened it. */
  ghost predicate NamesOpener(w: World, m: Entries, key: CtKey, out: Action, known: Option<SubnetId>) {
    Hit(m, key, out) ==>
      var r := PeerKey(w.vpcs, key, m[key]);
      r in m && known == Some(m[r].nextSubnet)
  }

  lemma PlanWritesForward(w: World, env: Env, m: Entries, p: Plan, flags: set<TcpFlag>, now: nat, key: CtKey,
                          out: Action)
    returns (port: Port)
    requires PlanOk(w, p) && IsOut(out) && Hit(PlanWrites(env, m, p, flags, now), key, out)
    ensures p.fwd == key && p.out == out && !Hit(m, key, out) && p.RevKey(port) !in m
    ensures PlanWrites(env, m, p, flags, now) ==
            map[p.RevKey(port) := p.RevVal(flags, now)][p.fwd := p.FwdVal(port, flags, now)]
  {
    port := AllocatedPort(env, m, p).value;
    ProbeFindsFreeKey(m, env.capacity, p, env.hash(p.fwd.t), 0);
  }

  lemma OnlyPlansWriteForward(env: Env, m: Entries, mine: CtKey, subnet: SubnetId, flags: set<TcpFlag>, now: nat,
                              key: CtKey, out: Action)
    requires IsOut(out) && Hit(Writes(env, m, mine, subnet, flags, now), key, out)
    ensures var d := Decide(env, mine, subnet);
            d.Translate? && Writes(env, m, mine, subnet, flags, now) == PlanWrites(env, m, d.plan, flags, now)
  {
  }

  /** Only a translated packet of the flow itself, finding no allocation in use, writes its forward half. */
  lemma ForwardHalfIsWrittenByItsFlow(w: World, m: Entries, s: Step, key: CtKey, out: Action)
    returns (p: Plan, port: Port)
    requires StepIn(w, s) && IsOut(out) && Hit(StepWrites(m, s), key, out)
    ensures p.fwd == key && p.out == out && PlanOk(w, p) && !Hit(m, key, out)
    ensures s.pkt.Flow? && s.pkt.t == key.t && SenderSubnet(s) == Some(p.podSubnet) && p.RevKey(port) !in m
    ensures StepWrites(m, s) ==
            map[p.RevKey(port) := p.RevVal(s.pkt.flags, s.now)][p.fwd := p.FwdVal(port, s.pkt.flags, s.now)]
  {
    var subnet := s.env.portSubnet[s.ifindex];
    var mine := CtKey(s.env.subnetVpc[subnet], s.pkt.t);
    OnlyPlansWriteForward(s.env, m, mine, subnet, s.pkt.flags, s.now, key, out);
    DecideGivesPlanOk(w, s.env, mine, subnet);
    p := Decide(s.env, mine, subnet).plan;
    port := PlanWritesForward(w, s.env, m, p, s.pkt.flags, s.now, key, out);
  }

  lemma NewAllocationNamesItsSender(w: World, m: Entries, s: Step, key: CtKey, out: Action)
    requires Inv(w, m) && StepIn(w, s) && IsOut(out) && !Hit(m, key, out) && Hit(Apply(m, s).m, key, out)
    ensures NamesOpener(w, Apply(m, s).m, key, out, SenderSubnet(s))
  {
    var m' := Apply(m, s).m;
    ApplyKeepsInv(w, m, s);
    ApplyWrites(m, s);
    assert Paired(w.vpcs, m', key);
    var p, port := ForwardHalfIsWrittenByItsFlow(w, m, s, key, out);
    PlanHalvesMatch(w, p, port, s.pkt.flags, s.now);
    PeerReadsTranslationOnly(w.vpcs, key, p.FwdVal(port, s.pkt.flags, s.now), m'[key]);
  }

  lemma AllocationInUseKeepsItsOpener(w: World, m: Entries, s: Step, key: CtKey, out: Action, known: Option<SubnetId>)
    requires Inv(w, m) && StepIn(w, s) && IsOut(out) && Hit(m, key, out) && Hit(Apply(m, s).m, key, out)
    requires NamesOpener(w, m, key, out, known)
    ensures NamesOpener(w, Apply(m, s).m, key, out, known)
  {
    var m' := Apply(m, s).m;
    ApplyKeepsInv(w, m, s);
    ApplyWrites(m, s);
    assert Paired(w.vpcs, m', key) && EntryOk(w, key, m[key]);
    if Hit(StepWrites(m, s), key, out) {
      var _, _ := ForwardHalfIsWrittenByItsFlow(w, m, s, key, out);
    }
    assert SameTranslation(m[key], m'[key]);
    PeerReadsTranslationOnly(w.vpcs, key, m[key], m'[key]);
    ReplyEntryIsStable(w, m, s, PeerKey(w.vpcs, key, m[key]));
  }

  /** After any run, the reply entry of an allocation in use names the Subnet whose packet made that allocation. */
  lemma {:induction false} RunNamesOpener(w: World, m: Entries, steps: seq<Step>, key: CtKey, out: Action,
                                          known: Option<SubnetId>)
    requires Inv(w, m) && RunIn(w, steps) && IsOut(out)
    requires NamesOpener(w, m, key, out, known)
    ensures NamesOpener(w, Run(m, steps), key, out, Opener(m, steps, key, out, known))
    decreases steps
  {
    if |steps| != 0 {
      var s := steps[0];
      ApplyKeepsInv(w, m, s);
      if Hit(Apply(m, s).m, key, out) {
        if Hit(m, key, out) {
          AllocationInUseKeepsItsOpener(w, m, s, key, out, known);
        } else {
          NewAllocationNamesItsSender(w, m, s, key, out);
        }
      }
      RunNamesOpener(w, Apply(m, s).m, steps[1..], key, out, OpenerAfter(m, s, key, out, known));
    }
  }

  /** A packet with the flow's tuple, leaving through a port of this Subnet. */
  predicate SendsFrom(s: Step, t: Tuple, subnet: SubnetId) {
    s.pkt.Flow? && s.pkt.t == t && SenderSubnet(s) == Some(subnet)
  }

  lemma NewAllocationIsSent(w: World, m: Entries, s: Step, key: CtKey, out: Action)
    requires StepIn(w, s) && IsOut(out) && !Hit(m, key, out) && Hit(Apply(m, s).m, key, out)
    ensures s.pkt.Flow? && s.pkt.t == key.t
  {
    ApplyWrites(m, s);
    var _, _ := ForwardHalfIsWrittenByItsFlow(w, m, s, key, out);
  }

  /** Whoever opened an allocation sent a packet of the flow. */
  lemma {:induction false} OpenerSentThatFlow(w: World, m: Entries, steps: seq<Step>, key: CtKey, out: Action,
                                              known: Option<SubnetId>, subnet: SubnetId)
    requires RunIn(w, steps) && IsOut(out)
    requires Opener(m, steps, key, out, known) == Some(subnet) && known != Some(subnet)
    ensures exists i :: 0 <= i < |steps| && SendsFrom(steps[i], key.t, subnet)
    decreases steps
  {
    var now := OpenerAfter(m, steps[0], key, out, known);
    if now == Some(subnet) {
      NewAllocationIsSent(w, m, steps[0], key, out);
      assert SendsFrom(steps[0], key.t, subnet);
    } else {
      OpenerSentThatFlow(w, Apply(m, steps[0]).m, steps[1..], key, out, now, subnet);
      var i :| 0 <= i < |steps| - 1 && SendsFrom(steps[1..][i], key.t, subnet);
      assert SendsFrom(steps[i + 1], key.t, subnet);
    }
  }
}
