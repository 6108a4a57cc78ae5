/**
 * What every run of the NAT programs keeps: each translated flow owns its
 * reverse entry alone, and no closed entry stays behind.
 */
module NatInvariant {
  import opened Types
  import opened Conntrack
  import opened NatPlane

  /**
   * What may not change during a run: the Vpc of each Subnet, which addresses
   * are NAT addresses, and which of them a Vpc uses for its shared Services.
   */
  datatype World = World(vpcs: SubnetVpcs, natAddrs: set<Addr>, serviceNat: set<(Scope, Addr)>)

  /** Keys under which replies to a translated source are looked up. */
  predicate IsReplyKey(w: World, k: CtKey) {
    k.t.daddr in w.natAddrs && (k.scope == HOST_SCOPE || (k.scope, k.t.daddr) in w.serviceNat)
  }

  /**
   * Tables a step may bring. No Vpc is the host's keyspace, no workload has a
   * NAT address, and no route leads to the Service NAT address of its own Vpc.
   */
  ghost predicate EnvIn(w: World, env: Env) {
    && env.subnetVpc == w.vpcs && (forall s :: s in w.vpcs ==> w.vpcs[s] != HOST_SCOPE)
    && env.NatAddrs() <= w.natAddrs
    && (forall v :: v in env.serviceNatIp ==> (v, env.serviceNatIp[v]) in w.serviceNat)
    && (forall s, a, b :: (s, a, b) in env.routes ==> a !in w.natAddrs && (s, b) !in w.serviceNat)
  }

  predicate IsOut(a: Action) {
    a == NaptOut || a == SvcNaptOut || a == SharedOut
  }

  function Partner(a: Action): Action {
    match a
    case Dnat => Snat case Snat => Dnat
    case NaptOut => NaptIn case NaptIn => NaptOut
    case SvcNaptOut => SvcNaptIn case SvcNaptIn => SvcNaptOut
    case SharedOut => SharedIn case SharedIn => SharedOut
  }

  /**
   * The other half of a flow. It is the derived opposite key, except that an
   * Echo carries the Identifier of its own side in both slots.
   */
  function PeerKey(vpcs: SubnetVpcs, k: CtKey, v: CtVal): CtKey {
    var o := OppositeKey(vpcs, k, v);
    if k.t.proto != Icmp then o
    else if v.action == NaptIn then o.(t := o.t.(dport := v.newDport))
    else o.(t := o.t.(sport := v.newSport))
  }

  /** A forward half has a reverse half that leads back to it. */
  predicate Paired(vpcs: SubnetVpcs, m: Entries, k: CtKey)
    requires k in m
  {
    IsOut(m[k].action) ==>
      var r := PeerKey(vpcs, k, m[k]);
      r in m && m[r].action == Partner(m[k].action) && PeerKey(vpcs, r, m[r]) == k
  }

  /** Shape of one entry: never closed, a well-formed forward key, and which halves are reply keys. */
  predicate EntryOk(w: World, k: CtKey, v: CtVal) {
    && v.state != Closed
    && (IsReplyKey(w, PeerKey(w.vpcs, k, v)) <==> IsOut(v.action))
    && (IsOut(v.action) ==> !IsReplyKey(w, k) && k.t.WellFormed())
  }

  ghost predicate Inv(w: World, m: Entries) {
    && (forall k :: k in m ==> EntryOk(w, k, m[k]))
    && (forall k :: k in m ==> Paired(w.vpcs, m, k))
  }

  // ---- Consequences --------------------------------------------------------

  /** Two live translated flows never share a reverse key, hence never a translated 5-tuple. */
  lemma NoSharedTranslation(w: World, m: Entries, k1: CtKey, k2: CtKey)
    requires Inv(w, m)
    requires k1 in m && k2 in m && IsOut(m[k1].action) && IsOut(m[k2].action)
    requires PeerKey(w.vpcs, k1, m[k1]) == PeerKey(w.vpcs, k2, m[k2])
    ensures k1 == k2
  {
    assert Paired(w.vpcs, m, k1) && Paired(w.vpcs, m, k2);
  }

  /** A close seen on either half of a translated TCP flow takes both halves with it. */
  lemma CloseTakesBothHalves(w: World, m: Entries, k: CtKey, flags: set<TcpFlag>)
    requires Inv(w, m) && k in m && IsOut(m[k].action) && k.t.proto == Tcp
    ensures var r := PeerKey(w.vpcs, k, m[k]);
            && (DeriveNextState(m[k].state, flags) == Closed ==>
                  Observed(w.vpcs, m, k, flags) == m - {k, r})
            && r in m
            && (DeriveNextState(m[r].state, flags) == Closed ==>
                  Observed(w.vpcs, m, r, flags) == m - {k, r})
  {
    assert Paired(w.vpcs, m, k);
    var r := PeerKey(w.vpcs, k, m[k]);
    assert r.t.proto == Tcp;
  }

  // ---- Small steps ---------------------------------------------------------

  /** Fields a key derivation reads; the rest may change freely. */
  predicate SameTranslation(a: CtVal, b: CtVal) {
    && a.newSaddr == b.newSaddr && a.newDaddr == b.newDaddr
    && a.newSport == b.newSport && a.newDport == b.newDport
    && a.nextSubnet == b.nextSubnet && a.action == b.action
  }

  lemma PeerReadsTranslationOnly(vpcs: SubnetVpcs, k: CtKey, a: CtVal, b: CtVal)
    requires SameTranslation(a, b)
    ensures PeerKey(vpcs, k, a) == PeerKey(vpcs, k, b)
  {
  }

  lemma RefreshKeepsPairing(w: World, m: Entries, k: CtKey, v: CtVal, x: CtKey)
    requires k in m && x in m && SameTranslation(m[k], v) && Paired(w.vpcs, m, x)
    ensures Paired(w.vpcs, m[k := v], x)
  {
    PeerReadsTranslationOnly(w.vpcs, k, m[k], v);
  }

  lemma RefreshKeepsInv(w: World, m: Entries, k: CtKey, v: CtVal)
    requires Inv(w, m) && k in m && SameTranslation(m[k], v) && v.state != Closed
    ensures Inv(w, m[k := v])
  {
    var m' := m[k := v];
    PeerReadsTranslationOnly(w.vpcs, k, m[k], v);
    forall x | x in m' ensures EntryOk(w, x, m'[x]) && Paired(w.vpcs, m', x) {
      assert EntryOk(w, x, m[x]) && Paired(w.vpcs, m, x);
      RefreshKeepsPairing(w, m, k, v, x);
    }
  }

  /** Overwriting a key that is not a NAT reply key orphans no forward half. */
  lemma UpsertKeepsInv(w: World, m: Entries, k: CtKey, v: CtVal)
    requires Inv(w, m) && !IsReplyKey(w, k) && EntryOk(w, k, v)
    requires Paired(w.vpcs, m[k := v], k)
    ensures Inv(w, m[k := v])
  {
    var m' := m[k := v];
    forall x | x in m' ensures Paired(w.vpcs, m', x) {
      if x != k {
        assert EntryOk(w, x, m[x]) && Paired(w.vpcs, m, x);
      }
    }
  }

  /** A fresh reply entry disturbs nothing, with or without its forward half. */
  lemma InsertKeepsInv(w: World, m: Entries, k: CtKey, v: CtVal)
    requires Inv(w, m) && k !in m && EntryOk(w, k, v) && !IsOut(v.action)
    ensures Inv(w, m[k := v])
  {
    var m' := m[k := v];
    forall x | x in m' ensures Paired(w.vpcs, m', x) {
      if x != k {
        assert Paired(w.vpcs, m, x);
      }
    }
  }

  /** Closing removes the flow's own two halves and nobody else's. */
  lemma CloseKeepsInv(w: World, m: Entries, self: CtKey)
    requires Inv(w, m) && self in m && self.t.proto != Icmp
    ensures Inv(w, m - {OppositeKey(w.vpcs, self, m[self]), self})
  {
    var opp := OppositeKey(w.vpcs, self, m[self]);
    var m' := m - {opp, self};
    assert EntryOk(w, self, m[self]) && Paired(w.vpcs, m, self);
    forall x | x in m' ensures Paired(w.vpcs, m', x) {
      assert Paired(w.vpcs, m, x) && EntryOk(w, x, m[x]);
      if IsOut(m[x].action) {
        assert IsReplyKey(w, PeerKey(w.vpcs, x, m[x]));
      }
    }
  }

  lemma ObserveKeepsInv(w: World, m: Entries, self: CtKey, flags: set<TcpFlag>)
    requires Inv(w, m)
    ensures Inv(w, ObservedIfTcp(w.vpcs, m, self, flags))
  {
    if self.t.proto == Tcp && self in m {
      var v := m[self];
      var next := DeriveNextState(v.state, flags);
      if next != Closed {
        RefreshKeepsInv(w, m, self, v.(flagsSeen := v.flagsSeen + flags, state := next));
      } else {
        CloseKeepsInv(w, m, self);
      }
    }
  }

  lemma TouchAndObserveKeepInv(w: World, m: Entries, k: CtKey, flags: set<TcpFlag>, now: nat)
    requires Inv(w, m) && k in m
    ensures Inv(w, Touched(m, k, now))
    ensures Inv(w, ObservedIfTcp(w.vpcs, Touched(m, k, now), k, flags))
  {
    assert EntryOk(w, k, m[k]);
    RefreshKeepsInv(w, m, k, m[k].(lastSeen := now));
    ObserveKeepsInv(w, Touched(m, k, now), k, flags);
  }

  // ---- Outbound ------------------------------------------------------------

  /** What the tables promise about a plan they produced. */
  ghost predicate PlanOk(w: World, p: Plan) {
    && IsOut(p.out) && p.back == Partner(p.out)
    && p.natAddr in w.natAddrs && (p.revScope == HOST_SCOPE || (p.revScope, p.natAddr) in w.serviceNat)
    && p.fwd.t.saddr !in w.natAddrs && !IsReplyKey(w, p.fwd)
    && p.podSubnet in w.vpcs && w.vpcs[p.podSubnet] == p.fwd.scope
    && p.fwd.t.WellFormed()
    && (p.out == NaptOut ==> p.peerAddr == p.fwd.t.daddr && p.peerPort == p.fwd.t.dport && p.revScope == HOST_SCOPE)
    && (p.out != NaptOut ==> p.backSaddr == p.fwd.t.daddr && p.backSport == p.fwd.t.dport && p.fwd.t.proto != Icmp)
    && (p.out == SvcNaptOut ==> p.revScope == HOST_SCOPE)
    && (p.out == SharedOut ==> p.outSubnet in w.vpcs && p.revScope == w.vpcs[p.outSubnet])
  }

  lemma DecideGivesPlanOk(w: World, env: Env, key: CtKey, podSubnet: SubnetId)
    requires EnvIn(w, env) && podSubnet in w.vpcs && w.vpcs[podSubnet] == key.scope && key.t.WellFormed()
    ensures Decide(env, key, podSubnet).Translate? ==> PlanOk(w, Decide(env, key, podSubnet).plan)
    ensures Decide(env, key, podSubnet).Translate? ==>
              Decide(env, key, podSubnet).plan.fwd == key && Decide(env, key, podSubnet).plan.podSubnet == podSubnet
    ensures Decide(env, key, podSubnet) !in {Refuse, Elsewhere} ==> key.t.saddr !in w.natAddrs && !IsReplyKey(w, key)
  {
    assert (key.scope, key.t.saddr, key.t.daddr) in env.routes ==> key.t.saddr !in w.natAddrs && !IsReplyKey(w, key);
    assert env.underlay in env.NatAddrs();
  }

  /** The two halves a plan installs are each other's opposite, for every allocated port. */
  lemma PlanHalvesMatch(w: World, p: Plan, port: Port, flags: set<TcpFlag>, now: nat)
    requires PlanOk(w, p)
    ensures PeerKey(w.vpcs, p.fwd, p.FwdVal(port, flags, now)) == p.RevKey(port)
    ensures PeerKey(w.vpcs, p.RevKey(port), p.RevVal(flags, now)) == p.fwd
  {
  }

  /** The opposite-key derivation undoes itself on every pair the data plane installs. */
  lemma OppositeKeyIsInvolution(w: World, p: Plan, port: Port, key: CtKey, b: Backend, flags: set<TcpFlag>, now: nat)
    requires PlanOk(w, p) && p.fwd.t.proto != Icmp
    ensures OppositeKey(w.vpcs, p.fwd, p.FwdVal(port, flags, now)) == p.RevKey(port)
    ensures OppositeKey(w.vpcs, p.RevKey(port), p.RevVal(flags, now)) == p.fwd
    ensures OppositeKey(w.vpcs, key, DnatFwdVal(key, b, flags, now)) == DnatRevKey(key, b)
    ensures OppositeKey(w.vpcs, DnatRevKey(key, b), DnatRevVal(key, flags, now)) == key
  {
    PlanHalvesMatch(w, p, port, flags, now);
  }

  lemma ProbeFindsFreeKey(m: Entries, capacity: nat, plan: Plan, seed: Seed, i: nat)
    requires i <= PROBE_LIMIT
    ensures var r := ProbeFrom(m, capacity, plan, seed, i);
            r.Some? ==> r.value >= 1024 && plan.RevKey(r.value) !in m && |m| < capacity
    decreases PROBE_LIMIT - i
  {
  }

  lemma InstallKeepsInv(w: World, env: Env, m: Entries, p: Plan, port: Port, flags: set<TcpFlag>, now: nat)
    requires Inv(w, m) && PlanOk(w, p) && AllocatedPort(env, m, p) == Some(port)
    ensures Inv(w, Installed(m, env.capacity, p, port, flags, now))
  {
    if Reuses(m, p) {
      TouchAndObserveKeepInv(w, m, p.fwd, flags, now);
    } else {
      ProbeFindsFreeKey(m, env.capacity, p, env.hash(p.fwd.t), 0);
      PlanHalvesMatch(w, p, port, flags, now);
      InsertKeepsInv(w, m, p.RevKey(port), p.RevVal(flags, now));
      var m1 := m[p.RevKey(port) := p.RevVal(flags, now)];
      if HasRoom(m1, env.capacity, p.fwd) {
        UpsertKeepsInv(w, m1, p.fwd, p.FwdVal(port, flags, now));
      }
    }
  }

  lemma OutboundKeepsInv(w: World, env: Env, m: Entries, p: Plan, flags: set<TcpFlag>, now: nat)
    requires Inv(w, m) && EnvIn(w, env) && PlanOk(w, p)
    ensures Inv(w, Outbound(env, m, p, flags, now).m)
  {
    var port := AllocatedPort(env, m, p);
    if port.Some? {
      InstallKeepsInv(w, env, m, p, port.value, flags, now);
      ObserveKeepsInv(w, Installed(m, env.capacity, p, port.value, flags, now), p.fwd, flags);
    }
  }

  lemma MaybeUpsertKeepsInv(w: World, m: Entries, capacity: nat, k: CtKey, v: CtVal)
    requires Inv(w, m) && !IsReplyKey(w, k) && EntryOk(w, k, v) && !IsOut(v.action)
    ensures Inv(w, Upserted(m, capacity, k, v))
  {
    if HasRoom(m, capacity, k) {
      UpsertKeepsInv(w, m, k, v);
    }
  }

  /** Neither half of a same-Vpc Service flow is a reply key, nor the one half of a host-local one. */
  lemma ServiceEntriesOk(w: World, key: CtKey, b: Backend, podSubnet: SubnetId, flags: set<TcpFlag>, now: nat)
    requires key.t.saddr !in w.natAddrs && !IsReplyKey(w, key) && podSubnet in w.vpcs && w.vpcs[podSubnet] == key.scope
    ensures EntryOk(w, key, DnatFwdVal(key, b, flags, now))
    ensures !IsReplyKey(w, DnatRevKey(key, b)) && EntryOk(w, DnatRevKey(key, b), DnatRevVal(key, flags, now))
    ensures !IsReplyKey(w, LocalRevKey(key, b))
    ensures EntryOk(w, LocalRevKey(key, b), LocalRevVal(key, podSubnet, flags, now))
  {
  }

  lemma ServiceWritesKeepInv(w: World, m: Entries, capacity: nat, key: CtKey, b: Backend, podSubnet: SubnetId,
                             flags: set<TcpFlag>, now: nat)
    requires Inv(w, m) && key.t.saddr !in w.natAddrs && !IsReplyKey(w, key)
    requires podSubnet in w.vpcs && w.vpcs[podSubnet] == key.scope
    ensures Inv(w, Upserted(m, capacity, LocalRevKey(key, b), LocalRevVal(key, podSubnet, flags, now)))
    ensures Inv(w, Upserted(Upserted(m, capacity, key, DnatFwdVal(key, b, flags, now)), capacity,
                            DnatRevKey(key, b), DnatRevVal(key, flags, now)))
  {
    ServiceEntriesOk(w, key, b, podSubnet, flags, now);
    MaybeUpsertKeepsInv(w, m, capacity, LocalRevKey(key, b), LocalRevVal(key, podSubnet, flags, now));
    MaybeUpsertKeepsInv(w, m, capacity, key, DnatFwdVal(key, b, flags, now));
    MaybeUpsertKeepsInv(w, Upserted(m, capacity, key, DnatFwdVal(key, b, flags, now)), capacity,
                        DnatRevKey(key, b), DnatRevVal(key, flags, now));
  }

  lemma RoutedOutKeepsInv(w: World, env: Env, m: Entries, key: CtKey, podSubnet: SubnetId,
                          flags: set<TcpFlag>, now: nat)
    requires Inv(w, m) && EnvIn(w, env) && key.t.WellFormed()
    requires podSubnet in w.vpcs && w.vpcs[podSubnet] == key.scope
    ensures Inv(w, RoutedOut(env, m, key, podSubnet, flags, now).m)
  {
    DecideGivesPlanOk(w, env, key, podSubnet);
    match Decide(env, key, podSubnet)
    case Translate(plan) => OutboundKeepsInv(w, env, m, plan, flags, now);
    case LocalBackend(b) => ServiceWritesKeepInv(w, m, env.capacity, key, b, podSubnet, flags, now);
    case PlainDnat(b) => ServiceWritesKeepInv(w, m, env.capacity, key, b, podSubnet, flags, now);
    case Refuse =>
    case Elsewhere =>
  }

  // ---- Whole programs ------------------------------------------------------

  predicate PacketOk(pkt: Packet) {
    match pkt
    case Flow(t, _) => t.WellFormed()
    case IcmpError(_, _, quote) => quote.WellFormed()
    case Opaque(_, _, _) => true
  }

  ghost predicate StepIn(w: World, s: Step) {
    EnvIn(w, s.env) && PacketOk(s.pkt)
  }

  /** Every step brings such tables and such a packet. */
  ghost predicate RunIn(w: World, steps: seq<Step>) {
    forall i :: 0 <= i < |steps| ==> StepIn(w, steps[i])
  }

  lemma PodEgressKeepsInv(w: World, env: Env, m: Entries, ifindex: nat, pkt: Packet, now: nat)
    requires Inv(w, m) && EnvIn(w, env) && PacketOk(pkt)
    ensures Inv(w, PodEgress(env, m, ifindex, pkt, now).m)
  {
    if ifindex in env.portSubnet && env.portSubnet[ifindex] in env.subnetVpc {
      var subnet := env.portSubnet[ifindex];
      var vpc := env.subnetVpc[subnet];
      match pkt
      case Flow(t, flags) =>
        var host, mine := CtKey(HOST_SCOPE, t), CtKey(vpc, t);
        if HasPorts(t.proto) && Hit(m, host, SvcNaptIn) {
          TouchAndObserveKeepInv(w, m, host, flags, now);
        } else if HasPorts(t.proto) && (Hit(m, mine, SharedIn) || Hit(m, mine, Dnat)) {
          TouchAndObserveKeepInv(w, m, mine, flags, now);
        } else {
          RoutedOutKeepsInv(w, env, m, mine, subnet, flags, now);
        }
      case IcmpError(_, _, quote) =>
        if CtKey(vpc, quote.Mirror()) in m {
          TouchAndObserveKeepInv(w, m, CtKey(vpc, quote.Mirror()), {}, now);
        }
      case Opaque(_, _, _) =>
    }
  }

  lemma NodeIngressKeepsInv(w: World, env: Env, m: Entries, pkt: Packet, now: nat)
    requires Inv(w, m) && EnvIn(w, env)
    ensures Inv(w, NodeIngress(env, m, pkt, now).m)
  {
    match pkt
    case Flow(t, flags) =>
      if CtKey(HOST_SCOPE, t) in m { TouchAndObserveKeepInv(w, m, CtKey(HOST_SCOPE, t), flags, now); }
    case IcmpError(_, _, quote) =>
      if CtKey(HOST_SCOPE, quote.Mirror()) in m {
        TouchAndObserveKeepInv(w, m, CtKey(HOST_SCOPE, quote.Mirror()), {}, now);
      }
    case Opaque(_, _, _) =>
  }

  lemma ApplyKeepsInv(w: World, m: Entries, s: Step)
    requires Inv(w, m) && StepIn(w, s)
    ensures Inv(w, Apply(m, s).m)
  {
    match s
    case AtPodEgress(env, ifindex, pkt, now) => PodEgressKeepsInv(w, env, m, ifindex, pkt, now);
    case AtNodeIngress(env, pkt, now) => NodeIngressKeepsInv(w, env, m, pkt, now);
    case AtVxlanIngress(env, subnet, pkt, now) =>
      if pkt.Flow? && subnet in env.subnetVpc && CtKey(env.subnetVpc[subnet], pkt.t) in m {
        TouchAndObserveKeepInv(w, m, CtKey(env.subnetVpc[subnet], pkt.t), pkt.flags, now);
      }
    case AtPodIngress(env, vpc, pkt, now) =>
      if pkt.Flow? && CtKey(vpc, pkt.t) in m {
        TouchAndObserveKeepInv(w, m, CtKey(vpc, pkt.t), pkt.flags, now);
      }
  }

  /**
   * Every run that starts from an empty table keeps the pairing, whatever the
   * routes, the gateways, the backends and the size of the table do on the way.
   */
  lemma {:induction false} RunKeepsInv(w: World, m: Entries, steps: seq<Step>)
    requires Inv(w, m) && RunIn(w, steps)
    ensures Inv(w, Run(m, steps))
    decreases steps
  {
    if |steps| != 0 {
      ApplyKeepsInv(w, m, steps[0]);
      RunKeepsInv(w, Apply(m, steps[0]).m, steps[1..]);
    }
  }
}
