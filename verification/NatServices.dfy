/**
 * Calls within a Vpc and to backends on this very node: where each packet of a
 * call goes, what its reply becomes, and exactly which other packets spoil it.
 * Both kinds write their entries over whatever is there.
 */
module NatServices {
  import opened Types
  import opened Conntrack
  import opened NatPlane
  import opened NatInvariant
  import opened NatReplies
  import opened NatRoundTrip
  import opened NatOutcomes

  // ---- One step, one entry -------------------------------------------------

  /** A packet of this tuple is led by an entry of the table, not by a route. */
  predicate Taken(m: Entries, vpc: Scope, t: Tuple) {
    HasPorts(t.proto) && !Untaken(m, vpc, t)
  }

  /** A workload's packet from a port of the Vpc, with the tables of the step. */
  predicate SentIn(s: Step, vpc: Scope) {
    s.AtPodEgress? && s.pkt.Flow? && PortIn(s.env, s.ifindex, vpc)
  }

  function VpcOf(s: Step): Scope
    requires s.AtPodEgress? && s.ifindex in s.env.portSubnet && s.env.portSubnet[s.ifindex] in s.env.subnetVpc
  {
    s.env.subnetVpc[s.env.portSubnet[s.ifindex]]
  }

  /** What a step may write. */
  function Written(m: Entries, s: Step): Entries {
    if s.AtPodEgress? && s.pkt.Flow? && s.ifindex in s.env.portSubnet &&
       s.env.portSubnet[s.ifindex] in s.env.subnetVpc && !Taken(m, VpcOf(s), s.pkt.t)
    then Writes(s.env, m, CtKey(VpcOf(s), s.pkt.t), s.env.portSubnet[s.ifindex], s.pkt.flags, s.now)
    else map[]
  }

  /** An entry that is still there was refreshed at most, unless the step wrote it. */
  ghost predicate RefreshedOrWritten(m: Entries, m': Entries, writes: Entries, k: CtKey)
    requires k in m && k in m'
  {
    SameTranslation(if k in writes then writes[k] else m[k], m'[k])
  }

  lemma OutboundRefreshesOrWrites(w: World, env: Env, m: Entries, p: Plan, flags: set<TcpFlag>, now: nat, k: CtKey)
    requires k in m && k in Outbound(env, m, p, flags, now).m
    ensures RefreshedOrWritten(m, Outbound(env, m, p, flags, now).m, PlanWrites(env, m, p, flags, now), k)
  {
    if AllocatedPort(env, m, p).Some? && !Reuses(m, p) {
      ProbeFindsFreeKey(m, env.capacity, p, env.hash(p.fwd.t), 0);
    }
  }

  lemma RoutedRefreshesOrWrites(w: World, env: Env, m: Entries, key: CtKey, subnet: SubnetId,
                                flags: set<TcpFlag>, now: nat, k: CtKey)
    requires k in m && k in RoutedOut(env, m, key, subnet, flags, now).m
    ensures RefreshedOrWritten(m, RoutedOut(env, m, key, subnet, flags, now).m,
                               Writes(env, m, key, subnet, flags, now), k)
  {
    match Decide(env, key, subnet)
    case Translate(plan) => OutboundRefreshesOrWrites(w, env, m, plan, flags, now, k);
    case LocalBackend(b) =>
    case PlainDnat(b) =>
    case Refuse =>
    case Elsewhere =>
  }

  lemma TakenRefreshes(env: Env, m: Entries, vpc: Scope, subnet: SubnetId, t: Tuple, flags: set<TcpFlag>, now: nat,
                       k: CtKey)
    requires Taken(m, vpc, t) && k in m && k in PodEgressFlow(env, m, vpc, subnet, t, flags, now).m
    ensures SameTranslation(m[k], PodEgressFlow(env, m, vpc, subnet, t, flags, now).m[k])
  {
    if Hit(m, CtKey(HOST_SCOPE, t), SvcNaptIn) {
      ObserveWritesNothing(env.subnetVpc, m, CtKey(HOST_SCOPE, t), flags, now);
    } else {
      ObserveWritesNothing(env.subnetVpc, m, CtKey(vpc, t), flags, now);
    }
  }

  lemma UntakenIsRouted(env: Env, m: Entries, vpc: Scope, subnet: SubnetId, t: Tuple, flags: set<TcpFlag>, now: nat)
    requires !Taken(m, vpc, t)
    ensures PodEgressFlow(env, m, vpc, subnet, t, flags, now) == RoutedOut(env, m, CtKey(vpc, t), subnet, flags, now)
  {
  }

  lemma StepRefreshesOrWrites(w: World, m: Entries, s: Step, k: CtKey)
    requires k in m && k in Apply(m, s).m
    ensures RefreshedOrWritten(m, Apply(m, s).m, Written(m, s), k)
  {
    if !s.AtPodEgress? {
      ReplyHookWritesNothing(m, s);
    } else if s.pkt.Flow? && s.ifindex in s.env.portSubnet && s.env.portSubnet[s.ifindex] in s.env.subnetVpc {
      var subnet := s.env.portSubnet[s.ifindex];
      if Taken(m, VpcOf(s), s.pkt.t) {
        TakenRefreshes(s.env, m, VpcOf(s), subnet, s.pkt.t, s.pkt.flags, s.now, k);
      } else {
        UntakenIsRouted(s.env, m, VpcOf(s), subnet, s.pkt.t, s.pkt.flags, s.now);
        RoutedRefreshesOrWrites(w, s.env, m, CtKey(VpcOf(s), s.pkt.t), subnet, s.pkt.flags, s.now, k);
      }
    }
  }

  /** A closing TCP packet. */
  predicate Closing(s: Step) {
    s.pkt.Flow? && s.pkt.t.proto == Tcp && (Rst in s.pkt.flags || Fin in s.pkt.flags)
  }

  /** The packet has the tuple of an entry whose close would take `k`: `k` itself or one whose other half it is. */
  ghost predicate MayClose(vpcs: SubnetVpcs, m: Entries, s: Step, k: CtKey) {
    Closing(s) && exists scope :: MeetsPair(vpcs, m, CtKey(scope, s.pkt.t), k)
  }

  predicate MeetsPair(vpcs: SubnetVpcs, m: Entries, self: CtKey, k: CtKey) {
    self in m && (self == k || OppositeKey(vpcs, self, m[self]) == k)
  }

  lemma ObserveTakesItsPair(w: World, m: Entries, self: CtKey, flags: set<TcpFlag>, now: nat, k: CtKey)
    requires Inv(w, m) && k in m
    ensures self in m && k !in ObservedIfTcp(w.vpcs, Touched(m, self, now), self, flags) ==>
              MeetsPair(w.vpcs, m, self, k) && self.t.proto == Tcp && (Rst in flags || Fin in flags)
    ensures k !in ObservedIfTcp(w.vpcs, m, self, flags) ==>
              MeetsPair(w.vpcs, m, self, k) && self.t.proto == Tcp && (Rst in flags || Fin in flags)
  {
    assert self in m ==> EntryOk(w, self, m[self]);
  }

  lemma OutboundTakesItsPair(w: World, env: Env, m: Entries, p: Plan, flags: set<TcpFlag>, now: nat, k: CtKey)
    requires Inv(w, m) && PlanOk(w, p) && env.subnetVpc == w.vpcs && k in m && k !in Outbound(env, m, p, flags, now).m
    ensures MeetsPair(w.vpcs, m, p.fwd, k) && p.fwd.t.proto == Tcp && (Rst in flags || Fin in flags)
  {
    var port := AllocatedPort(env, m, p).value;
    var m1 := Installed(m, env.capacity, p, port, flags, now);
    if !Reuses(m, p) {
      ProbeFindsFreeKey(m, env.capacity, p, env.hash(p.fwd.t), 0);
      PlanHalvesMatch(w, p, port, flags, now);
    }
    InstallKeepsInv(w, env, m, p, port, flags, now);
    ObserveTakesItsPair(w, m1, p.fwd, flags, now, k);
  }

  lemma PodEgressTakesItsPair(w: World, env: Env, m: Entries, vpc: Scope, subnet: SubnetId, t: Tuple,
                              flags: set<TcpFlag>, now: nat, k: CtKey)
    requires Inv(w, m) && EnvIn(w, env) && t.WellFormed() && subnet in w.vpcs && w.vpcs[subnet] == vpc && k in m
    requires k !in PodEgressFlow(env, m, vpc, subnet, t, flags, now).m
    ensures t.proto == Tcp && (Rst in flags || Fin in flags)
    ensures MeetsPair(w.vpcs, m, CtKey(HOST_SCOPE, t), k) || MeetsPair(w.vpcs, m, CtKey(vpc, t), k)
  {
    var host, mine := CtKey(HOST_SCOPE, t), CtKey(vpc, t);
    if HasPorts(t.proto) && Hit(m, host, SvcNaptIn) {
      ObserveTakesItsPair(w, m, host, flags, now, k);
    } else if HasPorts(t.proto) && (Hit(m, mine, SharedIn) || Hit(m, mine, Dnat)) {
      ObserveTakesItsPair(w, m, mine, flags, now, k);
    } else {
      DecideGivesPlanOk(w, env, mine, subnet);
      OutboundTakesItsPair(w, env, m, Decide(env, mine, subnet).plan, flags, now, k);
    }
  }

  /** Only a close takes an entry out of the table. */
  lemma OnlyClosesRemove(w: World, m: Entries, s: Step, k: CtKey)
    requires Inv(w, m) && StepIn(w, s) && k in m && k !in Apply(m, s).m
    ensures MayClose(w.vpcs, m, s, k)
  {
    if s.pkt.Flow? {
      match s
      case AtPodEgress(env, ifindex, pkt, now) =>
        var subnet := env.portSubnet[ifindex];
        PodEgressTakesItsPair(w, env, m, env.subnetVpc[subnet], subnet, pkt.t, pkt.flags, now, k);
      case AtNodeIngress(env, pkt, now) =>
        ObserveTakesItsPair(w, m, CtKey(HOST_SCOPE, pkt.t), pkt.flags, now, k);
      case AtVxlanIngress(env, subnet, pkt, now) =>
        ObserveTakesItsPair(w, m, CtKey(env.subnetVpc[subnet], pkt.t), pkt.flags, now, k);
      case AtPodIngress(env, vpc, pkt, now) =>
        ObserveTakesItsPair(w, m, CtKey(vpc, pkt.t), pkt.flags, now, k);
    }
  }

  // ---- Calls within the Vpc ------------------------------------------------

  /** Under which key the reply to a call is looked up. */
  function AnswerKey(scope: Scope, t: Tuple, b: Backend): CtKey {
    CtKey(scope, Towards(t, b).Mirror())
  }

  /** The table leads further packets of the call to the backend. */
  predicate Leads(m: Entries, vpc: Scope, t: Tuple, b: Backend) {
    var k := CtKey(vpc, t);
    k in m && m[k].action == Dnat && m[k].newDaddr == b.ip && m[k].newDport == b.port
  }

  /** The table turns the backend's reply into the Service's. */
  predicate Restores(m: Entries, vpc: Scope, t: Tuple, b: Backend) {
    var r := AnswerKey(vpc, t, b);
    r in m && m[r].action == Snat && m[r].newSaddr == t.daddr && m[r].newSport == t.dport
  }

  lemma TwoUpserts(m: Entries, capacity: nat, k: CtKey, v: CtVal, r: CtKey, u: CtVal)
    ensures var m' := Upserted(Upserted(m, capacity, k, v), capacity, r, u);
            && (k != r && (k in m || |m| < capacity) ==> k in m' && m'[k] == v)
            && (k != r && k !in m && |m| >= capacity ==> k !in m')
            && (r in m || |m| + (if k in m then 0 else 1) < capacity || (k == r && |m| < capacity) ==>
                  r in m' && m'[r] == u)
            && (r !in m && !(|m| + (if k in m then 0 else 1) < capacity || (k == r && |m| < capacity)) ==> r !in m')
  {
    var m1 := Upserted(m, capacity, k, v);
    assert k !in m && |m| < capacity ==> |m1| == |m| + 1;
    assert k in m ==> m1.Keys == m.Keys;
  }

  /** There is room for one entry, and for a second one behind it. */
  predicate RoomFor(m: Entries, capacity: nat, k: CtKey) {
    k in m || |m| < capacity
  }

  predicate RoomForBoth(m: Entries, capacity: nat, k: CtKey, r: CtKey) {
    r in m || |m| + (if k in m then 0 else 1) < capacity || (k == r && |m| < capacity)
  }

  /**
   * The first packet of a call goes to the backend with its source untouched,
   * and is remembered both ways exactly as far as the table has room.
   */
  lemma CallIsRemembered(env: Env, m: Entries, ifindex: nat, vpc: Scope, t: Tuple, flags: set<TcpFlag>, now: nat,
                         b: Backend)
    requires PortIn(env, ifindex, vpc) && Untaken(m, vpc, t) && BackendOf(env, vpc, t) == Some(b) && OwnBackend(b, vpc)
    ensures var k, r := CtKey(vpc, t), AnswerKey(vpc, t, b);
            var o := PodEgress(env, m, ifindex, Flow(t, flags), now);
            && o.verdict == Forward(Flow(Towards(t, b), flags))
            && (Leads(o.m, vpc, t, b) <==> k != r && RoomFor(m, env.capacity, k))
            && (Restores(o.m, vpc, t, b) <==> RoomForBoth(m, env.capacity, k, r))
  {
    UntakenIsRouted(env, m, vpc, env.portSubnet[ifindex], t, flags, now);
    var k := CtKey(vpc, t);
    TwoUpserts(m, env.capacity, k, DnatFwdVal(k, b, flags, now), AnswerKey(vpc, t, b), DnatRevVal(k, flags, now));
  }

  /** A later packet of the call goes to the same backend, whatever the tables say now, unless it is a host reply. */
  lemma LaterPacketsFollow(env: Env, m: Entries, ifindex: nat, vpc: Scope, t: Tuple, flags: set<TcpFlag>, now: nat,
                           b: Backend)
    requires PortIn(env, ifindex, vpc) && HasPorts(t.proto) && Leads(m, vpc, t, b)
    ensures PodEgress(env, m, ifindex, Flow(t, flags), now).verdict == Forward(Flow(Towards(t, b), flags)) <==>
            !Hit(m, CtKey(HOST_SCOPE, t), SvcNaptIn)
  {
  }

  /** The backend's reply reaches the caller as the Service's: the exact mirror of what the caller sent. */
  lemma ReplyIsRestored(env: Env, m: Entries, vpc: Scope, t: Tuple, flags: set<TcpFlag>, now: nat, b: Backend)
    requires HasPorts(t.proto) && Restores(m, vpc, t, b)
    ensures PodIngress(env, m, vpc, Flow(Towards(t, b).Mirror(), flags), now).verdict ==
            Forward(Flow(t.Mirror(), flags))
  {
  }

  /** Another call of the same socket that the same backend answers. */
  predicate SameSocket(s: Step, m: Entries, vpc: Scope, t: Tuple, b: Backend) {
    SentIn(s, vpc) && !Taken(m, vpc, s.pkt.t) &&
    var c := BackendOf(s.env, vpc, s.pkt.t);
    c.Some? && OwnBackend(c.value, vpc) && Towards(s.pkt.t, c.value) == Towards(t, b)
  }

  /** A call from the Service's own address and port, which the caller's socket answers. */
  predicate ReverseCall(s: Step, m: Entries, vpc: Scope, t: Tuple) {
    SentIn(s, vpc) && !Taken(m, vpc, s.pkt.t) &&
    var c := BackendOf(s.env, vpc, s.pkt.t);
    c.Some? && OwnBackend(c.value, vpc) && Towards(s.pkt.t, c.value).Mirror() == t
  }

  /** The backend's reply itself has a route that forwards it translated. */
  predicate ReplyIsRouted(s: Step, m: Entries, vpc: Scope, t: Tuple, b: Backend) {
    SentIn(s, vpc) && s.pkt.t == Towards(t, b).Mirror() && Apply(m, s).verdict.Forward?
  }

  predicate Clobbers(s: Step, m: Entries, vpc: Scope, t: Tuple, b: Backend) {
    SameSocket(s, m, vpc, t, b) || ReverseCall(s, m, vpc, t) || ReplyIsRouted(s, m, vpc, t, b)
  }

  /** What a route writes over an entry that is there: its own key, or the answer key of a call. */
  lemma RoutedOverwrites(w: World, env: Env, m: Entries, vpc: Scope, subnet: SubnetId, u: Tuple, flags: set<TcpFlag>,
                         now: nat,
                         k: CtKey)
    requires EnvIn(w, env) && subnet in w.vpcs && w.vpcs[subnet] == vpc && u.WellFormed() && k in m
    requires k.scope != HOST_SCOPE
    ensures var c := BackendOf(env, vpc, u);
            var writes := Writes(env, m, CtKey(vpc, u), subnet, flags, now);
            if c.Some? && OwnBackend(c.value, vpc) && k == AnswerKey(vpc, u, c.value) then
              k in writes && writes[k].action == Snat && writes[k].newSaddr == u.daddr && writes[k].newSport == u.dport
            else
              && (k in writes <==>
                    && k == CtKey(vpc, u) && !Reused(env, m, vpc, subnet, u)
                    && RoutedOut(env, m, CtKey(vpc, u), subnet, flags, now).verdict.Forward?)
              && (k in writes ==> writes[k].action == Dnat || IsOut(writes[k].action))
  {
    DecideGivesPlanOk(w, env, CtKey(vpc, u), subnet);
    match Decide(env, CtKey(vpc, u), subnet)
    case Translate(plan) => ProbeFindsFreeKey(m, env.capacity, plan, env.hash(plan.fwd.t), 0);
    case LocalBackend(b) =>
    case PlainDnat(b) =>
    case Refuse =>
    case Elsewhere =>
  }

  /** The packet finds an allocation of its own in use. */
  predicate Reused(env: Env, m: Entries, vpc: Scope, subnet: SubnetId, u: Tuple) {
    var d := Decide(env, CtKey(vpc, u), subnet);
    d.Translate? && Reuses(m, d.plan)
  }

  lemma OverwrittenBySent(w: World, m: Entries, s: Step, vpc: Scope, k: CtKey)
    requires StepIn(w, s) && k in m && k.scope == vpc != HOST_SCOPE && k in Written(m, s)
    ensures SentIn(s, vpc) && !Taken(m, vpc, s.pkt.t)
  {
    RoutedOverwrites(w, s.env, m, VpcOf(s), s.env.portSubnet[s.ifindex], s.pkt.t, s.pkt.flags, s.now, k);
  }

  /** A step writes over the forward entry of a call only as a call the other way round. */
  lemma ForwardEntryOverwritten(w: World, m: Entries, s: Step, vpc: Scope, t: Tuple, b: Backend)
    requires StepIn(w, s) && vpc != HOST_SCOPE && HasPorts(t.proto) && Leads(m, vpc, t, b)
    ensures CtKey(vpc, t) in Written(m, s) <==> ReverseCall(s, m, vpc, t)
    ensures CtKey(vpc, t) in Written(m, s) ==> Written(m, s)[CtKey(vpc, t)].action == Snat
  {
    var k := CtKey(vpc, t);
    if k in Written(m, s) {
      OverwrittenBySent(w, m, s, vpc, k);
    }
    if SentIn(s, vpc) && !Taken(m, vpc, s.pkt.t) {
      RoutedOverwrites(w, s.env, m, vpc, s.env.portSubnet[s.ifindex], s.pkt.t, s.pkt.flags, s.now, k);
      assert s.pkt.t != t;
    }
  }

  /** Over the answer entry, only as another call of the same socket or by routing the reply itself. */
  lemma AnswerEntryOverwritten(w: World, m: Entries, s: Step, vpc: Scope, t: Tuple, b: Backend)
    requires StepIn(w, s) && vpc != HOST_SCOPE && HasPorts(t.proto) && Leads(m, vpc, t, b) && Restores(m, vpc, t, b)
    ensures var r := AnswerKey(vpc, t, b);
            && (r in Written(m, s) <==> SameSocket(s, m, vpc, t, b) || ReplyIsRouted(s, m, vpc, t, b))
            && (r in Written(m, s) ==>
                  var v := Written(m, s)[r]; !(v.action == Snat && v.newSaddr == t.daddr && v.newSport == t.dport))
  {
    var r := AnswerKey(vpc, t, b);
    if r in Written(m, s) {
      OverwrittenBySent(w, m, s, vpc, r);
    }
    if SentIn(s, vpc) {
      var u, subnet := s.pkt.t, s.env.portSubnet[s.ifindex];
      assert Towards(u, b).Mirror().Mirror() == Towards(u, b);
      if !Taken(m, vpc, u) {
        UntakenIsRouted(s.env, m, vpc, subnet, u, s.pkt.flags, s.now);
        RoutedOverwrites(w, s.env, m, vpc, subnet, u, s.pkt.flags, s.now, r);
        assert u != t;
      }
    }
  }

  /**
   * Exactly when another packet spoils a call. A step that is no close leaves
   * both entries of the call as they are, unless it is another call of the same
   * socket with the same backend, a call the other way round, or the backend's
   * reply with a translating route of its own; and each of those spoils it.
   */
  lemma CallStandsUnlessClobbered(w: World, m: Entries, s: Step, vpc: Scope, t: Tuple, b: Backend)
    requires Inv(w, m) && StepIn(w, s) && !Closing(s) && vpc != HOST_SCOPE && HasPorts(t.proto)
    requires Leads(m, vpc, t, b) && Restores(m, vpc, t, b)
    ensures Leads(Apply(m, s).m, vpc, t, b) && Restores(Apply(m, s).m, vpc, t, b) <==> !Clobbers(s, m, vpc, t, b)
  {
    var k, r, m' := CtKey(vpc, t), AnswerKey(vpc, t, b), Apply(m, s).m;
    if k !in m' {
      OnlyClosesRemove(w, m, s, k);
    }
    if r !in m' {
      OnlyClosesRemove(w, m, s, r);
    }
    StepRefreshesOrWrites(w, m, s, k);
    StepRefreshesOrWrites(w, m, s, r);
    ForwardEntryOverwritten(w, m, s, vpc, t, b);
    AnswerEntryOverwritten(w, m, s, vpc, t, b);
  }

  /** No step of the run spoils the call, nor closes an entry that would take one of its two with it. */
  ghost predicate Undisturbed(vpcs: SubnetVpcs, m: Entries, steps: seq<Step>, vpc: Scope, t: Tuple, b: Backend)
    decreases steps
  {
    |steps| == 0 ||
    (!Clobbers(steps[0], m, vpc, t, b) &&
     !MayClose(vpcs, m, steps[0], CtKey(vpc, t)) && !MayClose(vpcs, m, steps[0], AnswerKey(vpc, t, b)) &&
     Undisturbed(vpcs, Apply(m, steps[0]).m, steps[1..], vpc, t, b))
  }

  lemma UndisturbedStepKeepsCall(w: World, m: Entries, s: Step, vpc: Scope, t: Tuple, b: Backend)
    requires Inv(w, m) && StepIn(w, s) && vpc != HOST_SCOPE && HasPorts(t.proto)
    requires Leads(m, vpc, t, b) && Restores(m, vpc, t, b) && !Clobbers(s, m, vpc, t, b)
    requires !MayClose(w.vpcs, m, s, CtKey(vpc, t)) && !MayClose(w.vpcs, m, s, AnswerKey(vpc, t, b))
    ensures Leads(Apply(m, s).m, vpc, t, b) && Restores(Apply(m, s).m, vpc, t, b)
  {
    var k, r, m' := CtKey(vpc, t), AnswerKey(vpc, t, b), Apply(m, s).m;
    if k !in m' {
      OnlyClosesRemove(w, m, s, k);
    }
    if r !in m' {
      OnlyClosesRemove(w, m, s, r);
    }
    StepRefreshesOrWrites(w, m, s, k);
    StepRefreshesOrWrites(w, m, s, r);
    ForwardEntryOverwritten(w, m, s, vpc, t, b);
    AnswerEntryOverwritten(w, m, s, vpc, t, b);
  }

  lemma {:induction false} UndisturbedRunKeepsCall(w: World, m: Entries, steps: seq<Step>, vpc: Scope, t: Tuple,
                                                   b: Backend)
    requires Inv(w, m) && RunIn(w, steps) && vpc != HOST_SCOPE && HasPorts(t.proto)
    requires Leads(m, vpc, t, b) && Restores(m, vpc, t, b) && Undisturbed(w.vpcs, m, steps, vpc, t, b)
    ensures Leads(Run(m, steps), vpc, t, b) && Restores(Run(m, steps), vpc, t, b)
    decreases steps
  {
    if |steps| != 0 {
      UndisturbedStepKeepsCall(w, m, steps[0], vpc, t, b);
      ApplyKeepsInv(w, m, steps[0]);
      UndisturbedRunKeepsCall(w, Apply(m, steps[0]).m, steps[1..], vpc, t, b);
    }
  }

  /**
   * Round trip of a call within the Vpc, after any run and through any run that
   * does not disturb it: out to the backend, further packets to the same place,
   * and the reply back as the exact mirror of what the caller sent.
   */
  lemma CallRoundTrip(w: World, env: Env, before: seq<Step>, ifindex: nat, vpc: Scope, t: Tuple, flags: set<TcpFlag>,
                      now: nat,
                      b: Backend, between: seq<Step>, later: Env, port: nat, flags': set<TcpFlag>, now': nat)
    requires RunIn(w, before) && EnvIn(w, env) && RunIn(w, between) && t.WellFormed()
    requires PortIn(env, ifindex, vpc) && BackendOf(env, vpc, t) == Some(b) && OwnBackend(b, vpc)
    requires Untaken(Run(map[], before), vpc, t)
    ensures var m := Run(map[], before);
            var sent := PodEgress(env, m, ifindex, Flow(t, flags), now);
            && sent.verdict == Forward(Flow(Towards(t, b), flags))
            && (Leads(sent.m, vpc, t, b) && Restores(sent.m, vpc, t, b) &&
                Undisturbed(w.vpcs, sent.m, between, vpc, t, b) ==>
                  var m' := Run(sent.m, between);
                  && PodIngress(later, m', vpc, Flow(Towards(t, b).Mirror(), flags'), now').verdict ==
                     Forward(Flow(t.Mirror(), flags'))
                  && (PortIn(later, port, vpc) && !Hit(m', CtKey(HOST_SCOPE, t), SvcNaptIn) ==>
                        PodEgress(later, m', port, Flow(t, flags'), now').verdict ==
                        Forward(Flow(Towards(t, b), flags'))))
  {
    var m := Run(map[], before);
    var s := AtPodEgress(env, ifindex, Flow(t, flags), now);
    var sent := Apply(m, s);
    RunKeepsInv(w, map[], before);
    ApplyKeepsInv(w, m, s);
    CallIsRemembered(env, m, ifindex, vpc, t, flags, now, b);
    if Leads(sent.m, vpc, t, b) && Restores(sent.m, vpc, t, b) && Undisturbed(w.vpcs, sent.m, between, vpc, t, b) {
      UndisturbedRunKeepsCall(w, sent.m, between, vpc, t, b);
      ReplyIsRestored(later, Run(sent.m, between), vpc, t, flags', now', b);
      if PortIn(later, port, vpc) {
        LaterPacketsFollow(later, Run(sent.m, between), port, vpc, t, flags', now', b);
      }
    }
  }

  /** And how it spoils it: the reply reaches the socket as the other Service's. */
  lemma SameSocketTakesTheReply(w: World, m: Entries, s: Step, vpc: Scope, t: Tuple, b: Backend,
                                env: Env, flags: set<TcpFlag>, now: nat)
    requires StepIn(w, s) && HasPorts(t.proto) && Restores(m, vpc, t, b) && SameSocket(s, m, vpc, t, b)
    ensures PodIngress(env, Apply(m, s).m, vpc, Flow(Towards(t, b).Mirror(), flags), now).verdict ==
            Forward(Flow(s.pkt.t.Mirror(), flags))
  {
    var c := BackendOf(s.env, vpc, s.pkt.t).value;
    CallIsRemembered(s.env, m, s.ifindex, vpc, s.pkt.t, s.pkt.flags, s.now, c);
    ReplyIsRestored(env, Apply(m, s).m, vpc, s.pkt.t, flags, now, c);
  }

  const TO_FIRST: Tuple := Tuple(1, 2, 1000, 53, Udp)
  const TO_SECOND: Tuple := Tuple(1, 3, 1000, 53, Udp)

  /** Two Services of Vpc 5 at addresses 2 and 3 with one backend, and a workload at address 1 behind port 10. */
  function TwoServices(hash: Tuple -> Seed): Env {
    var b := Backend(PodBackend, 4, 8080, 1, 5);
    Env(10, map[10 := 1], map[1 := 5], map[(5, 1, 2) := Service, (5, 1, 3) := Service], map[],
        map[CtKey(5, TO_FIRST) := b, CtKey(5, TO_SECOND) := b], 0, map[], {}, {}, hash)
  }

  lemma FirstCallLeavesTheSecond(hash: Tuple -> Seed)
    ensures Untaken(PodEgress(TwoServices(hash), map[], 10, Flow(TO_FIRST, {}), 0).m, 5, TO_SECOND)
  {
    UntakenIsRouted(TwoServices(hash), map[], 5, 1, TO_FIRST, {}, 0);
    assert Decide(TwoServices(hash), CtKey(5, TO_FIRST), 1).PlainDnat?;
  }

  lemma SecondCallTakesTheAnswer(hash: Tuple -> Seed, m: Entries)
    requires Untaken(m, 5, TO_SECOND) && |m| < 9
    ensures var env := TwoServices(hash);
            var m' := PodEgress(env, m, 10, Flow(TO_SECOND, {}), 1).m;
            PodIngress(env, m', 5, Flow(Tuple(4, 1, 8080, 1000, Udp), {}), 2).verdict ==
            Forward(Flow(TO_SECOND.Mirror(), {}))
  {
    var env, b := TwoServices(hash), Backend(PodBackend, 4, 8080, 1, 5);
    CallIsRemembered(env, m, 10, 5, TO_SECOND, {}, 1, b);
    ReplyIsRestored(env, PodEgress(env, m, 10, Flow(TO_SECOND, {}), 1).m, 5, TO_SECOND, {}, 2, b);
  }

  lemma FirstCallWritesTwo(hash: Tuple -> Seed)
    ensures |PodEgress(TwoServices(hash), map[], 10, Flow(TO_FIRST, {}), 0).m| <= 2
  {
    UntakenIsRouted(TwoServices(hash), map[], 5, 1, TO_FIRST, {}, 0);
    var d := Decide(TwoServices(hash), CtKey(5, TO_FIRST), 1);
    assert d.PlainDnat?;
    var empty: Entries := map[];
    var m1 := Upserted(empty, 10, CtKey(5, TO_FIRST), DnatFwdVal(CtKey(5, TO_FIRST), d.backend, {}, 0));
    assert |m1| <= 1;
  }

  /**
   * The run that shows it: one socket calls both Services, and the backend's
   * answer to the first call comes back as the second Service's.
   */
  lemma OneSocketTwoServices(hash: Tuple -> Seed)
    ensures var env := TwoServices(hash);
            var m := Run(map[], [AtPodEgress(env, 10, Flow(TO_FIRST, {}), 0),
                                 AtPodEgress(env, 10, Flow(TO_SECOND, {}), 1)]);
            PodIngress(env, m, 5, Flow(Tuple(4, 1, 8080, 1000, Udp), {}), 2).verdict ==
            Forward(Flow(TO_SECOND.Mirror(), {}))
  {
    var env := TwoServices(hash);
    var s1, s2 := AtPodEgress(env, 10, Flow(TO_FIRST, {}), 0), AtPodEgress(env, 10, Flow(TO_SECOND, {}), 1);
    var m1 := Apply(map[], s1).m;
    assert [s1, s2][1..] == [s2] && [s2][1..] == [];
    assert Run(m1, [s2]) == Run(Apply(m1, s2).m, []);
    FirstCallLeavesTheSecond(hash);
    FirstCallWritesTwo(hash);
    SecondCallTakesTheAnswer(hash, m1);
  }

  // ---- Calls to this very node ---------------------------------------------

  /** The table hands the backend's reply to the caller's Subnet as the Service's. */
  predicate HandsBack(m: Entries, t: Tuple, b: Backend, subnet: SubnetId) {
    var r := AnswerKey(HOST_SCOPE, t, b);
    && r in m && m[r].action == SvcNaptIn && m[r].nextSubnet == subnet
    && m[r].newSaddr == t.daddr && m[r].newSport == t.dport && m[r].newDaddr == t.saddr && m[r].newDport == t.sport
  }

  /** A call to a backend on this node goes to the kernel with its source untouched, remembered if there is room. */
  lemma LocalCallIsRemembered(env: Env, m: Entries, ifindex: nat, vpc: Scope, t: Tuple, flags: set<TcpFlag>, now: nat,
                              b: Backend)
    requires PortIn(env, ifindex, vpc) && Untaken(m, vpc, t) && BackendOf(env, vpc, t) == Some(b) && b.kind == HostLocal
    ensures var o := PodEgress(env, m, ifindex, Flow(t, flags), now);
            && o.verdict == ToKernel(Flow(Towards(t, b), flags))
            && (HandsBack(o.m, t, b, env.portSubnet[ifindex]) <==>
                RoomFor(m, env.capacity, AnswerKey(HOST_SCOPE, t, b)))
  {
    UntakenIsRouted(env, m, vpc, env.portSubnet[ifindex], t, flags, now);
  }

  /** The reply, from whichever port it comes, is the exact mirror, handed to the caller's Subnet or dropped. */
  lemma LocalReplyIsHandedBack(env: Env, m: Entries, ifindex: nat, vpc: Scope, t: Tuple, flags: set<TcpFlag>, now: nat,
                               b: Backend, subnet: SubnetId)
    requires PortIn(env, ifindex, vpc) && HasPorts(t.proto) && HandsBack(m, t, b, subnet)
    ensures PodEgress(env, m, ifindex, Flow(Towards(t, b).Mirror(), flags), now).verdict ==
            Handed(env, subnet, t.saddr, Flow(t.Mirror(), flags))
  {
  }

  /** Another call to the same backend from a socket that looks the same, in any Vpc. */
  predicate LooksAlike(s: Step, m: Entries, t: Tuple, b: Backend, subnet: SubnetId) {
    && s.AtPodEgress? && s.pkt.Flow? && s.ifindex in s.env.portSubnet && s.env.portSubnet[s.ifindex] in s.env.subnetVpc
    && !Taken(m, VpcOf(s), s.pkt.t)
    && var c := BackendOf(s.env, VpcOf(s), s.pkt.t);
    && c.Some? && c.value.kind == HostLocal && Towards(s.pkt.t, c.value) == Towards(t, b)
    && (s.pkt.t != t || s.env.portSubnet[s.ifindex] != subnet)
  }

  lemma LocalOverwrites(w: World, env: Env, m: Entries, vpc: Scope, subnet: SubnetId, u: Tuple, flags: set<TcpFlag>,
                        now: nat,
                        k: CtKey)
    requires EnvIn(w, env) && subnet in w.vpcs && w.vpcs[subnet] == vpc && u.WellFormed() && k in m
    requires k.scope == HOST_SCOPE
    ensures var c := BackendOf(env, vpc, u);
            var writes := Writes(env, m, CtKey(vpc, u), subnet, flags, now);
            && (k in writes <==> c.Some? && c.value.kind == HostLocal && k == AnswerKey(HOST_SCOPE, u, c.value))
            && (k in writes ==> writes[k] == LocalRevVal(CtKey(vpc, u), subnet, flags, now))
  {
    DecideGivesPlanOk(w, env, CtKey(vpc, u), subnet);
    match Decide(env, CtKey(vpc, u), subnet)
    case Translate(plan) => ProbeFindsFreeKey(m, env.capacity, plan, env.hash(plan.fwd.t), 0);
    case LocalBackend(b) =>
    case PlainDnat(b) =>
    case Refuse =>
    case Elsewhere =>
  }

  /** Written over, the entry still hands the reply back exactly if the packet is the call's own. */
  lemma LocalEntryOverwritten(w: World, m: Entries, s: Step, t: Tuple, b: Backend, subnet: SubnetId)
    requires StepIn(w, s) && HandsBack(m, t, b, subnet)
    ensures var r := AnswerKey(HOST_SCOPE, t, b);
            && (LooksAlike(s, m, t, b, subnet) ==> r in Written(m, s))
            && (r in Written(m, s) ==>
                  var v := Written(m, s)[r];
                  && v.action == SvcNaptIn && v.newDaddr == t.saddr && v.newDport == t.sport
                  && (v.newSaddr == t.daddr && v.newSport == t.dport && v.nextSubnet == subnet <==>
                      !LooksAlike(s, m, t, b, subnet)))
  {
    if s.AtPodEgress? && s.pkt.Flow? && s.ifindex in s.env.portSubnet &&
       s.env.portSubnet[s.ifindex] in s.env.subnetVpc {
      LocalOverwrites(w, s.env, m, VpcOf(s), s.env.portSubnet[s.ifindex], s.pkt.t, s.pkt.flags, s.now,
                      AnswerKey(HOST_SCOPE, t, b));
      assert Towards(t, b).Mirror().Mirror() == Towards(t, b);
    }
  }

  /**
   * Exactly when another packet spoils such a call: only one from a socket that
   * looks the same, be it of another Vpc, to another Service or from another
   * Subnet, that the same backend answers.
   */
  lemma LocalCallStandsUnlessLookalike(w: World, m: Entries, s: Step, t: Tuple, b: Backend, subnet: SubnetId)
    requires Inv(w, m) && StepIn(w, s) && !Closing(s) && HandsBack(m, t, b, subnet)
    ensures HandsBack(Apply(m, s).m, t, b, subnet) <==> !LooksAlike(s, m, t, b, subnet)
  {
    var r := AnswerKey(HOST_SCOPE, t, b);
    if r !in Apply(m, s).m {
      OnlyClosesRemove(w, m, s, r);
    }
    StepRefreshesOrWrites(w, m, s, r);
    LocalEntryOverwritten(w, m, s, t, b, subnet);
  }

  /** No step of the run comes from a lookalike, nor closes an entry that would take the call's. */
  ghost predicate LocallyUndisturbed(vpcs: SubnetVpcs, m: Entries, steps: seq<Step>, t: Tuple, b: Backend,
                                     subnet: SubnetId)
    decreases steps
  {
    |steps| == 0 ||
    (!LooksAlike(steps[0], m, t, b, subnet) && !MayClose(vpcs, m, steps[0], AnswerKey(HOST_SCOPE, t, b)) &&
     LocallyUndisturbed(vpcs, Apply(m, steps[0]).m, steps[1..], t, b, subnet))
  }

  lemma {:induction false} UndisturbedRunKeepsLocalCall(w: World, m: Entries, steps: seq<Step>, t: Tuple, b: Backend,
                                                        subnet: SubnetId)
    requires Inv(w, m) && RunIn(w, steps) && HandsBack(m, t, b, subnet)
    requires LocallyUndisturbed(w.vpcs, m, steps, t, b, subnet)
    ensures HandsBack(Run(m, steps), t, b, subnet)
    decreases steps
  {
    if |steps| != 0 {
      var r, s := AnswerKey(HOST_SCOPE, t, b), steps[0];
      if r !in Apply(m, s).m {
        OnlyClosesRemove(w, m, s, r);
      }
      StepRefreshesOrWrites(w, m, s, r);
      LocalEntryOverwritten(w, m, s, t, b, subnet);
      ApplyKeepsInv(w, m, s);
      UndisturbedRunKeepsLocalCall(w, Apply(m, s).m, steps[1..], t, b, subnet);
    }
  }

  /** Round trip of a call to this very node, through any run that does not disturb it. */
  lemma LocalCallRoundTrip(w: World, env: Env, before: seq<Step>, ifindex: nat, vpc: Scope, t: Tuple,
                           flags: set<TcpFlag>,
                           now: nat, b: Backend, between: seq<Step>, later: Env, port: nat, vpc': Scope,
                           flags': set<TcpFlag>, now': nat)
    requires RunIn(w, before) && EnvIn(w, env) && RunIn(w, between) && t.WellFormed()
    requires PortIn(env, ifindex, vpc) && BackendOf(env, vpc, t) == Some(b) && b.kind == HostLocal
    requires Untaken(Run(map[], before), vpc, t) && PortIn(later, port, vpc')
    ensures var subnet := env.portSubnet[ifindex];
            var sent := PodEgress(env, Run(map[], before), ifindex, Flow(t, flags), now);
            && sent.verdict == ToKernel(Flow(Towards(t, b), flags))
            && (HandsBack(sent.m, t, b, subnet) && LocallyUndisturbed(w.vpcs, sent.m, between, t, b, subnet) ==>
                  PodEgress(later, Run(sent.m, between), port, Flow(Towards(t, b).Mirror(), flags'), now').verdict ==
                  Handed(later, subnet, t.saddr, Flow(t.Mirror(), flags')))
  {
    var m, subnet := Run(map[], before), env.portSubnet[ifindex];
    var s := AtPodEgress(env, ifindex, Flow(t, flags), now);
    RunKeepsInv(w, map[], before);
    ApplyKeepsInv(w, m, s);
    LocalCallIsRemembered(env, m, ifindex, vpc, t, flags, now, b);
    if HandsBack(Apply(m, s).m, t, b, subnet) && LocallyUndisturbed(w.vpcs, Apply(m, s).m, between, t, b, subnet) {
      UndisturbedRunKeepsLocalCall(w, Apply(m, s).m, between, t, b, subnet);
      LocalReplyIsHandedBack(later, Run(Apply(m, s).m, between), port, vpc', t, flags', now', b, subnet);
    }
  }
}
