/**
 * End-to-end translation: a packet that leaves through a port-translating
 * handler and the reply the peer sends to what it saw, with any run of other
 * traffic in between; and ICMP errors about either direction.
 */
module NatRoundTrip {
  import opened Types
  import opened Conntrack
  import opened NatPlane
  import opened NatInvariant
  import opened NatReplies

  // ---- The reply a translated packet leaves room for -----------------------

  /** No recorded reply and no same-Vpc Service flow claims a packet with this tuple. */
  predicate Untaken(m: Entries, vpc: Scope, t: Tuple) {
    !Hit(m, CtKey(HOST_SCOPE, t), SvcNaptIn) && !Hit(m, CtKey(vpc, t), SharedIn) && !Hit(m, CtKey(vpc, t), Dnat)
  }

  /** An allocation the packet would reuse was made for the addresses the tables decide on now. */
  predicate Stands(vpcs: SubnetVpcs, m: Entries, p: Plan) {
    Reuses(m, p) ==> PeerKey(vpcs, p.fwd, m[p.fwd]) == p.RevKey(m[p.fwd].newSport)
  }

  lemma UntakenIsTranslated(env: Env, m: Entries, ifindex: nat, p: Plan, flags: set<TcpFlag>, now: nat)
    requires PortIn(env, ifindex, p.fwd.scope) && Decide(env, p.fwd, env.portSubnet[ifindex]) == Translate(p)
    requires Untaken(m, p.fwd.scope, p.fwd.t)
    ensures PodEgress(env, m, ifindex, Flow(p.fwd.t, flags), now) == Outbound(env, m, p, flags, now)
  {
  }

  /** Under tables that decided alike all along, translated packets are not mistaken for anything else. */
  lemma RoutedPacketsReachTheirHandler(w: World, env: Env, m: Entries, vpc: Scope, subnet: SubnetId, t: Tuple)
    requires FixedWorld(w, env) && FixedInv(w, env, m) && subnet in env.subnetVpc && env.subnetVpc[subnet] == vpc
    requires Decide(env, CtKey(vpc, t), subnet).Translate?
    ensures Untaken(m, vpc, t)
  {
    var host, mine := CtKey(HOST_SCOPE, t), CtKey(vpc, t);
    assert (vpc, t.saddr, t.daddr) in env.routes;
    assert host in m ==> Agrees(w, env, host, m[host]);
    assert mine in m ==> Agrees(w, env, mine, m[mine]);
    assert env.underlay in env.NatAddrs();
  }

  /** And allocations in use stand. */
  lemma AllocationsStand(w: World, env: Env, m: Entries, p: Plan, podSubnet: SubnetId)
    requires FixedInv(w, env, m) && PlanOk(w, p) && Decide(env, p.fwd, podSubnet) == Translate(p)
    ensures Stands(w.vpcs, m, p)
  {
    DecisionIgnoresSubnet(env, p.fwd, podSubnet);
    if Reuses(m, p) {
      assert Agrees(w, env, p.fwd, m[p.fwd]);
    }
  }

  /** The packet ends its own flow, and the table holds a forward half to end. */
  predicate ClosedBySender(m: Entries, capacity: nat, p: Plan, flags: set<TcpFlag>) {
    && p.fwd.t.proto == Tcp
    && (Rst in flags || (Fin in flags && Reuses(m, p) && m[p.fwd].state == FinWait))
    && (p.fwd in m || |m| + 1 < capacity)
  }

  predicate LeadsBack(p: Plan, v: CtVal) {
    && v.action == p.back
    && v.newDaddr == p.fwd.t.saddr && v.newDport == p.fwd.t.sport
    && (p.out != NaptOut ==> v.newSaddr == p.fwd.t.daddr && v.newSport == p.fwd.t.dport)
  }

  /**
   * The table holds the reply entry of the plan exactly when the sender did not
   * close the flow; an allocation in use keeps the Subnet it was opened for.
   */
  ghost predicate ReplyWaits(env: Env, m: Entries, p: Plan, port: Port, flags: set<TcpFlag>, now: nat) {
    var r := p.RevKey(port);
    var m' := ObservedIfTcp(env.subnetVpc, Installed(m, env.capacity, p, port, flags, now), p.fwd, flags);
    && (r in m' <==> !ClosedBySender(m, env.capacity, p, flags))
    && (r in m' ==> LeadsBack(p, m'[r]))
    && (r in m' ==> m'[r].nextSubnet == if Reuses(m, p) && r in m then m[r].nextSubnet else p.podSubnet)
  }

  lemma ReplyWaitsOnReuse(w: World, env: Env, m: Entries, p: Plan, flags: set<TcpFlag>, now: nat)
    requires Inv(w, m) && PlanOk(w, p) && env.subnetVpc == w.vpcs && Reuses(m, p) && Stands(w.vpcs, m, p)
    ensures ReplyWaits(env, m, p, m[p.fwd].newSport, flags, now)
  {
    assert Paired(w.vpcs, m, p.fwd) && EntryOk(w, p.fwd, m[p.fwd]);
    assert p.fwd != p.RevKey(m[p.fwd].newSport);
  }

  lemma ReplyWaitsOnInstall(w: World, env: Env, m: Entries, p: Plan, port: Port, flags: set<TcpFlag>, now: nat)
    requires PlanOk(w, p) && env.subnetVpc == w.vpcs && !Reuses(m, p) && p.RevKey(port) !in m
    ensures ReplyWaits(env, m, p, port, flags, now)
  {
    PlanHalvesMatch(w, p, port, flags, now);
    var m1 := m[p.RevKey(port) := p.RevVal(flags, now)];
    assert |m1| == |m| + 1;
    assert p.fwd != p.RevKey(port);
  }

  /** A reply entry waits for the answer exactly when the packet did not close the flow. */
  lemma ReplyEntryWaits(w: World, env: Env, m: Entries, p: Plan, port: Port, flags: set<TcpFlag>, now: nat)
    requires Inv(w, m) && PlanOk(w, p) && env.subnetVpc == w.vpcs && Stands(w.vpcs, m, p)
    requires AllocatedPort(env, m, p) == Some(port)
    ensures ReplyWaits(env, m, p, port, flags, now)
  {
    if Reuses(m, p) {
      ReplyWaitsOnReuse(w, env, m, p, flags, now);
    } else {
      ProbeFindsFreeKey(m, env.capacity, p, env.hash(p.fwd.t), 0);
      ReplyWaitsOnInstall(w, env, m, p, port, flags, now);
    }
  }

  lemma ReplyTupleIsReverseKey(w: World, p: Plan, port: Port)
    requires PlanOk(w, p)
    ensures p.Translated(port).Mirror() == p.RevKey(port).t
  {
  }

  lemma LeadingBackRestoresTuple(w: World, p: Plan, port: Port, v: CtVal)
    requires PlanOk(w, p) && LeadsBack(p, v)
    ensures Reversed(p.RevKey(port).t, v) == p.fwd.t.Mirror()
  {
  }

  predicate PortIn(env: Env, ifindex: nat, vpc: Scope) {
    ifindex in env.portSubnet && env.portSubnet[ifindex] in env.subnetVpc &&
    env.subnetVpc[env.portSubnet[ifindex]] == vpc
  }

  /** What becomes of a reply whose entry names this Subnet. */
  function Handed(env: Env, subnet: SubnetId, addr: Addr, pkt: Packet): Verdict {
    if env.Deliverable(subnet, addr) then Deliver(subnet, pkt) else Shot
  }

  /** The hook a reply of each kind comes back through, and what it delivers. */
  lemma ReplyIsDelivered(w: World, env: Env, m: Entries, p: Plan, port: Port, flags: set<TcpFlag>, now: nat)
    requires EnvIn(w, env) && PlanOk(w, p) && !p.fwd.t.proto.OtherProto?
    requires var r := p.RevKey(port); r in m && LeadsBack(p, m[r])
    ensures var r := p.RevKey(port);
            var home := Handed(env, m[r].nextSubnet, p.fwd.t.saddr, Flow(p.fwd.t.Mirror(), flags));
            && (p.out == NaptOut && p.natAddr in env.claimed ==>
                  NodeIngress(env, m, Flow(r.t, flags), now).verdict == home)
            && (p.out == SvcNaptOut && p.natAddr == env.underlay && env.underlay != 0 ==>
                  NodeIngress(env, m, Flow(r.t, flags), now).verdict == home)
            && (p.out == SharedOut ==>
                  VxlanIngress(env, m, p.outSubnet, Flow(r.t, flags), now).verdict == home)
  {
    LeadingBackRestoresTuple(w, p, port, m[p.RevKey(port)]);
  }

  /** A shared Service's reply that starts on this very node is delivered there, whichever port it leaves through. */
  lemma SharedReplyOnThisNode(w: World, env: Env, m: Entries, p: Plan, port: Port, i: nat, flags: set<TcpFlag>,
                              now: nat)
    requires FixedWorld(w, env) && FixedInv(w, env, m) && PlanOk(w, p) && !p.fwd.t.proto.OtherProto?
    requires p.out == SharedOut && p.natAddr in env.serviceNatIp.Values && PortIn(env, i, p.revScope)
    requires var r := p.RevKey(port); r in m && LeadsBack(p, m[r])
    ensures var r := p.RevKey(port);
            PodEgress(env, m, i, Flow(r.t, flags), now).verdict ==
            Handed(env, m[r].nextSubnet, p.fwd.t.saddr, Flow(p.fwd.t.Mirror(), flags))
  {
    var r := p.RevKey(port);
    LeadingBackRestoresTuple(w, p, port, m[r]);
    var host := CtKey(HOST_SCOPE, r.t);
    assert host in m ==> Agrees(w, env, host, m[host]);
  }

  /** The program that sees a peer's reply first, for each kind of translation. */
  function AtReplyHook(env: Env, m: Entries, p: Plan, pkt: Packet, now: nat): StepResult {
    if p.out == SharedOut then VxlanIngress(env, m, p.outSubnet, pkt, now) else NodeIngress(env, m, pkt, now)
  }

  /** What the tables that decided a translation say about its NAT address. */
  lemma DecidedNatAddress(env: Env, key: CtKey, subnet: SubnetId)
    requires Decide(env, key, subnet).Translate?
    ensures var p := Decide(env, key, subnet).plan;
            && p.fwd == key && !key.t.proto.OtherProto?
            && (p.out == SvcNaptOut ==> p.natAddr == env.underlay && env.underlay != 0)
            && (p.out == SharedOut ==> p.natAddr in env.serviceNatIp.Values)
  {
  }

  // ---- There and back ------------------------------------------------------

  /** The packet opens the allocation it uses, or finds one that was opened from its own Subnet. */
  predicate OpenedFrom(before: seq<Step>, p: Plan, subnet: SubnetId) {
    Reuses(Run(map[], before), p) ==> Opener(map[], before, p.fwd, p.out, None) == Some(subnet)
  }

  /** A sufficient condition on the packets alone: nobody else in the Vpc sent with this tuple from another Subnet. */
  lemma OnlySenderOpens(w: World, before: seq<Step>, p: Plan, subnet: SubnetId)
    requires RunIn(w, before) && PlanOk(w, p)
    requires forall i, other :: 0 <= i < |before| && SendsFrom(before[i], p.fwd.t, other) ==> other == subnet
    ensures OpenedFrom(before, p, subnet)
  {
    RunNamesOpener(w, map[], before, p.fwd, p.out, None);
    if Reuses(Run(map[], before), p) {
      OpenerSentThatFlow(w, map[], before, p.fwd, p.out, None, Opener(map[], before, p.fwd, p.out, None).value);
    }
  }

  /** The reply entry a packet leaves behind names its own Subnet exactly when that Subnet opened the allocation. */
  lemma ReplyEntryNamesTheSender(w: World, env: Env, before: seq<Step>, p: Plan, port: Port, flags: set<TcpFlag>,
                                 now: nat)
    requires RunIn(w, before) && PlanOk(w, p) && env.subnetVpc == w.vpcs && Stands(w.vpcs, Run(map[], before), p)
    requires AllocatedPort(env, Run(map[], before), p) == Some(port)
    requires p.RevKey(port) in Outbound(env, Run(map[], before), p, flags, now).m
    ensures var v := Outbound(env, Run(map[], before), p, flags, now).m[p.RevKey(port)];
            LeadsBack(p, v) && (v.nextSubnet == p.podSubnet <==> OpenedFrom(before, p, p.podSubnet))
  {
    RunKeepsInv(w, map[], before);
    ReplyEntryWaits(w, env, Run(map[], before), p, port, flags, now);
    RunNamesOpener(w, map[], before, p.fwd, p.out, None);
  }

  /** The tables at the reply hook take the reply for one of this translation. */
  predicate Claims(env: Env, p: Plan) {
    && (p.out == NaptOut ==> p.natAddr in env.claimed)
    && (p.out == SvcNaptOut ==> p.natAddr == env.underlay && env.underlay != 0)
  }

  /** From the reply entry, through other traffic, home. */
  lemma ReplyComesHome(w: World, m: Entries, p: Plan, port: Port, between: seq<Step>,
                       env: Env, flags: set<TcpFlag>, now: nat)
    requires EnvIn(w, env) && RunIn(w, between) && PlanOk(w, p) && !p.fwd.t.proto.OtherProto?
    requires HeldThrough(m, between, p.RevKey(port)) && LeadsBack(p, m[p.RevKey(port)])
    ensures var m' := Run(m, between);
            var r := p.RevKey(port);
            && r in m' && Reversed(r.t, m'[r]) == p.fwd.t.Mirror()
            && (Claims(env, p) ==>
                  AtReplyHook(env, m', p, Flow(r.t, flags), now).verdict ==
                  Handed(env, m[r].nextSubnet, p.fwd.t.saddr, Flow(p.fwd.t.Mirror(), flags)))
  {
    HeldEntryIsStable(w, m, between, p.RevKey(port));
    LeadingBackRestoresTuple(w, p, port, Run(m, between)[p.RevKey(port)]);
    ReplyIsDelivered(w, env, Run(m, between), p, port, flags, now);
  }

  lemma UnclosedFlowIsHeld(w: World, m: Entries, p: Plan, port: Port, between: seq<Step>)
    requires Inv(w, m) && RunIn(w, between) && PlanOk(w, p)
    requires p.RevKey(port) in m && LeadsBack(p, m[p.RevKey(port)]) && NoneCloses(between, p.fwd.t, p.RevKey(port).t)
    ensures HeldThrough(m, between, p.RevKey(port))
  {
    assert PeerKey(w.vpcs, p.RevKey(port), m[p.RevKey(port)]).t == p.fwd.t;
    UnclosedEntryIsHeld(w, m, between, p.RevKey(port), p.fwd.t);
  }

  /** The reply of an unclosed flow, given the plan and the port its packet left with. */
  lemma ReplyReachesTheSender(w: World, env: Env, before: seq<Step>, p: Plan, port: Port, flags: set<TcpFlag>, now: nat,
                              between: seq<Step>, replyEnv: Env, replyFlags: set<TcpFlag>, replyNow: nat)
    requires EnvIn(w, env) && EnvIn(w, replyEnv) && RunIn(w, before) && RunIn(w, between) && PlanOk(w, p)
    requires Stands(w.vpcs, Run(map[], before), p) && AllocatedPort(env, Run(map[], before), p) == Some(port)
    requires !p.fwd.t.proto.OtherProto? && NoneCloses(between, p.fwd.t, p.RevKey(port).t)
    requires p.RevKey(port) in Outbound(env, Run(map[], before), p, flags, now).m
    ensures var m' := Run(Outbound(env, Run(map[], before), p, flags, now).m, between);
            var r := p.RevKey(port);
            var home := Deliver(p.podSubnet, Flow(p.fwd.t.Mirror(), replyFlags));
            && r in m' && Reversed(r.t, m'[r]) == p.fwd.t.Mirror()
            && (replyEnv.Deliverable(p.podSubnet, p.fwd.t.saddr) && Claims(replyEnv, p) ==>
                  (AtReplyHook(replyEnv, m', p, Flow(r.t, replyFlags), replyNow).verdict == home
                   <==> OpenedFrom(before, p, p.podSubnet)))
  {
    var m1 := Outbound(env, Run(map[], before), p, flags, now).m;
    RunKeepsInv(w, map[], before);
    OutboundKeepsInv(w, env, Run(map[], before), p, flags, now);
    ReplyEntryNamesTheSender(w, env, before, p, port, flags, now);
    UnclosedFlowIsHeld(w, m1, p, port, between);
    ReplyComesHome(w, m1, p, port, between, replyEnv, replyFlags, replyNow);
  }

  /** What a round trip is: out with the allocated port, and the reply back in while the flow is not closed. */
  ghost predicate OutAndBack(env: Env, before: seq<Step>, ifindex: nat, p: Plan, flags: set<TcpFlag>, now: nat,
                             between: seq<Step>, replyEnv: Env, replyFlags: set<TcpFlag>, replyNow: nat) {
    var t, m := p.fwd.t, Run(map[], before);
    var sent := PodEgress(env, m, ifindex, Flow(t, flags), now);
    && AllocatedPort(env, m, p).Some?
    && sent.verdict == Forward(Flow(p.Translated(AllocatedPort(env, m, p).value), flags))
    && var reply := Flow(sent.verdict.pkt.t.Mirror(), replyFlags);
    && var r := CtKey(p.revScope, reply.t);
    && (r in sent.m <==> !ClosedBySender(m, env.capacity, p, flags))
    && (r in sent.m && NoneCloses(between, t, reply.t) ==>
          var m' := Run(sent.m, between);
          var home := Deliver(p.podSubnet, Flow(t.Mirror(), replyFlags));
          && r in m' && Reversed(reply.t, m'[r]) == t.Mirror()
          && (replyEnv.Deliverable(p.podSubnet, t.saddr) && Claims(replyEnv, p) ==>
                (AtReplyHook(replyEnv, m', p, reply, replyNow).verdict == home
                 <==> OpenedFrom(before, p, p.podSubnet))))
  }

  /**
   * Round trip from any table a run can leave: whatever the tables were before,
   * a packet that nothing else claims and that reuses no outdated allocation is
   * translated, and its reply comes back.
   */
  lemma RoundTripFrom(w: World, env: Env, before: seq<Step>, ifindex: nat, p: Plan, flags: set<TcpFlag>, now: nat,
                      between: seq<Step>, replyEnv: Env, replyFlags: set<TcpFlag>, replyNow: nat)
    requires EnvIn(w, env) && EnvIn(w, replyEnv) && RunIn(w, before) && RunIn(w, between) && p.fwd.t.WellFormed()
    requires PortIn(env, ifindex, p.fwd.scope) && Decide(env, p.fwd, env.portSubnet[ifindex]) == Translate(p)
    requires Untaken(Run(map[], before), p.fwd.scope, p.fwd.t) && Stands(w.vpcs, Run(map[], before), p)
    requires PodEgress(env, Run(map[], before), ifindex, Flow(p.fwd.t, flags), now).verdict != Shot
    ensures OutAndBack(env, before, ifindex, p, flags, now, between, replyEnv, replyFlags, replyNow)
  {
    var m := Run(map[], before);
    RunKeepsInv(w, map[], before);
    DecideGivesPlanOk(w, env, p.fwd, env.portSubnet[ifindex]);
    DecidedNatAddress(env, p.fwd, env.portSubnet[ifindex]);
    UntakenIsTranslated(env, m, ifindex, p, flags, now);
    var port := AllocatedPort(env, m, p).value;
    ReplyEntryWaits(w, env, m, p, port, flags, now);
    ReplyTupleIsReverseKey(w, p, port);
    if p.RevKey(port) in Outbound(env, m, p, flags, now).m && NoneCloses(between, p.fwd.t, p.RevKey(port).t) {
      ReplyReachesTheSender(w, env, before, p, port, flags, now, between, replyEnv, replyFlags, replyNow);
    }
  }

  /**
   * Round trip. After any run under tables that decide alike, a workload's TCP,
   * UDP or Echo packet is translated. Any other traffic may follow and any table
   * may change, as long as neither side closes the flow. A reply to the tuple
   * the peer saw then turns into the exact mirror of the packet the workload
   * sent, and is handed to that workload's own Subnet exactly when the allocation
   * the packet used was opened from that Subnet.
   */
  lemma RoundTrip(w: World, env: Env, before: seq<Step>, ifindex: nat, p: Plan, flags: set<TcpFlag>, now: nat,
                  between: seq<Step>, replyEnv: Env, replyFlags: set<TcpFlag>, replyNow: nat)
    requires FixedWorld(w, env) && FixedRun(w, env, before) && p.fwd.t.WellFormed()
    requires EnvIn(w, replyEnv) && RunIn(w, between)
    requires PortIn(env, ifindex, p.fwd.scope) && Decide(env, p.fwd, env.portSubnet[ifindex]) == Translate(p)
    requires PodEgress(env, Run(map[], before), ifindex, Flow(p.fwd.t, flags), now).verdict != Shot
    ensures OutAndBack(env, before, ifindex, p, flags, now, between, replyEnv, replyFlags, replyNow)
  {
    var subnet := env.portSubnet[ifindex];
    RunKeepsFixedInv(w, env, map[], before);
    DecideGivesPlanOk(w, env, p.fwd, subnet);
    RoutedPacketsReachTheirHandler(w, env, Run(map[], before), p.fwd.scope, subnet, p.fwd.t);
    AllocationsStand(w, env, Run(map[], before), p, subnet);
    RoundTripFrom(w, env, before, ifindex, p, flags, now, between, replyEnv, replyFlags, replyNow);
  }

  // ---- ICMP errors ---------------------------------------------------------

  /** The tuple a live translated flow shows on the wire: the mirror of its reply key. */
  function WireTuple(vpcs: SubnetVpcs, k: CtKey, v: CtVal): Tuple {
    PeerKey(vpcs, k, v).t.Mirror()
  }

  /**
   * A router's error about a packet of a live NAPT flow comes back quoting the
   * tuple its workload used, for the Subnet the flow's reply entry names.
   */
  lemma InboundErrorQuotesTheSender(w: World, env: Env, m: Entries, k: CtKey, router: Addr, outer: Addr, now: nat)
    requires Inv(w, m) && env.subnetVpc == w.vpcs && k in m && m[k].action == NaptOut
    requires outer in env.claimed
    ensures var r := PeerKey(w.vpcs, k, m[k]);
            && r in m
            && NodeIngress(env, m, IcmpError(router, outer, WireTuple(w.vpcs, k, m[k])), now).verdict ==
               Handed(env, m[r].nextSubnet, k.t.saddr, IcmpError(router, k.t.saddr, k.t))
  {
    assert Paired(w.vpcs, m, k) && EntryOk(w, k, m[k]);
  }

  /** After any run, that Subnet is the one whose packet opened the flow. */
  lemma InboundErrorReachesTheOpener(w: World, env: Env, steps: seq<Step>, k: CtKey, router: Addr, outer: Addr,
                                     now: nat)
    requires RunIn(w, steps) && env.subnetVpc == w.vpcs
    requires Hit(Run(map[], steps), k, NaptOut) && outer in env.claimed
    ensures var m := Run(map[], steps);
            var opener := Opener(map[], steps, k, NaptOut, None);
            && opener.Some? && (exists i :: 0 <= i < |steps| && SendsFrom(steps[i], k.t, opener.value))
            && NodeIngress(env, m, IcmpError(router, outer, WireTuple(w.vpcs, k, m[k])), now).verdict ==
               Handed(env, opener.value, k.t.saddr, IcmpError(router, k.t.saddr, k.t))
  {
    RunKeepsInv(w, map[], steps);
    RunNamesOpener(w, map[], steps, k, NaptOut, None);
    OpenerSentThatFlow(w, map[], steps, k, NaptOut, None, Opener(map[], steps, k, NaptOut, None).value);
    InboundErrorQuotesTheSender(w, env, Run(map[], steps), k, router, outer, now);
  }

  /**
   * A workload's error about a packet it received on a live NAPT flow leaves
   * with the flow's own translated source, quoting the tuple the peer sent.
   */
  lemma OutboundErrorQuotesThePeer(w: World, env: Env, m: Entries, ifindex: nat, k: CtKey, sender: Addr, peer: Addr,
                                   now: nat)
    requires Inv(w, m) && env.subnetVpc == w.vpcs && k in m && m[k].action == NaptOut
    requires PortIn(env, ifindex, k.scope)
    requires var route := (k.scope, sender, peer); route in env.routes && env.routes[route].Internet?
    ensures PodEgress(env, m, ifindex, IcmpError(sender, peer, k.t.Mirror()), now).verdict ==
            Forward(IcmpError(m[k].newSaddr, peer, PeerKey(w.vpcs, k, m[k]).t))
  {
    assert k.t.Mirror().Mirror() == k.t;
  }

  // ---- Reachable states ----------------------------------------------------

  /**
   * In every reachable state no two translated flows look alike on the wire in
   * the same keyspace, and the entry that answers for one answers for it alone.
   */
  lemma ReachableFlowsAreDistinct(w: World, steps: seq<Step>, k1: CtKey, k2: CtKey)
    requires RunIn(w, steps)
    requires var m := Run(map[], steps);
             k1 in m && k2 in m && k1 != k2 && IsOut(m[k1].action) && IsOut(m[k2].action)
    ensures var m := Run(map[], steps);
            var r1, r2 := PeerKey(w.vpcs, k1, m[k1]), PeerKey(w.vpcs, k2, m[k2]);
            && r1 != r2
            && (r1.scope == r2.scope ==> WireTuple(w.vpcs, k1, m[k1]) != WireTuple(w.vpcs, k2, m[k2]))
            && r1 in m && m[r1].action == Partner(m[k1].action) && PeerKey(w.vpcs, r1, m[r1]) == k1
            && m[k1].state != Closed && m[r1].state != Closed
  {
    RunKeepsInv(w, map[], steps);
    var m := Run(map[], steps);
    assert Paired(w.vpcs, m, k1) && Paired(w.vpcs, m, k2);
    var r1, r2 := PeerKey(w.vpcs, k1, m[k1]), PeerKey(w.vpcs, k2, m[k2]);
    assert EntryOk(w, k1, m[k1]) && EntryOk(w, r1, m[r1]);
    assert r1.t == r1.t.Mirror().Mirror() && r2.t == r2.t.Mirror().Mirror();
  }
}
