/**
 * Runs on which a claim fails without its condition: a reply that misses its
 * sender, and a flow that loses its reverse half to another flow's close.
 */
module NatExamples {
  import opened Types
  import opened Conntrack
  import opened NatPlane
  import opened NatInvariant
  import opened NatReplies
  import opened NatRoundTrip

  // ---- A reply that misses its sender --------------------------------------

  const SHARED_TUPLE: Tuple := Tuple(1, 2, 1000, 53, Udp)

  /** Port 10 in Subnet 1 and port 20 in Subnet 2 of one Vpc; address 1 is a neighbour in Subnet 1 only. */
  function TwoSubnets(hash: Tuple -> Seed): Env {
    Env(10, map[10 := 1, 20 := 2], map[1 := 5, 2 := 5], map[(5, 1, 2) := Internet(0)], map[0 := 9],
        map[], 0, map[], {9}, {(1, 1)}, hash)
  }

  lemma TwoSubnetsIsFixed(hash: Tuple -> Seed)
    ensures FixedWorld(World(TwoSubnets(hash).subnetVpc, {0, 9}, {}), TwoSubnets(hash))
  {
    var env := TwoSubnets(hash);
    forall x | x in env.NatAddrs() ensures x in {0, 9} {
      assert x in env.naptSrc.Values ==> exists k :: k in env.naptSrc && env.naptSrc[k] == x;
    }
  }

  /** What the first packet of the tuple leaves in an empty table, whichever Subnet sends it. */
  lemma FirstPacketInstalls(hash: Tuple -> Seed, p: Plan, now: nat)
    requires p.fwd.t == SHARED_TUPLE
    ensures var port := Candidate(hash(SHARED_TUPLE), 0);
            Outbound(TwoSubnets(hash), map[], p, {}, now).m ==
            map[p.RevKey(port) := p.RevVal({}, now)][p.fwd := p.FwdVal(port, {}, now)]
  {
    var port := Candidate(hash(SHARED_TUPLE), 0);
    assert Probe(TwoSubnets(hash), map[], p) == Some(port);
  }

  lemma RunOfOne(m: Entries, s: Step)
    ensures Run(m, [s]) == Apply(m, s).m
  {
    assert [s][1..] == [];
    assert Run(Apply(m, s).m, []) == Apply(m, s).m;
  }

  /** The entry a NAPT packet from Subnet 2 leaves, once a packet from Subnet 1 has reused it. */
  lemma ReuseForwards(hash: Tuple -> Seed, m: Entries, port: Port)
    requires var p := NaptPlan(CtKey(5, SHARED_TUPLE), 9, 2);
             m == map[p.RevKey(port) := p.RevVal({}, 0)][p.fwd := p.FwdVal(port, {}, 0)]
    ensures var p := NaptPlan(CtKey(5, SHARED_TUPLE), 9, 2);
            var sent := PodEgress(TwoSubnets(hash), m, 10, Flow(SHARED_TUPLE, {}), 1);
            && sent.verdict == Forward(Flow(p.Translated(port), {}))
            && p.RevKey(port) in sent.m && sent.m[p.RevKey(port)] == p.RevVal({}, 0)
  {
    var p := NaptPlan(CtKey(5, SHARED_TUPLE), 9, 1);
    assert Decide(TwoSubnets(hash), CtKey(5, SHARED_TUPLE), 1) == Translate(p);
    assert Reuses(m, p);
  }

  /** A reply to an allocation that Subnet 2 opened finds no neighbour there. */
  lemma ReplyIsShot(hash: Tuple -> Seed, m: Entries, port: Port)
    requires var p := NaptPlan(CtKey(5, SHARED_TUPLE), 9, 2);
             p.RevKey(port) in m && m[p.RevKey(port)] == p.RevVal({}, 0)
    ensures var p := NaptPlan(CtKey(5, SHARED_TUPLE), 9, 2);
            NodeIngress(TwoSubnets(hash), m, Flow(p.Translated(port).Mirror(), {}), 2).verdict == Shot
  {
    var p := NaptPlan(CtKey(5, SHARED_TUPLE), 9, 2);
    assert p.Translated(port).Mirror() == p.RevKey(port).t;
  }

  /** The table after a packet with the workload's tuple from the other Subnet's port. */
  function AfterTheOther(hash: Tuple -> Seed): Entries {
    Run(map[], [AtPodEgress(TwoSubnets(hash), 20, Flow(SHARED_TUPLE, {}), 0)])
  }

  lemma TheOtherOpens(hash: Tuple -> Seed) returns (port: Port)
    ensures var p := NaptPlan(CtKey(5, SHARED_TUPLE), 9, 2);
            AfterTheOther(hash) == map[p.RevKey(port) := p.RevVal({}, 0)][p.fwd := p.FwdVal(port, {}, 0)]
  {
    var p := NaptPlan(CtKey(5, SHARED_TUPLE), 9, 2);
    port := Candidate(hash(SHARED_TUPLE), 0);
    assert Decide(TwoSubnets(hash), CtKey(5, SHARED_TUPLE), 2) == Translate(p);
    FirstPacketInstalls(hash, p, 0);
    RunOfOne(map[], AtPodEgress(TwoSubnets(hash), 20, Flow(SHARED_TUPLE, {}), 0));
  }

  /**
   * A packet with a workload's tuple comes from a port of the other Subnet first;
   * the workload's own packet then reuses that allocation, and its reply is
   * dropped although the workload could be delivered to.
   */
  lemma ReplyMissesTheSender(hash: Tuple -> Seed)
    ensures FixedWorld(World(TwoSubnets(hash).subnetVpc, {0, 9}, {}), TwoSubnets(hash))
    ensures TwoSubnets(hash).Deliverable(TwoSubnets(hash).portSubnet[10], SHARED_TUPLE.saddr)
    ensures var sent := PodEgress(TwoSubnets(hash), AfterTheOther(hash), 10, Flow(SHARED_TUPLE, {}), 1);
            && sent.verdict.Forward? && sent.verdict.pkt.Flow?
            && NodeIngress(TwoSubnets(hash), sent.m, Flow(sent.verdict.pkt.t.Mirror(), {}), 2).verdict == Shot
  {
    TwoSubnetsIsFixed(hash);
    var port := TheOtherOpens(hash);
    ReuseForwards(hash, AfterTheOther(hash), port);
    ReplyIsShot(hash, PodEgress(TwoSubnets(hash), AfterTheOther(hash), 10, Flow(SHARED_TUPLE, {}), 1).m, port);
  }

  // ---- A route to the Service NAT address of its own Vpc -------------------

  const STRAY: Tuple := Tuple(1, 9, 1000, 1024, Tcp)
  const CALL: Tuple := Tuple(3, 4, 2000, 80, Tcp)

  /**
   * Subnet 1 of Vpc 5 with workload 1, Subnet 2 of Vpc 6 with workload 3. Vpc 5
   * shares its workload as a Service, with NAT address 9; its route for the
   * internet, with NAT address 8, leads to address 9 as well.
   */
  function StrayRoute(capacity: nat): Env {
    Env(capacity, map[10 := 1, 20 := 2], map[1 := 5, 2 := 6],
        map[(5, 1, 9) := Internet(0), (6, 3, 4) := Service], map[0 := 8],
        map[CtKey(6, CALL) := Backend(PodBackend, 1, 1000, 1, 5)], 0, map[5 := 9], {8}, {(1, 1)}, (t: Tuple) => 0)
  }

  const STRAY_PLAN: Plan := NaptPlan(CtKey(5, STRAY), 8, 1)
  const CALL_PLAN: Plan := SharedPlan(CtKey(6, CALL), Backend(PodBackend, 1, 1000, 1, 5), 5, 9, 2)

  lemma FirstProbeTakes(env: Env, m: Entries, p: Plan)
    requires |m| < env.capacity && env.hash(p.fwd.t) == 0 && p.RevKey(1024) !in m
    ensures Probe(env, m, p) == Some(1024)
  {
    assert Candidate(0, 0) == 1024;
  }

  /** A packet without flags leaves the entry it meets as it is. */
  lemma PlainPacketChangesNothing(vpcs: SubnetVpcs, m: Entries, k: CtKey)
    requires k in m ==> m[k].state == Established
    ensures ObservedIfTcp(vpcs, m, k, {}) == m
  {
    if k in m {
      assert m[k].flagsSeen + {} == m[k].flagsSeen;
      assert m[k := m[k]] == m;
    }
  }

  /** A table without room for the forward half takes the reverse half only. */
  lemma FirstHalf(env: Env, p: Plan, now: nat)
    requires env.capacity == 1 && env.hash(p.fwd.t) == 0 && p.RevKey(1024) != p.fwd
    ensures Outbound(env, map[], p, {}, now).m == map[p.RevKey(1024) := p.RevVal({}, now)]
  {
    FirstProbeTakes(env, map[], p);
    PlainPacketChangesNothing(env.subnetVpc, map[p.RevKey(1024) := p.RevVal({}, now)], p.fwd);
  }

  /** One with room takes both. */
  lemma BothHalves(env: Env, m: Entries, p: Plan, now: nat)
    requires |m| + 1 < env.capacity && env.hash(p.fwd.t) == 0
    requires p.RevKey(1024) !in m && p.fwd !in m && p.RevKey(1024) != p.fwd
    ensures Outbound(env, m, p, {}, now).m == m[p.RevKey(1024) := p.RevVal({}, now)][p.fwd := p.FwdVal(1024, {}, now)]
  {
    FirstProbeTakes(env, m, p);
    var m1 := m[p.RevKey(1024) := p.RevVal({}, now)];
    assert |m1| == |m| + 1;
    PlainPacketChangesNothing(env.subnetVpc, m1[p.fwd := p.FwdVal(1024, {}, now)], p.fwd);
  }

  /** The workload's packet, in a table of one entry. */
  lemma StrayLeavesHalf()
    ensures PodEgress(StrayRoute(1), map[], 10, Flow(STRAY, {}), 0).m ==
            map[STRAY_PLAN.RevKey(1024) := STRAY_PLAN.RevVal({}, 0)]
  {
    assert Decide(StrayRoute(1), STRAY_PLAN.fwd, 1) == Translate(STRAY_PLAN);
    UntakenIsTranslated(StrayRoute(1), map[], 10, STRAY_PLAN, {}, 0);
    FirstHalf(StrayRoute(1), STRAY_PLAN, 0);
  }

  /** With room again, the call claims the missing half's key for its own replies. */
  lemma CallTakesItsKey(m: Entries)
    requires m == map[STRAY_PLAN.RevKey(1024) := STRAY_PLAN.RevVal({}, 0)]
    ensures CALL_PLAN.RevKey(1024) == CtKey(5, STRAY)
    ensures PodEgress(StrayRoute(9), m, 20, Flow(CALL, {}), 1).m ==
            m[CALL_PLAN.RevKey(1024) := CALL_PLAN.RevVal({}, 1)][CALL_PLAN.fwd := CALL_PLAN.FwdVal(1024, {}, 1)]
  {
    assert Decide(StrayRoute(9), CALL_PLAN.fwd, 2) == Translate(CALL_PLAN);
    UntakenIsTranslated(StrayRoute(9), m, 20, CALL_PLAN, {}, 1);
    BothHalves(StrayRoute(9), m, CALL_PLAN, 1);
  }

  /** A close of the half that is there takes that key. */
  lemma CloseTakesTheCallsHalf(m: Entries)
    requires STRAY_PLAN.RevKey(1024) in m && m[STRAY_PLAN.RevKey(1024)] == STRAY_PLAN.RevVal({}, 0)
    ensures NodeIngress(StrayRoute(9), m, Flow(STRAY_PLAN.RevKey(1024).t, {Rst}), 2).m ==
            m - {CtKey(5, STRAY), STRAY_PLAN.RevKey(1024)}
  {
    var r := STRAY_PLAN.RevKey(1024);
    assert r == CtKey(HOST_SCOPE, Tuple(9, 8, 1024, 1024, Tcp));
    assert OppositeKey(StrayRoute(9).subnetVpc, r, STRAY_PLAN.RevVal({}, 0)) == CtKey(5, STRAY);
  }

  /** Without that route the tables are as runs need them. */
  lemma StrayTablesAreFine()
    ensures EnvIn(World(StrayRoute(9).subnetVpc, {0, 8, 9}, {(5, 9)}),
                  StrayRoute(9).(routes := map[(6, 3, 4) := Service]))
  {
    var env := StrayRoute(9);
    forall x | x in env.NatAddrs() ensures x in {0, 8, 9} {
      assert x in env.naptSrc.Values ==> exists k :: k in env.naptSrc && env.naptSrc[k] == x;
      assert x in env.serviceNatIp.Values ==> exists k :: k in env.serviceNatIp && env.serviceNatIp[k] == x;
    }
  }

  lemma CallLosesItsHalf(m: Entries)
    requires CALL_PLAN.fwd in m && m[CALL_PLAN.fwd] == CALL_PLAN.FwdVal(1024, {}, 1) && CtKey(5, STRAY) !in m
    ensures Hit(m, CtKey(6, CALL), SharedOut) && !Paired(StrayRoute(9).subnetVpc, m, CtKey(6, CALL))
  {
    assert PeerKey(StrayRoute(9).subnetVpc, CALL_PLAN.fwd, CALL_PLAN.FwdVal(1024, {}, 1)) == CtKey(5, STRAY);
  }

  /** With a route to its own Vpc's Service NAT address, three packets leave a forward half alone. */
  lemma StrayRouteOrphansACall() returns (m1: Entries, m2: Entries, m3: Entries)
    ensures m1 == PodEgress(StrayRoute(1), map[], 10, Flow(STRAY, {}), 0).m
    ensures m2 == PodEgress(StrayRoute(9), m1, 20, Flow(CALL, {}), 1).m
    ensures m3 == NodeIngress(StrayRoute(9), m2, Flow(STRAY_PLAN.RevKey(1024).t, {Rst}), 2).m
    ensures Hit(m3, CtKey(6, CALL), SharedOut) && !Paired(StrayRoute(9).subnetVpc, m3, CtKey(6, CALL))
  {
    StrayLeavesHalf();
    m1 := PodEgress(StrayRoute(1), map[], 10, Flow(STRAY, {}), 0).m;
    CallTakesItsKey(m1);
    m2 := PodEgress(StrayRoute(9), m1, 20, Flow(CALL, {}), 1).m;
    CloseTakesTheCallsHalf(m2);
    m3 := NodeIngress(StrayRoute(9), m2, Flow(STRAY_PLAN.RevKey(1024).t, {Rst}), 2).m;
    CallLosesItsHalf(m3);
  }
}
