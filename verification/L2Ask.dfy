/**
 * Address resolution across nodes: a gateway asks the segment, the owner
 * answers the gateway of its own node, and the answer is carried back to the
 * node that asked, even when no flood list names it.
 */
module L2Ask {
  import opened Types
  import opened L2Switch
  import opened L2Network
  import opened L2Broadcast

  // ---- The question --------------------------------------------------------

  /** A gateway with an unresolved address on its prefix may ask for it. */
  predicate Asks(st: NodeState, port: nat, target: Addr, now: Time) {
    && port in st.cfg.ports && st.cfg.gateway.Some? && st.cfg.gateway.value.ifindex == port
    && target !in st.arp && target in st.cfg.onLink && MayAsk(st.probe, target, now) && st.cfg.vxlanUp
  }

  /** The question leaves for every node of the flood list. */
  lemma QuestionIsSent(net: Net, node: Vtep, port: nat, id: nat, frame: Frame, hops: nat, now: Time, target: Addr,
                       owner: Vtep)
    requires NetOk(net) && Enabled(net, SendGateway(node, port, id, frame, hops, now)) && frame.body == Ip(target)
    requires Asks(net.nodes[node], port, target, now) && owner in net.nodes[node].cfg.remotes
    ensures var net' := Apply(net, SendGateway(node, port, id, frame, hops, now));
            && Msg(id, owner) in net'.flight && id in net'.origin
            && net'.origin[id] == Origin(node, port, AskFrame(net.nodes[node].cfg, target))
  {
    var r := GatewayEgress(net.nodes[node], port, frame, hops, now);
    assert ToNode(owner) in r.targets;
    CrossedAfter(net.(origin := net.origin[id := Origin(node, port, r.frame)]), node, id, r, Msg(id, owner));
  }

  /** The node remembers that the gateway of `who` wants `target`, since a time in [lo, hi]. */
  predicate Remembers(st: NodeState, target: Addr, who: Vtep, lo: Time, hi: Time) {
    target in st.asker && st.asker[target].vtep == who && lo <= st.asker[target].at <= hi
  }

  /** The owner's node writes down who asked, and shows the question to every workload port. */
  lemma QuestionIsRemembered(st: NodeState, asking: Config, target: Addr, src: Vtep, hops: nat, now: Time, q: nat)
    requires NodeOk(st) && asking.gateway.Some? && st.cfg.IsGatewayMac(asking.gateway.value.mac)
    requires target != 0 && src != 0 && q in st.cfg.ports
    ensures var r := FromOverlay(st, AskFrame(asking, target), src, hops, now);
            Remembers(r.st, target, src, now, now) && (ToPort(q) in r.targets <==> !st.cfg.ports[q])
  {
    ReceivedBroadcast(st, AskFrame(asking, target), src, hops, now, q);
  }

  // ---- Remembering ---------------------------------------------------------

  /** No other node asks `owner` for `target`, and the record of who did is not dropped. */
  ghost predicate NoOtherAsks(net: Net, s: Step, owner: Vtep, target: Addr, who: Vtep, lo: Time, hi: Time) {
    && Enabled(net, s) && KeepsConfig(net, s)
    && (s.Receive? && s.msg.dst == owner && owner in net.nodes ==>
          var o := net.origin[s.msg.id];
          GatewayAsks(net.nodes[owner].cfg, o.frame) && o.frame.body.tpa == target ==>
            o.node == who && lo <= s.now <= hi)
    && (s.Change? && s.node == owner && owner in net.nodes && target in net.nodes[owner].asker ==>
          target in s.st.asker && s.st.asker[target] == net.nodes[owner].asker[target])
  }

  lemma LocalHooksKeepRecords(st: NodeState, port: nat, frame: Frame, hops: nat, now: Time)
    ensures Egress(st, port, frame, hops, now).st.asker == st.asker
    ensures GatewayEgress(st, port, frame, hops, now).st.asker == st.asker
  {
  }

  lemma OverlayKeepsRecord(st: NodeState, frame: Frame, src: Vtep, hops: nat, now: Time, target: Addr, who: Vtep,
                           lo: Time, hi: Time)
    requires Remembers(st, target, who, lo, hi)
    requires GatewayAsks(st.cfg, frame) && frame.body.tpa == target ==> src == who && lo <= now <= hi
    ensures Remembers(FromOverlay(st, frame, src, hops, now).st, target, who, lo, hi)
  {
  }

  lemma StepKeepsRecord(net: Net, s: Step, owner: Vtep, target: Addr, who: Vtep, lo: Time, hi: Time)
    requires owner in net.nodes && Remembers(net.nodes[owner], target, who, lo, hi)
    requires NoOtherAsks(net, s, owner, target, who, lo, hi)
    ensures owner in Apply(net, s).nodes && Remembers(Apply(net, s).nodes[owner], target, who, lo, hi)
  {
    match s
    case Send(node, port, _, frame, hops, now) => LocalHooksKeepRecords(net.nodes[node], port, frame, hops, now);
    case SendGateway(node, port, _, frame, hops, now) => LocalHooksKeepRecords(net.nodes[node], port, frame, hops, now);
    case Receive(msg, hops, now) =>
      if msg.dst == owner {
        var o := net.origin[msg.id];
        OverlayKeepsRecord(net.nodes[owner], o.frame, o.node, hops, now, target, who, lo, hi);
      }
    case Lose(_) =>
    case Change(_, _) =>
  }

  ghost predicate AskedRun(net: Net, steps: seq<Step>, owner: Vtep, target: Addr, who: Vtep, lo: Time, hi: Time)
    decreases steps
  {
    |steps| == 0 ||
    (NoOtherAsks(net, steps[0], owner, target, who, lo, hi) &&
     AskedRun(Apply(net, steps[0]), steps[1..], owner, target, who, lo, hi))
  }

  lemma {:induction false} RunKeepsRecord(net: Net, steps: seq<Step>, owner: Vtep, target: Addr, who: Vtep, lo: Time,
                                          hi: Time)
    requires NetOk(net) && owner in net.nodes && Remembers(net.nodes[owner], target, who, lo, hi)
    requires AskedRun(net, steps, owner, target, who, lo, hi)
    ensures RunOk(net, steps) && NetOk(Run(net, steps)) && owner in Run(net, steps).nodes
    ensures Remembers(Run(net, steps).nodes[owner], target, who, lo, hi)
    decreases steps
  {
    if |steps| > 0 {
      ApplyKeepsNetOk(net, steps[0]);
      StepKeepsRecord(net, steps[0], owner, target, who, lo, hi);
      RunKeepsRecord(Apply(net, steps[0]), steps[1..], owner, target, who, lo, hi);
    }
  }

  // ---- The answer ----------------------------------------------------------

  /** The owner's reply: it answers for `target`, addressed to the gateway. */
  predicate IsAnswer(cfg: Config, frame: Frame, target: Addr) {
    AnswersGateway(cfg, frame) && frame.body.spa == target && target != 0
  }

  /** The answer goes to the node that asked exactly once, whether or not the flood list names it. */
  lemma AnswerIsSent(st: NodeState, port: nat, frame: Frame, hops: nat, now: Time, target: Addr, who: Vtep, lo: Time,
                     hi: Time)
    requires NodeOk(st) && st.cfg.vxlanUp && port in st.cfg.ports && IsAnswer(st.cfg, frame, target)
    requires Remembers(st, target, who, lo, hi) && hi <= now < lo + ASKER_TTL && who != 0
    ensures var r := Egress(st, port, frame, hops, now);
            && ToNode(who) in r.targets && r.frame == frame
            && target in r.st.arp && r.st.arp[target] == frame.body.sha
            && (forall q :: ToPort(q) in r.targets ==> q in st.cfg.ports && st.cfg.ports[q])
  {
    assert AskerOf(st.asker, target, now) == who;
  }

  /** The node that asked reads the address out of the answer and passes it to no port. */
  lemma AnswerIsRead(st: NodeState, frame: Frame, src: Vtep, hops: nat, now: Time, target: Addr)
    requires IsAnswer(st.cfg, frame, target)
    ensures var r := FromOverlay(st, frame, src, hops, now);
            r.targets == {} && target in r.st.arp && r.st.arp[target] == frame.body.sha
  {
  }

  /** The segment's gateways share one MAC: the two nodes agree on it. */
  ghost predicate SharesGateway(net: Net, a: Vtep, b: Vtep) {
    && a in net.nodes && b in net.nodes
    && net.nodes[a].cfg.gateway.Some? && net.nodes[b].cfg.IsGatewayMac(net.nodes[a].cfg.gateway.value.mac)
  }

  lemma {:induction false} SteadyRunKeepsConfig(net: Net, steps: seq<Step>, v: Vtep)
    requires NetOk(net) && SteadyRun(net, steps) && v in net.nodes
    ensures RunOk(net, steps) && NetOk(Run(net, steps)) && v in Run(net, steps).nodes
    ensures Run(net, steps).nodes[v].cfg == net.nodes[v].cfg
    decreases steps
  {
    if |steps| > 0 {
      ApplyKeepsNetOk(net, steps[0]);
      ConfigStays(net, steps[0], v);
      SteadyRunKeepsConfig(Apply(net, steps[0]), steps[1..], v);
    }
  }

  lemma {:induction false} AskedRunIsSteady(net: Net, steps: seq<Step>, owner: Vtep, target: Addr, who: Vtep, lo: Time,
                                            hi: Time)
    requires AskedRun(net, steps, owner, target, who, lo, hi)
    ensures SteadyRun(net, steps)
    decreases steps
  {
    if |steps| > 0 {
      AskedRunIsSteady(Apply(net, steps[0]), steps[1..], owner, target, who, lo, hi);
    }
  }

  lemma AnswerEnters(net: Net, owner: Vtep, port: nat, id: nat, frame: Frame, hops: nat, now: Time, who: Vtep)
    requires NetOk(net) && Enabled(net, Send(owner, port, id, frame, hops, now))
    requires ToNode(who) in Egress(net.nodes[owner], port, frame, hops, now).targets
    ensures var net' := Apply(net, Send(owner, port, id, frame, hops, now));
            && Msg(id, who) in net'.flight && net'.crossed[Msg(id, who)] == 1
            && id in net'.origin && net'.origin[id] == Origin(owner, port, frame)
  {
    var r := Egress(net.nodes[owner], port, frame, hops, now);
    var mid := net.(origin := net.origin[id := Origin(owner, port, frame)]);
    CrossedAfter(mid, owner, id, r, Msg(id, who));
    assert net.crossed[Msg(id, who)] == 0;
  }

  lemma StepKeepsCrossing(net: Net, s: Step, m: Msg)
    requires NetOk(net) && Enabled(net, s) && net.crossed[m] == 1
    ensures Apply(net, s).crossed[m] == 1
  {
    ApplyKeepsNetOk(net, s);
  }

  lemma {:induction false} RunKeepsCrossing(net: Net, steps: seq<Step>, m: Msg)
    requires NetOk(net) && RunOk(net, steps) && net.crossed[m] == 1
    ensures Run(net, steps).crossed[m] == 1
    decreases steps
  {
    if |steps| > 0 {
      StepKeepsCrossing(net, steps[0], m);
      ApplyKeepsNetOk(net, steps[0]);
      RunKeepsCrossing(Apply(net, steps[0]), steps[1..], m);
    }
  }

  lemma ReadingTheAnswer(net: Net, id: nat, who: Vtep, frame: Frame, hops: nat, now: Time, target: Addr, q: nat)
    requires NetOk(net) && Enabled(net, Receive(Msg(id, who), hops, now))
    requires net.origin[id].frame == frame && IsAnswer(net.nodes[who].cfg, frame, target)
    ensures var net' := Apply(net, Receive(Msg(id, who), hops, now));
            && who in net'.nodes && target in net'.nodes[who].arp && net'.nodes[who].arp[target] == frame.body.sha
            && net'.log[Event(id, who, q)] == 0
  {
    var o := net.origin[id];
    AnswerIsRead(net.nodes[who], frame, o.node, hops, now, target);
    LogAfter(net.(flight := net.flight - {Msg(id, who)}), who, id,
             FromOverlay(net.nodes[who], frame, o.node, hops, now), Event(id, who, q));
  }

  /**
   * From the moment the owner's node has remembered that the gateway of `who`
   * asked: whatever else happens, as long as no other node asks and the owner
   * answers within the time to live, exactly one copy of the answer is sent to
   * `who`, whether or not a flood list names it; when it arrives, `who` has the
   * address resolved and no port of `who` is bothered.
   */
  lemma AskIsAnswered(net: Net, owner: Vtep, target: Addr, who: Vtep, lo: Time, hi: Time, waiting: seq<Step>,
                      port: nat, id: nat, frame: Frame, hops: nat, now: Time,
                      travelling: seq<Step>, rhops: nat, rnow: Time, q: nat)
    requires NetOk(net) && SharesGateway(net, who, owner) && net.nodes[owner].cfg.vxlanUp && who != 0
    requires Remembers(net.nodes[owner], target, who, lo, hi) && hi <= now < lo + ASKER_TTL
    requires AskedRun(net, waiting, owner, target, who, lo, hi)
    requires RunOk(net, waiting) && Enabled(Run(net, waiting), Send(owner, port, id, frame, hops, now))
    requires port in net.nodes[owner].cfg.ports && IsAnswer(net.nodes[owner].cfg, frame, target)
    requires SteadyRun(Apply(Run(net, waiting), Send(owner, port, id, frame, hops, now)), travelling)
    ensures var net1 := Apply(Run(net, waiting), Send(owner, port, id, frame, hops, now));
            && Msg(id, who) in net1.flight && RunOk(net1, travelling)
            && var net2 := Run(net1, travelling);
            && net2.crossed[Msg(id, who)] == 1
            && (Enabled(net2, Receive(Msg(id, who), rhops, rnow)) ==>
                  var net3 := Apply(net2, Receive(Msg(id, who), rhops, rnow));
                  && net3.crossed[Msg(id, who)] == 1 && net3.log[Event(id, who, q)] == 0
                  && who in net3.nodes && target in net3.nodes[who].arp
                  && net3.nodes[who].arp[target] == frame.body.sha)
  {
    RunKeepsRecord(net, waiting, owner, target, who, lo, hi);
    AskedRunIsSteady(net, waiting, owner, target, who, lo, hi);
    SteadyRunKeepsConfig(net, waiting, owner);
    SteadyRunKeepsConfig(net, waiting, who);
    AnswerTravels(Run(net, waiting), owner, target, who, lo, hi, port, id, frame, hops, now,
                  travelling, rhops, rnow, q);
  }

  /** The second half: from the answer being sent to its being read. */
  lemma AnswerTravels(net: Net, owner: Vtep, target: Addr, who: Vtep, lo: Time, hi: Time,
                      port: nat, id: nat, frame: Frame, hops: nat, now: Time,
                      travelling: seq<Step>, rhops: nat, rnow: Time, q: nat)
    requires NetOk(net) && SharesGateway(net, who, owner) && net.nodes[owner].cfg.vxlanUp && who != 0
    requires Remembers(net.nodes[owner], target, who, lo, hi) && hi <= now < lo + ASKER_TTL
    requires Enabled(net, Send(owner, port, id, frame, hops, now))
    requires port in net.nodes[owner].cfg.ports && IsAnswer(net.nodes[owner].cfg, frame, target)
    requires SteadyRun(Apply(net, Send(owner, port, id, frame, hops, now)), travelling)
    ensures var net1 := Apply(net, Send(owner, port, id, frame, hops, now));
            && Msg(id, who) in net1.flight && RunOk(net1, travelling)
            && var net2 := Run(net1, travelling);
            && net2.crossed[Msg(id, who)] == 1
            && (Enabled(net2, Receive(Msg(id, who), rhops, rnow)) ==>
                  var net3 := Apply(net2, Receive(Msg(id, who), rhops, rnow));
                  && net3.crossed[Msg(id, who)] == 1 && net3.log[Event(id, who, q)] == 0
                  && who in net3.nodes && target in net3.nodes[who].arp
                  && net3.nodes[who].arp[target] == frame.body.sha)
  {
    var s := Send(owner, port, id, frame, hops, now);
    AnswerIsSent(net.nodes[owner], port, frame, hops, now, target, who, lo, hi);
    AnswerEnters(net, owner, port, id, frame, hops, now, who);
    ApplyKeepsNetOk(net, s);
    ConfigStays(net, s, who);
    var net1 := Apply(net, s);
    SteadyRunKeepsConfig(net1, travelling, who);
    RunKeepsCrossing(net1, travelling, Msg(id, who));
    OriginIsKept(net1, travelling, id);
    var net2 := Run(net1, travelling);
    if Enabled(net2, Receive(Msg(id, who), rhops, rnow)) {
      ReadingTheAnswer(net2, id, who, frame, rhops, rnow, target, q);
      StepKeepsCrossing(net2, Receive(Msg(id, who), rhops, rnow), Msg(id, who));
    }
  }

  /** On the node that asked, the owner's answer resolves the address at once. */
  lemma LocalAnswerResolves(st: NodeState, port: nat, frame: Frame, hops: nat, now: Time, target: Addr)
    requires port in st.cfg.ports && IsAnswer(st.cfg, frame, target)
    ensures var r := Egress(st, port, frame, hops, now);
            target in r.st.arp && r.st.arp[target] == frame.body.sha
  {
  }

  /** The question arrives at the owner's node, which then remembers who asked. */
  lemma QuestionArrives(net: Net, id: nat, owner: Vtep, who: Vtep, asking: Config, target: Addr, hops: nat, now: Time)
    requires NetOk(net) && Enabled(net, Receive(Msg(id, owner), hops, now)) && target != 0 && who != 0
    requires asking.gateway.Some? && net.origin[id].node == who && net.origin[id].frame == AskFrame(asking, target)
    requires net.nodes[owner].cfg.IsGatewayMac(asking.gateway.value.mac)
    ensures var net' := Apply(net, Receive(Msg(id, owner), hops, now));
            owner in net'.nodes && Remembers(net'.nodes[owner], target, who, now, now)
  {
  }

  /**
   * From question to answer. The gateway of `who` asks; the question reaches the
   * owner's node at `heard`; no other node asks there and the owner answers
   * before the record expires. Then `who` is sent exactly one copy of the
   * answer, and once it has arrived `who` has the address resolved.
   */
  lemma GatewayGetsItsAnswer(net: Net, who: Vtep, gport: nat, askId: nat, packet: Frame, ahops: nat, anow: Time,
                             spreading: seq<Step>, owner: Vtep, ohops: nat, heard: Time, hi: Time, target: Addr,
                             waiting: seq<Step>, port: nat, id: nat, frame: Frame, hops: nat, now: Time,
                             travelling: seq<Step>, rhops: nat, rnow: Time, q: nat)
    requires NetOk(net) && who in net.nodes && packet.body == Ip(target) && target != 0
    requires Enabled(net, SendGateway(who, gport, askId, packet, ahops, anow))
    requires Asks(net.nodes[who], gport, target, anow)
    requires owner in net.nodes[who].cfg.remotes && SharesGateway(net, who, owner) && net.nodes[owner].cfg.vxlanUp
    requires var net1 := Apply(net, SendGateway(who, gport, askId, packet, ahops, anow));
             SteadyRun(net1, spreading) && RunOk(net1, spreading) &&
             Enabled(Run(net1, spreading), Receive(Msg(askId, owner), ohops, heard))
    requires heard <= hi <= now < heard + ASKER_TTL
    requires var net3 := Heard(net, who, gport, askId, packet, ahops, anow, spreading, owner, ohops, heard);
             && AskedRun(net3, waiting, owner, target, who, heard, hi)
             && RunOk(net3, waiting) && Enabled(Run(net3, waiting), Send(owner, port, id, frame, hops, now))
             && SteadyRun(Apply(Run(net3, waiting), Send(owner, port, id, frame, hops, now)), travelling)
    requires port in net.nodes[owner].cfg.ports && IsAnswer(net.nodes[owner].cfg, frame, target)
    ensures var net3 := Heard(net, who, gport, askId, packet, ahops, anow, spreading, owner, ohops, heard);
            var net4 := Apply(Run(net3, waiting), Send(owner, port, id, frame, hops, now));
            && Msg(id, who) in net4.flight && RunOk(net4, travelling)
            && var net5 := Run(net4, travelling);
            && net5.crossed[Msg(id, who)] == 1
            && (Enabled(net5, Receive(Msg(id, who), rhops, rnow)) ==>
                  var net6 := Apply(net5, Receive(Msg(id, who), rhops, rnow));
                  && net6.log[Event(id, who, q)] == 0
                  && who in net6.nodes && target in net6.nodes[who].arp
                  && net6.nodes[who].arp[target] == frame.body.sha)
  {
    HeardIsRemembered(net, who, gport, askId, packet, ahops, anow, spreading, owner, ohops, heard, target);
    var net3 := Heard(net, who, gport, askId, packet, ahops, anow, spreading, owner, ohops, heard);
    AskIsAnswered(net3, owner, target, who, heard, hi, waiting, port, id, frame, hops, now, travelling, rhops, rnow, q);
  }

  /** The segment once the question has been heard at the owner's node. */
  ghost function Heard(net: Net, who: Vtep, gport: nat, askId: nat, packet: Frame, ahops: nat, anow: Time,
                       spreading: seq<Step>, owner: Vtep, ohops: nat, heard: Time): Net
    requires Enabled(net, SendGateway(who, gport, askId, packet, ahops, anow))
    requires RunOk(Apply(net, SendGateway(who, gport, askId, packet, ahops, anow)), spreading)
    requires Enabled(Run(Apply(net, SendGateway(who, gport, askId, packet, ahops, anow)), spreading),
                     Receive(Msg(askId, owner), ohops, heard))
  {
    Apply(Run(Apply(net, SendGateway(who, gport, askId, packet, ahops, anow)), spreading),
          Receive(Msg(askId, owner), ohops, heard))
  }

  lemma HeardIsRemembered(net: Net, who: Vtep, gport: nat, askId: nat, packet: Frame, ahops: nat, anow: Time,
                          spreading: seq<Step>, owner: Vtep, ohops: nat, heard: Time, target: Addr)
    requires NetOk(net) && who in net.nodes && packet.body == Ip(target) && target != 0
    requires Enabled(net, SendGateway(who, gport, askId, packet, ahops, anow))
    requires Asks(net.nodes[who], gport, target, anow)
    requires owner in net.nodes[who].cfg.remotes && SharesGateway(net, who, owner)
    requires var net1 := Apply(net, SendGateway(who, gport, askId, packet, ahops, anow));
             SteadyRun(net1, spreading) && RunOk(net1, spreading) &&
             Enabled(Run(net1, spreading), Receive(Msg(askId, owner), ohops, heard))
    ensures var net3 := Heard(net, who, gport, askId, packet, ahops, anow, spreading, owner, ohops, heard);
            && NetOk(net3) && who != 0 && SharesGateway(net3, who, owner)
            && Remembers(net3.nodes[owner], target, who, heard, heard)
            && net3.nodes[owner].cfg == net.nodes[owner].cfg && net3.nodes[who].cfg == net.nodes[who].cfg
  {
    var s := SendGateway(who, gport, askId, packet, ahops, anow);
    var net1 := Apply(net, s);
    ApplyKeepsNetOk(net, s);
    QuestionIsSent(net, who, gport, askId, packet, ahops, anow, target, owner);
    ConfigStays(net, s, who);
    ConfigStays(net, s, owner);
    SteadyRunKeepsConfig(net1, spreading, who);
    SteadyRunKeepsConfig(net1, spreading, owner);
    OriginIsKept(net1, spreading, askId);
    var net2 := Run(net1, spreading);
    var r := Receive(Msg(askId, owner), ohops, heard);
    QuestionArrives(net2, askId, owner, who, net.nodes[who].cfg, target, ohops, heard);
    ApplyKeepsNetOk(net2, r);
    ConfigStays(net2, r, who);
    ConfigStays(net2, r, owner);
  }
}
