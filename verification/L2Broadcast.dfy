/**
 * What a broadcast does to the whole segment: it reaches every other workload
 * port exactly once, and from then on a unicast to its sender reaches one port.
 */
module L2Broadcast {
  import opened Types
  import opened L2Switch
  import opened L2Network

  // ---- Exactly once --------------------------------------------------------

  /** Every node's flood list names every other node, and its tunnel device is up. */
  ghost predicate Complete(net: Net) {
    forall u :: u in net.nodes ==>
      net.nodes[u].cfg.vxlanUp && forall v :: v in net.nodes && v != u ==> v in net.nodes[u].cfg.remotes
  }

  /** Tables may change, the configuration may not. */
  ghost predicate KeepsConfig(net: Net, s: Step) {
    s.Change? && s.node in net.nodes ==> s.st.cfg == net.nodes[s.node].cfg
  }

  predicate Pending(net: Net, id: nat, v: Vtep) {
    Msg(id, v) in net.flight || Msg(id, v) in net.lost
  }

  /** How many copies of a broadcast a port has had, as long as copies are under way. */
  function Due(net: Net, id: nat, hops: nat, v: Vtep, q: nat): nat
    requires id in net.origin && v in net.nodes && q in net.nodes[v].cfg.ports
  {
    var o, gateway := net.origin[id], net.nodes[v].cfg.ports[q];
    if v == o.node then if q == o.port || (gateway && hops >= MAX_HOPS) then 0 else 1
    else if gateway || Pending(net, id, v) then 0 else 1
  }

  /** The log holds exactly the copies of broadcast `id` that are due. */
  ghost predicate Flooding(net: Net, id: nat, hops: nat) {
    && id in net.origin && IsBum(net.origin[id].frame.dst)
    && forall v, q | v in net.nodes && q in net.nodes[v].cfg.ports ::
         net.log[Event(id, v, q)] == Due(net, id, hops, v, q)
  }

  lemma FloodReaches(cfg: Config, port: nat, hops: nat, v: Vtep, q: nat)
    requires cfg.vxlanUp && q in cfg.ports
    ensures var targets := FloodTargets(cfg, From(port, false), false, 0, hops);
            && (ToPort(q) in targets <==> q != port && (cfg.ports[q] ==> hops < MAX_HOPS))
            && (ToNode(v) in targets <==> v in cfg.remotes)
  {
  }

  lemma BroadcastIsFlooded(st: NodeState, port: nat, frame: Frame, hops: nat, now: Time)
    requires NodeOk(st) && IsBum(frame.dst) && port in st.cfg.ports
    ensures var r := Egress(st, port, frame, hops, now);
            && r.targets == FloodTargets(st.cfg, From(port, false), false, 0, hops)
            && r.frame == frame && r.st.cfg == st.cfg
  {
    assert !AnswersGateway(st.cfg, frame);
  }

  lemma BroadcastStarts(net: Net, node: Vtep, port: nat, id: nat, frame: Frame, hops: nat, now: Time)
    requires NetOk(net) && Complete(net) && Enabled(net, Send(node, port, id, frame, hops, now))
    requires IsBum(frame.dst) && port in net.nodes[node].cfg.ports
    ensures Flooding(Apply(net, Send(node, port, id, frame, hops, now)), id, hops)
  {
    var cfg := net.nodes[node].cfg;
    BroadcastIsFlooded(net.nodes[node], port, frame, hops, now);
    var r := Egress(net.nodes[node], port, frame, hops, now);
    var net' := Enter(net, node, port, id, r);
    forall v, q | v in net'.nodes && q in net'.nodes[v].cfg.ports
      ensures net'.log[Event(id, v, q)] == Due(net', id, hops, v, q)
    {
      LogAfter(net.(origin := net'.origin), node, id, r, Event(id, v, q));
      CrossedAfter(net.(origin := net'.origin), node, id, r, Msg(id, v));
      FloodReaches(cfg, port, hops, v, if v == node then q else port);
    }
  }

  /** A node that receives the broadcast copies it to its workload ports, and nothing else. */
  lemma ReceivedBroadcast(st: NodeState, frame: Frame, src: Vtep, hops: nat, now: Time, q: nat)
    requires NodeOk(st) && IsBum(frame.dst) && q in st.cfg.ports
    ensures ToPort(q) in FromOverlay(st, frame, src, hops, now).targets <==> !st.cfg.ports[q]
  {
    assert !AnswersGateway(st.cfg, frame);
    assert FromOverlay(st, frame, src, hops, now).targets == FloodTargets(st.cfg, OVERLAY, false, 0, hops);
  }

  lemma ReceiveKeepsFlooding(net: Net, msg: Msg, rhops: nat, now: Time, id: nat, hops: nat)
    requires NetOk(net) && Flooding(net, id, hops) && Enabled(net, Receive(msg, rhops, now))
    ensures Flooding(Apply(net, Receive(msg, rhops, now)), id, hops)
  {
    var o := net.origin[msg.id];
    var r := FromOverlay(net.nodes[msg.dst], o.frame, o.node, rhops, now);
    var net' := Apply(net, Receive(msg, rhops, now));
    OverlayNeverRelays(net.nodes[msg.dst], o.frame, o.node, rhops, now);
    forall v, q | v in net'.nodes && q in net'.nodes[v].cfg.ports
      ensures net'.log[Event(id, v, q)] == Due(net', id, hops, v, q)
    {
      LogAfter(net.(flight := net.flight - {msg}), msg.dst, msg.id, r, Event(id, v, q));
      CrossedAfter(net.(flight := net.flight - {msg}), msg.dst, msg.id, r, Msg(id, v));
      if msg == Msg(id, v) {
        ReceivedBroadcast(net.nodes[v], o.frame, o.node, rhops, now, q);
      }
    }
  }

  /** Other frames leave the record of this one alone. */
  lemma EnterKeepsFlooding(net: Net, node: Vtep, port: nat, other: nat, r: Sent, id: nat, hops: nat)
    requires MayEnter(net, node, port, other, r) && Flooding(net, id, hops) && r.st.cfg == net.nodes[node].cfg
    ensures Flooding(Enter(net, node, port, other, r), id, hops)
  {
    var net' := Enter(net, node, port, other, r);
    forall v, q | v in net'.nodes && q in net'.nodes[v].cfg.ports
      ensures net'.log[Event(id, v, q)] == Due(net', id, hops, v, q)
    {
      LogAfter(net.(origin := net'.origin), node, other, r, Event(id, v, q));
      CrossedAfter(net.(origin := net'.origin), node, other, r, Msg(id, v));
    }
  }

  lemma ApplyKeepsFlooding(net: Net, s: Step, id: nat, hops: nat)
    requires NetOk(net) && Flooding(net, id, hops) && Enabled(net, s) && KeepsConfig(net, s)
    ensures Flooding(Apply(net, s), id, hops)
  {
    match s
    case Send(node, port, other, frame, fhops, now) =>
      EgressStaysApart(net.nodes[node], port, frame, fhops, now);
      EnterKeepsFlooding(net, node, port, other, Egress(net.nodes[node], port, frame, fhops, now), id, hops);
    case SendGateway(node, port, other, frame, fhops, now) =>
      GatewayStaysApart(net.nodes[node], port, frame, fhops, now);
      EnterKeepsFlooding(net, node, port, other, GatewayEgress(net.nodes[node], port, frame, fhops, now), id, hops);
    case Receive(msg, rhops, now) =>
      ReceiveKeepsFlooding(net, msg, rhops, now, id, hops);
    case Lose(msg) =>
    case Change(node, st) =>
  }

  lemma ConfigStays(net: Net, s: Step, v: Vtep)
    requires NetOk(net) && Enabled(net, s) && KeepsConfig(net, s) && v in net.nodes
    ensures v in Apply(net, s).nodes && Apply(net, s).nodes[v].cfg == net.nodes[v].cfg
  {
    match s
    case Send(node, port, id, frame, hops, now) => EgressStaysApart(net.nodes[node], port, frame, hops, now);
    case SendGateway(node, port, id, frame, hops, now) => GatewayStaysApart(net.nodes[node], port, frame, hops, now);
    case Receive(msg, hops, now) =>
      OverlayNeverRelays(net.nodes[msg.dst], net.origin[msg.id].frame, net.origin[msg.id].node, hops, now);
    case Lose(_) =>
    case Change(_, _) =>
  }

  /** Every step of the run leaves each node's configuration as it is. */
  ghost predicate SteadyRun(net: Net, steps: seq<Step>)
    decreases steps
  {
    |steps| == 0 ||
    (Enabled(net, steps[0]) && KeepsConfig(net, steps[0]) && SteadyRun(Apply(net, steps[0]), steps[1..]))
  }

  lemma {:induction false} SteadyRunKeepsFlooding(net: Net, steps: seq<Step>, id: nat, hops: nat)
    requires NetOk(net) && Flooding(net, id, hops) && SteadyRun(net, steps)
    ensures RunOk(net, steps) && NetOk(Run(net, steps)) && Flooding(Run(net, steps), id, hops)
    decreases steps
  {
    if |steps| > 0 {
      ApplyKeepsNetOk(net, steps[0]);
      ApplyKeepsFlooding(net, steps[0], id, hops);
      SteadyRunKeepsFlooding(Apply(net, steps[0]), steps[1..], id, hops);
    }
  }

  /**
   * A broadcast whose copies have all arrived reached every other workload port
   * exactly once, the gateway of its own node once unless the hop count is at
   * its limit, and no other gateway.
   */
  lemma BroadcastReachesAll(net: Net, node: Vtep, port: nat, id: nat, frame: Frame, hops: nat, now: Time,
                            steps: seq<Step>, v: Vtep, q: nat)
    requires NetOk(net) && Complete(net) && Enabled(net, Send(node, port, id, frame, hops, now))
    requires IsBum(frame.dst) && port in net.nodes[node].cfg.ports
    requires SteadyRun(Apply(net, Send(node, port, id, frame, hops, now)), steps)
    ensures var net1 := Apply(net, Send(node, port, id, frame, hops, now));
            && RunOk(net1, steps)
            && var net' := Run(net1, steps);
            (!Pending(net', id, v) && v in net'.nodes && q in net'.nodes[v].cfg.ports ==>
               net'.log[Event(id, v, q)] ==
               if (v, q) == (node, port) || (net'.nodes[v].cfg.ports[q] && (v != node || hops >= MAX_HOPS)) then 0
               else 1)
  {
    var s := Send(node, port, id, frame, hops, now);
    ApplyKeepsNetOk(net, s);
    BroadcastStarts(net, node, port, id, frame, hops, now);
    SteadyRunKeepsFlooding(Apply(net, s), steps, id, hops);
    OriginIsKept(Apply(net, s), steps, id);
  }

  lemma {:induction false} OriginIsKept(net: Net, steps: seq<Step>, id: nat)
    requires id in net.origin && RunOk(net, steps)
    ensures id in Run(net, steps).origin && Run(net, steps).origin[id] == net.origin[id]
    decreases steps
  {
    if |steps| > 0 {
      OriginIsKept(Apply(net, steps[0]), steps[1..], id);
    }
  }
}
