/**
 * Learning across the segment: once a host's broadcast has arrived everywhere,
 * every node knows its place, and keeps knowing it until the host's MAC is seen
 * somewhere else. A unicast to it then reaches its port and no other.
 */
module L2Placement {
  import opened Types
  import opened L2Switch
  import opened L2Network
  import opened L2Broadcast

  /** A host: its MAC, and the port it sits behind. */
  datatype Host = Host(mac: Mac, node: Vtep, port: nat)

  /** The node's table sends the host's MAC to where the host is. */
  predicate Placed(st: NodeState, h: Host) {
    && h.mac in st.fdb && !st.fdb[h.mac].gateway
    && (if st.cfg.self == h.node then st.fdb[h.mac].ifindex == h.port
        else st.fdb[h.mac].ifindex == 0 && st.fdb[h.mac].vtep == h.node)
  }

  ghost predicate NoGatewayEntry(net: Net, mac: Mac) {
    forall v :: v in net.nodes ==>
      !net.nodes[v].cfg.IsGatewayMac(mac) && (mac in net.nodes[v].fdb ==> !net.nodes[v].fdb[mac].gateway)
  }

  /** Every copy in flight with the host's source address left the host's node. */
  ghost predicate OnlyFromHome(net: Net, h: Host) {
    forall m :: m in net.flight && m.id in net.origin && net.origin[m.id].frame.src == h.mac ==>
      net.origin[m.id].node == h.node
  }

  /** All nodes but those in `unaware` know where the host is. */
  ghost predicate Known(net: Net, h: Host, unaware: set<Vtep>) {
    && h.node in net.nodes && h.port != 0 && h.node !in unaware
    && NoGatewayEntry(net, h.mac) && OnlyFromHome(net, h)
    && forall v :: v in net.nodes && v !in unaware ==> Placed(net.nodes[v], h)
  }

  /** The step does not show the host's MAC anywhere but at its port, nor forget it. */
  ghost predicate QuietFor(net: Net, s: Step, h: Host) {
    && Enabled(net, s) && KeepsConfig(net, s)
    && match s
       case Send(node, port, _, frame, _, _) => frame.src == h.mac ==> node == h.node && port == h.port
       case SendGateway(node, port, _, frame, hops, now) =>
         GatewayEgress(net.nodes[node], port, frame, hops, now).frame.src != h.mac
       case Receive(_, _, _) => true
       case Lose(_) => true
       case Change(node, st) =>
         (h.mac in st.fdb <==> h.mac in net.nodes[node].fdb) &&
         (h.mac in st.fdb ==> st.fdb[h.mac] == net.nodes[node].fdb[h.mac])
  }

  // ---- One table -----------------------------------------------------------

  lemma LearningOthersKeeps(st: NodeState, h: Host, mac: Mac, ifindex: nat, vtep: Vtep, now: Time)
    requires mac != h.mac
    ensures var fdb' := Learned(st.fdb, mac, ifindex, vtep, now);
            (h.mac in fdb' <==> h.mac in st.fdb) && (h.mac in fdb' ==> fdb'[h.mac] == st.fdb[h.mac])
  {
  }

  /** Seen at home, or from home over the overlay, the host is placed. */
  lemma LearningPlaces(st: NodeState, h: Host, ifindex: nat, vtep: Vtep, now: Time)
    requires h.mac in st.fdb ==> !st.fdb[h.mac].gateway
    requires ifindex != 0 || vtep != 0
    requires if st.cfg.self == h.node then ifindex == h.port else ifindex == 0 && vtep == h.node
    ensures Placed(st.(fdb := Learned(st.fdb, h.mac, ifindex, vtep, now)), h)
  {
  }

  // ---- The network ---------------------------------------------------------

  /** The nodes that learn the host's place from one step. */
  ghost function Informed(net: Net, s: Step, h: Host): set<Vtep> {
    if s.Receive? && s.msg.id in net.origin && net.origin[s.msg.id].frame.src == h.mac then {s.msg.dst} else {}
  }

  ghost predicate SameEntry(st: NodeState, st': NodeState, mac: Mac) {
    st'.cfg == st.cfg && (mac in st'.fdb <==> mac in st.fdb) && (mac in st'.fdb ==> st'.fdb[mac] == st.fdb[mac])
  }

  /** One node's table changed; the others kept theirs. */
  lemma NodeStepKeepsKnown(net: Net, net': Net, v: Vtep, h: Host, unaware: set<Vtep>, informed: set<Vtep>)
    requires Known(net, h, unaware) && OnlyFromHome(net', h) && v in net.nodes
    requires v in net'.nodes && net'.nodes == net.nodes[v := net'.nodes[v]]
    requires informed == {} ==> SameEntry(net.nodes[v], net'.nodes[v], h.mac) || Placed(net'.nodes[v], h)
    requires informed != {} ==> informed == {v} && Placed(net'.nodes[v], h)
    requires net'.nodes[v].cfg == net.nodes[v].cfg
    ensures Known(net', h, unaware - informed)
  {
    assert net'.nodes.Keys == net.nodes.Keys + {v};
  }

  lemma SendKeepsKnown(net: Net, node: Vtep, port: nat, id: nat, frame: Frame, hops: nat, now: Time, h: Host,
                       unaware: set<Vtep>)
    requires NetOk(net) && Known(net, h, unaware) && QuietFor(net, Send(node, port, id, frame, hops, now), h)
    ensures Known(Apply(net, Send(node, port, id, frame, hops, now)), h, unaware)
  {
    var st := net.nodes[node];
    var r := Egress(st, port, frame, hops, now);
    var net' := Enter(net, node, port, id, r);
    assert r.frame == frame && r.st.cfg == st.cfg;
    forall m | m in net'.flight && m.id in net'.origin && net'.origin[m.id].frame.src == h.mac
      ensures net'.origin[m.id].node == h.node
    {
      CrossedAfter(net.(origin := net'.origin), node, id, r, m);
    }
    if port in st.cfg.ports {
      if frame.src == h.mac {
        LearningPlaces(st, h, port, 0, now);
      } else {
        LearningOthersKeeps(st, h, frame.src, port, 0, now);
      }
    }
    NodeStepKeepsKnown(net, net', node, h, unaware, {});
  }

  lemma SendGatewayKeepsKnown(net: Net, node: Vtep, port: nat, id: nat, frame: Frame, hops: nat, now: Time, h: Host,
                              unaware: set<Vtep>)
    requires NetOk(net) && Known(net, h, unaware) && QuietFor(net, SendGateway(node, port, id, frame, hops, now), h)
    ensures Known(Apply(net, SendGateway(node, port, id, frame, hops, now)), h, unaware)
  {
    var r := GatewayEgress(net.nodes[node], port, frame, hops, now);
    var net' := Enter(net, node, port, id, r);
    forall m | m in net'.flight && m.id in net'.origin && net'.origin[m.id].frame.src == h.mac
      ensures net'.origin[m.id].node == h.node
    {
      CrossedAfter(net.(origin := net'.origin), node, id, r, m);
    }
    NodeStepKeepsKnown(net, net', node, h, unaware, {});
  }

  lemma ReceiveKeepsKnown(net: Net, msg: Msg, hops: nat, now: Time, h: Host, unaware: set<Vtep>)
    requires NetOk(net) && Known(net, h, unaware) && Enabled(net, Receive(msg, hops, now))
    ensures Known(Apply(net, Receive(msg, hops, now)), h, unaware - Informed(net, Receive(msg, hops, now), h))
  {
    var o, st := net.origin[msg.id], net.nodes[msg.dst];
    var r := FromOverlay(st, o.frame, o.node, hops, now);
    var net' := Apply(net, Receive(msg, hops, now));
    OverlayNeverRelays(st, o.frame, o.node, hops, now);
    forall m | m in net'.flight
      ensures m in net.flight
    {
      CrossedAfter(net.(flight := net.flight - {msg}), msg.dst, msg.id, r, m);
    }
    if o.frame.src == h.mac {
      assert o.node == h.node && msg.dst != h.node && h.node != 0;
      LearningPlaces(st, h, 0, o.node, now);
    } else {
      LearningOthersKeeps(st, h, o.frame.src, 0, o.node, now);
    }
    NodeStepKeepsKnown(net, net', msg.dst, h, unaware, Informed(net, Receive(msg, hops, now), h));
  }

  lemma ApplyKeepsKnown(net: Net, s: Step, h: Host, unaware: set<Vtep>)
    requires NetOk(net) && Known(net, h, unaware) && QuietFor(net, s, h)
    ensures Known(Apply(net, s), h, unaware - Informed(net, s, h))
  {
    match s
    case Send(node, port, id, frame, hops, now) =>
      SendKeepsKnown(net, node, port, id, frame, hops, now, h, unaware);
      assert unaware - {} == unaware;
    case SendGateway(node, port, id, frame, hops, now) =>
      SendGatewayKeepsKnown(net, node, port, id, frame, hops, now, h, unaware);
      assert unaware - {} == unaware;
    case Receive(msg, hops, now) =>
      ReceiveKeepsKnown(net, msg, hops, now, h, unaware);
    case Lose(msg) =>
      assert unaware - {} == unaware;
    case Change(node, st) =>
      NodeStepKeepsKnown(net, Apply(net, s), node, h, unaware, {});
  }

  ghost predicate QuietRun(net: Net, steps: seq<Step>, h: Host)
    decreases steps
  {
    |steps| == 0 || (QuietFor(net, steps[0], h) && QuietRun(Apply(net, steps[0]), steps[1..], h))
  }

  // ---- A broadcast teaches every node --------------------------------------

  /** The nodes a broadcast has not reached yet. */
  ghost function Unaware(net: Net, id: nat, h: Host): set<Vtep> {
    set v | v in net.nodes && v != h.node && Pending(net, id, v)
  }

  lemma KnowingMoreIsFine(net: Net, h: Host, fewer: set<Vtep>, more: set<Vtep>)
    requires Known(net, h, fewer) && fewer <= more && h.node !in more
    ensures Known(net, h, more)
  {
  }

  /** A copy stays pending until its node receives it. */
  lemma PendingIsKept(net: Net, s: Step, id: nat, v: Vtep)
    requires Enabled(net, s) && Pending(net, id, v)
    ensures Pending(Apply(net, s), id, v) || (s.Receive? && s.msg == Msg(id, v))
    ensures Apply(net, s).nodes.Keys == net.nodes.Keys
  {
  }

  lemma ApplyKeepsTeaching(net: Net, s: Step, h: Host, id: nat)
    requires NetOk(net) && Known(net, h, Unaware(net, id, h)) && QuietFor(net, s, h)
    requires id in net.origin && net.origin[id].frame.src == h.mac
    ensures Known(Apply(net, s), h, Unaware(Apply(net, s), id, h))
  {
    ApplyKeepsKnown(net, s, h, Unaware(net, id, h));
    var net' := Apply(net, s);
    var fewer := Unaware(net, id, h) - Informed(net, s, h);
    forall v | v in fewer
      ensures v in Unaware(net', id, h)
    {
      PendingIsKept(net, s, id, v);
    }
    KnowingMoreIsFine(net', h, fewer, Unaware(net', id, h));
  }

  lemma OriginStays(net: Net, s: Step, id: nat)
    requires Enabled(net, s) && id in net.origin
    ensures id in Apply(net, s).origin && Apply(net, s).origin[id] == net.origin[id]
  {
  }

  lemma {:induction false} RunKeepsTeaching(net: Net, steps: seq<Step>, h: Host, id: nat)
    requires NetOk(net) && Known(net, h, Unaware(net, id, h)) && QuietRun(net, steps, h)
    requires id in net.origin && net.origin[id].frame.src == h.mac
    ensures RunOk(net, steps) && NetOk(Run(net, steps)) && Known(Run(net, steps), h, Unaware(Run(net, steps), id, h))
    decreases steps
  {
    if |steps| > 0 {
      ApplyKeepsNetOk(net, steps[0]);
      ApplyKeepsTeaching(net, steps[0], h, id);
      OriginStays(net, steps[0], id);
      RunKeepsTeaching(Apply(net, steps[0]), steps[1..], h, id);
    }
  }

  lemma BroadcastBeginsTeaching(net: Net, h: Host, id: nat, frame: Frame, hops: nat, now: Time)
    requires NetOk(net) && Complete(net) && Enabled(net, Send(h.node, h.port, id, frame, hops, now))
    requires IsBum(frame.dst) && frame.src == h.mac && h.port in net.nodes[h.node].cfg.ports
    requires NoGatewayEntry(net, h.mac) && OnlyFromHome(net, h)
    ensures var net' := Apply(net, Send(h.node, h.port, id, frame, hops, now));
            Known(net', h, Unaware(net', id, h)) && net'.origin[id].frame == frame
  {
    var st := net.nodes[h.node];
    var r := Egress(st, h.port, frame, hops, now);
    var net' := Enter(net, h.node, h.port, id, r);
    BroadcastIsFlooded(st, h.port, frame, hops, now);
    LearningPlaces(st, h, h.port, 0, now);
    forall m | m in net'.flight && m.id in net'.origin && net'.origin[m.id].frame.src == h.mac
      ensures net'.origin[m.id].node == h.node
    {
      CrossedAfter(net.(origin := net'.origin), h.node, id, r, m);
    }
    forall v | v in net'.nodes && v != h.node
      ensures Pending(net', id, v)
    {
      CrossedAfter(net.(origin := net'.origin), h.node, id, r, Msg(id, v));
      FloodReaches(st.cfg, h.port, hops, v, h.port);
    }
  }

  /** After a host's broadcast, every node its copies have reached knows where the host is. */
  lemma BroadcastTeachesAll(net: Net, h: Host, id: nat, frame: Frame, hops: nat, now: Time, steps: seq<Step>)
    requires NetOk(net) && Complete(net) && Enabled(net, Send(h.node, h.port, id, frame, hops, now))
    requires IsBum(frame.dst) && frame.src == h.mac && h.port in net.nodes[h.node].cfg.ports
    requires NoGatewayEntry(net, h.mac) && OnlyFromHome(net, h)
    requires QuietRun(Apply(net, Send(h.node, h.port, id, frame, hops, now)), steps, h)
    ensures var net1 := Apply(net, Send(h.node, h.port, id, frame, hops, now));
            && RunOk(net1, steps)
            && var net' := Run(net1, steps);
            && NetOk(net') && Known(net', h, Unaware(net', id, h))
            && ((forall v :: v in net'.nodes ==> !Pending(net', id, v)) ==> Known(net', h, {}))
  {
    var net1 := Apply(net, Send(h.node, h.port, id, frame, hops, now));
    ApplyKeepsNetOk(net, Send(h.node, h.port, id, frame, hops, now));
    BroadcastBeginsTeaching(net, h, id, frame, hops, now);
    RunKeepsTeaching(net1, steps, h, id);
    var net' := Run(net1, steps);
    if forall v :: v in net'.nodes ==> !Pending(net', id, v) {
      assert Unaware(net', id, h) == {};
    }
  }

  // ---- A unicast reaches one port ------------------------------------------

  /** Frame `id` has gone to the host's port, or is on its way there, and nowhere else. */
  ghost predicate Aimed(net: Net, id: nat, h: Host) {
    && id in net.origin && net.origin[id].frame.dst == h.mac
    && (forall e: Event :: e.id == id ==>
          net.log[e] == if e == Event(id, h.node, h.port) && !Pending(net, id, h.node) then 1 else 0)
    && (forall m :: m in net.flight && m.id == id ==> m.dst == h.node)
  }

  lemma PlacedUnicast(st: NodeState, h: Host, from: From, hops: nat)
    requires Placed(st, h) && !IsBum(h.mac) && h.port != 0 && st.cfg.vxlanUp
    requires st.cfg.self == h.node ==> from.ifindex != h.port
    requires from.overlay ==> st.cfg.self == h.node
    ensures Forwarded(st, h.mac, from, hops) == {if st.cfg.self == h.node then ToPort(h.port) else ToNode(h.node)}
  {
  }

  /** Where the host's node is told apart from every other. */
  function TowardsHost(node: Vtep, h: Host): Target {
    if node == h.node then ToPort(h.port) else ToNode(h.node)
  }

  lemma UnicastGoesTowardsHost(st: NodeState, h: Host, port: nat, frame: Frame, hops: nat, now: Time)
    requires Placed(st, h) && !IsBum(h.mac) && h.port != 0 && st.cfg.vxlanUp && !st.cfg.IsGatewayMac(h.mac)
    requires port in st.cfg.ports && frame.dst == h.mac && frame.src != h.mac
    requires st.cfg.self == h.node ==> port != h.port
    ensures Egress(st, port, frame, hops, now).targets == {TowardsHost(st.cfg.self, h)}
  {
    LearningOthersKeeps(st, h, frame.src, port, 0, now);
    PlacedUnicast(Egress(st, port, frame, hops, now).st, h, From(port, false), hops);
  }

  lemma EnterAimed(net: Net, node: Vtep, port: nat, id: nat, r: Sent, h: Host)
    requires MayEnter(net, node, port, id, r) && r.targets == {TowardsHost(node, h)} && r.frame.dst == h.mac
    ensures Aimed(Enter(net, node, port, id, r), id, h)
  {
    var net' := Enter(net, node, port, id, r);
    var mid := net.(origin := net'.origin);
    CrossedAfter(mid, node, id, r, Msg(id, h.node));
    forall e: Event | e.id == id
      ensures net'.log[e] == if e == Event(id, h.node, h.port) && !Pending(net', id, h.node) then 1 else 0
    {
      LogAfter(mid, node, id, r, e);
      assert net.log[e] == 0;
    }
    forall m | m in net'.flight && m.id == id
      ensures m.dst == h.node
    {
      CrossedAfter(mid, node, id, r, m);
    }
  }

  lemma UnicastStarts(net: Net, h: Host, node: Vtep, port: nat, id: nat, frame: Frame, hops: nat, now: Time)
    requires NetOk(net) && Known(net, h, {}) && QuietFor(net, Send(node, port, id, frame, hops, now), h)
    requires port in net.nodes[node].cfg.ports && net.nodes[node].cfg.vxlanUp && (node, port) != (h.node, h.port)
    requires frame.dst == h.mac && !IsBum(h.mac)
    ensures Aimed(Apply(net, Send(node, port, id, frame, hops, now)), id, h)
  {
    UnicastGoesTowardsHost(net.nodes[node], h, port, frame, hops, now);
    EgressStaysApart(net.nodes[node], port, frame, hops, now);
    EnterAimed(net, node, port, id, Egress(net.nodes[node], port, frame, hops, now), h);
  }

  lemma EnterKeepsAimed(net: Net, node: Vtep, port: nat, other: nat, r: Sent, id: nat, h: Host)
    requires MayEnter(net, node, port, other, r) && Aimed(net, id, h)
    ensures Aimed(Enter(net, node, port, other, r), id, h)
  {
    var net' := Enter(net, node, port, other, r);
    forall e: Event | e.id == id
      ensures net'.log[e] == net.log[e]
    {
      LogAfter(net.(origin := net'.origin), node, other, r, e);
    }
    forall m: Msg | m.id == id
      ensures m in net'.flight <==> m in net.flight
    {
      CrossedAfter(net.(origin := net'.origin), node, other, r, m);
    }
  }

  lemma ReceiveKeepsAimed(net: Net, msg: Msg, hops: nat, now: Time, id: nat, h: Host)
    requires NetOk(net) && Known(net, h, {}) && Aimed(net, id, h) && Enabled(net, Receive(msg, hops, now))
    requires !IsBum(h.mac) && net.nodes[h.node].cfg.vxlanUp
    ensures Aimed(Apply(net, Receive(msg, hops, now)), id, h)
  {
    var o, st := net.origin[msg.id], net.nodes[msg.dst];
    var r := FromOverlay(st, o.frame, o.node, hops, now);
    var mid := net.(flight := net.flight - {msg});
    var net' := Apply(net, Receive(msg, hops, now));
    OverlayNeverRelays(st, o.frame, o.node, hops, now);
    if msg.id == id {
      LearningOthersKeeps(st, h, o.frame.src, 0, o.node, now);
      PlacedUnicast(r.st, h, OVERLAY, hops);
      assert r.targets == {ToPort(h.port)};
    }
    forall e: Event | e.id == id
      ensures net'.log[e] == if e == Event(id, h.node, h.port) && !Pending(net', id, h.node) then 1 else 0
    {
      LogAfter(mid, msg.dst, msg.id, r, e);
      CrossedAfter(mid, msg.dst, msg.id, r, Msg(id, h.node));
    }
    forall m: Msg | m in net'.flight
      ensures m in net.flight
    {
      CrossedAfter(mid, msg.dst, msg.id, r, m);
    }
  }

  lemma ApplyKeepsAimed(net: Net, s: Step, id: nat, h: Host)
    requires NetOk(net) && Known(net, h, {}) && Aimed(net, id, h) && QuietFor(net, s, h)
    requires !IsBum(h.mac) && net.nodes[h.node].cfg.vxlanUp
    ensures Aimed(Apply(net, s), id, h)
  {
    match s
    case Send(node, port, other, frame, hops, now) =>
      EgressStaysApart(net.nodes[node], port, frame, hops, now);
      EnterKeepsAimed(net, node, port, other, Egress(net.nodes[node], port, frame, hops, now), id, h);
    case SendGateway(node, port, other, frame, hops, now) =>
      GatewayStaysApart(net.nodes[node], port, frame, hops, now);
      EnterKeepsAimed(net, node, port, other, GatewayEgress(net.nodes[node], port, frame, hops, now), id, h);
    case Receive(msg, hops, now) =>
      ReceiveKeepsAimed(net, msg, hops, now, id, h);
    case Lose(msg) =>
    case Change(node, st) =>
  }

  lemma {:induction false} RunKeepsAimed(net: Net, steps: seq<Step>, id: nat, h: Host)
    requires NetOk(net) && Known(net, h, {}) && Aimed(net, id, h) && QuietRun(net, steps, h)
    requires !IsBum(h.mac) && net.nodes[h.node].cfg.vxlanUp
    ensures RunOk(net, steps) && Aimed(Run(net, steps), id, h)
    decreases steps
  {
    if |steps| > 0 {
      var net1 := Apply(net, steps[0]);
      ApplyKeepsNetOk(net, steps[0]);
      ApplyKeepsKnown(net, steps[0], h, {});
      KnowingMoreIsFine(net1, h, {} - Informed(net, steps[0], h), {});
      ApplyKeepsAimed(net, steps[0], id, h);
      ConfigStays(net, steps[0], h.node);
      RunKeepsAimed(net1, steps[1..], id, h);
    }
  }

  /**
   * Once every node knows the host, and until its MAC is seen elsewhere: a
   * unicast to it from any other port of any node reaches the host's port
   * exactly once when it is not lost on the way, and no other port ever.
   */
  lemma UnicastReachesOnlyItsPort(net: Net, h: Host, node: Vtep, port: nat, id: nat, frame: Frame, hops: nat, now: Time,
                                  steps: seq<Step>, v: Vtep, q: nat)
    requires NetOk(net) && Known(net, h, {}) && QuietFor(net, Send(node, port, id, frame, hops, now), h)
    requires port in net.nodes[node].cfg.ports && (node, port) != (h.node, h.port)
    requires net.nodes[node].cfg.vxlanUp && net.nodes[h.node].cfg.vxlanUp
    requires frame.dst == h.mac && !IsBum(h.mac)
    requires QuietRun(Apply(net, Send(node, port, id, frame, hops, now)), steps, h)
    ensures var net1 := Apply(net, Send(node, port, id, frame, hops, now));
            && RunOk(net1, steps)
            && var net' := Run(net1, steps);
            net'.log[Event(id, v, q)] == if (v, q) == (h.node, h.port) && !Pending(net', id, h.node) then 1 else 0
  {
    var s := Send(node, port, id, frame, hops, now);
    UnicastStarts(net, h, node, port, id, frame, hops, now);
    ApplyKeepsNetOk(net, s);
    ApplyKeepsKnown(net, s, h, {});
    KnowingMoreIsFine(Apply(net, s), h, {} - Informed(net, s, h), {});
    ConfigStays(net, s, h.node);
    RunKeepsAimed(Apply(net, s), steps, id, h);
  }

  /** The same for a packet the gateway of any node puts on the segment. */
  lemma GatewayUnicastReachesOnlyItsPort(net: Net, h: Host, node: Vtep, port: nat, id: nat, frame: Frame, hops: nat,
                                         now: Time,
                                         steps: seq<Step>, v: Vtep, q: nat)
    requires NetOk(net) && Known(net, h, {}) && QuietFor(net, SendGateway(node, port, id, frame, hops, now), h)
    requires port in net.nodes[node].cfg.ports && (node, port) != (h.node, h.port)
    requires net.nodes[node].cfg.gateway.Some? && net.nodes[node].cfg.gateway.value.ifindex == port
    requires frame.body.Ip? && frame.body.daddr in net.nodes[node].arp && net.nodes[node].arp[frame.body.daddr] == h.mac
    requires net.nodes[node].cfg.vxlanUp && net.nodes[h.node].cfg.vxlanUp && !IsBum(h.mac)
    requires QuietRun(Apply(net, SendGateway(node, port, id, frame, hops, now)), steps, h)
    ensures var net1 := Apply(net, SendGateway(node, port, id, frame, hops, now));
            && RunOk(net1, steps)
            && var net' := Run(net1, steps);
            net'.log[Event(id, v, q)] == if (v, q) == (h.node, h.port) && !Pending(net', id, h.node) then 1 else 0
  {
    var s := SendGateway(node, port, id, frame, hops, now);
    GatewayUnicastGoesTowardsHost(net.nodes[node], h, port, frame, hops, now);
    GatewayStaysApart(net.nodes[node], port, frame, hops, now);
    EnterAimed(net, node, port, id, GatewayEgress(net.nodes[node], port, frame, hops, now), h);
    ApplyKeepsNetOk(net, s);
    SendGatewayKeepsKnown(net, node, port, id, frame, hops, now, h, {});
    ConfigStays(net, s, h.node);
    RunKeepsAimed(Apply(net, s), steps, id, h);
  }

  lemma GatewayUnicastGoesTowardsHost(st: NodeState, h: Host, port: nat, frame: Frame, hops: nat, now: Time)
    requires Placed(st, h) && !IsBum(h.mac) && h.port != 0 && st.cfg.vxlanUp
    requires port in st.cfg.ports && st.cfg.gateway.Some? && st.cfg.gateway.value.ifindex == port
    requires frame.body.Ip? && frame.body.daddr in st.arp && st.arp[frame.body.daddr] == h.mac
    requires st.cfg.self == h.node ==> port != h.port
    ensures var r := GatewayEgress(st, port, frame, hops, now);
            r.targets == {TowardsHost(st.cfg.self, h)} && r.frame.dst == h.mac
  {
    PlacedUnicast(st, h, From(port, false), hops);
  }
}
