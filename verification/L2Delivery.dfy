/**
 * Where each kind of frame goes, told from the tables alone: for every hook and
 * every destination, exactly the ports and nodes that get a copy.
 */
module L2Delivery {
  import opened Types
  import opened L2Switch
  import opened L2Network

  /** A group address: the low bit of its first octet is set. */
  predicate Group(mac: Mac) {
    mac.first % 2 != 0
  }

  /** An ARP reply to the gateway's own MAC. */
  predicate AnswerTo(cfg: Config, frame: Frame) {
    && frame.body.Arp? && frame.body.op == Reply
    && cfg.gateway.Some? && frame.dst == cfg.gateway.value.mac
  }

  /** Flooded from a port: every other workload port, a gateway port below four hand-offs, every node of the list. */
  ghost predicate FloodedFrom(cfg: Config, port: nat, hops: nat, targets: set<Target>) {
    && (forall q: nat :: ToPort(q) in targets <==> q in cfg.ports && q != port && (cfg.ports[q] ==> hops < 4))
    && (forall v: Vtep :: ToNode(v) in targets <==> cfg.vxlanUp && v in cfg.remotes)
  }

  /** Sent to the place of the entry: a port other than its own, a gateway below four hand-offs, or one node. */
  ghost predicate SentTo(cfg: Config, e: FdbVal, port: nat, hops: nat, targets: set<Target>) {
    targets ==
    if e.ifindex != 0 then (if e.ifindex != port && (e.gateway ==> hops < 4) then {ToPort(e.ifindex)} else {})
    else if cfg.vxlanUp then {ToNode(e.vtep)} else {}
  }

  /** A frame put on the segment at a port, with `fdb` the addresses known then. */
  ghost predicate Routed(cfg: Config, fdb: map<Mac, FdbVal>, dst: Mac, port: nat, hops: nat, targets: set<Target>) {
    if Group(dst) || dst !in fdb then FloodedFrom(cfg, port, hops, targets)
    else SentTo(cfg, fdb[dst], port, hops, targets)
  }

  lemma ForwardedIsRouted(st: NodeState, dst: Mac, port: nat, hops: nat)
    ensures Routed(st.cfg, st.fdb, dst, port, hops, Forwarded(st, dst, From(port, false), hops))
  {
  }

  /** One address was seen at a place: its entry says so, a second old at most, and a gateway's entry never moves. */
  ghost predicate Sighted(fdb: map<Mac, FdbVal>, fdb': map<Mac, FdbVal>, mac: Mac, ifindex: nat, vtep: Vtep,
                          now: Time) {
    && (forall m :: m != mac ==> (m in fdb' <==> m in fdb) && (m in fdb ==> fdb'[m] == fdb[m]))
    && mac in fdb'
    && if mac in fdb && (fdb[mac].gateway || (fdb[mac].ifindex == ifindex && fdb[mac].vtep == vtep &&
                                              Elapsed(now, fdb[mac].seen) < 1_000_000_000))
       then fdb'[mac] == fdb[mac]
       else fdb'[mac] == FdbVal(ifindex, vtep, false, now)
  }

  // ---- The workload hook ---------------------------------------------------

  /**
   * A workload's frame that answers no gateway. Group addresses and MACs in no
   * table are flooded, a known MAC gets the frame at its one place; one sent to
   * its own source address goes nowhere, unless the gateway's entry has it.
   */
  lemma WorkloadFrameGoes(st: NodeState, port: nat, frame: Frame, hops: nat, now: Time)
    requires NodeOk(st) && port in st.cfg.ports && !AnswerTo(st.cfg, frame)
    ensures var targets := Egress(st, port, frame, hops, now).targets;
            if frame.src == frame.dst && !Group(frame.dst) && !(frame.dst in st.fdb && st.fdb[frame.dst].gateway) then
              targets == {}
            else Routed(st.cfg, st.fdb, frame.dst, port, hops, targets)
  {
    var st1 := Egress(st, port, frame, hops, now).st;
    ForwardedIsRouted(st1, frame.dst, port, hops);
  }

  /** An answer to the gateway: to the gateway port, every node of the list and the node that asked, to no workload. */
  lemma AnswerGoes(st: NodeState, port: nat, frame: Frame, hops: nat, now: Time, q: nat, v: Vtep)
    requires NodeOk(st) && port in st.cfg.ports && AnswerTo(st.cfg, frame)
    ensures var targets := Egress(st, port, frame, hops, now).targets;
            var a := frame.body.spa;
            && (ToPort(q) in targets <==> q in st.cfg.ports && q != port && st.cfg.ports[q] && hops < 4)
            && (ToNode(v) in targets <==>
                st.cfg.vxlanUp && (v in st.cfg.remotes ||
                                   (a in st.asker && v == st.asker[a].vtep != 0 &&
                                    Elapsed(now, st.asker[a].at) < 5_000_000_000)))
  {
  }

  /** What a workload's frame teaches the node: its sender's place, and its sender's address if it is ARP. */
  lemma WorkloadFrameTeaches(st: NodeState, port: nat, frame: Frame, hops: nat, now: Time)
    requires NodeOk(st) && port in st.cfg.ports
    ensures var st' := Egress(st, port, frame, hops, now).st;
            && st'.cfg == st.cfg && st'.probe == st.probe && st'.asker == st.asker
            && Sighted(st.fdb, st'.fdb, frame.src, port, 0, now)
            && st'.arp == if frame.body.Arp? && frame.body.spa != 0
                          then st.arp[frame.body.spa := frame.body.sha] else st.arp
  {
  }

  // ---- The tunnel hook -----------------------------------------------------

  /**
   * A frame from another node goes to workload ports only, and to no node again:
   * to the one port that holds its destination, or to all when none is known or
   * the frame itself just moved it; the gateway port gets what its own entry
   * names, below four hand-offs. An answer to the gateway is read and goes nowhere.
   */
  lemma OverlayFrameGoes(st: NodeState, frame: Frame, src: Vtep, hops: nat, now: Time)
    requires NodeOk(st) && src != 0
    ensures var targets := FromOverlay(st, frame, src, hops, now).targets;
            if AnswerTo(st.cfg, frame) then targets == {}
            else if !Group(frame.dst) && frame.dst in st.fdb && st.fdb[frame.dst].ifindex != 0 &&
                    (frame.src != frame.dst || st.fdb[frame.dst].gateway) then
              SentTo(st.cfg, st.fdb[frame.dst], 0, hops, targets)
            else
              && (forall q: nat :: ToPort(q) in targets <==> q in st.cfg.ports && !st.cfg.ports[q])
              && (forall v: Vtep :: ToNode(v) !in targets)
  {
    assert 0 !in st.cfg.ports;
  }

  /** What it teaches: the sender's node, its address if it is ARP, and who asked if a gateway did. */
  lemma OverlayFrameTeaches(st: NodeState, frame: Frame, src: Vtep, hops: nat, now: Time)
    requires NodeOk(st) && src != 0
    ensures var st' := FromOverlay(st, frame, src, hops, now).st;
            && st'.cfg == st.cfg && st'.probe == st.probe && Sighted(st.fdb, st'.fdb, frame.src, 0, src, now)
            && st'.arp == (if frame.body.Arp? && frame.body.spa != 0
                           then st.arp[frame.body.spa := frame.body.sha] else st.arp)
            && st'.asker == if frame.body.Arp? && frame.body.op == Request && frame.body.tpa != 0 &&
                               st.cfg.gateway.Some? && frame.src == st.cfg.gateway.value.mac
                            then st.asker[frame.body.tpa := Asked(src, now)] else st.asker
  {
  }

  // ---- The gateway hook ----------------------------------------------------

  /** The gateway of this node sends through this port. */
  predicate IsGatewayPort(cfg: Config, port: nat) {
    port in cfg.ports && cfg.gateway.Some? && cfg.gateway.value.ifindex == port
  }

  /** A packet for a resolved address is signed by the gateway and addressed to the MAC; ARP goes as it is. */
  lemma GatewayFrameGoes(st: NodeState, port: nat, frame: Frame, hops: nat, now: Time)
    requires IsGatewayPort(st.cfg, port)
    ensures var o := GatewayEgress(st, port, frame, hops, now);
            match frame.body
            case Ip(daddr) =>
              daddr in st.arp ==>
                && o.frame == Frame(st.cfg.gateway.value.mac, st.arp[daddr], Ip(daddr)) && o.st == st
                && Routed(st.cfg, st.fdb, st.arp[daddr], port, hops, o.targets)
            case Other => o.targets == {} && o.frame == frame && o.st == st
            case Arp(_, _, _, _) =>
              o.frame == frame && o.st == st && Routed(st.cfg, st.fdb, frame.dst, port, hops, o.targets)
            case OddArp => o.frame == frame && o.st == st && Routed(st.cfg, st.fdb, frame.dst, port, hops, o.targets)
  {
    ForwardedIsRouted(st, if frame.body.Ip? && frame.body.daddr in st.arp then st.arp[frame.body.daddr] else frame.dst,
                      port, hops);
  }

  /** For an unresolved one the gateway asks the whole segment, within its prefix and once a second at most. */
  lemma GatewayAsksForUnresolved(st: NodeState, port: nat, frame: Frame, hops: nat, now: Time)
    requires IsGatewayPort(st.cfg, port) && frame.body.Ip? && frame.body.daddr !in st.arp
    ensures var o, a, mac := GatewayEgress(st, port, frame, hops, now), frame.body.daddr, st.cfg.gateway.value.mac;
            if a in st.cfg.onLink && (a in st.probe ==> Elapsed(now, st.probe[a]) >= 1_000_000_000) then
              && o.frame == Frame(mac, Mac(255, 0xff_ffff_ffff), Arp(Request, mac, st.cfg.gwAddr, a))
              && FloodedFrom(st.cfg, port, hops, o.targets) && o.st == st.(probe := st.probe[a := now])
            else o.targets == {} && o.st == st
  {
  }

  /** Ports the segment does not have, and ports that are not the gateway's, put nothing on it and change nothing. */
  lemma StrayPortsAreSilent(st: NodeState, port: nat, frame: Frame, hops: nat, now: Time)
    ensures port !in st.cfg.ports ==> Egress(st, port, frame, hops, now) == Sent(st, frame, {})
    ensures !IsGatewayPort(st.cfg, port) ==> GatewayEgress(st, port, frame, hops, now) == Sent(st, frame, {})
  {
  }

  // ---- In the network ------------------------------------------------------

  /** The record of one frame is a set of targets: one copy each, no more. */
  predicate Recorded(net: Net, node: Vtep, id: nat, targets: set<Target>, v: Vtep, q: nat) {
    && net.log[Event(id, v, q)] == (if v == node && ToPort(q) in targets then 1 else 0)
    && net.crossed[Msg(id, v)] == (if ToNode(v) in targets then 1 else 0)
    && (Msg(id, v) in net.flight <==> ToNode(v) in targets)
  }

  /** Right after a frame was sent, its record is where it went. */
  lemma SentFrameIsRecorded(net: Net, node: Vtep, port: nat, id: nat, frame: Frame, hops: nat, now: Time, v: Vtep,
                            q: nat)
    requires NetOk(net) && Enabled(net, Send(node, port, id, frame, hops, now))
    ensures Recorded(Apply(net, Send(node, port, id, frame, hops, now)), node, id,
                     Egress(net.nodes[node], port, frame, hops, now).targets, v, q)
  {
    var r := Egress(net.nodes[node], port, frame, hops, now);
    var net0 := net.(origin := net.origin[id := Origin(node, port, r.frame)]);
    LogAfter(net0, node, id, r, Event(id, v, q));
    CrossedAfter(net0, node, id, r, Msg(id, v));
    assert net.log[Event(id, v, q)] == 0;
    assert net.crossed[Msg(id, v)] == 0;
  }

  /** The frame reached port `g` of the node, or nothing. */
  predicate OnlyAt(net: Net, node: Vtep, id: nat, g: nat, reached: bool, v: Vtep, q: nat) {
    && net.log[Event(id, v, q)] == (if v == node && q == g && reached then 1 else 0)
    && net.crossed[Msg(id, v)] == 0 && Msg(id, v) !in net.flight
  }

  lemma OneTargetIsOnlyThere(net: Net, node: Vtep, id: nat, g: nat, reached: bool, v: Vtep, q: nat)
    requires Recorded(net, node, id, if reached then {ToPort(g)} else {}, v, q)
    ensures OnlyAt(net, node, id, g, reached, v, q)
  {
  }

  lemma GatewayEntryGoes(st: NodeState, port: nat, frame: Frame, hops: nat, now: Time, g: nat)
    requires NodeOk(st) && port in st.cfg.ports && !Group(frame.dst) && !AnswerTo(st.cfg, frame) && g != port
    requires frame.dst in st.fdb && st.fdb[frame.dst].gateway && st.fdb[frame.dst].ifindex == g != 0
    ensures Egress(st, port, frame, hops, now).targets == if hops < 4 then {ToPort(g)} else {}
  {
    WorkloadFrameGoes(st, port, frame, hops, now);
  }

  /**
   * A workload reaches its gateway: a frame to the MAC of a gateway entry gets to
   * the port it names exactly once, and to no other port or node; after four
   * hand-offs it gets nowhere.
   */
  lemma GatewayGetsItsFrames(net: Net, node: Vtep, port: nat, id: nat, frame: Frame, hops: nat, now: Time, g: nat,
                             v: Vtep, q: nat)
    requires NetOk(net) && Enabled(net, Send(node, port, id, frame, hops, now)) && port in net.nodes[node].cfg.ports
    requires var st := net.nodes[node];
             && frame.dst in st.fdb && st.fdb[frame.dst].gateway && st.fdb[frame.dst].ifindex == g != 0
             && !Group(frame.dst) && !AnswerTo(st.cfg, frame) && g != port
    ensures OnlyAt(Apply(net, Send(node, port, id, frame, hops, now)), node, id, g, hops < 4, v, q)
  {
    GatewayEntryGoes(net.nodes[node], port, frame, hops, now, g);
    SentFrameIsRecorded(net, node, port, id, frame, hops, now, v, q);
    OneTargetIsOnlyThere(Apply(net, Send(node, port, id, frame, hops, now)), node, id, g, hops < 4, v, q);
  }

  /** A MAC in no table: every other workload port of the node gets the frame, and every node of the flood list. */
  lemma UnlearnedIsFlooded(net: Net, node: Vtep, port: nat, id: nat, frame: Frame, hops: nat, now: Time, v: Vtep,
                           q: nat)
    requires NetOk(net) && Enabled(net, Send(node, port, id, frame, hops, now)) && port in net.nodes[node].cfg.ports
    requires frame.dst !in net.nodes[node].fdb && frame.dst != frame.src && !AnswerTo(net.nodes[node].cfg, frame)
    ensures var net', cfg := Apply(net, Send(node, port, id, frame, hops, now)), net.nodes[node].cfg;
            && net'.log[Event(id, v, q)] ==
               (if v == node && q in cfg.ports && q != port && (cfg.ports[q] ==> hops < 4) then 1 else 0)
            && net'.crossed[Msg(id, v)] == (if cfg.vxlanUp && v in cfg.remotes then 1 else 0)
  {
    WorkloadFrameGoes(net.nodes[node], port, frame, hops, now);
    SentFrameIsRecorded(net, node, port, id, frame, hops, now, v, q);
  }
}
