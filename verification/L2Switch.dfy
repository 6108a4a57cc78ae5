/**
 * One node of a distributed learning switch: what it learns from a frame and
 * where it sends copies of it. The functions say what each hook does; the
 * class does it step by step on the tables.
 */
module L2Switch {
  import opened Types

  // ---- Frames --------------------------------------------------------------

  /** A MAC address; the low bit of the first octet marks a group address. */
  datatype Mac = Mac(first: nat, rest: nat)

  const BROADCAST: Mac := Mac(0xff, 0xff_ffff_ffff)

  /** Broadcast and multicast have to reach every port. */
  predicate IsBum(m: Mac) {
    m.first % 2 == 1
  }

  datatype ArpOp = Request | Reply | OtherOp

  datatype Body =
    | Arp(op: ArpOp, sha: Mac, spa: Addr, tpa: Addr) // IPv4 over Ethernet
    | OddArp                                         // any other ARP
    | Ip(daddr: Addr)
    | Other

  datatype Frame = Frame(src: Mac, dst: Mac, body: Body)

  // ---- Tables --------------------------------------------------------------

  /** A node of the overlay, by its tunnel address; 0 names none. */
  type Vtep = nat

  const FDB_REFRESH: nat := 1_000_000_000
  const PROBE_INTERVAL: nat := 1_000_000_000
  const ASKER_TTL: nat := 5_000_000_000
  const MAX_HOPS: nat := 4

  /** Where a MAC lives: a local port or another node. */
  datatype FdbVal = FdbVal(ifindex: nat, vtep: Vtep, gateway: bool, seen: Time)

  datatype Asked = Asked(vtep: Vtep, at: Time)

  datatype Gateway = Gateway(mac: Mac, ifindex: nat)

  /**
   * What user space configures: the ports of the segment on this node (true
   * marks the gateway port), the nodes of the flood list, the gateway's
   * identity and the addresses of its prefix.
   */
  datatype Config = Config(
    self: Vtep,
    ports: map<nat, bool>,
    remotes: set<Vtep>,
    vxlanUp: bool,
    gateway: Option<Gateway>,
    gwAddr: Addr,
    onLink: set<Addr>)
  {
    predicate IsGatewayMac(mac: Mac) {
      gateway.Some? && gateway.value.mac == mac
    }

    /** A node holds at most one gateway port, and its flood list names other nodes only. */
    ghost predicate Ok() {
      && self != 0 && self !in remotes && 0 !in remotes && 0 !in ports
      && (forall p, q :: p in ports && q in ports && ports[p] && ports[q] ==> p == q)
      && (forall p :: p in ports && ports[p] ==> gateway.Some? && gateway.value.ifindex == p)
      && (gateway.Some? ==> !IsBum(gateway.value.mac))
    }
  }

  datatype NodeState = NodeState(
    cfg: Config,
    fdb: map<Mac, FdbVal>,
    arp: map<Addr, Mac>,
    probe: map<Addr, Time>,
    asker: map<Addr, Asked>)

  /** Where a frame came from: a port of this node, or (`ifindex` 0) the overlay. */
  datatype From = From(ifindex: nat, overlay: bool)

  const OVERLAY: From := From(0, true)

  datatype Target = ToPort(ifindex: nat) | ToNode(vtep: Vtep)

  // ---- Learning ------------------------------------------------------------

  function Learned(fdb: map<Mac, FdbVal>, mac: Mac, ifindex: nat, vtep: Vtep, now: Time): map<Mac, FdbVal> {
    if ifindex == 0 && vtep == 0 then fdb
    else if mac in fdb && fdb[mac].gateway then fdb
    else if mac in fdb && fdb[mac].ifindex == ifindex && fdb[mac].vtep == vtep then
      if Elapsed(now, fdb[mac].seen) >= FDB_REFRESH then fdb[mac := fdb[mac].(seen := now)] else fdb
    else fdb[mac := FdbVal(ifindex, vtep, false, now)]
  }

  // ---- ARP snooping --------------------------------------------------------

  function ArpRecorded(arp: map<Addr, Mac>, frame: Frame): map<Addr, Mac> {
    if frame.body.Arp? && frame.body.spa != 0 then arp[frame.body.spa := frame.body.sha] else arp
  }

  /** A reply addressed to the gateway of the segment. */
  predicate AnswersGateway(cfg: Config, frame: Frame) {
    frame.body.Arp? && frame.body.op == Reply && cfg.IsGatewayMac(frame.dst)
  }

  /** A request the gateway of the segment signed. */
  predicate GatewayAsks(cfg: Config, frame: Frame) {
    frame.body.Arp? && frame.body.op == Request && cfg.IsGatewayMac(frame.src)
  }

  function AskRemembered(asker: map<Addr, Asked>, target: Addr, vtep: Vtep, now: Time): map<Addr, Asked> {
    if target == 0 || vtep == 0 then asker else asker[target := Asked(vtep, now)]
  }

  /** The node whose gateway asked for `target` recently enough, or 0. */
  function AskerOf(asker: map<Addr, Asked>, target: Addr, now: Time): Vtep {
    if target !in asker || Elapsed(now, asker[target].at) >= ASKER_TTL then 0 else asker[target].vtep
  }

  predicate MayAsk(probe: map<Addr, Time>, target: Addr, now: Time) {
    target in probe ==> Elapsed(now, probe[target]) >= PROBE_INTERVAL
  }

  // ---- Forwarding ----------------------------------------------------------

  /** Whether a flood copies to port `p`: never back, and to the gateway port within limits. */
  predicate Takes(cfg: Config, p: nat, from: From, gatewayOnly: bool, hops: nat)
    requires p in cfg.ports
  {
    p != from.ifindex && (if cfg.ports[p] then !from.overlay && hops < MAX_HOPS else !gatewayOnly)
  }

  /** The ports of this node a flood copies to. */
  function LocalTargets(cfg: Config, from: From, gatewayOnly: bool, hops: nat): set<Target> {
    set p | p in cfg.ports && Takes(cfg, p, from, gatewayOnly, hops) :: ToPort(p)
  }

  /** The nodes a flood copies to: none for a frame the overlay delivered. */
  function RemoteTargets(cfg: Config, from: From, askerVtep: Vtep): set<Target> {
    if from.overlay || !cfg.vxlanUp then {}
    else (set v | v in cfg.remotes :: ToNode(v)) + (if askerVtep != 0 then {ToNode(askerVtep)} else {})
  }

  function FloodTargets(cfg: Config, from: From, gatewayOnly: bool, askerVtep: Vtep, hops: nat): set<Target> {
    LocalTargets(cfg, from, gatewayOnly, hops) + RemoteTargets(cfg, from, askerVtep)
  }

  /** The one place a known MAC lives; None when the frame has to be flooded. */
  function UnicastTargets(st: NodeState, dst: Mac, from: From, hops: nat): Option<set<Target>> {
    if dst !in st.fdb then None
    else
      var e := st.fdb[dst];
      if e.ifindex != 0 then
        if e.ifindex == from.ifindex || (e.gateway && hops >= MAX_HOPS) then Some({}) else Some({ToPort(e.ifindex)})
      else if from.overlay then None
      else if !st.cfg.vxlanUp then Some({})
      else Some({ToNode(e.vtep)})
  }

  /** Out of the one port that holds the destination, or to every other port. */
  function Forwarded(st: NodeState, dst: Mac, from: From, hops: nat): set<Target> {
    var known := if IsBum(dst) then None else UnicastTargets(st, dst, from, hops);
    if known.Some? then known.value else FloodTargets(st.cfg, from, false, 0, hops)
  }

  // ---- The three hooks -----------------------------------------------------

  /** What a hook leaves behind: the tables, the frame it sent, where copies went. */
  datatype Sent = Sent(st: NodeState, frame: Frame, targets: set<Target>)

  /** A workload sends a frame into the segment. */
  function Egress(st: NodeState, port: nat, frame: Frame, hops: nat, now: Time): Sent {
    if port !in st.cfg.ports then Sent(st, frame, {})
    else
      var from := From(port, false);
      var st1 := st.(arp := ArpRecorded(st.arp, frame), fdb := Learned(st.fdb, frame.src, port, 0, now));
      if AnswersGateway(st.cfg, frame) then
        Sent(st1, frame, FloodTargets(st.cfg, from, true, AskerOf(st.asker, frame.body.spa, now), hops))
      else Sent(st1, frame, Forwarded(st1, frame.dst, from, hops))
  }

  /** The overlay delivers a frame from another node. */
  function FromOverlay(st: NodeState, frame: Frame, src: Vtep, hops: nat, now: Time): Sent {
    var st1 := st.(arp := ArpRecorded(st.arp, frame),
                   asker := if GatewayAsks(st.cfg, frame) then AskRemembered(st.asker, frame.body.tpa, src, now)
                            else st.asker,
                   fdb := Learned(st.fdb, frame.src, 0, src, now));
    if AnswersGateway(st.cfg, frame) then Sent(st1, frame, {})
    else Sent(st1, frame, Forwarded(st1, frame.dst, OVERLAY, hops))
  }

  function AskFrame(cfg: Config, target: Addr): Frame
    requires cfg.gateway.Some?
  {
    Frame(cfg.gateway.value.mac, BROADCAST, Arp(Request, cfg.gateway.value.mac, cfg.gwAddr, target))
  }

  /** The gateway asks the segment for an address, at a bounded pace. */
  function Ask(st: NodeState, frame: Frame, target: Addr, hops: nat, now: Time): Sent
    requires st.cfg.gateway.Some?
  {
    if target !in st.cfg.onLink || !MayAsk(st.probe, target, now) then Sent(st, frame, {})
    else
      Sent(st.(probe := st.probe[target := now]), AskFrame(st.cfg, target),
           FloodTargets(st.cfg, From(st.cfg.gateway.value.ifindex, false), false, 0, hops))
  }

  /** A packet of the Vpc leaves through the gateway port into the segment. */
  function GatewayEgress(st: NodeState, port: nat, frame: Frame, hops: nat, now: Time): Sent {
    if port !in st.cfg.ports || st.cfg.gateway.None? || st.cfg.gateway.value.ifindex != port then Sent(st, frame, {})
    else match frame.body
      case Ip(daddr) =>
        if daddr !in st.arp then Ask(st, frame, daddr, hops, now)
        else
          var signed := frame.(dst := st.arp[daddr], src := st.cfg.gateway.value.mac);
          Sent(st, signed, Forwarded(st, signed.dst, From(port, false), hops))
      case Arp(_, _, _, _) => Sent(st, frame, Forwarded(st, frame.dst, From(port, false), hops))
      case OddArp => Sent(st, frame, Forwarded(st, frame.dst, From(port, false), hops))
      case Other => Sent(st, frame, {})
  }

  // ---- What holds of every hook --------------------------------------------

  ghost predicate FdbOk(fdb: map<Mac, FdbVal>, self: Vtep) {
    forall m :: m in fdb ==> (fdb[m].ifindex == 0 ==> fdb[m].vtep != 0) && fdb[m].vtep != self
  }

  /** No table names this node itself as a remote place. */
  ghost predicate NodeOk(st: NodeState) {
    && st.cfg.Ok() && FdbOk(st.fdb, st.cfg.self)
    && (forall a :: a in st.asker ==> st.asker[a].vtep != st.cfg.self)
  }

  /** Where copies of a frame may go: not back, not to this node, and not over the overlay twice. */
  ghost predicate Apart(targets: set<Target>, from: From, self: Vtep) {
    && (from.ifindex != 0 ==> ToPort(from.ifindex) !in targets)
    && ToNode(self) !in targets && ToNode(0) !in targets
    && (from.overlay ==> forall v :: ToNode(v) !in targets)
  }

  lemma LearningKeepsFdbOk(fdb: map<Mac, FdbVal>, mac: Mac, ifindex: nat, vtep: Vtep, now: Time, self: Vtep)
    requires FdbOk(fdb, self) && vtep != self
    ensures FdbOk(Learned(fdb, mac, ifindex, vtep, now), self)
  {
  }

  lemma FloodStaysApart(cfg: Config, from: From, gatewayOnly: bool, askerVtep: Vtep, hops: nat)
    requires cfg.Ok() && askerVtep != cfg.self
    ensures Apart(FloodTargets(cfg, from, gatewayOnly, askerVtep, hops), from, cfg.self)
  {
  }

  lemma ForwardingStaysApart(st: NodeState, dst: Mac, from: From, hops: nat)
    requires st.cfg.Ok() && FdbOk(st.fdb, st.cfg.self)
    ensures Apart(Forwarded(st, dst, from, hops), from, st.cfg.self)
  {
    FloodStaysApart(st.cfg, from, false, 0, hops);
  }

  lemma EgressStaysApart(st: NodeState, port: nat, frame: Frame, hops: nat, now: Time)
    requires NodeOk(st)
    ensures var s := Egress(st, port, frame, hops, now);
            NodeOk(s.st) && s.st.cfg == st.cfg && Apart(s.targets, From(port, false), st.cfg.self)
  {
    LearningKeepsFdbOk(st.fdb, frame.src, port, 0, now, st.cfg.self);
    var st1 := st.(arp := ArpRecorded(st.arp, frame), fdb := Learned(st.fdb, frame.src, port, 0, now));
    if AnswersGateway(st.cfg, frame) {
      FloodStaysApart(st.cfg, From(port, false), true, AskerOf(st.asker, frame.body.spa, now), hops);
    } else {
      ForwardingStaysApart(st1, frame.dst, From(port, false), hops);
    }
  }

  lemma GatewayStaysApart(st: NodeState, port: nat, frame: Frame, hops: nat, now: Time)
    requires NodeOk(st)
    ensures var s := GatewayEgress(st, port, frame, hops, now);
            NodeOk(s.st) && s.st.cfg == st.cfg && Apart(s.targets, From(port, false), st.cfg.self)
  {
    FloodStaysApart(st.cfg, From(port, false), false, 0, hops);
    ForwardingStaysApart(st, GatewayEgress(st, port, frame, hops, now).frame.dst, From(port, false), hops);
  }

  /** Split horizon: what the overlay delivered is never put back on it. */
  lemma OverlayNeverRelays(st: NodeState, frame: Frame, src: Vtep, hops: nat, now: Time)
    requires NodeOk(st) && src != st.cfg.self
    ensures var s := FromOverlay(st, frame, src, hops, now);
            NodeOk(s.st) && s.st.cfg == st.cfg && Apart(s.targets, OVERLAY, st.cfg.self)
  {
    LearningKeepsFdbOk(st.fdb, frame.src, 0, src, now, st.cfg.self);
    if !AnswersGateway(st.cfg, frame) {
      ForwardingStaysApart(FromOverlay(st, frame, src, hops, now).st, frame.dst, OVERLAY, hops);
    }
  }
}
