/**
 * The switch programs as they run on one node: tables written in place, flood
 * walks that copy the frame port by port, and the hop count that rides in the
 * frame's mark. Every method is proved to be the step `L2Switch` describes.
 */
module L2Node {
  import opened Types
  import opened L2Switch

  // ---- The hop count in the mark -------------------------------------------

  type Mark = x: int | 0 <= x < 0x1_0000_0000

  const HOP_UNIT: int := 0x100_0000

  /** Bits 24 to 27 of the mark. */
  function Hops(mark: Mark): nat {
    (mark / HOP_UNIT) % 16
  }

  /** One more hand-off to a gateway port, unless the frame has had its share. */
  function TakeHop(mark: Mark): (r: Option<Mark>)
    ensures r.Some? <==> Hops(mark) < MAX_HOPS
    ensures r.Some? ==> Hops(r.value) == Hops(mark) + 1
    ensures r.Some? ==> r.value % 0x100_0000 == mark % 0x100_0000 && r.value / 0x1000_0000 == mark / 0x1000_0000
  {
    if Hops(mark) >= MAX_HOPS then None
    else
      assert mark == (mark / HOP_UNIT) * HOP_UNIT + mark % HOP_UNIT;
      assert (mark + HOP_UNIT) / HOP_UNIT == mark / HOP_UNIT + 1;
      Some(mark + HOP_UNIT)
  }

  // ---- Copies --------------------------------------------------------------

  /** One copy of a frame. `ingress` hands it to a gateway port. */
  datatype Copy = Copy(target: Target, ingress: bool, mark: Mark)

  function TargetsOf(copies: seq<Copy>): set<Target> {
    set c | c in copies :: c.target
  }

  /** Each target once. */
  ghost predicate Distinct(copies: seq<Copy>) {
    forall i, j :: 0 <= i < j < |copies| ==> copies[i].target != copies[j].target
  }

  /** No port is handed the frame after it was stamped for the tunnel. */
  ghost predicate LocalFirst(copies: seq<Copy>) {
    forall i, j :: 0 <= i < j < |copies| && copies[i].target.ToNode? ==> copies[j].target.ToNode?
  }

  /** A copy's mark has counted the hand-offs that led to it. */
  predicate Counts(c: Copy, mark: Mark) {
    Hops(c.mark) >= Hops(mark) + (if c.ingress then 1 else 0) && (c.ingress ==> Hops(c.mark) <= MAX_HOPS)
  }

  /** What a program run made of a frame: exactly these targets, in a safe order, counted. */
  ghost predicate Makes(copies: seq<Copy>, targets: set<Target>, mark: Mark) {
    && TargetsOf(copies) == targets && Distinct(copies) && LocalFirst(copies)
    && forall c :: c in copies ==> Counts(c, mark)
  }

  function GatewayPorts(cfg: Config): set<nat> {
    set p | p in cfg.ports && cfg.ports[p]
  }

  /** The ports a forwarded frame is handed to on ingress. */
  function HandOffPorts(st: NodeState, dst: Mac, from: From, hops: nat): set<nat> {
    if IsBum(dst) || UnicastTargets(st, dst, from, hops).None? then GatewayPorts(st.cfg)
    else if st.fdb[dst].gateway then {st.fdb[dst].ifindex} else {}
  }

  /** Exactly the copies to `ports` are handed over on ingress. */
  ghost predicate Flagged(copies: seq<Copy>, ports: set<nat>) {
    forall c :: c in copies ==> (c.ingress <==> c.target.ToPort? && c.target.ifindex in ports)
  }

  // ---- Chains --------------------------------------------------------------

  /** One run of a hook program on a node, on some copy of a frame. */
  datatype HookRun =
    | AtWorkload(st: NodeState, port: nat, frame: Frame, now: Time)
    | AtTunnel(st: NodeState, frame: Frame, src: Vtep, now: Time)
    | AtGateway(st: NodeState, port: nat, frame: Frame, now: Time)

  function Outcome(run: HookRun, mark: Mark): Sent {
    match run
    case AtWorkload(st, port, frame, now) => Egress(st, port, frame, Hops(mark), now)
    case AtTunnel(st, frame, src, now) => FromOverlay(st, frame, src, Hops(mark), now)
    case AtGateway(st, port, frame, now) => GatewayEgress(st, port, frame, Hops(mark), now)
  }

  /** The ports the run hands copies to on ingress. */
  function HandOffsOf(run: HookRun, mark: Mark): set<nat> {
    var o := Outcome(run, mark);
    match run
    case AtWorkload(_, port, frame, _) =>
      if AnswersGateway(o.st.cfg, frame) then GatewayPorts(o.st.cfg)
      else HandOffPorts(o.st, frame.dst, From(port, false), Hops(mark))
    case AtTunnel(_, frame, _, _) => HandOffPorts(o.st, frame.dst, OVERLAY, Hops(mark))
    case AtGateway(_, port, _, _) => HandOffPorts(o.st, o.frame.dst, From(port, false), Hops(mark))
  }

  /** These are the copies the run makes of a frame with this mark. */
  ghost predicate RunMakes(run: HookRun, mark: Mark, copies: seq<Copy>) {
    Makes(copies, Outcome(run, mark).targets, mark) && Flagged(copies, HandOffsOf(run, mark))
  }

  /** Entries and ports agree on which ports are gateways. */
  ghost predicate EntriesAgree(st: NodeState) {
    forall mac :: mac in st.fdb ==> Agrees(st.cfg, st.fdb[mac])
  }

  predicate Agrees(cfg: Config, e: FdbVal) {
    if e.ifindex == 0 then !e.gateway else e.ifindex in cfg.ports && (e.gateway <==> cfg.ports[e.ifindex])
  }

  /** Where they do, a frame is handed to the gateway ports among its targets. */
  lemma ForwardedHandsToGateways(st: NodeState, dst: Mac, from: From, hops: nat, q: nat)
    requires EntriesAgree(st) && ToPort(q) in Forwarded(st, dst, from, hops)
    ensures q in st.cfg.ports && (q in HandOffPorts(st, dst, from, hops) <==> st.cfg.ports[q])
  {
  }

  lemma LearningKeepsAgreement(st: NodeState, fdb: map<Mac, FdbVal>, mac: Mac, ifindex: nat, vtep: Vtep, now: Time)
    requires EntriesAgree(st) && fdb == Learned(st.fdb, mac, ifindex, vtep, now)
    requires ifindex != 0 ==> ifindex in st.cfg.ports && !st.cfg.ports[ifindex]
    ensures forall m :: m in fdb ==> Agrees(st.cfg, fdb[m])
  {
    assert Agrees(st.cfg, FdbVal(ifindex, vtep, false, now));
  }

  lemma HooksKeepAgreement(run: HookRun, mark: Mark)
    requires EntriesAgree(run.st)
    requires run.AtWorkload? && run.port in run.st.cfg.ports ==> run.port != 0 && !run.st.cfg.ports[run.port]
    ensures EntriesAgree(Outcome(run, mark).st) && Outcome(run, mark).st.cfg == run.st.cfg
  {
    var fdb := Outcome(run, mark).st.fdb;
    match run
    case AtWorkload(st, port, frame, now) =>
      if port in st.cfg.ports {
        LearningKeepsAgreement(st, fdb, frame.src, port, 0, now);
      }
    case AtTunnel(st, frame, src, now) => LearningKeepsAgreement(st, fdb, frame.src, 0, src, now);
    case AtGateway(_, _, _, _) =>
  }

  lemma RunHandsToGateways(run: HookRun, mark: Mark, q: nat)
    requires EntriesAgree(Outcome(run, mark).st) && Outcome(run, mark).st.cfg == run.st.cfg
    requires ToPort(q) in Outcome(run, mark).targets
    ensures q in run.st.cfg.ports && (q in HandOffsOf(run, mark) <==> run.st.cfg.ports[q])
  {
    var o := Outcome(run, mark);
    match run
    case AtWorkload(_, port, frame, _) =>
      if !AnswersGateway(o.st.cfg, frame) {
        ForwardedHandsToGateways(o.st, frame.dst, From(port, false), Hops(mark), q);
      }
    case AtTunnel(_, frame, _, _) => ForwardedHandsToGateways(o.st, frame.dst, OVERLAY, Hops(mark), q);
    case AtGateway(st, port, frame, _) =>
      if !frame.body.Ip? || frame.body.daddr in st.arp {
        ForwardedHandsToGateways(o.st, o.frame.dst, From(port, false), Hops(mark), q);
      }
  }

  /** Exactly the copies to a gateway port are handed over on ingress, whichever hook makes them. */
  lemma IngressIsForGateways(run: HookRun, mark: Mark, copies: seq<Copy>, c: Copy)
    requires RunMakes(run, mark, copies) && c in copies && EntriesAgree(run.st)
    requires run.AtWorkload? && run.port in run.st.cfg.ports ==> run.port != 0 && !run.st.cfg.ports[run.port]
    ensures c.ingress <==>
            c.target.ToPort? && c.target.ifindex in run.st.cfg.ports && run.st.cfg.ports[c.target.ifindex]
  {
    HooksKeepAgreement(run, mark);
    assert c.target in Outcome(run, mark).targets;
    if c.target.ToPort? {
      RunHandsToGateways(run, mark, c.target.ifindex);
    }
  }

  datatype Link = Link(run: HookRun, copies: seq<Copy>, next: Copy)

  /** Program runs one after the other on the same node, each on a copy the last one made. */
  ghost predicate Chain(mark: Mark, links: seq<Link>)
    decreases links
  {
    |links| == 0 ||
    (RunMakes(links[0].run, mark, links[0].copies) && links[0].next in links[0].copies &&
     Chain(links[0].next.mark, links[1..]))
  }

  /** How often the chain went through a port that was handed the frame on ingress. */
  function HandOffs(mark: Mark, links: seq<Link>): nat
    decreases links
  {
    if |links| == 0 then 0
    else
      var t := links[0].next.target;
      (if t.ToPort? && t.ifindex in HandOffsOf(links[0].run, mark) then 1 else 0) +
      HandOffs(links[0].next.mark, links[1..])
  }

  /** No chain of runs hands a frame to a gateway port more often than the limit allows. */
  lemma {:induction false} ChainsAreBounded(mark: Mark, links: seq<Link>)
    requires Chain(mark, links)
    ensures HandOffs(mark, links) <= if Hops(mark) < MAX_HOPS then MAX_HOPS - Hops(mark) else 0
    decreases links
  {
    if |links| > 0 {
      ChainsAreBounded(links[0].next.mark, links[1..]);
      assert Counts(links[0].next, mark);
    }
  }

  // ---- Appending copies ----------------------------------------------------

  lemma AppendKeeps(copies: seq<Copy>, c: Copy, targets: set<Target>, mark: Mark)
    requires Makes(copies, targets, mark) && c.target !in targets && Counts(c, mark)
    requires c.target.ToNode? || forall t :: t in targets ==> t.ToPort?
    ensures Makes(copies + [c], targets + {c.target}, mark)
  {
    var more := copies + [c];
    forall i | 0 <= i < |copies|
      ensures copies[i].target in targets
    {
      assert copies[i] in copies;
    }
    forall t | t in targets + {c.target}
      ensures t in TargetsOf(more)
    {
      if t == c.target {
        assert more[|copies|] == c;
      } else {
        var d :| d in copies && d.target == t;
        assert d in more;
      }
    }
  }

  // ---- Flooding ------------------------------------------------------------

  /** The part of a local walk that has been done. */
  ghost function Walked(cfg: Config, done: set<nat>, from: From, gatewayOnly: bool, hops: nat): set<Target> {
    set p | p in done && p in cfg.ports && Takes(cfg, p, from, gatewayOnly, hops) :: ToPort(p)
  }

  lemma WalkOne(cfg: Config, done: set<nat>, p: nat, from: From, gatewayOnly: bool, hops: nat)
    requires p in cfg.ports && p !in done
    ensures ToPort(p) !in Walked(cfg, done, from, gatewayOnly, hops)
    ensures Walked(cfg, done + {p}, from, gatewayOnly, hops) ==
            Walked(cfg, done, from, gatewayOnly, hops) +
            (if Takes(cfg, p, from, gatewayOnly, hops) then {ToPort(p)} else {})
  {
  }

  /** The walk's callback: a copy to one local port, or none. */
  method CopyToPort(cfg: Config, p: nat, from: From, gatewayOnly: bool, mark: Mark)
    returns (copy: Option<Copy>, after: Mark)
    requires p in cfg.ports
    ensures copy.Some? <==> Takes(cfg, p, from, gatewayOnly, Hops(mark))
    ensures copy.Some? ==> copy.value == Copy(ToPort(p), cfg.ports[p], after)
    ensures if copy.Some? && cfg.ports[p] then Hops(after) == Hops(mark) + 1 else after == mark
  {
    copy, after := None, mark;
    if p == from.ifindex {
      return;
    }
    if cfg.ports[p] {
      if from.overlay {
        return;
      }
      var taken := TakeHop(mark);
      if taken.None? {
        return;
      }
      after := taken.value;
      copy := Some(Copy(ToPort(p), true, after));
    } else if !gatewayOnly {
      copy := Some(Copy(ToPort(p), false, mark));
    }
  }

  /** How far the walk is: the ports done, the copies made, the mark as it is now. */
  ghost predicate Walking(cfg: Config, done: set<nat>, from: From, gatewayOnly: bool, mark: Mark, copies: seq<Copy>,
                          after: Mark) {
    && done <= cfg.ports.Keys && Flagged(copies, GatewayPorts(cfg))
    && Makes(copies, Walked(cfg, done, from, gatewayOnly, Hops(mark)), mark)
    && Hops(after) >= Hops(mark) && ((forall p :: p in done ==> !cfg.ports[p]) ==> after == mark)
  }

  lemma WalkStep(cfg: Config, done: set<nat>, p: nat, from: From, gatewayOnly: bool, mark: Mark,
                 copies: seq<Copy>, after: Mark, copy: Option<Copy>, after': Mark)
    requires cfg.Ok() && Walking(cfg, done, from, gatewayOnly, mark, copies, after) && p in cfg.ports && p !in done
    requires copy.Some? <==> Takes(cfg, p, from, gatewayOnly, Hops(after))
    requires copy.Some? ==> copy.value == Copy(ToPort(p), cfg.ports[p], after')
    requires if copy.Some? && cfg.ports[p] then Hops(after') == Hops(after) + 1 else after' == after
    ensures Walking(cfg, done + {p}, from, gatewayOnly, mark,
                    if copy.Some? then copies + [copy.value] else copies, after')
  {
    WalkOne(cfg, done, p, from, gatewayOnly, Hops(mark));
    if cfg.ports[p] {
      assert after == mark;
    }
    if copy.Some? {
      AppendKeeps(copies, copy.value, Walked(cfg, done, from, gatewayOnly, Hops(mark)), mark);
    }
  }

  /** The local walk: workload ports on egress, the gateway port on ingress, in any order. */
  method FloodLocal(cfg: Config, from: From, gatewayOnly: bool, mark: Mark) returns (copies: seq<Copy>, after: Mark)
    requires cfg.Ok()
    ensures Makes(copies, LocalTargets(cfg, from, gatewayOnly, Hops(mark)), mark) && Flagged(copies, GatewayPorts(cfg))
    ensures Hops(after) >= Hops(mark)
  {
    copies, after := [], mark;
    var rest := cfg.ports.Keys;
    ghost var done: set<nat> := {};
    while rest != {}
      invariant rest == cfg.ports.Keys - done
      invariant Walking(cfg, done, from, gatewayOnly, mark, copies, after)
      decreases rest
    {
      var p :| p in rest;
      var copy, next := CopyToPort(cfg, p, from, gatewayOnly, after);
      WalkStep(cfg, done, p, from, gatewayOnly, mark, copies, after, copy, next);
      copies, after := if copy.Some? then copies + [copy.value] else copies, next;
      done := done + {p};
      rest := rest - {p};
    }
    assert Walked(cfg, done, from, gatewayOnly, Hops(mark)) == LocalTargets(cfg, from, gatewayOnly, Hops(mark));
  }

  lemma StampOne(copies: seq<Copy>, targets: set<Target>, done: set<Vtep>, v: Vtep, mark: Mark, after: Mark)
    requires (forall t :: t in targets ==> t.ToPort?) && Hops(after) >= Hops(mark) && v !in done
    requires Makes(copies, targets + (set u | u in done :: ToNode(u)), mark)
    ensures Makes(copies + [Copy(ToNode(v), false, after)], targets + (set u | u in done + {v} :: ToNode(u)), mark)
  {
    AppendKeeps(copies, Copy(ToNode(v), false, after), targets + (set u | u in done :: ToNode(u)), mark);
    assert targets + (set u | u in done :: ToNode(u)) + {ToNode(v)} == targets + (set u | u in done + {v} :: ToNode(u));
  }

  /** The remote walk: the frame is stamped and copied node by node. */
  method FloodRemote(remotes: set<Vtep>, local: seq<Copy>, ghost targets: set<Target>, ghost gates: set<nat>,
                     ghost mark: Mark,
                     after: Mark)
    returns (copies: seq<Copy>)
    requires Flagged(local, gates) && Makes(local, targets, mark) && (forall t :: t in targets ==> t.ToPort?)
    requires Hops(after) >= Hops(mark)
    ensures Makes(copies, targets + (set v | v in remotes :: ToNode(v)), mark) && Flagged(copies, gates)
  {
    copies := local;
    var rest := remotes;
    ghost var done: set<Vtep> := {};
    assert targets + (set u | u in done :: ToNode(u)) == targets;
    while rest != {}
      invariant rest == remotes - done && done <= remotes && Flagged(copies, gates)
      invariant Makes(copies, targets + (set u | u in done :: ToNode(u)), mark)
      decreases rest
    {
      var v :| v in rest;
      StampOne(copies, targets, done, v, mark, after);
      copies := copies + [Copy(ToNode(v), false, after)];
      done := done + {v};
      rest := rest - {v};
    }
    assert done == remotes;
  }

  /** Local ports first, then the flood list, then the node that asked unless the list named it. */
  method FloodPorts(cfg: Config, from: From, gatewayOnly: bool, askerVtep: Vtep, mark: Mark) returns (copies: seq<Copy>)
    requires cfg.Ok()
    ensures Makes(copies, FloodTargets(cfg, from, gatewayOnly, askerVtep, Hops(mark)), mark)
    ensures Flagged(copies, GatewayPorts(cfg))
  {
    var after;
    copies, after := FloodLocal(cfg, from, gatewayOnly, mark);
    ghost var local := LocalTargets(cfg, from, gatewayOnly, Hops(mark));
    if from.overlay || !cfg.vxlanUp {
      assert FloodTargets(cfg, from, gatewayOnly, askerVtep, Hops(mark)) == local;
      return;
    }
    copies := FloodRemote(cfg.remotes, copies, local, GatewayPorts(cfg), mark, after);
    if askerVtep != 0 && askerVtep !in cfg.remotes {
      StampOne(copies, local, cfg.remotes, askerVtep, mark, after);
      copies := copies + [Copy(ToNode(askerVtep), false, after)];
    }
    assert FloodTargets(cfg, from, gatewayOnly, askerVtep, Hops(mark)) ==
           local + (set u | u in cfg.remotes + (if askerVtep != 0 then {askerVtep} else {}) :: ToNode(u));
  }

  // ---- The node ------------------------------------------------------------

  class Node {
    var cfg: Config
    var fdb: map<Mac, FdbVal>
    var arp: map<Addr, Mac>
    var probe: map<Addr, Time>
    var asker: map<Addr, Asked>

    constructor (config: Config)
      ensures State() == NodeState(config, map[], map[], map[], map[])
    {
      cfg := config;
      fdb, arp, probe, asker := map[], map[], map[], map[];
    }

    function State(): NodeState
      reads this
    {
      NodeState(cfg, fdb, arp, probe, asker)
    }

    /** Records where a source MAC lives; reports whether that was news. */
    method Learn(mac: Mac, ifindex: nat, vtep: Vtep, now: Time) returns (isNew: bool)
      modifies this`fdb
      ensures fdb == Learned(old(fdb), mac, ifindex, vtep, now)
      ensures isNew <==> (ifindex != 0 || vtep != 0) && (mac in old(fdb) ==>
                var e := old(fdb)[mac]; !e.gateway && !(e.ifindex == ifindex && e.vtep == vtep))
    {
      if ifindex == 0 && vtep == 0 {
        return false;
      }
      if mac in fdb {
        var found := fdb[mac];
        if found.gateway {
          return false;
        }
        if found.ifindex == ifindex && found.vtep == vtep {
          if Elapsed(now, found.seen) >= FDB_REFRESH {
            fdb := fdb[mac := found.(seen := now)];
          }
          return false;
        }
      }
      fdb := fdb[mac := FdbVal(ifindex, vtep, false, now)];
      isNew := true;
    }

    /** Records the sender of an ARP frame and says how the frame concerns a gateway. */
    method Snoop(frame: Frame) returns (answers: bool, asks: bool)
      modifies this`arp
      ensures arp == ArpRecorded(old(arp), frame)
      ensures answers == AnswersGateway(cfg, frame) && asks == GatewayAsks(cfg, frame)
    {
      if !frame.body.Arp? {
        return false, false;
      }
      if frame.body.spa != 0 {
        arp := arp[frame.body.spa := frame.body.sha];
      }
      answers := frame.body.op == Reply && cfg.IsGatewayMac(frame.dst);
      asks := frame.body.op == Request && cfg.IsGatewayMac(frame.src);
    }

    method RememberAsk(target: Addr, vtep: Vtep, now: Time)
      modifies this`asker
      ensures asker == AskRemembered(old(asker), target, vtep, now)
    {
      if target != 0 && vtep != 0 {
        asker := asker[target := Asked(vtep, now)];
      }
    }

    /** Reports whether the gateway may ask now, and writes the ask down when it may. */
    method ProbeTake(target: Addr, now: Time) returns (ok: bool)
      modifies this`probe
      ensures ok == MayAsk(old(probe), target, now)
      ensures probe == if ok then old(probe)[target := now] else old(probe)
    {
      if target in probe && Elapsed(now, probe[target]) < PROBE_INTERVAL {
        return false;
      }
      probe := probe[target := now];
      ok := true;
    }

    /** Sends the frame to the one place that holds the MAC; not placed means it has to be flooded. */
    method ForwardUnicast(dst: Mac, from: From, mark: Mark) returns (placed: bool, copies: seq<Copy>)
      ensures placed == UnicastTargets(State(), dst, from, Hops(mark)).Some?
      ensures placed ==> Makes(copies, UnicastTargets(State(), dst, from, Hops(mark)).value, mark) &&
                         Flagged(copies, if fdb[dst].gateway then {fdb[dst].ifindex} else {})
    {
      copies := [];
      if dst !in fdb {
        return false, [];
      }
      var entry := fdb[dst];
      if entry.ifindex != 0 {
        if entry.ifindex == from.ifindex {
          return true, [];
        }
        if entry.gateway {
          var taken := TakeHop(mark);
          if taken.None? {
            return true, [];
          }
          return true, [Copy(ToPort(entry.ifindex), true, taken.value)];
        }
        return true, [Copy(ToPort(entry.ifindex), false, mark)];
      }
      if from.overlay {
        return false, [];
      }
      if !cfg.vxlanUp {
        return true, [];
      }
      return true, [Copy(ToNode(entry.vtep), false, mark)];
    }

    method Forward(dst: Mac, from: From, mark: Mark) returns (copies: seq<Copy>)
      requires cfg.Ok()
      ensures Makes(copies, Forwarded(State(), dst, from, Hops(mark)), mark)
      ensures Flagged(copies, HandOffPorts(State(), dst, from, Hops(mark)))
    {
      if !IsBum(dst) {
        var placed;
        placed, copies := ForwardUnicast(dst, from, mark);
        if placed {
          return;
        }
      }
      copies := FloodPorts(cfg, from, false, 0, mark);
    }

    /** The hook on a workload's port. */
    method HandleEgress(port: nat, frame: Frame, mark: Mark, now: Time) returns (copies: seq<Copy>)
      requires cfg.Ok()
      modifies this
      ensures State() == Egress(old(State()), port, frame, Hops(mark), now).st
      ensures RunMakes(AtWorkload(old(State()), port, frame, now), mark, copies)
    {
      if port !in cfg.ports {
        return [];
      }
      var from := From(port, false);
      var answers, _ := Snoop(frame);
      var _ := Learn(frame.src, port, 0, now);
      if answers {
        copies := FloodPorts(cfg, from, true, AskerOf(asker, frame.body.spa, now), mark);
      } else {
        copies := Forward(frame.dst, from, mark);
      }
    }

    /** The hook on the tunnel device. */
    method HandleOverlay(frame: Frame, src: Vtep, mark: Mark, now: Time) returns (copies: seq<Copy>)
      requires cfg.Ok()
      modifies this
      ensures State() == FromOverlay(old(State()), frame, src, Hops(mark), now).st
      ensures RunMakes(AtTunnel(old(State()), frame, src, now), mark, copies)
    {
      var answers, asks := Snoop(frame);
      if asks {
        RememberAsk(frame.body.tpa, src, now);
      }
      var _ := Learn(frame.src, 0, src, now);
      if answers {
        return [];
      }
      copies := Forward(frame.dst, OVERLAY, mark);
    }

    /** The hook on the gateway port, on the way from the Vpc into the segment. */
    method HandleGateway(port: nat, frame: Frame, mark: Mark, now: Time) returns (sent: Frame, copies: seq<Copy>)
      requires cfg.Ok()
      modifies this`probe
      ensures State() == GatewayEgress(old(State()), port, frame, Hops(mark), now).st
      ensures sent == GatewayEgress(old(State()), port, frame, Hops(mark), now).frame
      ensures RunMakes(AtGateway(old(State()), port, frame, now), mark, copies)
    {
      sent, copies := frame, [];
      if port !in cfg.ports || cfg.gateway.None? || cfg.gateway.value.ifindex != port {
        return;
      }
      match frame.body
      case Ip(daddr) =>
        if daddr !in arp {
          sent, copies := AskTheSegment(frame, daddr, mark, now);
        } else {
          sent := frame.(dst := arp[daddr], src := cfg.gateway.value.mac);
          copies := Forward(sent.dst, From(port, false), mark);
        }
      case Arp(_, _, _, _) => copies := Forward(frame.dst, From(port, false), mark);
      case OddArp => copies := Forward(frame.dst, From(port, false), mark);
      case Other =>
    }

    /** Turns the packet into a request for `target`, within the prefix and the pace. */
    method AskTheSegment(frame: Frame, target: Addr, mark: Mark, now: Time) returns (sent: Frame, copies: seq<Copy>)
      requires cfg.Ok() && cfg.gateway.Some?
      modifies this`probe
      ensures State() == Ask(old(State()), frame, target, Hops(mark), now).st
      ensures sent == Ask(old(State()), frame, target, Hops(mark), now).frame
      ensures Makes(copies, Ask(old(State()), frame, target, Hops(mark), now).targets, mark)
      ensures copies != [] ==> sent == AskFrame(cfg, target) && Flagged(copies, GatewayPorts(cfg))
    {
      sent, copies := frame, [];
      if target !in cfg.onLink {
        return;
      }
      var ok := ProbeTake(target, now);
      if !ok {
        return;
      }
      sent := AskFrame(cfg, target);
      copies := FloodPorts(cfg, From(cfg.gateway.value.ifindex, false), false, 0, mark);
    }
  }
}
