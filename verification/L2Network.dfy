/**
 * The switch as a whole: many nodes, frames in flight between them, and a
 * record of every copy a port received. Steps interleave freely, messages may
 * overtake each other or get lost, and tables may change between any two steps.
 */
module L2Network {
  import opened Types
  import opened L2Switch

  // ---- State ---------------------------------------------------------------

  /** Where a frame entered the segment, and the frame as it was sent. */
  datatype Origin = Origin(node: Vtep, port: nat, frame: Frame)

  /** A copy of frame `id` on its way to a node. */
  datatype Msg = Msg(id: nat, dst: Vtep)

  /** A port received a copy of frame `id`. */
  datatype Event = Event(id: nat, node: Vtep, port: nat)

  datatype Net = Net(
    nodes: map<Vtep, NodeState>,
    origin: map<nat, Origin>,
    flight: set<Msg>,
    lost: set<Msg>,
    log: multiset<Event>,
    crossed: multiset<Msg>)

  datatype Step =
    | Send(node: Vtep, port: nat, id: nat, frame: Frame, hops: nat, now: Time)
    | SendGateway(node: Vtep, port: nat, id: nat, frame: Frame, hops: nat, now: Time)
    | Receive(msg: Msg, hops: nat, now: Time)
    | Lose(msg: Msg)
    | Change(node: Vtep, st: NodeState) // user space, or an eviction

  ghost predicate Enabled(net: Net, s: Step) {
    match s
    case Send(node, _, id, _, _, _) => node in net.nodes && id !in net.origin
    case SendGateway(node, _, id, _, _, _) => node in net.nodes && id !in net.origin
    case Receive(msg, _, _) => msg in net.flight && msg.dst in net.nodes && msg.id in net.origin
    case Lose(msg) => msg in net.flight
    case Change(node, st) => node in net.nodes && NodeOk(st) && st.cfg.self == node
  }

  function Msgs(id: nat, targets: set<Target>): set<Msg> {
    set t | t in targets && t.ToNode? :: Msg(id, t.vtep)
  }

  function Events(id: nat, node: Vtep, targets: set<Target>): set<Event> {
    set t | t in targets && t.ToPort? :: Event(id, node, t.ifindex)
  }

  function Emit(net: Net, node: Vtep, id: nat, r: Sent): Net {
    net.(nodes := net.nodes[node := r.st],
         flight := net.flight + Msgs(id, r.targets),
         crossed := net.crossed + multiset(Msgs(id, r.targets)),
         log := net.log + multiset(Events(id, node, r.targets)))
  }

  /** A frame enters the segment at a port. */
  function Enter(net: Net, node: Vtep, port: nat, id: nat, r: Sent): Net {
    Emit(net.(origin := net.origin[id := Origin(node, port, r.frame)]), node, id, r)
  }

  function Apply(net: Net, s: Step): Net
    requires Enabled(net, s)
  {
    match s
    case Send(node, port, id, frame, hops, now) =>
      Enter(net, node, port, id, Egress(net.nodes[node], port, frame, hops, now))
    case SendGateway(node, port, id, frame, hops, now) =>
      Enter(net, node, port, id, GatewayEgress(net.nodes[node], port, frame, hops, now))
    case Receive(msg, hops, now) =>
      var o := net.origin[msg.id];
      Emit(net.(flight := net.flight - {msg}), msg.dst, msg.id,
           FromOverlay(net.nodes[msg.dst], o.frame, o.node, hops, now))
    case Lose(msg) => net.(flight := net.flight - {msg}, lost := net.lost + {msg})
    case Change(node, st) => net.(nodes := net.nodes[node := st])
  }

  ghost predicate RunOk(net: Net, steps: seq<Step>)
    decreases steps
  {
    |steps| == 0 || (Enabled(net, steps[0]) && RunOk(Apply(net, steps[0]), steps[1..]))
  }

  function Run(net: Net, steps: seq<Step>): Net
    requires RunOk(net, steps)
    decreases steps
  {
    if |steps| == 0 then net else Run(Apply(net, steps[0]), steps[1..])
  }

  // ---- Every frame, at most once -------------------------------------------

  /** A port got at most one copy of any frame, and none came back to where it entered. */
  ghost predicate EventsOk(net: Net) {
    forall e: Event ::
      && net.log[e] <= 1
      && (net.log[e] > 0 ==>
            e.id in net.origin && !(e.node == net.origin[e.id].node && e.port == net.origin[e.id].port))
  }

  /** A copy in flight is the only one to its node, which has not seen the frame yet. */
  ghost predicate FlightOk(net: Net) {
    forall m :: m in net.flight ==>
      && m.id in net.origin && m.dst != net.origin[m.id].node
      && forall p: nat :: net.log[Event(m.id, m.dst, p)] == 0
  }

  ghost predicate CrossedOk(net: Net) {
    forall m: Msg ::
      net.crossed[m] <= 1 && (net.crossed[m] > 0 ==> m.id in net.origin && m.dst != net.origin[m.id].node)
  }

  ghost predicate NetOk(net: Net) {
    && (forall v :: v in net.nodes ==> NodeOk(net.nodes[v]) && net.nodes[v].cfg.self == v)
    && EventsOk(net) && FlightOk(net) && CrossedOk(net)
    && (forall m :: m in net.lost ==> m.id in net.origin && m !in net.flight)
  }

  /** A hook's copies, one by one. */
  lemma LogAfter(net: Net, node: Vtep, id: nat, r: Sent, e: Event)
    ensures Emit(net, node, id, r).log[e] ==
            net.log[e] + if e.id == id && e.node == node && ToPort(e.port) in r.targets then 1 else 0
  {
    if e.id == id && e.node == node && ToPort(e.port) in r.targets {
      assert e in Events(id, node, r.targets);
    }
  }

  lemma CrossedAfter(net: Net, node: Vtep, id: nat, r: Sent, m: Msg)
    ensures Emit(net, node, id, r).crossed[m] ==
            net.crossed[m] + if m.id == id && ToNode(m.dst) in r.targets then 1 else 0
    ensures m in Emit(net, node, id, r).flight <==> m in net.flight || (m.id == id && ToNode(m.dst) in r.targets)
  {
    if m.id == id && ToNode(m.dst) in r.targets {
      assert m in Msgs(id, r.targets);
    }
  }

  ghost predicate MayEnter(net: Net, node: Vtep, port: nat, id: nat, r: Sent) {
    && NetOk(net) && node in net.nodes && id !in net.origin
    && NodeOk(r.st) && r.st.cfg.self == node && Apart(r.targets, From(port, false), node)
    && (port == 0 ==> r.targets == {})
  }

  lemma EnterKeepsEventsOk(net: Net, node: Vtep, port: nat, id: nat, r: Sent)
    requires MayEnter(net, node, port, id, r)
    ensures EventsOk(Enter(net, node, port, id, r))
  {
    var net' := Enter(net, node, port, id, r);
    forall e: Event
      ensures net'.log[e] <= 1
      ensures net'.log[e] > 0 ==>
                e.id in net'.origin && !(e.node == net'.origin[e.id].node && e.port == net'.origin[e.id].port)
    {
      LogAfter(net.(origin := net'.origin), node, id, r, e);
    }
  }

  lemma EnterKeepsFlightOk(net: Net, node: Vtep, port: nat, id: nat, r: Sent)
    requires MayEnter(net, node, port, id, r)
    ensures FlightOk(Enter(net, node, port, id, r))
  {
    var net' := Enter(net, node, port, id, r);
    forall m | m in net'.flight
      ensures m.id in net'.origin && m.dst != net'.origin[m.id].node
      ensures forall p: nat :: net'.log[Event(m.id, m.dst, p)] == 0
    {
      CrossedAfter(net.(origin := net'.origin), node, id, r, m);
      forall p: nat
        ensures net'.log[Event(m.id, m.dst, p)] == 0
      {
        LogAfter(net.(origin := net'.origin), node, id, r, Event(m.id, m.dst, p));
      }
    }
  }

  lemma EnterKeepsCrossedOk(net: Net, node: Vtep, port: nat, id: nat, r: Sent)
    requires MayEnter(net, node, port, id, r)
    ensures CrossedOk(Enter(net, node, port, id, r))
  {
    var net' := Enter(net, node, port, id, r);
    forall m: Msg
      ensures net'.crossed[m] <= 1 && (net'.crossed[m] > 0 ==> m.id in net'.origin && m.dst != net'.origin[m.id].node)
    {
      CrossedAfter(net.(origin := net'.origin), node, id, r, m);
    }
  }

  lemma EnterKeepsNetOk(net: Net, node: Vtep, port: nat, id: nat, r: Sent)
    requires MayEnter(net, node, port, id, r)
    ensures NetOk(Enter(net, node, port, id, r))
  {
    EnterKeepsEventsOk(net, node, port, id, r);
    EnterKeepsFlightOk(net, node, port, id, r);
    EnterKeepsCrossedOk(net, node, port, id, r);
    forall m | m in net.lost
      ensures m !in Enter(net, node, port, id, r).flight
    {
      CrossedAfter(net.(origin := Enter(net, node, port, id, r).origin), node, id, r, m);
    }
  }

  lemma ReceiveKeepsNetOk(net: Net, msg: Msg, r: Sent)
    requires NetOk(net) && msg in net.flight && msg.dst in net.nodes
    requires NodeOk(r.st) && r.st.cfg.self == msg.dst && Apart(r.targets, OVERLAY, msg.dst)
    ensures NetOk(Emit(net.(flight := net.flight - {msg}), msg.dst, msg.id, r))
  {
    var net' := Emit(net.(flight := net.flight - {msg}), msg.dst, msg.id, r);
    assert Msgs(msg.id, r.targets) == {};
    forall e: Event
      ensures net'.log[e] <= 1
      ensures net'.log[e] > 0 ==>
                e.id in net'.origin && !(e.node == net'.origin[e.id].node && e.port == net'.origin[e.id].port)
    {
      if e in Events(msg.id, msg.dst, r.targets) {
        assert net.log[Event(msg.id, msg.dst, e.port)] == 0;
      }
    }
    forall m, p: nat | m in net'.flight
      ensures net'.log[Event(m.id, m.dst, p)] == 0
    {
      assert net.log[Event(m.id, m.dst, p)] == 0;
    }
  }

  lemma ApplyKeepsNetOk(net: Net, s: Step)
    requires NetOk(net) && Enabled(net, s)
    ensures NetOk(Apply(net, s))
  {
    match s
    case Send(node, port, id, frame, hops, now) =>
      EgressStaysApart(net.nodes[node], port, frame, hops, now);
      EnterKeepsNetOk(net, node, port, id, Egress(net.nodes[node], port, frame, hops, now));
    case SendGateway(node, port, id, frame, hops, now) =>
      GatewayStaysApart(net.nodes[node], port, frame, hops, now);
      EnterKeepsNetOk(net, node, port, id, GatewayEgress(net.nodes[node], port, frame, hops, now));
    case Receive(msg, hops, now) =>
      var o := net.origin[msg.id];
      OverlayNeverRelays(net.nodes[msg.dst], o.frame, o.node, hops, now);
      ReceiveKeepsNetOk(net, msg, FromOverlay(net.nodes[msg.dst], o.frame, o.node, hops, now));
    case Lose(msg) =>
    case Change(node, st) =>
  }

  lemma {:induction false} RunKeepsNetOk(net: Net, steps: seq<Step>)
    requires NetOk(net) && RunOk(net, steps)
    ensures NetOk(Run(net, steps))
    decreases steps
  {
    if |steps| > 0 {
      ApplyKeepsNetOk(net, steps[0]);
      RunKeepsNetOk(Apply(net, steps[0]), steps[1..]);
    }
  }

  /** A segment nothing has been sent on; its tables may hold anything. */
  ghost predicate Fresh(net: Net) {
    && (forall v :: v in net.nodes ==> NodeOk(net.nodes[v]) && net.nodes[v].cfg.self == v)
    && net.origin == map[] && net.flight == {} && net.lost == {} && net.log == multiset{} && net.crossed == multiset{}
  }

  /**
   * However tables change and messages race: a frame reaches each port at most
   * once, never the port it entered through, and crosses the overlay at most
   * once per receiving node.
   */
  lemma EveryFrameAtMostOnce(net: Net, steps: seq<Step>, id: nat, node: Vtep, port: nat)
    requires Fresh(net) && RunOk(net, steps)
    ensures var net' := Run(net, steps);
            && net'.log[Event(id, node, port)] <= 1 && net'.crossed[Msg(id, node)] <= 1
            && (id in net'.origin ==>
                  var o := net'.origin[id];
                  net'.log[Event(id, o.node, o.port)] == 0 && net'.crossed[Msg(id, o.node)] == 0)
  {
    RunKeepsNetOk(net, steps);
  }
}
