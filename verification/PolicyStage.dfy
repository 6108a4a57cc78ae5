/**
 * The policy stage as a state machine: rules, an admission cache keyed by
 * epoch and hook, and the fragment table. One packet at one hook is one step;
 * rules change only together with the epoch.
 */
module PolicyStage {
  import opened Types
  import opened Conntrack
  import opened PolicyRules
  import opened SecurityGroups

  // ---- Packets and keys ----------------------------------------------------

  datatype Hook = PodEgress | PodIngress

  datatype Fragment = Whole | First | Later

  /**
   * A packet at a hook. `ports` is what its L4 header shows, `flags` what the
   * TCP flags byte shows; both are absent when the header cannot be read.
   */
  datatype Packet = Packet(saddr: Addr, daddr: Addr, proto: Proto, ports: Option<(Port, Port)>,
                           fragment: Fragment, ipId: nat, flags: Option<set<TcpFlag>>)

  datatype Key = Key(epoch: nat, scope: Scope, t: Tuple, hook: Hook)

  datatype Val = Val(state: CtState, flagsSeen: set<TcpFlag>, lastSeen: Time)

  datatype FragKey = FragKey(scope: Scope, saddr: Addr, daddr: Addr, id: nat, proto: Proto)

  datatype FragVal = FragVal(sport: Port, dport: Port, at: Time)

  const FRAG_MAX_AGE: nat := 5_000_000_000

  function PeerHook(h: Hook): Hook {
    if h == PodEgress then PodIngress else PodEgress
  }

  /** The same flow as the other hook sees it. */
  function Reverse(k: Key): Key {
    Key(k.epoch, k.scope, k.t.Mirror(), PeerHook(k.hook))
  }

  /** The workload an admission vouches for. */
  function Protected(k: Key): Addr {
    if k.hook == PodEgress then k.t.saddr else k.t.daddr
  }

  function PeerOf(k: Key): Addr {
    if k.hook == PodEgress then k.t.daddr else k.t.saddr
  }

  function DirectionOf(h: Hook): Direction {
    if h == PodEgress then Egress else Ingress
  }

  // ---- Rules ---------------------------------------------------------------

  /** Everything an evaluation reads: ACLs and the Subnet bindings, groups and their members. */
  datatype Rules = Rules(acls: Acls, aclOf: map<(Scope, Addr), nat>,
                         groups: Groups, members: map<(Scope, Addr), Membership>)
  {
    function AclId(scope: Scope, addr: Addr): nat {
      if (scope, addr) in aclOf then aclOf[(scope, addr)] else 0
    }

    function GroupsOf(scope: Scope, addr: Addr): Option<Membership> {
      if (scope, addr) in members then Some(members[(scope, addr)]) else None
    }

    predicate HasGroups(scope: Scope, addr: Addr) {
      GroupsOf(scope, addr).Some? && GroupsOf(scope, addr).value.count > 0
    }
  }

  function QueryOf(k: Key): Query {
    Query(Number(k.t.proto), k.t.dport, PeerOf(k))
  }

  function AclOn(r: Rules, k: Key): Verdict {
    AclVerdict(r.acls, r.AclId(k.scope, Protected(k)), DirectionOf(k.hook), QueryOf(k))
  }

  function SgOn(r: Rules, k: Key): Verdict {
    SgVerdict(r.groups, r.GroupsOf(k.scope, Protected(k)), r.GroupsOf(k.scope, PeerOf(k)),
              DirectionOf(k.hook), QueryOf(k))
  }

  /** Neither layer rejects the packet. */
  predicate Admits(r: Rules, k: Key) {
    AclOn(r, k) != Deny && SgOn(r, k) != Deny
  }

  /** A layer stands at this hook, whatever it decides. */
  predicate Attached(r: Rules, k: Key) {
    r.AclId(k.scope, Protected(k)) != 0 || r.HasGroups(k.scope, Protected(k))
  }

  /** Whether the direction is policed, asked when a packet cannot be judged. */
  predicate Enforced(r: Rules, scope: Scope, hook: Hook, self: Addr) {
    AclEnforces(r.acls, r.AclId(scope, self), DirectionOf(hook)) || r.HasGroups(scope, self)
  }

  // ---- The stage -----------------------------------------------------------

  datatype Stage = Stage(rules: Rules, epoch: nat, capacity: nat, ct: map<Key, Val>, frags: map<FragKey, FragVal>,
                         revFailed: nat, fwdFailed: nat)

  function FragKeyOf(scope: Scope, p: Packet): FragKey {
    FragKey(scope, p.saddr, p.daddr, p.ipId, p.proto)
  }

  /** The ports a packet shows; a protocol without ports shows zeros, and None means they cannot be read. */
  function ShownPorts(p: Packet): Option<(Port, Port)> {
    if !HasPorts(p.proto) then Some((0, 0)) else if p.fragment == Later then None else p.ports
  }

  /** The ports a first fragment of the same datagram left behind, if they are fresh. */
  function RecoveredPorts(s: Stage, scope: Scope, p: Packet, now: Time): Option<(Port, Port)> {
    var k := FragKeyOf(scope, p);
    if k !in s.frags || Elapsed(now, s.frags[k].at) > FRAG_MAX_AGE then None
    else Some((s.frags[k].sport, s.frags[k].dport))
  }

  function JudgedPorts(s: Stage, scope: Scope, p: Packet, now: Time): Option<(Port, Port)> {
    if ShownPorts(p).Some? then ShownPorts(p) else RecoveredPorts(s, scope, p, now)
  }

  function FragRecorded(s: Stage, scope: Scope, p: Packet, ports: (Port, Port), now: Time): Stage {
    if p.fragment == First && HasPorts(p.proto) then
      s.(frags := s.frags[FragKeyOf(scope, p) := FragVal(ports.0, ports.1, now)])
    else s
  }

  predicate Fits(ct: map<Key, Val>, capacity: nat, k: Key) {
    k in ct || |ct| < capacity
  }

  /** Reverse half first, forward half only behind it; a full table stops either. */
  function Installed(s: Stage, k: Key, v: Val): Stage {
    if !Fits(s.ct, s.capacity, Reverse(k)) then s.(revFailed := s.revFailed + 1)
    else
      var ct1 := s.ct[Reverse(k) := v];
      if !Fits(ct1, s.capacity, k) then s.(ct := ct1, fwdFailed := s.fwdFailed + 1)
      else s.(ct := ct1[k := v])
  }

  /** A packet of an admitted flow: refreshed, and on a close both halves go. */
  function Seen(s: Stage, k: Key, p: Packet, now: Time): Stage
    requires k in s.ct
  {
    var v := s.ct[k].(lastSeen := now);
    if p.proto != Tcp || p.flags.None? then s.(ct := s.ct[k := v])
    else
      var next := DeriveNextState(v.state, p.flags.value);
      if next == Closed then s.(ct := s.ct - {Reverse(k), k})
      else s.(ct := s.ct[k := v.(state := next, flagsSeen := v.flagsSeen + p.flags.value)])
  }

  function SeedVal(p: Packet, now: Time): Val {
    if p.proto == Tcp && p.flags.Some? then Val(InitialState(p.flags.value), p.flags.value, now)
    else Val(Established, {}, now)
  }

  datatype How = Unjudged | Shortcut | Evaluated

  /** `code` is what the caller acts on: negative codes drop the packet. */
  datatype Outcome = Outcome(s: Stage, code: int, how: How, key: Option<Key>)

  function KeyOf(s: Stage, p: Packet, ports: (Port, Port), hook: Hook, scope: Scope): Key {
    Key(s.epoch, scope, Tuple(p.saddr, p.daddr, ports.0, ports.1, p.proto), hook)
  }

  function EvaluateNew(s: Stage, k: Key, p: Packet, now: Time): Outcome {
    if AclOn(s.rules, k) == Deny then Outcome(s, -1, Evaluated, Some(k))
    else if SgOn(s.rules, k) == Deny then Outcome(s, -3, Evaluated, Some(k))
    else if !Attached(s.rules, k) then Outcome(s, 0, Evaluated, Some(k))
    else Outcome(Installed(s, k, SeedVal(p, now)), 1, Evaluated, Some(k))
  }

  function SelfOf(p: Packet, hook: Hook): Addr {
    if hook == PodEgress then p.saddr else p.daddr
  }

  function ApplyPolicy(s: Stage, p: Packet, hook: Hook, scope: Scope, now: Time): Outcome {
    match JudgedPorts(s, scope, p, now)
    case None => Outcome(s, if Enforced(s.rules, scope, hook, SelfOf(p, hook)) then -4 else 0, Unjudged, None)
    case Some(ports) =>
      var s1 := FragRecorded(s, scope, p, ports, now);
      var k := KeyOf(s1, p, ports, hook, scope);
      if k in s1.ct then Outcome(Seen(s1, k, p, now), 0, Shortcut, Some(k)) else EvaluateNew(s1, k, p, now)
  }

  // ---- Keys ----------------------------------------------------------------

  /** Mirroring a key twice gives it back, and keeps what the entry vouches for. */
  lemma ReverseKeepsProtected(k: Key)
    ensures Reverse(Reverse(k)) == k && Reverse(k) != k
    ensures Protected(Reverse(k)) == Protected(k) && PeerOf(Reverse(k)) == PeerOf(k)
    ensures Reverse(k).scope == k.scope && Reverse(k).epoch == k.epoch
  {
    assert k.t.Mirror().Mirror() == k.t;
  }

  // ---- Packets nothing can judge -------------------------------------------

  /** The key the packet would have had with these ports. */
  function KeyWith(s: Stage, p: Packet, hook: Hook, scope: Scope, sport: Port, dport: Port): Key {
    KeyOf(s, p, (sport, dport), hook, scope)
  }

  /** A packet let through without ports could not have been denied, whatever its ports are. */
  lemma UnjudgedPacketsEscapeNoRule(s: Stage, p: Packet, hook: Hook, scope: Scope, now: Time, sport: Port, dport: Port)
    requires ApplyPolicy(s, p, hook, scope, now).how == Unjudged && ApplyPolicy(s, p, hook, scope, now).code >= 0
    ensures Admits(s.rules, KeyWith(s, p, hook, scope, sport, dport))
    ensures JudgedPorts(s, scope, p, now).None?
  {
    var k := KeyWith(s, p, hook, scope, sport, dport);
    assert Protected(k) == SelfOf(p, hook);
  }
}
