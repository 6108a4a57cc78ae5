/**
 * What the policy stage answers, told from the packet and the rule tables alone:
 * which slots a direction has, what a rule matches, which port and which address
 * are judged, and which code each packet gets.
 */
module PolicyMeaning {
  import opened Types
  import opened Conntrack
  import opened PolicyRules
  import opened SecurityGroups
  import opened PolicyStage
  import opened PolicyCache

  // ---- Slots ---------------------------------------------------------------

  /** Slot number `i` of a table that starts at `base` is scanned: below the count, with no gap before it. */
  ghost predicate Scanned<R(!new)>(slots: map<nat, R>, base: nat, count: nat, i: nat) {
    i < count && forall j :: base <= j <= base + i ==> j in slots
  }

  lemma {:induction false} WindowIsScanned<R(!new)>(slots: map<nat, R>, base: nat, count: nat, i: nat)
    ensures i < |Window(slots, base, count)| <==> Scanned(slots, base, count, i)
    ensures Scanned(slots, base, count, i) ==> Window(slots, base, count)[i] == slots[base + i]
    decreases count
  {
    if count > 0 && base in slots {
      if i > 0 {
        WindowIsScanned(slots, base + 1, count - 1, i - 1);
        assert Scanned(slots, base + 1, count - 1, i - 1) ==> Scanned(slots, base, count, i);
      }
    }
  }

  function Least(a: nat, b: nat): nat {
    if a <= b then a else b
  }

  // ---- Rules ---------------------------------------------------------------

  /** The address lies in the block of 2^(32 - len) addresses around the base; length 0 is every address. */
  predicate InBlock(base: Addr, len: nat, addr: Addr) {
    len == 0 || (len <= 32 && var size := Pow2(32 - len); base / size * size <= addr < base / size * size + size)
  }

  /** 0xFFFF is every protocol, 0 to 65535 every port and no port at all. */
  predicate Covers(proto: nat, lo: Port, hi: Port, number: nat, port: Port) {
    (proto == 65535 || proto == number) && ((lo == 0 && hi == 65535) || (lo <= port && port <= hi))
  }

  lemma BlocksAreBlocks(base: Addr, len: nat, addr: Addr)
    ensures CidrMatches(base, len, addr) <==> InBlock(base, len, addr)
  {
    if 0 < len <= 32 {
      CidrIsBlock(base, len, addr);
    }
  }

  predicate AclHits(r: AclRule, number: nat, port: Port, peer: Addr) {
    Covers(r.proto, r.lo, r.hi, number, port) && InBlock(r.peer, r.prefixLen, peer)
  }

  lemma AclHitsMatch(r: AclRule, number: nat, port: Port, peer: Addr)
    ensures AclMatches(r, Query(number, port, peer)) <==> AclHits(r, number, port, peer)
  {
    BlocksAreBlocks(r.peer, r.prefixLen, peer);
  }

  // ---- NetworkACL ----------------------------------------------------------

  /** A list stands for this direction. */
  predicate AclListed(acls: Acls, id: nat, ingress: bool) {
    id != 0 && id in acls.meta && if ingress then acls.meta[id].hasIngress else acls.meta[id].hasEgress
  }

  predicate HitAt(slots: map<nat, AclRule>, at: nat, number: nat, port: Port, peer: Addr) {
    at in slots && AclHits(slots[at], number, port, peer)
  }

  ghost predicate AclAllowsAt(slots: map<nat, AclRule>, base: nat, count: nat, i: nat, number: nat, port: Port,
                              peer: Addr) {
    && Scanned(slots, base, count, i) && slots[base + i].allow && HitAt(slots, base + i, number, port, peer)
    && forall at: nat :: base <= at < base + i ==> !HitAt(slots, at, number, port, peer)
  }

  /** The scan stops at an allowing rule. */
  lemma AllowingMeansDecided(rules: seq<AclRule>, q: Query)
    ensures FirstVerdict(rules, q) != Deny <==> exists i: nat :: Decides(rules, i, q) && rules[i].allow
  {
    FirstVerdictDecides(rules, q);
    if k: nat :| k < |rules| && AclMatches(rules[k], q) {
      var i := FirstIndex(rules, k, q);
      assert Decides(rules, i, q);
    }
  }

  lemma SlotIsRule(slots: map<nat, AclRule>, base: nat, count: nat, at: nat, number: nat, port: Port, peer: Addr)
    requires base <= at && at - base < |Window(slots, base, count)|
    ensures at in slots && Window(slots, base, count)[at - base] == slots[at]
    ensures AclMatches(Window(slots, base, count)[at - base], Query(number, port, peer)) <==>
            HitAt(slots, at, number, port, peer)
  {
    WindowIsScanned(slots, base, count, at - base);
    AclHitsMatch(slots[at], number, port, peer);
  }

  lemma DecidesAt(slots: map<nat, AclRule>, base: nat, count: nat, i: nat, number: nat, port: Port, peer: Addr)
    ensures var rules := Window(slots, base, count);
            Decides(rules, i, Query(number, port, peer)) && rules[i].allow <==>
            AclAllowsAt(slots, base, count, i, number, port, peer)
  {
    WindowIsScanned(slots, base, count, i);
    var rules, q := Window(slots, base, count), Query(number, port, peer);
    if i < |rules| {
      SlotIsRule(slots, base, count, base + i, number, port, peer);
      forall at: nat | base <= at < base + i
        ensures AclMatches(rules[at - base], q) <==> HitAt(slots, at, number, port, peer)
      {
        SlotIsRule(slots, base, count, at, number, port, peer);
      }
      if AclAllowsAt(slots, base, count, i, number, port, peer) {
        forall j | 0 <= j < i
          ensures !AclMatches(rules[j], q)
        {
          SlotIsRule(slots, base, count, base + j, number, port, peer);
        }
      }
    }
  }

  lemma FirstAllows(slots: map<nat, AclRule>, base: nat, count: nat, number: nat, port: Port, peer: Addr)
    ensures FirstVerdict(Window(slots, base, count), Query(number, port, peer)) != Deny <==>
            exists i: nat :: AclAllowsAt(slots, base, count, i, number, port, peer)
  {
    var rules, q := Window(slots, base, count), Query(number, port, peer);
    AllowingMeansDecided(rules, q);
    if i: nat :| Decides(rules, i, q) && rules[i].allow {
      DecidesAt(slots, base, count, i, number, port, peer);
    }
    if i: nat :| AclAllowsAt(slots, base, count, i, number, port, peer) {
      DecidesAt(slots, base, count, i, number, port, peer);
    }
  }

  function AclSlots(ingress: bool): nat {
    if ingress then 0 else 16
  }

  function AclCount(meta: AclMeta, ingress: bool): nat {
    Least(if ingress then meta.ingressCount else meta.egressCount, 16)
  }

  /** The list lets the packet through: the first of its rules that hits is an allowing one. */
  ghost predicate AclLets(acls: Acls, id: nat, ingress: bool, number: nat, port: Port, peer: Addr)
    requires id in acls.meta
  {
    id in acls.rules &&
    var count := AclCount(acls.meta[id], ingress);
    exists i: nat :: AclAllowsAt(acls.rules[id], AclSlots(ingress), count, i, number, port, peer)
  }

  lemma AclMeans(acls: Acls, id: nat, ingress: bool, number: nat, port: Port, peer: Addr)
    ensures AclVerdict(acls, id, if ingress then Ingress else Egress, Query(number, port, peer)) == Deny <==>
            AclListed(acls, id, ingress) && !AclLets(acls, id, ingress, number, port, peer)
  {
    if AclListed(acls, id, ingress) && id in acls.rules {
      FirstAllows(acls.rules[id], AclSlots(ingress), AclCount(acls.meta[id], ingress), number, port, peer);
    }
  }

  // ---- SecurityGroups ------------------------------------------------------

  /** The groups that count for an address: at most two, and never more than it has slots. */
  predicate InForce(groups: Option<Membership>, sg: nat) {
    && groups.Some?
    && exists k :: 0 <= k < groups.value.count && k < 2 && k < |groups.value.slots| && groups.value.slots[k] == sg
  }

  /** The rule names the peer: by a block that holds its address, or by a group it is in. */
  predicate NamesPeer(p: Peer, peer: Addr, peerGroups: Option<Membership>) {
    (p.Cidr? && InBlock(p.base, p.len, peer)) || (p.Group? && InForce(peerGroups, p.id))
  }

  predicate SgHits(r: SgRule, number: nat, port: Port, peer: Addr, peerGroups: Option<Membership>) {
    r.allow && Covers(r.proto, r.lo, r.hi, number, port) && NamesPeer(r.peer, peer, peerGroups)
  }

  /** A group speaks about egress by having a list at all, about ingress by having rules. */
  predicate SpeaksOf(g: Groups, sg: nat, ingress: bool) {
    sg in g.meta && if ingress then g.meta[sg].ingressCount > 0 else g.meta[sg].hasEgress
  }

  function SgSlots(ingress: bool): nat {
    if ingress then 0 else 8
  }

  function SgCount(meta: SgMeta, ingress: bool): nat {
    Least(if ingress then meta.ingressCount else meta.egressCount, 8)
  }

  /** One of the group's rules for the direction allows the packet. */
  ghost predicate SgLets(g: Groups, sg: nat, ingress: bool, number: nat, port: Port, peer: Addr,
                         peerGroups: Option<Membership>) {
    SpeaksOf(g, sg, ingress) && sg in g.rules &&
    exists i: nat :: Scanned(g.rules[sg], SgSlots(ingress), SgCount(g.meta[sg], ingress), i) &&
      SgHits(g.rules[sg][SgSlots(ingress) + i], number, port, peer, peerGroups)
  }

  /** Denied: the address has groups, none lets the packet through, and one speaks of the direction or it is ingress. */
  ghost predicate SgDenies(g: Groups, self: Option<Membership>, ingress: bool, number: nat, port: Port, peer: Addr,
                           peerGroups: Option<Membership>) {
    && self.Some? && self.value.count > 0
    && (forall sg :: InForce(self, sg) ==> !SgLets(g, sg, ingress, number, port, peer, peerGroups))
    && (ingress || exists sg :: InForce(self, sg) && SpeaksOf(g, sg, ingress))
  }

  lemma ListIsInForce(groups: Membership, sg: nat)
    ensures sg in groups.List() <==> InForce(Some(groups), sg)
  {
    if sg in groups.List() {
      var k :| 0 <= k < |groups.List()| && groups.List()[k] == sg;
      assert groups.slots[k] == sg;
    }
    if InForce(Some(groups), sg) {
      var k :| 0 <= k < groups.count && k < 2 && k < |groups.slots| && groups.slots[k] == sg;
      assert groups.List()[k] == sg;
    }
  }

  lemma SgHitsAllow(r: SgRule, number: nat, port: Port, peer: Addr, peerGroups: Option<Membership>)
    ensures Allows(r, Query(number, port, peer), peerGroups) <==> SgHits(r, number, port, peer, peerGroups)
  {
    match r.peer
    case Cidr(base, len) => BlocksAreBlocks(base, len, peer);
    case Group(id) => if peerGroups.Some? { ListIsInForce(peerGroups.value, id); }
    case OtherKind =>
  }

  lemma GroupMeans(g: Groups, sg: nat, ingress: bool, number: nat, port: Port, peer: Addr,
                   peerGroups: Option<Membership>)
    ensures GroupAllows(g, sg, if ingress then Ingress else Egress, Query(number, port, peer), peerGroups) <==>
            SgLets(g, sg, ingress, number, port, peer, peerGroups)
  {
    var dir, q := if ingress then Ingress else Egress, Query(number, port, peer);
    if sg in g.meta && sg in g.rules {
      var slots, base, count := g.rules[sg], SgSlots(ingress), SgCount(g.meta[sg], ingress);
      assert SgWindow(g, sg, dir) == Window(slots, base, count);
      if r :| r in Window(slots, base, count) && Allows(r, q, peerGroups) {
        var i: nat :| i < |Window(slots, base, count)| && Window(slots, base, count)[i] == r;
        WindowIsScanned(slots, base, count, i);
        SgHitsAllow(r, number, port, peer, peerGroups);
      }
      if i: nat :| Scanned(slots, base, count, i) && SgHits(slots[base + i], number, port, peer, peerGroups) {
        WindowIsScanned(slots, base, count, i);
        SgHitsAllow(slots[base + i], number, port, peer, peerGroups);
        assert Window(slots, base, count)[i] in Window(slots, base, count);
      }
    }
  }

  lemma SgMeans(g: Groups, self: Option<Membership>, ingress: bool, number: nat, port: Port, peer: Addr,
                peerGroups: Option<Membership>)
    ensures SgVerdict(g, self, peerGroups, if ingress then Ingress else Egress, Query(number, port, peer)) == Deny <==>
            SgDenies(g, self, ingress, number, port, peer, peerGroups)
  {
    if self.Some? {
      forall sg: nat
        ensures sg in self.value.List() <==> InForce(self, sg)
        ensures GroupAllows(g, sg, if ingress then Ingress else Egress, Query(number, port, peer), peerGroups) <==>
                SgLets(g, sg, ingress, number, port, peer, peerGroups)
      {
        ListIsInForce(self.value, sg);
        GroupMeans(g, sg, ingress, number, port, peer, peerGroups);
      }
    }
  }

  // ---- Packets -------------------------------------------------------------

  /** Whom a hook protects, and who is on the other side. */
  function Mine(p: Packet, hook: Hook): Addr {
    if hook == PodEgress then p.saddr else p.daddr
  }

  function Theirs(p: Packet, hook: Hook): Addr {
    if hook == PodEgress then p.daddr else p.saddr
  }

  function AclIdAt(r: Rules, scope: Scope, addr: Addr): nat {
    if (scope, addr) in r.aclOf then r.aclOf[(scope, addr)] else 0
  }

  function GroupsAt(r: Rules, scope: Scope, addr: Addr): Option<Membership> {
    if (scope, addr) in r.members then Some(r.members[(scope, addr)]) else None
  }

  predicate HasGroup(r: Rules, scope: Scope, addr: Addr) {
    (scope, addr) in r.members && r.members[(scope, addr)].count > 0
  }

  /** IP protocol numbers. */
  function NumberOf(proto: Proto): nat {
    match proto
    case Tcp => 6
    case Udp => 17
    case Icmp => 1
    case OtherProto(n) => n
  }

  /** The ACL of the hook's own address denies packets to this port from the other side. */
  ghost predicate AclDenies(r: Rules, p: Packet, hook: Hook, scope: Scope, dport: Port) {
    var id := AclIdAt(r, scope, Mine(p, hook));
    AclListed(r.acls, id, hook == PodIngress) &&
    !AclLets(r.acls, id, hook == PodIngress, NumberOf(p.proto), dport, Theirs(p, hook))
  }

  /** So do the SecurityGroups of that address. */
  ghost predicate GroupsDeny(r: Rules, p: Packet, hook: Hook, scope: Scope, dport: Port) {
    SgDenies(r.groups, GroupsAt(r, scope, Mine(p, hook)), hook == PodIngress, NumberOf(p.proto), dport, Theirs(p, hook),
             GroupsAt(r, scope, Theirs(p, hook)))
  }

  /** What a fragment recovers: ports recorded for its datagram at most five seconds ago. */
  predicate Remembered(s: Stage, p: Packet, scope: Scope, now: Time, sport: Port, dport: Port) {
    var f := FragKey(scope, p.saddr, p.daddr, p.ipId, p.proto);
    && f in s.frags && s.frags[f].sport == sport && s.frags[f].dport == dport
    && Elapsed(now, s.frags[f].at) <= 5_000_000_000
  }

  /**
   * The ports a packet goes by: those it shows if it is TCP or UDP and shows any,
   * those remembered for its datagram if it shows none, zeros otherwise.
   */
  predicate GoesBy(s: Stage, p: Packet, scope: Scope, now: Time, sport: Port, dport: Port) {
    if p.proto != Tcp && p.proto != Udp then sport == dport == 0
    else if p.fragment != Later && p.ports.Some? then p.ports == Some((sport, dport))
    else Remembered(s, p, scope, now, sport, dport)
  }

  function EntryKey(s: Stage, p: Packet, hook: Hook, scope: Scope, sport: Port, dport: Port): Key {
    Key(s.epoch, scope, Tuple(p.saddr, p.daddr, sport, dport, p.proto), hook)
  }

  /** The answers to the packet, at the other hook. */
  function AnswerKey(s: Stage, p: Packet, hook: Hook, scope: Scope, sport: Port, dport: Port): Key {
    Key(s.epoch, scope, Tuple(p.daddr, p.saddr, dport, sport, p.proto),
        if hook == PodEgress then PodIngress else PodEgress)
  }

  /** Only the admissions, their failure counts and the record of first fragments ever change. */
  predicate SameRules(s: Stage, s': Stage) {
    s'.rules == s.rules && s'.epoch == s.epoch && s'.capacity == s.capacity
  }

  lemma LayersMean(r: Rules, k: Key, p: Packet, hook: Hook, scope: Scope, dport: Port)
    requires k.t.saddr == p.saddr && k.t.daddr == p.daddr && k.t.dport == dport && k.t.proto == p.proto
    requires k.hook == hook && k.scope == scope
    ensures AclOn(r, k) == Deny <==> AclDenies(r, p, hook, scope, dport)
    ensures SgOn(r, k) == Deny <==> GroupsDeny(r, p, hook, scope, dport)
    ensures Attached(r, k) <==> AclIdAt(r, scope, Mine(p, hook)) != 0 || HasGroup(r, scope, Mine(p, hook))
  {
    AclMeans(r.acls, AclIdAt(r, scope, Mine(p, hook)), hook == PodIngress, NumberOf(p.proto), dport, Theirs(p, hook));
    SgMeans(r.groups, GroupsAt(r, scope, Mine(p, hook)), hook == PodIngress, NumberOf(p.proto), dport, Theirs(p, hook),
            GroupsAt(r, scope, Theirs(p, hook)));
  }

  lemma PacketHasItsKey(s: Stage, p: Packet, hook: Hook, scope: Scope, now: Time, sport: Port, dport: Port)
    returns (s1: Stage)
    requires GoesBy(s, p, scope, now, sport, dport)
    ensures SameRules(s, s1) && s1.ct == s.ct && s1.revFailed == s.revFailed && s1.fwdFailed == s.fwdFailed
    ensures var k := EntryKey(s, p, hook, scope, sport, dport);
            ApplyPolicy(s, p, hook, scope, now) ==
            if k in s1.ct then Outcome(Seen(s1, k, p, now), 0, Shortcut, Some(k)) else EvaluateNew(s1, k, p, now)
  {
    s1 := FragRecorded(s, scope, p, (sport, dport), now);
  }

  /**
   * The code of a packet that no admission covers: -1 exactly if the ACL of the
   * hook's own address denies its destination port from the other side, -3 if
   * not that but the SecurityGroups do, 1 if it is admitted and an ACL or a group
   * stands there, 0 if nothing does.
   */
  lemma NewPacketsAreJudged(s: Stage, p: Packet, hook: Hook, scope: Scope, now: Time, sport: Port, dport: Port)
    requires GoesBy(s, p, scope, now, sport, dport) && EntryKey(s, p, hook, scope, sport, dport) !in s.ct
    ensures ApplyPolicy(s, p, hook, scope, now).code ==
            if AclDenies(s.rules, p, hook, scope, dport) then -1
            else if GroupsDeny(s.rules, p, hook, scope, dport) then -3
            else if AclIdAt(s.rules, scope, Mine(p, hook)) != 0 || HasGroup(s.rules, scope, Mine(p, hook)) then 1
            else 0
  {
    var s1 := PacketHasItsKey(s, p, hook, scope, now, sport, dport);
    LayersMean(s1.rules, EntryKey(s, p, hook, scope, sport, dport), p, hook, scope, dport);
  }

  /** The same verdict in terms of the whole rule list: what the ACL says of the packet's protocol, port and peer. */
  lemma NewPacketsMeetTheAcl(s: Stage, p: Packet, hook: Hook, scope: Scope, now: Time, sport: Port, dport: Port)
    requires GoesBy(s, p, scope, now, sport, dport) && EntryKey(s, p, hook, scope, sport, dport) !in s.ct
    ensures ApplyPolicy(s, p, hook, scope, now).code == -1 <==>
            AclSays(s.rules.acls, AclIdAt(s.rules, scope, Mine(p, hook)), if hook == PodEgress then Egress else Ingress,
                    Query(NumberOf(p.proto), dport, Theirs(p, hook)), Deny)
  {
    NewPacketsAreJudged(s, p, hook, scope, now, sport, dport);
    var id, q := AclIdAt(s.rules, scope, Mine(p, hook)), Query(NumberOf(p.proto), dport, Theirs(p, hook));
    AclMeans(s.rules.acls, id, hook == PodIngress, q.proto, dport, q.peer);
    AclVerdictIsWhatItSays(s.rules.acls, id, if hook == PodEgress then Egress else Ingress, q, Deny);
  }

  /** The source port plays no part: two new packets that differ in nothing else get the same code. */
  lemma SourcePortIsNotJudged(s: Stage, p: Packet, q: Packet, hook: Hook, scope: Scope, now: Time, sport: Port,
                              sport': Port, dport: Port)
    requires GoesBy(s, p, scope, now, sport, dport) && EntryKey(s, p, hook, scope, sport, dport) !in s.ct
    requires GoesBy(s, q, scope, now, sport', dport) && EntryKey(s, q, hook, scope, sport', dport) !in s.ct
    requires q.saddr == p.saddr && q.daddr == p.daddr && q.proto == p.proto
    ensures ApplyPolicy(s, q, hook, scope, now).code == ApplyPolicy(s, p, hook, scope, now).code
  {
    NewPacketsAreJudged(s, p, hook, scope, now, sport, dport);
    NewPacketsAreJudged(s, q, hook, scope, now, sport', dport);
  }

  /** A packet without ports to go by is dropped exactly if an ACL list or a group polices the direction. */
  lemma UnjudgedPacketsAreDropped(s: Stage, p: Packet, hook: Hook, scope: Scope, now: Time)
    requires forall sport: Port, dport: Port :: !GoesBy(s, p, scope, now, sport, dport)
    ensures var o := ApplyPolicy(s, p, hook, scope, now);
            && o.s == s
            && o.code == if AclListed(s.rules.acls, AclIdAt(s.rules, scope, Mine(p, hook)), hook == PodIngress) ||
                            HasGroup(s.rules, scope, Mine(p, hook)) then -4 else 0
  {
    var ports := JudgedPorts(s, scope, p, now);
    assert ports.Some? ==> GoesBy(s, p, scope, now, ports.value.0, ports.value.1);
  }

  /** What an admission starts as: a SYN opens a flow, anything else is taken to be in the middle of one. */
  function Admission(p: Packet, now: Time): Val {
    if p.proto == Tcp && p.flags.Some? then Val(if Syn in p.flags.value then New else Established, p.flags.value, now)
    else Val(Established, {}, now)
  }

  /** Two entries into a table with room for both, for the first, or for neither. */
  predicate Recorded(s: Stage, s': Stage, k: Key, a: Key, v: Val) {
    var taken := |s.ct| + if a in s.ct then 0 else 1;
    if a !in s.ct && taken > s.capacity then
      s'.ct == s.ct && s'.revFailed == s.revFailed + 1 && s'.fwdFailed == s.fwdFailed
    else if taken >= s.capacity then
      s'.ct == s.ct[a := v] && s'.revFailed == s.revFailed && s'.fwdFailed == s.fwdFailed + 1
    else s'.ct == s.ct[a := v][k := v] && s'.revFailed == s.revFailed && s'.fwdFailed == s.fwdFailed
  }

  lemma InstallRecords(s: Stage, k: Key, a: Key, v: Val)
    requires a == Reverse(k) && k !in s.ct
    ensures Recorded(s, Installed(s, k, v), k, a, v) && SameRules(s, Installed(s, k, v))
  {
    ReverseKeepsProtected(k);
  }

  /**
   * What judging a new packet writes: nothing unless its code is 1, and then its
   * admission under its own key and under that of its answers. A full table keeps
   * out both, or if it has room for one entry, the packet's own.
   */
  lemma AdmissionsAreWritten(s: Stage, p: Packet, hook: Hook, scope: Scope, now: Time, sport: Port, dport: Port)
    requires GoesBy(s, p, scope, now, sport, dport) && EntryKey(s, p, hook, scope, sport, dport) !in s.ct
    ensures var o := ApplyPolicy(s, p, hook, scope, now);
            && SameRules(s, o.s)
            && if o.code == 1
               then Recorded(s, o.s, EntryKey(s, p, hook, scope, sport, dport),
                             AnswerKey(s, p, hook, scope, sport, dport), Admission(p, now))
               else o.s.ct == s.ct && o.s.revFailed == s.revFailed && o.s.fwdFailed == s.fwdFailed
  {
    var s1 := PacketHasItsKey(s, p, hook, scope, now, sport, dport);
    InstallRecords(s1, EntryKey(s, p, hook, scope, sport, dport), AnswerKey(s, p, hook, scope, sport, dport),
                   Admission(p, now));
  }

  /**
   * A packet of an admitted flow passes, whatever the rules say of it by then. Its
   * own entry follows its TCP flags; a reset or a second FIN removes both halves.
   */
  lemma AdmittedPacketsPass(s: Stage, p: Packet, hook: Hook, scope: Scope, now: Time, sport: Port, dport: Port)
    requires GoesBy(s, p, scope, now, sport, dport) && EntryKey(s, p, hook, scope, sport, dport) in s.ct
    requires s.ct[EntryKey(s, p, hook, scope, sport, dport)].state != Closed
    ensures var o, k, a := ApplyPolicy(s, p, hook, scope, now), EntryKey(s, p, hook, scope, sport, dport),
                           AnswerKey(s, p, hook, scope, sport, dport);
            var flags := if p.proto == Tcp && p.flags.Some? then p.flags.value else {};
            var was := s.ct[k].state;
            && o.code == 0 && SameRules(s, o.s) && o.s.revFailed == s.revFailed && o.s.fwdFailed == s.fwdFailed
            && o.s.ct == (if Rst in flags || (Fin in flags && was == FinWait) then s.ct - {k, a}
                          else s.ct[k := Val(if Fin in flags then FinWait
                                             else if Ack in flags && was == New then Established else was,
                                             s.ct[k].flagsSeen + flags, now)])
  {
    var s1 := PacketHasItsKey(s, p, hook, scope, now, sport, dport);
    var k := EntryKey(s, p, hook, scope, sport, dport);
    assert Reverse(k) == AnswerKey(s, p, hook, scope, sport, dport);
    assert s.ct[k].flagsSeen + {} == s.ct[k].flagsSeen;
  }
}
