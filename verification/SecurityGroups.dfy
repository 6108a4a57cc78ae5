/**
 * The SecurityGroups of a workload: "some declared rule allows". The nested
 * scan loops are proved against that meaning, which no order of groups or rules
 * can change.
 */
module SecurityGroups {
  import opened Types
  import opened PolicyRules

  const MAX_SG_RULES: nat := 8
  const MAX_SGS: nat := 2

  datatype Peer = Cidr(base: Addr, len: nat) | Group(id: nat) | OtherKind

  datatype SgRule = SgRule(proto: nat, lo: Port, hi: Port, peer: Peer, allow: bool)

  datatype SgMeta = SgMeta(hasEgress: bool, ingressCount: nat, egressCount: nat)
  {
    function Count(dir: Direction): nat {
      if dir == Ingress then ingressCount else egressCount
    }

    /** An egress list may be declared empty; ingress is declared by having rules. */
    predicate Declares(dir: Direction) {
      if dir == Ingress then ingressCount > 0 else hasEgress
    }
  }

  datatype Groups = Groups(meta: map<nat, SgMeta>, rules: map<nat, map<nat, SgRule>>)

  /** The groups of one address: a count, and as many slots as an interface may have. */
  datatype Membership = Membership(count: nat, slots: seq<nat>)
  {
    /** The groups in force; a count beyond the slots is cut. */
    function List(): seq<nat> {
      slots[..Min(Min(count, MAX_SGS), |slots|)]
    }
  }

  // ---- What the groups mean ------------------------------------------------

  predicate PeerMatches(p: Peer, addr: Addr, peerGroups: Option<Membership>) {
    match p
    case Cidr(base, len) => CidrMatches(base, len, addr)
    case Group(id) => peerGroups.Some? && id in peerGroups.value.List()
    case OtherKind => false
  }

  predicate Allows(r: SgRule, q: Query, peerGroups: Option<Membership>) {
    && ProtoMatches(r.proto, q.proto) && PortMatches(r.lo, r.hi, q.dport)
    && PeerMatches(r.peer, q.peer, peerGroups) && r.allow
  }

  function SgBase(dir: Direction): nat {
    if dir == Ingress then 0 else MAX_SG_RULES
  }

  /** The rules of one direction of a group; a missing table holds none. */
  function SgWindow(g: Groups, sg: nat, dir: Direction): seq<SgRule> {
    if sg !in g.meta || sg !in g.rules then []
    else Window(g.rules[sg], SgBase(dir), Min(g.meta[sg].Count(dir), MAX_SG_RULES))
  }

  predicate Declared(g: Groups, sg: nat, dir: Direction) {
    sg in g.meta && g.meta[sg].Declares(dir)
  }

  /** Group `sg` declares the direction and one of its rules allows the packet. */
  predicate GroupAllows(g: Groups, sg: nat, dir: Direction, q: Query, peerGroups: Option<Membership>) {
    Declared(g, sg, dir) && exists r :: r in SgWindow(g, sg, dir) && Allows(r, q, peerGroups)
  }

  /**
   * Some declared rule allows; otherwise, deny. Only egress that no group
   * declares at all passes by default.
   */
  function SgVerdict(g: Groups, self: Option<Membership>, peerGroups: Option<Membership>, dir: Direction,
                     q: Query): Verdict {
    if self.None? || self.value.count == 0 then Pass
    else if exists sg :: sg in self.value.List() && GroupAllows(g, sg, dir, q, peerGroups) then Allow
    else if dir == Egress && forall sg :: sg in self.value.List() ==> !Declared(g, sg, dir) then Pass
    else Deny
  }

  // ---- The scan ------------------------------------------------------------

  method PeerSetContains(peerGroups: Option<Membership>, id: nat) returns (found: bool)
    ensures found == (peerGroups.Some? && id in peerGroups.value.List())
  {
    if peerGroups.None? {
      return false;
    }
    var list := peerGroups.value.List();
    var i := 0;
    while i < |list|
      invariant i <= |list| && id !in list[..i]
    {
      if list[i] == id {
        return true;
      }
      i := i + 1;
    }
    found := false;
  }

  method EvalOneGroup(g: Groups, sg: nat, dir: Direction, q: Query, peerGroups: Option<Membership>)
    returns (allow: bool)
    requires sg in g.meta
    ensures allow <==> exists r :: r in SgWindow(g, sg, dir) && Allows(r, q, peerGroups)
  {
    if sg !in g.rules {
      return false;
    }
    var slots := g.rules[sg];
    var base := SgBase(dir);
    var count := Min(g.meta[sg].Count(dir), MAX_SG_RULES);
    ghost var rules := SgWindow(g, sg, dir);
    var i := 0;
    while i < count
      invariant i <= count && forall j :: base <= j < base + i ==> j in slots
      invariant forall j :: base <= j < base + i ==> !Allows(slots[j], q, peerGroups)
    {
      WindowAt(slots, base, count, i);
      if base + i !in slots {
        break;
      }
      var r := slots[base + i];
      var hit := false;
      if ProtoMatches(r.proto, q.proto) && PortMatches(r.lo, r.hi, q.dport) {
        match r.peer
        case Cidr(b, len) => hit := CidrMatches(b, len, q.peer);
        case Group(id) => hit := PeerSetContains(peerGroups, id);
        case OtherKind =>
      }
      if hit && r.allow {
        assert rules[i] == r && r in rules;
        return true;
      }
      i := i + 1;
    }
    WindowAt(slots, base, count, i);
    assert forall j :: 0 <= j < |rules| ==> rules[j] == slots[base + j];
    allow := false;
  }

  /** Scans the groups of a workload: whether one allows, and whether any declares the direction. */
  method ScanGroups(g: Groups, list: seq<nat>, peerGroups: Option<Membership>, dir: Direction, q: Query)
    returns (allow: bool, anyRules: bool)
    ensures allow <==> exists j :: 0 <= j < |list| && GroupAllows(g, list[j], dir, q, peerGroups)
    ensures !allow ==> (anyRules <==> exists j :: 0 <= j < |list| && Declared(g, list[j], dir))
  {
    anyRules := false;
    var i := 0;
    while i < |list|
      invariant i <= |list|
      invariant forall j :: 0 <= j < i ==> !GroupAllows(g, list[j], dir, q, peerGroups)
      invariant anyRules <==> exists j :: 0 <= j < i && Declared(g, list[j], dir)
    {
      var sg := list[i];
      if sg in g.meta && g.meta[sg].Declares(dir) {
        anyRules := true;
        assert Declared(g, list[i], dir);
        if g.meta[sg].Count(dir) > 0 {
          allow := EvalOneGroup(g, sg, dir, q, peerGroups);
          if allow {
            assert GroupAllows(g, list[i], dir, q, peerGroups);
            return;
          }
        }
      }
      i := i + 1;
    }
    allow := false;
  }

  method Evaluate(g: Groups, self: Option<Membership>, peerGroups: Option<Membership>, dir: Direction, q: Query)
    returns (v: Verdict)
    ensures v == SgVerdict(g, self, peerGroups, dir, q)
  {
    if self.None? || self.value.count == 0 {
      return Pass;
    }
    var list := self.value.List();
    var allow, anyRules := ScanGroups(g, list, peerGroups, dir, q);
    assert forall j :: 0 <= j < |list| ==> list[j] in list;
    if allow {
      return Allow;
    }
    if !anyRules && dir == Egress {
      return Pass;
    }
    v := Deny;
  }

  // ---- Order does not matter -----------------------------------------------

  /** The two rule sets hold the same rules for every group, in whatever order. */
  ghost predicate SameRules(a: Groups, b: Groups, dir: Direction) {
    forall sg: nat ::
      && (Declared(a, sg, dir) <==> Declared(b, sg, dir))
      && (forall r :: r in SgWindow(a, sg, dir) <==> r in SgWindow(b, sg, dir))
  }

  ghost predicate SameGroups(a: Option<Membership>, b: Option<Membership>) {
    match (a, b)
    case (None, None) => true
    case (Some(m), Some(n)) => (m.count == 0 <==> n.count == 0) && forall sg :: sg in m.List() <==> sg in n.List()
    case (_, _) => false
  }

  lemma SamePeersAllow(r: SgRule, q: Query, p1: Option<Membership>, p2: Option<Membership>)
    requires SameGroups(p1, p2)
    ensures Allows(r, q, p1) == Allows(r, q, p2)
  {
  }

  lemma SameGroupAllows(a: Groups, b: Groups, sg: nat, dir: Direction, q: Query, p1: Option<Membership>,
                        p2: Option<Membership>)
    requires SameRules(a, b, dir) && SameGroups(p1, p2) && GroupAllows(a, sg, dir, q, p1)
    ensures GroupAllows(b, sg, dir, q, p2)
  {
    var r :| r in SgWindow(a, sg, dir) && Allows(r, q, p1);
    SamePeersAllow(r, q, p1, p2);
  }

  /** Neither permuting the groups of either side nor the rules inside a group changes the verdict. */
  lemma OrderDoesNotMatter(a: Groups, b: Groups, s1: Option<Membership>, s2: Option<Membership>,
                           p1: Option<Membership>, p2: Option<Membership>, dir: Direction, q: Query)
    requires SameRules(a, b, dir) && SameGroups(s1, s2) && SameGroups(p1, p2)
    ensures SgVerdict(a, s1, p1, dir, q) == SgVerdict(b, s2, p2, dir, q)
  {
    if s1.Some? && s1.value.count > 0 {
      forall sg | sg in s1.value.List()
        ensures GroupAllows(a, sg, dir, q, p1) <==> GroupAllows(b, sg, dir, q, p2)
      {
        if GroupAllows(a, sg, dir, q, p1) {
          SameGroupAllows(a, b, sg, dir, q, p1, p2);
        }
        if GroupAllows(b, sg, dir, q, p2) {
          SameGroupAllows(b, a, sg, dir, q, p2, p1);
        }
      }
    }
  }

  /** Rule tables that agree on one direction's slots and metadata. */
  ghost predicate AgreeOn(a: Groups, b: Groups, dir: Direction) {
    && (forall sg :: sg in a.meta <==> sg in b.meta) && (forall sg :: sg in a.rules <==> sg in b.rules)
    && (forall sg :: sg in a.meta ==>
          a.meta[sg].Declares(dir) == b.meta[sg].Declares(dir) && a.meta[sg].Count(dir) == b.meta[sg].Count(dir))
    && (forall sg, i | sg in a.rules && SgBase(dir) <= i < SgBase(dir) + MAX_SG_RULES ::
          (i in a.rules[sg] <==> i in b.rules[sg]) && (i in a.rules[sg] ==> a.rules[sg][i] == b.rules[sg][i]))
  }

  /** One direction's verdict does not see the other direction's window. */
  lemma DirectionsAreIndependent(a: Groups, b: Groups, self: Option<Membership>, peerGroups: Option<Membership>,
                                 dir: Direction, q: Query)
    requires AgreeOn(a, b, dir)
    ensures SgVerdict(a, self, peerGroups, dir, q) == SgVerdict(b, self, peerGroups, dir, q)
  {
    forall sg: nat
      ensures SgWindow(a, sg, dir) == SgWindow(b, sg, dir)
    {
      if sg in a.meta && sg in a.rules {
        WindowIsLocal(a.rules[sg], b.rules[sg], SgBase(dir), Min(a.meta[sg].Count(dir), MAX_SG_RULES));
      }
    }
    assert SameRules(a, b, dir);
    OrderDoesNotMatter(a, b, self, self, peerGroups, peerGroups, dir, q);
  }
}
