/**
 * The two rule layers of the policy stage: the ordered NetworkACL of a Subnet
 * and the SecurityGroups of a workload. The scan loops are proved against what
 * the rules mean.
 */
module PolicyRules {
  import opened Types

  datatype Direction = Ingress | Egress

  datatype Verdict = Allow | Deny | Pass

  /** IP protocol numbers. */
  function Number(p: Proto): nat {
    match p
    case Tcp => 6
    case Udp => 17
    case Icmp => 1
    case OtherProto(n) => n
  }

  // ---- Matching ------------------------------------------------------------

  const PROTO_ANY: nat := 0xFFFF

  predicate ProtoMatches(rule: nat, pkt: nat) {
    rule == PROTO_ANY || rule == pkt
  }

  /** The whole range is the wildcard; it also matches a protocol that has no ports. */
  predicate PortMatches(lo: Port, hi: Port, port: Port) {
    (lo == 0 && hi == 0xFFFF) || lo <= port <= hi
  }

  /** Equal in the first `len` bits; no length above 32 ever matches. */
  predicate CidrMatches(base: Addr, len: nat, addr: Addr) {
    len == 0 || (len <= 32 && base / Pow2(32 - len) == addr / Pow2(32 - len))
  }

  lemma DivideIsBlock(base: nat, size: nat, addr: nat)
    requires size > 0
    ensures base / size == addr / size <==> base / size * size <= addr < base / size * size + size
  {
    var q, r := addr / size, addr % size;
    assert addr == q * size + r && 0 <= r < size;
    if q > base / size {
      assert q * size >= (base / size + 1) * size;
    }
    if q < base / size {
      assert (q + 1) * size <= base / size * size;
    }
  }

  /** A CIDR rule matches exactly the addresses of the aligned block its base lies in. */
  lemma CidrIsBlock(base: Addr, len: nat, addr: Addr)
    requires 0 < len <= 32
    ensures var size := Pow2(32 - len);
            var first := base / size * size;
            CidrMatches(base, len, addr) <==> first <= addr < first + size
  {
    DivideIsBlock(base, Pow2(32 - len), addr);
  }

  // ---- Windows -------------------------------------------------------------

  /** The rules a scan reads: slot by slot from `at`, at most `left`, up to a missing slot. */
  function Window<R>(slots: map<nat, R>, at: nat, left: nat): seq<R>
    decreases left
  {
    if left == 0 || at !in slots then [] else [slots[at]] + Window(slots, at + 1, left - 1)
  }

  function Min(a: nat, b: nat): nat {
    if a < b then a else b
  }

  /** A window depends on its own slots only. */
  lemma {:induction false} WindowIsLocal<R>(s1: map<nat, R>, s2: map<nat, R>, at: nat, left: nat)
    requires forall i :: at <= i < at + left ==> (i in s1 <==> i in s2) && (i in s1 ==> s1[i] == s2[i])
    ensures Window(s1, at, left) == Window(s2, at, left)
    decreases left
  {
    if left > 0 && at in s1 {
      WindowIsLocal(s1, s2, at + 1, left - 1);
    }
  }

  // ---- NetworkACL ----------------------------------------------------------

  const MAX_ACL_RULES: nat := 16

  /** `priority` orders the rules of a window; the scan itself never reads it. */
  datatype AclRule = AclRule(proto: nat, lo: Port, hi: Port, peer: Addr, prefixLen: nat, allow: bool, priority: nat)

  datatype AclMeta = AclMeta(hasIngress: bool, hasEgress: bool, ingressCount: nat, egressCount: nat)
  {
    predicate Has(dir: Direction) {
      if dir == Ingress then hasIngress else hasEgress
    }

    function Count(dir: Direction): nat {
      if dir == Ingress then ingressCount else egressCount
    }
  }

  datatype Acls = Acls(meta: map<nat, AclMeta>, rules: map<nat, map<nat, AclRule>>)

  /** The packet as the rules see it: its protocol, destination port and peer address. */
  datatype Query = Query(proto: nat, dport: Port, peer: Addr)

  predicate AclMatches(r: AclRule, q: Query) {
    ProtoMatches(r.proto, q.proto) && PortMatches(r.lo, r.hi, q.dport) && CidrMatches(r.peer, r.prefixLen, q.peer)
  }

  function AclBase(dir: Direction): nat {
    if dir == Ingress then 0 else MAX_ACL_RULES
  }

  /** The rules of one direction of an ACL, in scan order. */
  function AclWindow(acls: Acls, id: nat, dir: Direction): seq<AclRule>
    requires id in acls.meta && id in acls.rules
  {
    Window(acls.rules[id], AclBase(dir), Min(acls.meta[id].Count(dir), MAX_ACL_RULES))
  }

  /** Whether the direction is in rule-list mode at all. */
  predicate AclEnforces(acls: Acls, id: nat, dir: Direction) {
    id != 0 && id in acls.meta && acls.meta[id].Has(dir)
  }

  /** A rule that decides: it matches, and no matching rule stands before it. */
  predicate Decides(rules: seq<AclRule>, i: nat, q: Query) {
    i < |rules| && AclMatches(rules[i], q) && forall j :: 0 <= j < i ==> !AclMatches(rules[j], q)
  }

  function RuleVerdict(r: AclRule): Verdict {
    if r.allow then Allow else Deny
  }

  /** The first match decides; where nothing matches the answer is a terminal deny. */
  ghost predicate DecidedBy(rules: seq<AclRule>, q: Query, v: Verdict) {
    && (forall i: nat :: Decides(rules, i, q) ==> v == RuleVerdict(rules[i]))
    && ((forall j :: 0 <= j < |rules| ==> !AclMatches(rules[j], q)) ==> v == Deny)
  }

  /** What an ACL says about a packet. */
  ghost predicate AclSays(acls: Acls, id: nat, dir: Direction, q: Query, v: Verdict) {
    if !AclEnforces(acls, id, dir) then v == Pass
    else if id !in acls.rules then v == Deny
    else DecidedBy(AclWindow(acls, id, dir), q, v)
  }

  lemma {:induction false} WindowAt<R>(slots: map<nat, R>, at: nat, left: nat, i: nat)
    requires i <= left && forall j :: at <= j < at + i ==> j in slots
    ensures |Window(slots, at, left)| >= i
    ensures forall j :: 0 <= j < i ==> Window(slots, at, left)[j] == slots[at + j]
    ensures i < left && at + i !in slots ==> |Window(slots, at, left)| == i
    ensures i < left && at + i in slots ==> |Window(slots, at, left)| > i && Window(slots, at, left)[i] == slots[at + i]
    ensures i == left ==> |Window(slots, at, left)| == left
    decreases left
  {
    if i > 0 {
      WindowAt(slots, at + 1, left - 1, i - 1);
    }
  }

  method AclEvaluate(acls: Acls, id: nat, dir: Direction, q: Query) returns (v: Verdict)
    ensures AclSays(acls, id, dir, q, v)
  {
    if id == 0 || id !in acls.meta {
      return Pass;
    }
    var meta := acls.meta[id];
    if !meta.Has(dir) {
      return Pass;
    }
    if id !in acls.rules {
      return Deny;
    }
    var slots := acls.rules[id];
    var base := AclBase(dir);
    var count := Min(meta.Count(dir), MAX_ACL_RULES);
    ghost var rules := AclWindow(acls, id, dir);
    var i := 0;
    while i < count
      invariant i <= count && forall j :: base <= j < base + i ==> j in slots
      invariant forall j :: base <= j < base + i ==> !AclMatches(slots[j], q)
    {
      WindowAt(slots, base, count, i);
      if base + i !in slots {
        break;
      }
      var r := slots[base + i];
      if AclMatches(r, q) {
        assert Decides(rules, i, q);
        return RuleVerdict(r);
      }
      i := i + 1;
    }
    WindowAt(slots, base, count, i);
    assert forall j :: 0 <= j < |rules| ==> !AclMatches(rules[j], q);
    v := Deny;
  }

  /** The same verdict as a value, for the stage that uses it. */
  function AclVerdict(acls: Acls, id: nat, dir: Direction, q: Query): Verdict {
    if !AclEnforces(acls, id, dir) then Pass
    else if id !in acls.rules then Deny
    else FirstVerdict(AclWindow(acls, id, dir), q)
  }

  function FirstVerdict(rules: seq<AclRule>, q: Query): Verdict
    decreases rules
  {
    if rules == [] then Deny
    else if AclMatches(rules[0], q) then RuleVerdict(rules[0])
    else FirstVerdict(rules[1..], q)
  }

  /** Some matching rule is the first one. */
  lemma {:induction false} FirstIndex(rules: seq<AclRule>, k: nat, q: Query) returns (i: nat)
    requires k < |rules| && AclMatches(rules[k], q)
    ensures i <= k && Decides(rules, i, q)
    decreases k
  {
    if j: nat :| j < k && AclMatches(rules[j], q) {
      i := FirstIndex(rules, j, q);
    } else {
      i := k;
    }
  }

  lemma {:induction false} FirstVerdictDecides(rules: seq<AclRule>, q: Query)
    ensures DecidedBy(rules, q, FirstVerdict(rules, q))
    decreases rules
  {
    if rules != [] && !AclMatches(rules[0], q) {
      var tail := rules[1..];
      FirstVerdictDecides(tail, q);
      forall i: nat | Decides(rules, i, q)
        ensures FirstVerdict(rules, q) == RuleVerdict(rules[i])
      {
        assert forall j :: 0 <= j < i - 1 ==> tail[j] == rules[j + 1];
        assert Decides(tail, i - 1, q);
      }
      assert forall j :: 0 <= j < |tail| ==> tail[j] == rules[j + 1];
    }
  }

  /** What an ACL says is one verdict, and this is it. */
  lemma AclVerdictIsWhatItSays(acls: Acls, id: nat, dir: Direction, q: Query, v: Verdict)
    ensures AclSays(acls, id, dir, q, v) <==> v == AclVerdict(acls, id, dir, q)
  {
    if AclEnforces(acls, id, dir) && id in acls.rules {
      var rules := AclWindow(acls, id, dir);
      FirstVerdictDecides(rules, q);
      if k: nat :| k < |rules| && AclMatches(rules[k], q) {
        var i := FirstIndex(rules, k, q);
      }
    }
  }

  ghost predicate ByPriority(rules: seq<AclRule>) {
    forall i, j :: 0 <= i < j < |rules| ==> rules[i].priority <= rules[j].priority
  }

  /** On a window in priority order the deciding rule has the lowest number of all that match. */
  lemma DecidingRuleHasLowestPriority(rules: seq<AclRule>, i: nat, q: Query)
    requires ByPriority(rules) && Decides(rules, i, q)
    ensures forall r :: r in rules && AclMatches(r, q) ==> rules[i].priority <= r.priority
  {
    forall r | r in rules && AclMatches(r, q)
      ensures rules[i].priority <= r.priority
    {
      var j :| 0 <= j < |rules| && rules[j] == r;
    }
  }

  /** With distinct priorities the verdict is that of the one lowest-numbered match. */
  lemma LowestPriorityMatchDecides(acls: Acls, id: nat, dir: Direction, q: Query, k: nat)
    requires AclEnforces(acls, id, dir) && id in acls.rules && ByPriority(AclWindow(acls, id, dir))
    requires k < |AclWindow(acls, id, dir)| && AclMatches(AclWindow(acls, id, dir)[k], q)
    requires var rules := AclWindow(acls, id, dir);
             forall j :: 0 <= j < |rules| && j != k && AclMatches(rules[j], q) ==> rules[k].priority < rules[j].priority
    ensures AclVerdict(acls, id, dir, q) == RuleVerdict(AclWindow(acls, id, dir)[k])
  {
    var rules := AclWindow(acls, id, dir);
    FirstVerdictDecides(rules, q);
    var i := FirstIndex(rules, k, q);
    DecidingRuleHasLowestPriority(rules, i, q);
    assert rules[k] in rules;
  }

  /** One direction's verdict does not see the other direction's slots or counts. */
  lemma AclDirectionsAreIndependent(a: Acls, b: Acls, id: nat, dir: Direction, q: Query)
    requires (id in a.meta <==> id in b.meta) && (id in a.rules <==> id in b.rules)
    requires id in a.meta ==>
               a.meta[id].Has(dir) == b.meta[id].Has(dir) && a.meta[id].Count(dir) == b.meta[id].Count(dir)
    requires id in a.rules ==>
               forall i :: AclBase(dir) <= i < AclBase(dir) + MAX_ACL_RULES ==>
                 (i in a.rules[id] <==> i in b.rules[id]) && (i in a.rules[id] ==> a.rules[id][i] == b.rules[id][i])
    ensures AclVerdict(a, id, dir, q) == AclVerdict(b, id, dir, q)
  {
    if AclEnforces(a, id, dir) && id in a.rules {
      WindowIsLocal(a.rules[id], b.rules[id], AclBase(dir), Min(a.meta[id].Count(dir), MAX_ACL_RULES));
    }
  }
}
