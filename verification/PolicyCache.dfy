/**
 * What every run of the policy stage keeps: whoever passes on the cache was
 * vouched for under the rules in force, and a forward half never stands alone.
 */
module PolicyCache {
  import opened Types
  import opened Conntrack
  import opened PolicyRules
  import opened SecurityGroups
  import opened PolicyStage

  /**
   * The stage with a memory: the keys of all packets the rules have admitted
   * and the keys last written as a forward half.
   */
  datatype History = History(s: Stage, admitted: set<Key>, forward: set<Key>)

  datatype Step =
    | Arrive(p: Packet, hook: Hook, scope: Scope, now: Time)
    | ChangeRules(rules: Rules)  // the epoch moves with them
    | CollectOld                 // user space drops what older epochs left behind
    | EvictFragment(key: FragKey)

  function OldKeys(s: Stage): set<Key> {
    set k | k in s.ct && k.epoch != s.epoch
  }

  /** The forward keys after an admission was installed. */
  function ForwardAfter(forward: set<Key>, s: Stage, k: Key, v: Val): set<Key> {
    if !Fits(s.ct, s.capacity, Reverse(k)) then forward
    else if !Fits(s.ct[Reverse(k) := v], s.capacity, k) then forward - {Reverse(k)}
    else forward - {Reverse(k)} + {k}
  }

  /** The memory after a packet with this outcome. */
  function After(h: History, o: Outcome, p: Packet, now: Time): History {
    if o.how == Evaluated && o.code >= 0 && o.key.Some? then
      History(o.s, h.admitted + {o.key.value},
              if o.code == 1 then ForwardAfter(h.forward, h.s, o.key.value, SeedVal(p, now)) else h.forward)
    else History(o.s, h.admitted, h.forward)
  }

  function Next(h: History, step: Step): History {
    match step
    case Arrive(p, hook, scope, now) => After(h, ApplyPolicy(h.s, p, hook, scope, now), p, now)
    case ChangeRules(rules) => h.(s := h.s.(rules := rules, epoch := h.s.epoch + 1))
    case CollectOld => h.(s := h.s.(ct := h.s.ct - OldKeys(h.s)))
    case EvictFragment(key) => h.(s := h.s.(frags := h.s.frags - {key}))
  }

  function Run(h: History, steps: seq<Step>): History
    decreases steps
  {
    if |steps| == 0 then h else Run(Next(h, steps[0]), steps[1..])
  }

  lemma {:induction false} RunEndsWithItsLast(h: History, steps: seq<Step>)
    requires |steps| > 0
    ensures Run(h, steps) == Next(Run(h, steps[..|steps| - 1]), steps[|steps| - 1])
    decreases steps
  {
    if |steps| > 1 {
      RunEndsWithItsLast(Next(h, steps[0]), steps[1..]);
      assert steps[1..][..|steps| - 2] == steps[..|steps| - 1][1..];
    }
  }

  // ---- The invariant -------------------------------------------------------

  /** Every entry was vouched for, by the packet it was written for or by that packet's mirror. */
  ghost predicate Vouched(ct: map<Key, Val>, admitted: set<Key>) {
    forall k :: k in ct ==> k in admitted || Reverse(k) in admitted
  }

  /** What the rules admitted in the current epoch they admit still. */
  ghost predicate Current(admitted: set<Key>, rules: Rules, epoch: nat) {
    forall k :: k in admitted ==> k.epoch <= epoch && (k.epoch == epoch ==> Admits(rules, k))
  }

  ghost predicate PairsStand(ct: map<Key, Val>, forward: set<Key>) {
    forall k :: k in ct && k in forward ==> Reverse(k) in ct
  }

  ghost predicate NoneClosed(ct: map<Key, Val>) {
    forall k :: k in ct ==> ct[k].state != Closed
  }

  ghost predicate Inv(h: History) {
    && Vouched(h.s.ct, h.admitted) && Current(h.admitted, h.s.rules, h.s.epoch)
    && PairsStand(h.s.ct, h.forward) && NoneClosed(h.s.ct)
  }

  lemma InstallKeepsVouched(s: Stage, k: Key, v: Val, admitted: set<Key>)
    requires Vouched(s.ct, admitted)
    ensures Vouched(Installed(s, k, v).ct, admitted + {k})
  {
    ReverseKeepsProtected(k);
  }

  lemma InstallKeepsPairs(s: Stage, k: Key, v: Val, forward: set<Key>)
    requires PairsStand(s.ct, forward) && k !in s.ct
    ensures PairsStand(Installed(s, k, v).ct, ForwardAfter(forward, s, k, v))
  {
    ReverseKeepsProtected(k);
    var s' := Installed(s, k, v);
    forall x | x in s'.ct && x in ForwardAfter(forward, s, k, v)
      ensures Reverse(x) in s'.ct
    {
      ReverseKeepsProtected(x);
    }
  }

  lemma SeenKeeps(s: Stage, k: Key, p: Packet, now: Time, admitted: set<Key>, forward: set<Key>)
    requires k in s.ct && Vouched(s.ct, admitted) && PairsStand(s.ct, forward) && NoneClosed(s.ct)
    ensures var ct := Seen(s, k, p, now).ct;
            Vouched(ct, admitted) && PairsStand(ct, forward) && NoneClosed(ct)
  {
    ReverseKeepsProtected(k);
    var ct := Seen(s, k, p, now).ct;
    forall x | x in ct && x in forward
      ensures Reverse(x) in ct
    {
      ReverseKeepsProtected(x);
    }
  }

  lemma InstallKeepsOpen(s: Stage, k: Key, v: Val)
    requires NoneClosed(s.ct) && v.state != Closed
    ensures NoneClosed(Installed(s, k, v).ct)
    ensures Installed(s, k, v).frags == s.frags && Installed(s, k, v).rules == s.rules
    ensures Installed(s, k, v).epoch == s.epoch
  {
  }

  /** An evaluation of `k`: it leaves nothing behind unless the rules admit, and a pair when a layer stands here. */
  ghost predicate Judged(o: Outcome, s1: Stage, k: Key, v: Val) {
    && o.how == Evaluated && o.key == Some(k) && o.code <= 1 && (o.code >= 0 <==> Admits(s1.rules, k))
    && o.s == if o.code == 1 then Installed(s1, k, v) else s1
  }

  lemma EvaluationIsJudged(s: Stage, k: Key, p: Packet, now: Time)
    ensures Judged(EvaluateNew(s, k, p, now), s, k, SeedVal(p, now))
  {
  }

  lemma AdmittedKeeps(h: History, s1: Stage, k: Key, v: Val)
    requires Inv(h) && s1.ct == h.s.ct && s1.capacity == h.s.capacity && k !in s1.ct && v.state != Closed
    ensures Vouched(s1.ct, h.admitted + {k}) && Vouched(Installed(s1, k, v).ct, h.admitted + {k})
    ensures PairsStand(Installed(s1, k, v).ct, ForwardAfter(h.forward, h.s, k, v)) && NoneClosed(Installed(s1, k, v).ct)
  {
    InstallKeepsVouched(s1, k, v, h.admitted);
    InstallKeepsPairs(s1, k, v, h.forward);
    InstallKeepsOpen(s1, k, v);
  }

  lemma EvaluatedKeepsInv(h: History, s1: Stage, k: Key, o: Outcome, p: Packet, now: Time)
    requires Inv(h) && s1 == h.s.(frags := s1.frags) && k !in s1.ct && k.epoch == h.s.epoch
    requires Judged(o, s1, k, SeedVal(p, now))
    ensures Inv(After(h, o, p, now))
  {
    AdmittedKeeps(h, s1, k, SeedVal(p, now));
    InstallKeepsOpen(s1, k, SeedVal(p, now));
  }

  lemma HitKeepsInv(h: History, s1: Stage, k: Key, o: Outcome, p: Packet, now: Time)
    requires Inv(h) && s1 == h.s.(frags := s1.frags) && k in s1.ct
    requires o.how == Shortcut && o.s == Seen(s1, k, p, now)
    ensures Inv(After(h, o, p, now))
  {
    SeenKeeps(s1, k, p, now, h.admitted, h.forward);
  }

  /** What one packet does: nothing, a hit on the entry of its key, or an evaluation of that key. */
  lemma OutcomeOfPacket(s: Stage, p: Packet, hook: Hook, scope: Scope, now: Time) returns (s1: Stage)
    ensures s1 == s.(frags := s1.frags)
    ensures var o := ApplyPolicy(s, p, hook, scope, now);
            if o.how == Unjudged then o.s == s && o.key.None?
            else
              && o.key.Some? && o.key.value.epoch == s.epoch && o.key.value.hook == hook && o.key.value.scope == scope
              && if o.how == Shortcut then o.code == 0 && o.key.value in s1.ct && o.s == Seen(s1, o.key.value, p, now)
                 else o.key.value !in s1.ct && Judged(o, s1, o.key.value, SeedVal(p, now))
  {
    var ports := JudgedPorts(s, scope, p, now);
    s1 := if ports.Some? then FragRecorded(s, scope, p, ports.value, now) else s;
    if ports.Some? {
      EvaluationIsJudged(s1, KeyOf(s1, p, ports.value, hook, scope), p, now);
    }
  }

  lemma OutcomeKeepsInv(h: History, s1: Stage, o: Outcome, p: Packet, now: Time)
    requires Inv(h) && s1 == h.s.(frags := s1.frags)
    requires o.how == Unjudged ==> o.s == h.s
    requires o.how != Unjudged ==> o.key.Some? && o.key.value.epoch == h.s.epoch
    requires o.how == Shortcut ==> o.key.value in s1.ct && o.s == Seen(s1, o.key.value, p, now)
    requires o.how == Evaluated ==> o.key.value !in s1.ct && Judged(o, s1, o.key.value, SeedVal(p, now))
    ensures Inv(After(h, o, p, now))
  {
    match o.how
    case Unjudged =>
    case Shortcut => HitKeepsInv(h, s1, o.key.value, o, p, now);
    case Evaluated => EvaluatedKeepsInv(h, s1, o.key.value, o, p, now);
  }

  lemma NextKeepsInv(h: History, step: Step)
    requires Inv(h)
    ensures Inv(Next(h, step))
  {
    match step
    case Arrive(p, hook, scope, now) =>
      var s1 := OutcomeOfPacket(h.s, p, hook, scope, now);
      OutcomeKeepsInv(h, s1, ApplyPolicy(h.s, p, hook, scope, now), p, now);
    case ChangeRules(rules) =>
    case CollectOld =>
      forall k | k in Next(h, step).s.ct && k in h.forward
        ensures Reverse(k) in Next(h, step).s.ct
      {
        assert Reverse(k) in h.s.ct && Reverse(k).epoch == k.epoch;
      }
    case EvictFragment(key) =>
  }

  lemma {:induction false} RunKeepsInv(h: History, steps: seq<Step>)
    requires Inv(h)
    ensures Inv(Run(h, steps))
    decreases steps
  {
    if |steps| > 0 {
      NextKeepsInv(h, steps[0]);
      RunKeepsInv(Next(h, steps[0]), steps[1..]);
    }
  }

  function Fresh(rules: Rules, capacity: nat): History {
    History(Stage(rules, 0, capacity, map[], map[], 0, 0), {}, {})
  }

  // ---- What follows --------------------------------------------------------

  /** Step `i` of the run was a packet that the rules of that moment admitted under the key `a`. */
  ghost predicate AdmittedAt(rules: Rules, capacity: nat, steps: seq<Step>, i: nat, a: Key) {
    && i < |steps| && steps[i].Arrive?
    && var s := Run(Fresh(rules, capacity), steps[..i]).s;
       var o := ApplyPolicy(s, steps[i].p, steps[i].hook, steps[i].scope, steps[i].now);
       o.how == Evaluated && o.code >= 0 && o.key == Some(a)
  }

  lemma {:induction false} AdmissionsHaveAStep(rules: Rules, capacity: nat, steps: seq<Step>, a: Key) returns (i: nat)
    requires a in Run(Fresh(rules, capacity), steps).admitted
    ensures AdmittedAt(rules, capacity, steps, i, a)
    decreases steps
  {
    var n := |steps| - 1;
    RunEndsWithItsLast(Fresh(rules, capacity), steps);
    if a in Run(Fresh(rules, capacity), steps[..n]).admitted {
      i := AdmissionsHaveAStep(rules, capacity, steps[..n], a);
      assert steps[..n][..i] == steps[..i];
    } else {
      i := n;
    }
  }

  /** What the run admitted under `a` vouches for an entry at `k`, in this epoch and under the rules in force. */
  predicate VouchesFor(h: History, a: Key, k: Key) {
    && (a == k || a == Reverse(k)) && a.epoch == h.s.epoch && Admits(h.s.rules, a)
    && a.scope == k.scope && Protected(a) == Protected(k)
  }

  lemma HitRestsOnAdmission(h: History, k: Key) returns (a: Key)
    requires Inv(h) && k in h.s.ct && k.epoch == h.s.epoch
    ensures a in h.admitted && VouchesFor(h, a, k)
  {
    ReverseKeepsProtected(k);
    a := if k in h.admitted then k else Reverse(k);
    assert a in h.admitted;
  }

  /**
   * Cache soundness. After any run, a packet that passes on the shortcut has an
   * earlier packet of its flow (same key, or the mirror at the peer hook) that
   * the rules evaluated and admitted in this very epoch; those are the rules in
   * force now, and the admission was for the same workload of the same Vpc.
   */
  lemma ShortcutsAreVouchedFor(rules: Rules, capacity: nat, steps: seq<Step>, p: Packet, hook: Hook, scope: Scope,
                               now: Time)
    returns (i: nat, a: Key)
    requires ApplyPolicy(Run(Fresh(rules, capacity), steps).s, p, hook, scope, now).how == Shortcut
    ensures var h := Run(Fresh(rules, capacity), steps);
            var o := ApplyPolicy(h.s, p, hook, scope, now);
            && o.code == 0 && o.key.Some? && o.key.value.epoch == h.s.epoch
            && o.key.value.hook == hook && o.key.value.scope == scope
            && AdmittedAt(rules, capacity, steps, i, a) && VouchesFor(h, a, o.key.value)
  {
    var h := Run(Fresh(rules, capacity), steps);
    RunKeepsInv(Fresh(rules, capacity), steps);
    var s1 := OutcomeOfPacket(h.s, p, hook, scope, now);
    a := HitRestsOnAdmission(h, ApplyPolicy(h.s, p, hook, scope, now).key.value);
    i := AdmissionsHaveAStep(rules, capacity, steps, a);
  }

  /** After any run, map full or not, a forward half has its reverse half beside it. */
  lemma ForwardHalvesAreNeverAlone(rules: Rules, capacity: nat, steps: seq<Step>, k: Key)
    requires var h := Run(Fresh(rules, capacity), steps); k in h.s.ct && k in h.forward
    ensures Reverse(k) in Run(Fresh(rules, capacity), steps).s.ct
  {
    RunKeepsInv(Fresh(rules, capacity), steps);
  }

  lemma SeenCloseTakesPair(s: Stage, k: Key, x: Key, p: Packet, now: Time)
    requires k in s.ct && Reverse(k) in s.ct && (x == k || x == Reverse(k))
    requires p.proto == Tcp && p.flags.Some? && DeriveNextState(s.ct[x].state, p.flags.value) == Closed
    ensures Seen(s, x, p, now).ct == s.ct - {k, Reverse(k)}
  {
    ReverseKeepsProtected(k);
  }

  /**
   * After any run: a closing packet of a flow, at either hook, takes the forward
   * half and the reverse half beside it, and no other entry.
   */
  lemma CloseTakesBothHalves(rules: Rules, capacity: nat, steps: seq<Step>, k: Key,
                             p: Packet, hook: Hook, scope: Scope, now: Time)
    requires var h := Run(Fresh(rules, capacity), steps); k in h.s.ct && k in h.forward
    requires var ct := Run(Fresh(rules, capacity), steps).s.ct;
             var o := ApplyPolicy(Run(Fresh(rules, capacity), steps).s, p, hook, scope, now);
             && o.key.Some? && (o.key.value == k || o.key.value == Reverse(k)) && o.key.value in ct
             && p.proto == Tcp && p.flags.Some? && DeriveNextState(ct[o.key.value].state, p.flags.value) == Closed
    ensures var h := Run(Fresh(rules, capacity), steps);
            Reverse(k) in h.s.ct && ApplyPolicy(h.s, p, hook, scope, now).s.ct == h.s.ct - {k, Reverse(k)}
  {
    var h := Run(Fresh(rules, capacity), steps);
    ForwardHalvesAreNeverAlone(rules, capacity, steps, k);
    var s1 := OutcomeOfPacket(h.s, p, hook, scope, now);
    SeenCloseTakesPair(s1, k, ApplyPolicy(h.s, p, hook, scope, now).key.value, p, now);
  }

  lemma EntriesAreNotAhead(h: History, k: Key)
    requires Inv(h) && k in h.s.ct
    ensures k.epoch <= h.s.epoch
  {
    ReverseKeepsProtected(k);
  }

  /** A rule change puts every admission out of reach: the next packet is evaluated afresh. */
  lemma RuleChangeEmptiesTheCache(rules: Rules, capacity: nat, steps: seq<Step>, rules': Rules,
                                  p: Packet, hook: Hook, scope: Scope, now: Time)
    ensures var h := Next(Run(Fresh(rules, capacity), steps), ChangeRules(rules'));
            ApplyPolicy(h.s, p, hook, scope, now).how != Shortcut
  {
    var h0 := Run(Fresh(rules, capacity), steps);
    var h := Next(h0, ChangeRules(rules'));
    RunKeepsInv(Fresh(rules, capacity), steps);
    var s1 := OutcomeOfPacket(h.s, p, hook, scope, now);
    var o := ApplyPolicy(h.s, p, hook, scope, now);
    if o.how == Shortcut {
      EntriesAreNotAhead(h0, o.key.value);
    }
  }

  lemma OthersKeepTheirEntries(s: Stage, k: Key, v: Val, p: Packet, now: Time, other: Key)
    requires other.scope != k.scope || Protected(other) != Protected(k)
    ensures other in s.ct <==> other in Installed(s, k, v).ct
    ensures other in s.ct ==> Installed(s, k, v).ct[other] == s.ct[other]
    ensures k in s.ct ==> (other in s.ct <==> other in Seen(s, k, p, now).ct)
    ensures k in s.ct && other in s.ct ==> Seen(s, k, p, now).ct[other] == s.ct[other]
  {
    ReverseKeepsProtected(k);
  }

  /**
   * A packet never adds, changes or removes an admission that vouches for
   * another workload than the one whose hook it passes.
   */
  lemma AdmissionsServeOneWorkload(s: Stage, p: Packet, hook: Hook, scope: Scope, now: Time, other: Key)
    requires var o := ApplyPolicy(s, p, hook, scope, now);
             o.key.Some? ==> other.scope != scope || Protected(other) != Protected(o.key.value)
    ensures var o := ApplyPolicy(s, p, hook, scope, now);
            (other in o.s.ct <==> other in s.ct) && (other in s.ct ==> o.s.ct[other] == s.ct[other])
  {
    var s1 := OutcomeOfPacket(s, p, hook, scope, now);
    var o := ApplyPolicy(s, p, hook, scope, now);
    if o.key.Some? {
      OthersKeepTheirEntries(s1, o.key.value, SeedVal(p, now), p, now, other);
    }
  }

  /** A whole packet is judged on its own ports, and takes the shortcut exactly when its key has an entry. */
  lemma WholePacketsShowTheirKey(s: Stage, p: Packet, hook: Hook, scope: Scope, now: Time)
    requires p.fragment == Whole && ShownPorts(p).Some?
    ensures var k := KeyOf(s, p, ShownPorts(p).value, hook, scope);
            var o := ApplyPolicy(s, p, hook, scope, now);
            && o.key == Some(k) && (o.how == Shortcut <==> k in s.ct)
            && (o.how == Evaluated ==> Judged(o, s, k, SeedVal(p, now))) && (o.how == Shortcut ==> o.code == 0)
  {
    EvaluationIsJudged(s, KeyOf(s, p, ShownPorts(p).value, hook, scope), p, now);
  }

  lemma InstallLeavesTheReverseHalf(s: Stage, k: Key, v: Val)
    requires Installed(s, k, v).revFailed == s.revFailed
    ensures Reverse(k) in Installed(s, k, v).ct && Installed(s, k, v).epoch == s.epoch
  {
  }

  /** An admission the table had room for lets the reply back in past the hook that gave it. */
  lemma ReplyTakesTheShortcut(s: Stage, p: Packet, hook: Hook, scope: Scope, now: Time, reply: Packet, later: Time)
    requires ApplyPolicy(s, p, hook, scope, now).code == 1 && p.fragment == Whole
    requires reply.saddr == p.daddr && reply.daddr == p.saddr && reply.proto == p.proto && reply.fragment == Whole
    requires HasPorts(p.proto) ==> p.ports.Some? && reply.ports == Some((p.ports.value.1, p.ports.value.0))
    ensures var o := ApplyPolicy(s, p, hook, scope, now);
            o.s.revFailed == s.revFailed ==> ApplyPolicy(o.s, reply, PeerHook(hook), scope, later).how == Shortcut
  {
    WholePacketsShowTheirKey(s, p, hook, scope, now);
    var o := ApplyPolicy(s, p, hook, scope, now);
    WholePacketsShowTheirKey(o.s, reply, PeerHook(hook), scope, later);
    if o.s.revFailed == s.revFailed {
      InstallLeavesTheReverseHalf(s, o.key.value, SeedVal(p, now));
    }
  }
}
