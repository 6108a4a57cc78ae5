/**
 * The policy stage as it runs: rule scans, table lookups and writes in place,
 * proved to be the step `PolicyStage` describes.
 */
module PolicyProgram {
  import opened Types
  import opened Conntrack
  import opened PolicyRules
  import opened SecurityGroups
  import opened PolicyStage

  class PolicyTables {
    var rules: Rules
    var epoch: nat
    const capacity: nat
    var ct: map<Key, Val>
    var frags: map<FragKey, FragVal>
    var revFailed: nat
    var fwdFailed: nat

    constructor (initial: Rules, size: nat)
      ensures State() == Stage(initial, 0, size, map[], map[], 0, 0)
    {
      rules, epoch, capacity := initial, 0, size;
      ct, frags := map[], map[];
      revFailed, fwdFailed := 0, 0;
    }

    function State(): Stage
      reads this
    {
      Stage(rules, epoch, capacity, ct, frags, revFailed, fwdFailed)
    }

    /** New rules and a new epoch, in one step. */
    method ChangeRules(next: Rules)
      modifies this`rules, this`epoch
      ensures State() == old(State()).(rules := next, epoch := old(epoch) + 1)
    {
      rules, epoch := next, epoch + 1;
    }

    /** A write fails only when the table is full and the key is new. */
    method Upsert(k: Key, v: Val) returns (ok: bool)
      modifies this`ct
      ensures ok == Fits(old(ct), capacity, k)
      ensures ct == if ok then old(ct)[k := v] else old(ct)
    {
      ok := k in ct || |ct| < capacity;
      if ok {
        ct := ct[k := v];
      }
    }

    method Install(k: Key, v: Val)
      modifies this`ct, this`revFailed, this`fwdFailed
      ensures State() == Installed(old(State()), k, v)
    {
      var ok := Upsert(Reverse(k), v);
      if !ok {
        revFailed := revFailed + 1;
        return;
      }
      ok := Upsert(k, v);
      if !ok {
        fwdFailed := fwdFailed + 1;
      }
    }

    /** A hit: refresh the entry, advance its TCP state, and on a close remove the pair. */
    method Touch(k: Key, p: Packet, now: Time)
      requires k in ct
      modifies this`ct
      ensures State() == Seen(old(State()), k, p, now)
    {
      var v := ct[k].(lastSeen := now);
      ct := ct[k := v];
      if p.proto == Tcp && p.flags.Some? {
        var next := DeriveNextState(v.state, p.flags.value);
        ct := ct[k := v.(state := next, flagsSeen := v.flagsSeen + p.flags.value)];
        if next == Closed {
          ct := ct - {Reverse(k)};
          ct := ct - {k};
        }
      }
    }

    method RecordFragment(scope: Scope, p: Packet, ports: (Port, Port), now: Time)
      modifies this`frags
      ensures State() == FragRecorded(old(State()), scope, p, ports, now)
    {
      if p.fragment == First && HasPorts(p.proto) {
        frags := frags[FragKeyOf(scope, p) := FragVal(ports.0, ports.1, now)];
      }
    }

    /** Both layers in order; the first that denies names the drop. */
    method EvaluateLayers(k: Key) returns (code: int)
      ensures code == if AclOn(rules, k) == Deny then -1 else if SgOn(rules, k) == Deny then -3
                      else if !Attached(rules, k) then 0 else 1
    {
      var self, peer := Protected(k), PeerOf(k);
      var aclId := rules.AclId(k.scope, self);
      var acl := AclEvaluate(rules.acls, aclId, DirectionOf(k.hook), QueryOf(k));
      AclVerdictIsWhatItSays(rules.acls, aclId, DirectionOf(k.hook), QueryOf(k), acl);
      if acl == Deny {
        return -1;
      }
      var mine := rules.GroupsOf(k.scope, self);
      var sg := Verdict.Pass;
      if mine.Some? && mine.value.count > 0 {
        sg := Evaluate(rules.groups, mine, rules.GroupsOf(k.scope, peer), DirectionOf(k.hook), QueryOf(k));
      }
      if sg == Deny {
        return -3;
      }
      if aclId == 0 && !(mine.Some? && mine.value.count > 0) {
        return 0;
      }
      code := 1;
    }

    /** One packet at one hook. Negative codes tell the caller to drop it. */
    method ApplyPolicy(p: Packet, hook: Hook, scope: Scope, now: Time) returns (code: int)
      modifies this
      ensures State() == PolicyStage.ApplyPolicy(old(State()), p, hook, scope, now).s
      ensures code == PolicyStage.ApplyPolicy(old(State()), p, hook, scope, now).code
    {
      var ports := ShownPorts(p);
      if ports.None? {
        ports := RecoveredPorts(State(), scope, p, now);
      }
      if ports.None? {
        return if Enforced(rules, scope, hook, SelfOf(p, hook)) then -4 else 0;
      }
      RecordFragment(scope, p, ports.value, now);
      var k := KeyOf(State(), p, ports.value, hook, scope);
      if k in ct {
        Touch(k, p, now);
        return 0;
      }
      code := EvaluateLayers(k);
      if code == 1 {
        Install(k, SeedVal(p, now));
      }
    }
  }
}
