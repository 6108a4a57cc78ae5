/**
 * The fragment table over whole runs. What it holds for a datagram is told by
 * the arrivals alone: which first fragment showed the ports, and when a first
 * fragment cut short before its ports renewed the record.
 */
module PolicyFragments {
  import opened Types
  import opened Conntrack
  import opened PolicyStage
  import opened PolicyCache

  /** A first fragment of the datagram arrives. */
  predicate FirstOf(step: Step, key: FragKey) {
    step.Arrive? && step.p.fragment == First && HasPorts(step.p.proto) && FragKeyOf(step.scope, step.p) == key
  }

  predicate Shows(step: Step, key: FragKey) {
    FirstOf(step, key) && step.p.ports.Some?
  }

  predicate CutShort(step: Step, key: FragKey) {
    FirstOf(step, key) && step.p.ports.None?
  }

  /** The ports of a datagram as last shown, when that was, and when their record was last renewed. */
  datatype Trace = Trace(ports: (Port, Port), shownAt: Time, renewedAt: Time)

  /** A cut-short first fragment renews a record that is still fresh, and leaves any other alone. */
  function TraceAfter(t: Option<Trace>, step: Step, key: FragKey): Option<Trace> {
    if Shows(step, key) then Some(Trace(step.p.ports.value, step.now, step.now))
    else if CutShort(step, key) && t.Some? && Elapsed(step.now, t.value.renewedAt) <= FRAG_MAX_AGE then
      Some(t.value.(renewedAt := step.now))
    else if step == EvictFragment(key) then None
    else t
  }

  function TraceOf(steps: seq<Step>, key: FragKey): Option<Trace> {
    if |steps| == 0 then None else TraceAfter(TraceOf(steps[..|steps| - 1], key), steps[|steps| - 1], key)
  }

  // ---- The table is the trace ----------------------------------------------

  ghost predicate Agrees(frags: map<FragKey, FragVal>, key: FragKey, t: Option<Trace>) {
    && (key in frags <==> t.Some?)
    && (t.Some? ==> frags[key] == FragVal(t.value.ports.0, t.value.ports.1, t.value.renewedAt))
  }

  /** What a packet leaves in the fragment table, whatever the rules say of it. */
  lemma PacketRecords(s: Stage, p: Packet, hook: Hook, scope: Scope, now: Time)
    ensures var ports := JudgedPorts(s, scope, p, now);
            ApplyPolicy(s, p, hook, scope, now).s.frags ==
            if ports.Some? then FragRecorded(s, scope, p, ports.value, now).frags else s.frags
  {
  }

  lemma StepKeepsAgreement(h: History, step: Step, key: FragKey, t: Option<Trace>)
    requires Agrees(h.s.frags, key, t)
    ensures Agrees(Next(h, step).s.frags, key, TraceAfter(t, step, key))
  {
    if step.Arrive? {
      PacketRecords(h.s, step.p, step.hook, step.scope, step.now);
    }
  }

  /** After any run, the record of a datagram is what its arrivals and evictions make it. */
  lemma {:induction false} TableIsTheTrace(rules: Rules, capacity: nat, steps: seq<Step>, key: FragKey)
    ensures Agrees(Run(Fresh(rules, capacity), steps).s.frags, key, TraceOf(steps, key))
    decreases steps
  {
    if |steps| > 0 {
      RunEndsWithItsLast(Fresh(rules, capacity), steps);
      TableIsTheTrace(rules, capacity, steps[..|steps| - 1], key);
      StepKeepsAgreement(Run(Fresh(rules, capacity), steps[..|steps| - 1]), steps[|steps| - 1], key,
                         TraceOf(steps[..|steps| - 1], key));
    }
  }

  // ---- Who showed the ports ------------------------------------------------

  /** Arrival `i` shows these ports, and none after it shows others or loses the record. */
  ghost predicate LastShown(steps: seq<Step>, i: nat, key: FragKey, ports: (Port, Port), at: Time) {
    && i < |steps| && Shows(steps[i], key) && steps[i].p.ports == Some(ports) && steps[i].now == at
    && forall j :: i < j < |steps| ==> !Shows(steps[j], key) && steps[j] != EvictFragment(key)
  }

  lemma {:induction false} TraceWasShown(steps: seq<Step>, key: FragKey) returns (i: nat)
    requires TraceOf(steps, key).Some?
    ensures var t := TraceOf(steps, key).value; LastShown(steps, i, key, t.ports, t.shownAt)
    decreases steps
  {
    var n := |steps| - 1;
    if Shows(steps[n], key) {
      i := n;
    } else {
      i := TraceWasShown(steps[..n], key);
    }
  }

  /** A packet that shows no ports is judged on the recorded ones, and only while the record is fresh. */
  lemma JudgedOnTheRecord(s: Stage, p: Packet, hook: Hook, scope: Scope, now: Time, t: Option<Trace>)
    requires ShownPorts(p).None? && Agrees(s.frags, FragKeyOf(scope, p), t)
    ensures var o := ApplyPolicy(s, p, hook, scope, now);
            && (o.how != Unjudged <==> t.Some? && Elapsed(now, t.value.renewedAt) <= FRAG_MAX_AGE)
            && (o.how != Unjudged ==>
                  o.key.Some? && o.key.value.t == Tuple(p.saddr, p.daddr, t.value.ports.0, t.value.ports.1, p.proto))
  {
  }

  /**
   * After any run, a packet that does not show its ports is judged, if at all,
   * on ports that an earlier first fragment with its key showed, the last one
   * to show any; and it is judged exactly while the record is fresh.
   */
  lemma JudgedPortsWereShown(rules: Rules, capacity: nat, steps: seq<Step>, p: Packet, hook: Hook, scope: Scope,
                             now: Time)
    requires ShownPorts(p).None?
    ensures var o := ApplyPolicy(Run(Fresh(rules, capacity), steps).s, p, hook, scope, now);
            var t := TraceOf(steps, FragKeyOf(scope, p));
            && (o.how != Unjudged <==> t.Some? && Elapsed(now, t.value.renewedAt) <= FRAG_MAX_AGE)
            && (o.how != Unjudged ==>
                  o.key.Some? && exists i: nat ::
                    LastShown(steps, i, FragKeyOf(scope, p),
                              (o.key.value.t.sport, o.key.value.t.dport), t.value.shownAt))
  {
    TableIsTheTrace(rules, capacity, steps, FragKeyOf(scope, p));
    JudgedOnTheRecord(Run(Fresh(rules, capacity), steps).s, p, hook, scope, now, TraceOf(steps, FragKeyOf(scope, p)));
    if TraceOf(steps, FragKeyOf(scope, p)).Some? {
      var i := TraceWasShown(steps, FragKeyOf(scope, p));
    }
  }

  // ---- How old the ports may be --------------------------------------------

  /** The clock never runs backwards from one arrival to the next. */
  ghost predicate InOrder(steps: seq<Step>) {
    forall i, j :: 0 <= i < j < |steps| && steps[i].Arrive? && steps[j].Arrive? ==> steps[i].now <= steps[j].now
  }

  /** The reading of the last arrival. */
  function Latest(steps: seq<Step>): Time {
    if |steps| == 0 then 0
    else if steps[|steps| - 1].Arrive? then steps[|steps| - 1].now
    else Latest(steps[..|steps| - 1])
  }

  lemma {:induction false} LatestIsLatest(steps: seq<Step>, i: nat)
    requires InOrder(steps) && i < |steps| && steps[i].Arrive?
    ensures steps[i].now <= Latest(steps)
    decreases steps
  {
    var n := |steps| - 1;
    if i < n && !steps[n].Arrive? {
      LatestIsLatest(steps[..n], i);
    }
  }

  /** Whenever such a packet can still be judged, its ports were shown at most five seconds before. */
  ghost predicate OnlyFreshPorts(s: Stage, p: Packet, hook: Hook, scope: Scope, shownAt: Time, last: Time) {
    forall now: Time ::
      last <= now && ApplyPolicy(s, p, hook, scope, now).how != Unjudged ==> Elapsed(now, shownAt) <= FRAG_MAX_AGE
  }

  /** No reading of the clock lies more than five seconds after this one. */
  predicate ClockEndsBefore(at: Time) {
    at + FRAG_MAX_AGE + 1 >= 0x1_0000_0000_0000_0000
  }

  /** The record was last renewed by the showing itself or by a cut-short first fragment, and by none after it. */
  lemma {:induction false} RenewalIsAnArrival(steps: seq<Step>, key: FragKey, i: nat) returns (j: nat)
    requires InOrder(steps) && TraceOf(steps, key).Some?
    requires var t := TraceOf(steps, key).value; LastShown(steps, i, key, t.ports, t.shownAt)
    ensures i <= j < |steps| && steps[j].Arrive? && steps[j].now == TraceOf(steps, key).value.renewedAt
    ensures i == j || CutShort(steps[j], key)
    ensures forall l :: j < l < |steps| && CutShort(steps[l], key) ==> steps[l].now > steps[j].now + FRAG_MAX_AGE
    decreases steps
  {
    var n := |steps| - 1;
    j := i;
    if i < n {
      assert !Shows(steps[n], key) && steps[n] != EvictFragment(key);
      j := RenewalIsAnArrival(steps[..n], key, i);
      assert steps[..n][j] == steps[j];
      if CutShort(steps[n], key) && Elapsed(steps[n].now, steps[j].now) <= FRAG_MAX_AGE {
        j := n;
      } else {
        assert forall l :: j < l < n && CutShort(steps[l], key) ==> CutShort(steps[..n][l], key);
      }
    }
  }

  lemma TraceIsInOrder(steps: seq<Step>, key: FragKey)
    requires InOrder(steps) && TraceOf(steps, key).Some?
    ensures var t := TraceOf(steps, key).value; t.shownAt <= t.renewedAt <= Latest(steps)
  {
    var i := TraceWasShown(steps, key);
    var j := RenewalIsAnArrival(steps, key, i);
    assert i == j || steps[i].now <= steps[j].now;
    LatestIsLatest(steps, j);
  }

  /** A reading still to come at which a renewed record is fresh and its ports are not. */
  lemma ReadingPastTheShowing(shownAt: Time, renewedAt: Time, last: Time) returns (now: Time)
    requires shownAt < renewedAt <= last <= renewedAt + FRAG_MAX_AGE && !ClockEndsBefore(shownAt)
    ensures last <= now && Elapsed(now, renewedAt) <= FRAG_MAX_AGE < Elapsed(now, shownAt)
  {
    now := if last > shownAt + FRAG_MAX_AGE then last else shownAt + FRAG_MAX_AGE + 1;
  }

  /**
   * The five seconds bound the age of the record, not of the showing. For the
   * packets that can still come they bound both exactly when no cut-short first
   * fragment has renewed the record, or the renewed record has run out.
   */
  lemma PortsAreFreshUnlessRenewed(rules: Rules, capacity: nat, steps: seq<Step>, p: Packet, hook: Hook, scope: Scope)
    requires InOrder(steps) && ShownPorts(p).None? && TraceOf(steps, FragKeyOf(scope, p)).Some?
    ensures var t := TraceOf(steps, FragKeyOf(scope, p)).value;
            OnlyFreshPorts(Run(Fresh(rules, capacity), steps).s, p, hook, scope, t.shownAt, Latest(steps)) <==>
            t.renewedAt == t.shownAt || Latest(steps) > t.renewedAt + FRAG_MAX_AGE || ClockEndsBefore(t.shownAt)
  {
    var s, last := Run(Fresh(rules, capacity), steps).s, Latest(steps);
    var t := TraceOf(steps, FragKeyOf(scope, p)).value;
    TableIsTheTrace(rules, capacity, steps, FragKeyOf(scope, p));
    TraceIsInOrder(steps, FragKeyOf(scope, p));
    if t.renewedAt == t.shownAt || last > t.renewedAt + FRAG_MAX_AGE || ClockEndsBefore(t.shownAt) {
      forall now: Time | last <= now && ApplyPolicy(s, p, hook, scope, now).how != Unjudged
        ensures Elapsed(now, t.shownAt) <= FRAG_MAX_AGE
      {
        JudgedOnTheRecord(s, p, hook, scope, now, Some(t));
      }
    } else {
      var now := ReadingPastTheShowing(t.shownAt, t.renewedAt, last);
      JudgedOnTheRecord(s, p, hook, scope, now, Some(t));
    }
  }

  // ---- Told by the arrivals ------------------------------------------------

  /** No cut-short first fragment came within five seconds after arrival `i`, other than at its very instant. */
  ghost predicate NotRenewed(steps: seq<Step>, i: nat, key: FragKey)
    requires i < |steps| && steps[i].Arrive?
  {
    forall j :: i < j < |steps| && CutShort(steps[j], key) ==>
      steps[j].now == steps[i].now || steps[j].now > steps[i].now + FRAG_MAX_AGE
  }

  /** After arrival `i`, none came in the five seconds behind reading `at`. */
  ghost predicate Pause(steps: seq<Step>, i: nat, key: FragKey, at: Time) {
    forall j :: i < j < |steps| && CutShort(steps[j], key) ==> steps[j].now <= at || steps[j].now > at + FRAG_MAX_AGE
  }

  /** Such a pause of more than five seconds has gone by since. */
  ghost predicate RanOut(steps: seq<Step>, i: nat, key: FragKey)
    requires i < |steps| && steps[i].Arrive?
  {
    exists at: Time :: steps[i].now <= at && Pause(steps, i, key, at) && Latest(steps) > at + FRAG_MAX_AGE
  }

  /** No renewal reaches across a pause. */
  lemma {:induction false} PauseEndsTheRenewals(steps: seq<Step>, key: FragKey, i: nat, at: Time)
    requires InOrder(steps) && TraceOf(steps, key).Some?
    requires var t := TraceOf(steps, key).value; LastShown(steps, i, key, t.ports, t.shownAt)
    requires steps[i].now <= at && Pause(steps, i, key, at)
    ensures TraceOf(steps, key).value.renewedAt <= at
    decreases steps
  {
    var n := |steps| - 1;
    if i < n {
      assert !Shows(steps[n], key) && steps[n] != EvictFragment(key);
      assert forall l :: i < l < n && CutShort(steps[..n][l], key) ==> CutShort(steps[l], key);
      PauseEndsTheRenewals(steps[..n], key, i, at);
    }
  }

  lemma RenewedIsToldByArrivals(steps: seq<Step>, key: FragKey, i: nat)
    requires InOrder(steps) && TraceOf(steps, key).Some?
    requires var t := TraceOf(steps, key).value; LastShown(steps, i, key, t.ports, t.shownAt)
    ensures var t := TraceOf(steps, key).value;
            && (t.renewedAt == t.shownAt <==> NotRenewed(steps, i, key))
            && (Latest(steps) > t.renewedAt + FRAG_MAX_AGE <==> RanOut(steps, i, key))
  {
    var t := TraceOf(steps, key).value;
    var j := RenewalIsAnArrival(steps, key, i);
    assert i == j || steps[i].now <= steps[j].now;
    if NotRenewed(steps, i, key) {
      PauseEndsTheRenewals(steps, key, i, steps[i].now);
    }
    assert Pause(steps, i, key, t.renewedAt);
    if RanOut(steps, i, key) {
      var at: Time :| steps[i].now <= at && Pause(steps, i, key, at) && Latest(steps) > at + FRAG_MAX_AGE;
      PauseEndsTheRenewals(steps, key, i, at);
    }
  }

  /**
   * The same condition on the packets: whoever can still be judged on arrival
   * `i`'s ports is judged within five seconds of it exactly when no cut-short
   * first fragment with its key came in those five seconds, or more than five
   * seconds have since gone by without one.
   */
  lemma PortsAreFreshExactlyWithoutCutShortFirsts(rules: Rules, capacity: nat, steps: seq<Step>, i: nat,
                                                  p: Packet, hook: Hook, scope: Scope)
    requires InOrder(steps) && ShownPorts(p).None? && TraceOf(steps, FragKeyOf(scope, p)).Some?
    requires var t := TraceOf(steps, FragKeyOf(scope, p)).value;
             LastShown(steps, i, FragKeyOf(scope, p), t.ports, t.shownAt)
    ensures OnlyFreshPorts(Run(Fresh(rules, capacity), steps).s, p, hook, scope, steps[i].now, Latest(steps)) <==>
            || NotRenewed(steps, i, FragKeyOf(scope, p)) || RanOut(steps, i, FragKeyOf(scope, p))
            || ClockEndsBefore(steps[i].now)
  {
    PortsAreFreshUnlessRenewed(rules, capacity, steps, p, hook, scope);
    RenewedIsToldByArrivals(steps, FragKeyOf(scope, p), i);
  }

  /** A first fragment shows port 53 at 0 s, another is cut short at 4.9 s: at 9.7 s port 53 still judges. */
  lemma RenewedPortsOutliveFiveSeconds(rules: Rules, capacity: nat, hook: Hook)
    ensures var shown := Packet(1, 2, Udp, Some((1000, 53)), First, 7, None);
            var cut := shown.(ports := None);
            var later := shown.(ports := None, fragment := Later);
            var steps := [Arrive(shown, hook, 1, 0), Arrive(cut, hook, 1, 4_900_000_000)];
            var o := ApplyPolicy(Run(Fresh(rules, capacity), steps).s, later, hook, 1, 9_700_000_000);
            && o.how != Unjudged && o.key.value.t.dport == 53
            && forall j :: 0 <= j < |steps| && Shows(steps[j], FragKeyOf(1, later)) ==>
                 Elapsed(9_700_000_000, steps[j].now) > FRAG_MAX_AGE
  {
    var shown := Packet(1, 2, Udp, Some((1000, 53)), First, 7, None);
    var cut := shown.(ports := None);
    var later := shown.(ports := None, fragment := Later);
    var steps := [Arrive(shown, hook, 1, 0), Arrive(cut, hook, 1, 4_900_000_000)];
    var key := FragKeyOf(1, later);
    assert steps[..1][..0] == [] && steps[..1] == [steps[0]];
    assert TraceOf(steps[..1], key) == Some(Trace((1000, 53), 0, 0));
    assert TraceOf(steps, key) == Some(Trace((1000, 53), 0, 4_900_000_000));
    TableIsTheTrace(rules, capacity, steps, key);
    JudgedOnTheRecord(Run(Fresh(rules, capacity), steps).s, later, hook, 1, 9_700_000_000, TraceOf(steps, key));
  }
}
