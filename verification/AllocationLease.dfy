/**
 * The lease reaper: a lease keeps an address reserved after its claim is gone,
 * for a grace period, and longer while another object still stands. Each
 * reconcile pass reads the world, writes the status and may delete the lease.
 */
module AllocationLease {
  import opened Types

  /** Nanoseconds. */
  type Moment = int

  const SECOND: int := 1_000_000_000
  const RESYNC: int := 300 * SECOND

  datatype Phase = Unset | Active | Retained | Released | Expired

  /** What a pass learns about the object a lease waits for. A kind nobody serves counts as gone. */
  datatype Observation = Exists | Gone | Unreadable

  datatype Status = Status(phase: Phase, expiresAt: Option<Moment>, releasedAt: Option<Moment>, ready: bool)

  /** The part other controllers write. `waits` says whether the lease names an object to wait for. */
  datatype Spec = Spec(ownerDeleted: Option<Moment>, waits: bool, ttlSeconds: Option<int>)
  {
    function Ttl(): int {
      if ttlSeconds.Some? && ttlSeconds.value > 0 then ttlSeconds.value * SECOND else 0
    }
  }

  // ---- One pass ------------------------------------------------------------

  /** When a released lease is looked at again. */
  function RequeueAfter(spec: Spec, now: Moment, expiresAt: Moment): int {
    var untilExpiry := expiresAt - now + SECOND;
    if spec.waits && untilExpiry > RESYNC then RESYNC else untilExpiry
  }

  /** The status a pass wants to write, whether it deletes, when it comes back, and whether it failed. */
  datatype Pass = Pass(status: Status, deletes: bool, requeue: Option<int>, failed: bool)

  /** The release time a pass works with, once the object is known to be gone. */
  function ReleaseTime(status: Status, now: Moment): Moment {
    if status.releasedAt.Some? then status.releasedAt.value else now
  }

  function Timed(spec: Spec, now: Moment, start: Moment, releasedAt: Option<Moment>): Pass {
    var expiresAt := start + spec.Ttl();
    if now >= expiresAt then Pass(Status(Expired, Some(expiresAt), releasedAt, false), true, None, false)
    else
      Pass(Status(Released, Some(expiresAt), releasedAt, false), false, Some(RequeueAfter(spec, now, expiresAt)), false)
  }

  function Reconciled(spec: Spec, status: Status, now: Moment, seen: Observation): Pass {
    if spec.ownerDeleted.None? then Pass(Status(Active, None, None, true), false, None, false)
    else if !spec.waits then Timed(spec, now, spec.ownerDeleted.value, None)
    else match seen
      case Unreadable => Pass(Status(Retained, status.expiresAt, status.releasedAt, false), false, None, true)
      case Exists => Pass(Status(Retained, None, None, false), false, Some(RESYNC), false)
      case Gone => Timed(spec, now, ReleaseTime(status, now), Some(ReleaseTime(status, now)))
  }

  class Lease {
    var spec: Spec
    var status: Status
    var present: bool
    var terminating: bool // somebody already asked for the deletion

    constructor (initial: Spec)
      ensures spec == initial && status == Status(Unset, None, None, false) && present && !terminating
    {
      spec, status, present, terminating := initial, Status(Unset, None, None, false), true, false;
    }

    /** A pass whose status write goes through if `writes`; the deletion does not wait for it. */
    method Reconcile(now: Moment, seen: Observation, writes: bool) returns (requeue: Option<int>, failed: bool)
      requires present
      modifies this`status, this`present
      ensures terminating ==> present && status == old(status) && requeue == None && !failed
      ensures !terminating ==>
              var p := Reconciled(spec, old(status), now, seen);
              && present == !p.deletes && status == (if writes then p.status else old(status))
              && failed == (p.failed || (!writes && !p.deletes))
              && requeue == if failed then None else p.requeue
    {
      if terminating {
        return None, false;
      }
      if spec.ownerDeleted.None? {
        if writes {
          status := Status(Active, None, None, true);
        }
        return None, !writes;
      }
      var start := spec.ownerDeleted.value;
      var releasedAt: Option<Moment> := None;
      if spec.waits {
        if seen == Unreadable {
          if writes {
            status := Status(Retained, status.expiresAt, status.releasedAt, false);
          }
          return None, true;
        }
        if seen == Exists {
          if writes {
            status := Status(Retained, None, None, false);
          }
          return if writes then Some(RESYNC) else None, !writes;
        }
        releasedAt := status.releasedAt;
        if releasedAt.None? {
          releasedAt := Some(now);
        }
        start := releasedAt.value;
      }
      var expiresAt := start + spec.Ttl();
      if now >= expiresAt {
        if writes {
          status := Status(Expired, Some(expiresAt), releasedAt, false);
        }
        present := false;
        return None, false;
      }
      if writes {
        status := Status(Released, Some(expiresAt), releasedAt, false);
      }
      return if writes then Some(RequeueAfter(spec, now, expiresAt)) else None, !writes;
    }
  }

  // ---- Runs ----------------------------------------------------------------

  /** What happens to a lease: a pass, whose status write may be lost, or its claim being deleted or coming back. */
  datatype Step =
    | ReconcilePass(now: Moment, seen: Observation, writes: bool)
    | ClaimDeleted(at: Moment)
    | ClaimReturns

  /** One pass as it will be remembered: when, whether the claim was alive, what was seen. */
  datatype Visit = Visit(now: Moment, alive: bool, seen: Observation)
  {
    /** The pass saw the object, or the claim alive: an absence ends here. */
    predicate Interrupts() {
      alive || seen == Exists
    }
  }

  /**
   * The lease with the passes made so far. It is `stale` once an interrupting
   * pass has lost its write while a release time was recorded, until an
   * interrupting pass writes and so clears that time.
   */
  datatype World = World(spec: Spec, status: Status, visits: seq<Visit>, stale: bool, present: bool)

  /** A pass over this lease deletes it. */
  predicate Deletes(w: World, now: Moment, seen: Observation) {
    w.present && Reconciled(w.spec, w.status, now, seen).deletes
  }

  function Passed(w: World, v: Visit, writes: bool): World {
    World(w.spec, if writes then Reconciled(w.spec, w.status, v.now, v.seen).status else w.status, w.visits + [v],
          if v.Interrupts() then !writes && (w.stale || w.status.releasedAt.Some?) else w.stale,
          !Deletes(w, v.now, v.seen))
  }

  /** A lease that is gone gets no more passes. */
  function Next(w: World, s: Step): World {
    match s
    case ReconcilePass(now, seen, writes) =>
      if w.present then Passed(w, Visit(now, w.spec.ownerDeleted.None?, seen), writes) else w
    case ClaimDeleted(at) => w.(spec := w.spec.(ownerDeleted := Some(at)))
    case ClaimReturns => w.(spec := w.spec.(ownerDeleted := None))
  }

  function Run(w: World, steps: seq<Step>): World
    decreases steps
  {
    if |steps| == 0 then w else Run(Next(w, steps[0]), steps[1..])
  }

  /** Since when the object has been seen gone without interruption. A pass that could not read says nothing. */
  function GoneSince(visits: seq<Visit>): Option<Moment> {
    if visits == [] then None
    else
      var last := visits[|visits| - 1];
      var before := GoneSince(visits[..|visits| - 1]);
      if last.Interrupts() then None
      else if last.seen == Unreadable || before.Some? then before
      else Some(last.now)
  }

  /** A pass that saw the object gone, after which no pass saw it present or the claim alive. */
  ghost predicate GoneFrom(visits: seq<Visit>, i: nat, t: Moment) {
    && i < |visits| && visits[i].now == t && visits[i].seen == Gone && !visits[i].alive
    && forall j :: i < j < |visits| ==> !visits[j].Interrupts()
  }

  lemma {:induction false} GoneSinceIsAWitness(visits: seq<Visit>) returns (i: nat)
    requires GoneSince(visits).Some?
    ensures GoneFrom(visits, i, GoneSince(visits).value)
    decreases |visits|
  {
    var init, last := visits[..|visits| - 1], visits[|visits| - 1];
    if GoneSince(init).Some? {
      i := GoneSinceIsAWitness(init);
      assert forall j :: 0 <= j < |init| ==> visits[j] == init[j];
    } else {
      i := |visits| - 1;
    }
  }

  /** It is the earliest such pass since the last interruption. */
  lemma {:induction false} GoneSinceIsEarliest(visits: seq<Visit>, i: nat, t: Moment)
    requires GoneFrom(visits, i, t)
    ensures GoneSince(visits).Some?
    ensures exists k: nat :: k <= i && GoneFrom(visits, k, GoneSince(visits).value)
    decreases |visits|
  {
    var init := visits[..|visits| - 1];
    if i < |init| {
      assert forall j :: 0 <= j < |init| ==> visits[j] == init[j];
      assert GoneFrom(init, i, t);
      GoneSinceIsEarliest(init, i, t);
      var k: nat :| k <= i && GoneFrom(init, k, GoneSince(init).value);
      assert GoneFrom(visits, k, GoneSince(visits).value);
    } else if GoneSince(init).Some? {
      var k := GoneSinceIsAWitness(init);
      assert forall j :: 0 <= j < |init| ==> visits[j] == init[j];
      assert GoneFrom(visits, k, GoneSince(visits).value);
    } else {
      assert GoneFrom(visits, i, GoneSince(visits).value);
    }
  }

  // ---- The status remembers ------------------------------------------------

  /** No status write is lost. */
  predicate AllWritten(steps: seq<Step>) {
    forall i :: 0 <= i < |steps| && steps[i].ReconcilePass? ==> steps[i].writes
  }

  /** The recorded release time is exactly the start of the uninterrupted absence. */
  predicate Remembers(w: World) {
    w.spec.waits ==> w.status.releasedAt == GoneSince(w.visits)
  }

  lemma StepKeepsMemory(w: World, s: Step)
    requires Remembers(w) && (s.ReconcilePass? ==> s.writes)
    ensures Remembers(Next(w, s)) && Next(w, s).spec.waits == w.spec.waits
  {
    if s.ReconcilePass? {
      var v := Visit(s.now, w.spec.ownerDeleted.None?, s.seen);
      assert (w.visits + [v])[..|w.visits|] == w.visits;
    }
  }

  lemma {:induction false} RunKeepsMemory(w: World, steps: seq<Step>)
    requires Remembers(w) && AllWritten(steps)
    ensures Remembers(Run(w, steps)) && Run(w, steps).spec.waits == w.spec.waits
    decreases steps
  {
    if |steps| > 0 {
      StepKeepsMemory(w, steps[0]);
      RunKeepsMemory(Next(w, steps[0]), steps[1..]);
    }
  }

  function Fresh(spec: Spec): World {
    World(spec, Status(Unset, None, None, false), [], false, true)
  }

  /**
   * After any run whose writes went through, a pass deletes the lease exactly
   * when it is still there, its claim has been deleted and the grace period is
   * over: counted from the claim's deletion, or, for a lease that waits for an object, from the
   * start of the absence that this very pass still sees.
   */
  lemma DeletedExactlyAfterGrace(spec: Spec, steps: seq<Step>, now: Moment, seen: Observation)
    requires AllWritten(steps)
    ensures var w := Run(Fresh(spec), steps);
            var visits := w.visits + [Visit(now, w.spec.ownerDeleted.None?, seen)];
            Deletes(w, now, seen) <==>
              && w.present && w.spec.ownerDeleted.Some?
              && (if !w.spec.waits then now >= w.spec.ownerDeleted.value + w.spec.Ttl()
                  else seen == Gone && GoneSince(visits).Some? && now >= GoneSince(visits).value + w.spec.Ttl())
  {
    RunKeepsMemory(Fresh(spec), steps);
    var w := Run(Fresh(spec), steps);
    var v := Visit(now, w.spec.ownerDeleted.None?, seen);
    assert (w.visits + [v])[..|w.visits|] == w.visits;
  }

  lemma {:induction false} SpecIsKept(w: World, steps: seq<Step>)
    ensures Run(w, steps).spec.waits == w.spec.waits && Run(w, steps).spec.ttlSeconds == w.spec.ttlSeconds
    decreases steps
  {
    if |steps| > 0 {
      SpecIsKept(Next(w, steps[0]), steps[1..]);
    }
  }

  /** Where a deleted claim's grace period starts for a pass: at the absence it still sees, or at the deletion. */
  function GraceStart(w: World, now: Moment): Option<Moment> {
    if w.spec.waits then GoneSince(w.visits + [Visit(now, w.spec.ownerDeleted.None?, Gone)]) else w.spec.ownerDeleted
  }

  /** What a pass reports while the grace period runs, and once it is over. */
  predicate Counted(p: Pass, now: Moment, deadline: Moment, waits: bool, since: Option<Moment>) {
    && p.deletes == (now >= deadline) && !p.failed
    && p.status == Status(if now >= deadline then Expired else Released, Some(deadline), since, false)
    && p.requeue == if now >= deadline then None
                    else if waits && deadline - now > 299_000_000_000 then Some(300_000_000_000)
                    else Some(deadline - now + 1_000_000_000)
  }

  /**
   * After any run whose writes went through, what a pass makes of the lease. With
   * its claim alive it is Active, the only phase that is ready. While its object
   * exists it is Retained, to be looked at again after five minutes; if that
   * cannot be read it stays Retained with the times it had, and the pass fails.
   * Otherwise it is Released until its grace period is over and Expired then; it
   * comes back a second after that moment, or after five minutes if it waits for
   * an object and the moment is further away.
   */
  lemma PassTellsWhereTheLeaseStands(spec: Spec, steps: seq<Step>, now: Moment, seen: Observation)
    requires AllWritten(steps)
    ensures var w := Run(Fresh(spec), steps);
            var p := Reconciled(w.spec, w.status, now, seen);
            var grace := if spec.ttlSeconds.Some? && spec.ttlSeconds.value > 0
                         then spec.ttlSeconds.value * 1_000_000_000 else 0;
            if w.spec.ownerDeleted.None? then p == Pass(Status(Active, None, None, true), false, None, false)
            else if spec.waits && seen == Exists then
              p == Pass(Status(Retained, None, None, false), false, Some(300_000_000_000), false)
            else if spec.waits && seen == Unreadable then
              p == Pass(Status(Retained, w.status.expiresAt, GoneSince(w.visits), false), false, None, true)
            else
              && GraceStart(w, now).Some?
              && Counted(p, now, GraceStart(w, now).value + grace, spec.waits,
                         if spec.waits then GraceStart(w, now) else None)
  {
    RunKeepsMemory(Fresh(spec), steps);
    SpecIsKept(Fresh(spec), steps);
    var w := Run(Fresh(spec), steps);
    assert (w.visits + [Visit(now, false, Gone)])[..|w.visits|] == w.visits;
  }

  // ---- Lost writes ---------------------------------------------------------

  /** A deletion now would come the time to live after a pass that saw the object gone, uninterrupted since. */
  ghost predicate Justified(w: World, now: Moment) {
    exists i: nat, t :: GoneFrom(w.visits + [Visit(now, false, Gone)], i, t) && now >= t + w.spec.Ttl()
  }

  /** The recorded release time, stale or not, is that of a pass that saw the object gone. */
  ghost predicate Dated(visits: seq<Visit>, i: nat, t: Moment, stale: bool) {
    && i < |visits| && visits[i] == Visit(t, false, Gone)
    && (stale <==> exists j :: i < j < |visits| && visits[j].Interrupts())
  }

  ghost predicate Kept(w: World) {
    && (w.status.releasedAt.None? ==> !w.stale)
    && (w.status.releasedAt.Some? ==> exists i: nat :: Dated(w.visits, i, w.status.releasedAt.value, w.stale))
  }

  lemma DatedStays(visits: seq<Visit>, i: nat, t: Moment, stale: bool, v: Visit)
    requires Dated(visits, i, t, stale)
    ensures Dated(visits + [v], i, t, stale || v.Interrupts())
  {
    var more := visits + [v];
    assert forall j :: 0 <= j < |visits| ==> more[j] == visits[j];
    assert more[|visits|] == v;
    if stale {
      var j :| i < j < |visits| && visits[j].Interrupts();
      assert more[j].Interrupts();
    }
  }

  lemma PassKeepsDates(w: World, v: Visit, writes: bool)
    requires Kept(w) && w.spec.waits && v.alive == w.spec.ownerDeleted.None?
    ensures Kept(Passed(w, v, writes))
  {
    var w' := Passed(w, v, writes);
    if w'.status.releasedAt.Some? {
      if w.status.releasedAt.Some? {
        var t := w.status.releasedAt.value;
        var i: nat :| Dated(w.visits, i, t, w.stale);
        DatedStays(w.visits, i, t, w.stale, v);
        assert Dated(w'.visits, i, w'.status.releasedAt.value, w'.stale);
      } else {
        assert v == Visit(v.now, false, Gone) && w'.visits[|w.visits|] == v;
        assert Dated(w'.visits, |w.visits|, v.now, false);
      }
    }
  }

  lemma {:induction false} RunKeepsDates(w: World, steps: seq<Step>)
    requires Kept(w) && w.spec.waits
    ensures Kept(Run(w, steps)) && Run(w, steps).spec.waits && Run(w, steps).spec.ttlSeconds == w.spec.ttlSeconds
    decreases steps
  {
    if |steps| > 0 {
      var s := steps[0];
      if s.ReconcilePass? && w.present {
        PassKeepsDates(w, Visit(s.now, w.spec.ownerDeleted.None?, s.seen), s.writes);
      }
      RunKeepsDates(Next(w, s), steps[1..]);
    }
  }

  lemma UnstaleDeletionIsJustified(w: World, now: Moment)
    requires Kept(w) && w.spec.waits && !w.stale && Deletes(w, now, Gone)
    ensures Justified(w, now)
  {
    var visits := w.visits + [Visit(now, false, Gone)];
    if w.status.releasedAt.Some? {
      var t := w.status.releasedAt.value;
      var i: nat :| Dated(w.visits, i, t, false);
      DatedStays(w.visits, i, t, false, Visit(now, false, Gone));
      assert GoneFrom(visits, i, t);
    } else {
      assert visits[|w.visits|] == Visit(now, false, Gone);
      assert GoneFrom(visits, |w.visits|, now);
    }
  }

  /** Each pass came later than the one before. */
  ghost predicate InOrder(visits: seq<Visit>) {
    forall i, j :: 0 <= i < j < |visits| ==> visits[i].now < visits[j].now
  }

  /** A deletion now is justified exactly if the start of the absence justifies it. */
  lemma JustifiedBySince(w: World, now: Moment)
    requires InOrder(w.visits + [Visit(now, false, Gone)])
    ensures var since := GoneSince(w.visits);
            Justified(w, now) <==> now >= (if since.Some? then since.value else now) + w.spec.Ttl()
  {
    var visits := w.visits + [Visit(now, false, Gone)];
    assert visits[..|w.visits|] == w.visits;
    var since := GoneSince(visits).value;
    var i := GoneSinceIsAWitness(visits);
    assert GoneFrom(visits, i, since);
    forall k: nat, u | GoneFrom(visits, k, u)
      ensures since <= u
    {
      GoneSinceIsEarliest(visits, k, u);
      var j: nat :| j <= k && GoneFrom(visits, j, since);
    }
  }

  /** A stale release time is that of an earlier absence. */
  lemma StaleTimeIsEarlier(w: World)
    requires Kept(w) && w.stale && InOrder(w.visits)
    ensures w.status.releasedAt.Some?
    ensures GoneSince(w.visits).Some? ==> w.status.releasedAt.value < GoneSince(w.visits).value
  {
    if GoneSince(w.visits).Some? {
      var i: nat :| Dated(w.visits, i, w.status.releasedAt.value, true);
      var j :| i < j < |w.visits| && w.visits[j].Interrupts();
      var k := GoneSinceIsAWitness(w.visits);
      assert k >= j;
    }
  }

  /**
   * No later deletion can come too early: the lease is gone, it has no grace
   * period, its release time is not stale, or by the next reading of the clock
   * the absence that goes on now has lasted long enough anyway.
   */
  predicate Safe(w: World) {
    || !w.present || w.spec.Ttl() == 0 || !w.stale
    || (var since := GoneSince(w.visits);
        since.Some? && w.visits[|w.visits| - 1].now + 1 >= since.value + w.spec.Ttl())
  }

  lemma InOrderPrefix(visits: seq<Visit>, v: Visit)
    requires InOrder(visits + [v])
    ensures InOrder(visits) && (|visits| > 0 ==> visits[|visits| - 1].now < v.now)
  {
    var more := visits + [v];
    assert forall i :: 0 <= i < |visits| ==> more[i] == visits[i];
    assert more[|visits|] == v;
  }

  lemma SafeDeletionIsJustified(w: World, now: Moment)
    requires Kept(w) && w.spec.waits && Safe(w) && InOrder(w.visits + [Visit(now, false, Gone)])
    requires Deletes(w, now, Gone)
    ensures Justified(w, now)
  {
    InOrderPrefix(w.visits, Visit(now, false, Gone));
    JustifiedBySince(w, now);
    if w.spec.Ttl() == 0 {
      if GoneSince(w.visits).Some? {
        var i := GoneSinceIsAWitness(w.visits);
      }
    } else if !w.stale {
      UnstaleDeletionIsJustified(w, now);
    }
  }

  lemma SafeStays(w: World, s: Step)
    requires Safe(w) && (s.ReconcilePass? ==> s.writes) && InOrder(Next(w, s).visits)
    ensures Safe(Next(w, s))
  {
    if s.ReconcilePass? && w.present {
      var v := Visit(s.now, w.spec.ownerDeleted.None?, s.seen);
      assert (w.visits + [v])[..|w.visits|] == w.visits;
      InOrderPrefix(w.visits, v);
    }
  }

  lemma {:induction false} VisitsOnlyGrow(w: World, steps: seq<Step>)
    ensures w.visits <= Run(w, steps).visits
    decreases steps
  {
    if |steps| > 0 {
      VisitsOnlyGrow(Next(w, steps[0]), steps[1..]);
    }
  }

  lemma {:induction false} SafeRunsStaySafe(w: World, steps: seq<Step>)
    requires Safe(w) && AllWritten(steps) && InOrder(Run(w, steps).visits)
    ensures Safe(Run(w, steps))
    decreases steps
  {
    if |steps| > 0 {
      VisitsOnlyGrow(Next(w, steps[0]), steps[1..]);
      SafeStays(w, steps[0]);
      SafeRunsStaySafe(Next(w, steps[0]), steps[1..]);
    }
  }

  /** Otherwise some later reading deletes the lease too early, once its claim is deleted. */
  lemma UnsafeDeletesTooEarly(w: World) returns (now: Moment)
    requires Kept(w) && w.spec.waits && InOrder(w.visits) && !Safe(w)
    ensures InOrder(w.visits + [Visit(now, false, Gone)])
    ensures var w' := Next(w, ClaimDeleted(now)); Deletes(w', now, Gone) && !Justified(w', now)
  {
    StaleTimeIsEarlier(w);
    var i: nat :| Dated(w.visits, i, w.status.releasedAt.value, true);
    var t, last := w.status.releasedAt.value, w.visits[|w.visits| - 1];
    now := if t + w.spec.Ttl() > last.now then t + w.spec.Ttl() else last.now + 1;
    JustifiedBySince(Next(w, ClaimDeleted(now)), now);
  }

  /** Every deletion at a later reading of the clock, after later passes or none, none of which loses its write. */
  ghost predicate LaterDeletionsAreJustified(w: World) {
    forall more, now ::
      AllWritten(more) && InOrder(Run(w, more).visits + [Visit(now, false, Gone)]) &&
      Deletes(Run(w, more), now, Gone) ==>
        Justified(Run(w, more), now)
  }

  /**
   * The exact price of a lost write. For a waiting lease, after any run whose
   * passes came one after the other, every later deletion is justified exactly
   * when the lease is safe: no pass that saw the object or the live claim has
   * lost its write while a release time was recorded, without that time being
   * cleared since, or the absence that goes on now makes up for it.
   */
  lemma DeletionsAreJustifiedExactlyWhenSafe(spec: Spec, steps: seq<Step>)
    requires spec.waits && InOrder(Run(Fresh(spec), steps).visits)
    ensures LaterDeletionsAreJustified(Run(Fresh(spec), steps)) <==> Safe(Run(Fresh(spec), steps))
  {
    var w := Run(Fresh(spec), steps);
    RunKeepsDates(Fresh(spec), steps);
    if Safe(w) {
      forall more, now |
        AllWritten(more) && InOrder(Run(w, more).visits + [Visit(now, false, Gone)]) && Deletes(Run(w, more), now, Gone)
        ensures Justified(Run(w, more), now)
      {
        InOrderPrefix(Run(w, more).visits, Visit(now, false, Gone));
        RunKeepsDates(w, more);
        SafeRunsStaySafe(w, more);
        SafeDeletionIsJustified(Run(w, more), now);
      }
    } else {
      var now := UnsafeDeletesTooEarly(w);
      var more := [ClaimDeleted(now)];
      assert more[1..] == [];
      assert Run(w, more) == Next(w, ClaimDeleted(now));
    }
  }

  /**
   * A waiting lease is deleted only once the time to live has passed since a
   * pass that saw the object gone, with no later pass seeing it or the claim;
   * writes may be lost, as long as none left the release time stale.
   */
  lemma WaitingLeaseOutlivesItsObject(spec: Spec, steps: seq<Step>, now: Moment, seen: Observation)
    requires var w := Run(Fresh(spec), steps); w.spec.waits && !w.stale && Deletes(w, now, seen)
    ensures var w := Run(Fresh(spec), steps); w.spec.ownerDeleted.Some? && seen == Gone && Justified(w, now)
  {
    SpecIsKept(Fresh(spec), steps);
    RunKeepsDates(Fresh(spec), steps);
    UnstaleDeletionIsJustified(Run(Fresh(spec), steps), now);
  }

  lemma RunOfTwo(w: World, a: Step, b: Step)
    ensures Run(w, [a, b]) == Next(Next(w, a), b)
  {
    assert [a, b][1..] == [b] && [b][1..] == [];
    assert Run(Next(w, a), [b]) == Run(Next(Next(w, a), b), []);
  }

  /**
   * A run that ends stale: the object is seen gone at 0 s and again present at
   * 5 s, and that second write is lost. The pass at 20 s deletes the lease,
   * although the object was there; had the write gone through it would wait.
   */
  lemma LostWriteShortensTheWait()
    ensures var spec := Spec(Some(0), true, Some(10));
            var lost := Run(Fresh(spec), [ReconcilePass(0, Gone, true), ReconcilePass(5 * SECOND, Exists, false)]);
            var kept := Run(Fresh(spec), [ReconcilePass(0, Gone, true), ReconcilePass(5 * SECOND, Exists, true)]);
            && Deletes(lost, 20 * SECOND, Gone) && !Justified(lost, 20 * SECOND) && !Safe(lost)
            && !Deletes(kept, 20 * SECOND, Gone) && Safe(kept)
  {
    var spec := Spec(Some(0), true, Some(10));
    RunOfTwo(Fresh(spec), ReconcilePass(0, Gone, true), ReconcilePass(5 * SECOND, Exists, false));
    RunOfTwo(Fresh(spec), ReconcilePass(0, Gone, true), ReconcilePass(5 * SECOND, Exists, true));
    var lost := Next(Next(Fresh(spec), ReconcilePass(0, Gone, true)), ReconcilePass(5 * SECOND, Exists, false));
    var visits := lost.visits + [Visit(20 * SECOND, false, Gone)];
    assert visits == [Visit(0, false, Gone), Visit(5 * SECOND, false, Exists), Visit(20 * SECOND, false, Gone)];
    forall i: nat, t | GoneFrom(visits, i, t)
      ensures t == 20 * SECOND
    {
      assert visits[1].Interrupts();
    }
  }

  // ---- Failed reads --------------------------------------------------------

  /** Two leases no later pass can tell apart. */
  predicate Alike(a: World, b: World) {
    a.spec == b.spec && a.status.releasedAt == b.status.releasedAt && a.present == b.present
  }

  lemma {:induction false} AlikeRunsStayAlike(a: World, b: World, steps: seq<Step>)
    requires Alike(a, b)
    ensures Alike(Run(a, steps), Run(b, steps))
    decreases steps
  {
    if |steps| > 0 {
      AlikeRunsStayAlike(Next(a, steps[0]), Next(b, steps[0]), steps[1..]);
    }
  }

  /** A failed read deletes nothing, and whatever follows goes as if that pass had never been. */
  lemma FailedReadMakesNoDifference(w: World, now: Moment, writes: bool, more: seq<Step>, later: Moment,
                                    seen: Observation)
    requires w.spec.ownerDeleted.Some? && w.spec.waits
    ensures !Deletes(w, now, Unreadable)
    ensures var with, without := Run(Next(w, ReconcilePass(now, Unreadable, writes)), more), Run(w, more);
            && Deletes(with, later, seen) == Deletes(without, later, seen)
            && Reconciled(with.spec, with.status, later, seen).requeue ==
               Reconciled(without.spec, without.status, later, seen).requeue
  {
    AlikeRunsStayAlike(Next(w, ReconcilePass(now, Unreadable, writes)), w, more);
  }

  /** A released lease that waits for nothing is deleted by the pass its requeue asks for, and not before. */
  lemma RequeueMeetsTheDeadline(spec: Spec, status: Status, now: Moment, seen: Observation, later: Moment)
    requires spec.ownerDeleted.Some? && Reconciled(spec, status, now, seen).status.phase == Released
    ensures var p := Reconciled(spec, status, now, seen);
            && p.requeue.Some? && p.requeue.value > 0 && p.status.expiresAt.Some?
            && (spec.waits ==> p.requeue.value <= RESYNC)
            && (!spec.waits ==>
                  (Reconciled(spec, p.status, later, seen).deletes <==> later >= p.status.expiresAt.value) &&
                  Reconciled(spec, p.status, now + p.requeue.value, seen).deletes)
  {
  }
}
