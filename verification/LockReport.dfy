/**
 What the counters of the lock audit count, over every interleaving: re-entries are the
 acquisitions of a lock the thread already lists, and inversions the listed locks that the
 recorded order puts behind the one asked for.

 Main results: `ReentriesExact`, `InversionsExact`, `ReportExact`, `ReentryIsTrue` and `BoundsHold`.
 */
module LockReport {
  import opened LockGraph
  import opened LockAudit

  ghost predicate Takes(locks: set<LockId>, s: State, step: Step, s': State) {
    Enabled(locks, s, step) && s' == Do(s, step)
  }

  /** A run together with the steps it takes. */
  ghost predicate IsStepRun(locks: set<LockId>, run: seq<State>, steps: seq<Step>) {
    && |run| == |steps| + 1 && Init(run[0])
    && forall i :: 0 <= i < |steps| ==> Takes(locks, run[i], steps[i], run[i + 1])
  }

  /** Every run takes some steps, and steps make a run. */
  lemma {:induction false} StepsOf(locks: set<LockId>, run: seq<State>) returns (steps: seq<Step>)
    requires IsRun(locks, run)
    ensures IsStepRun(locks, run, steps)
  {
    if |run| == 1 {
      steps := [];
    } else {
      var n := |run| - 1;
      assert Next(locks, run[n - 1], run[n - 1 + 1]);
      var step :| Enabled(locks, run[n - 1], step) && run[n] == Do(run[n - 1], step);
      var front := StepsOf(locks, run[..n]);
      steps := front + [step];
      forall i | 0 <= i < |steps|
        ensures Takes(locks, run[i], steps[i], run[i + 1])
      {
        if i < n - 1 {
          assert Takes(locks, run[..n][i], front[i], run[..n][i + 1]);
        }
      }
    }
  }

  lemma RunOfSteps(locks: set<LockId>, run: seq<State>, steps: seq<Step>)
    requires IsStepRun(locks, run, steps)
    ensures IsRun(locks, run)
  {
    forall i, j | 0 <= i && j == i + 1 && j < |run|
      ensures Next(locks, run[i], run[j])
    {
      assert Takes(locks, run[i], steps[i], run[i + 1]);
    }
  }

  lemma RunFront(locks: set<LockId>, run: seq<State>, steps: seq<Step>)
    requires IsStepRun(locks, run, steps) && steps != []
    ensures IsStepRun(locks, run[..|steps|], steps[..|steps| - 1])
    ensures Takes(locks, run[|steps| - 1], steps[|steps| - 1], run[|steps|])
  {
    var n := |steps| - 1;
    forall i | 0 <= i < n
      ensures Takes(locks, run[..n + 1][i], steps[..n][i], run[..n + 1][i + 1])
    {
      assert Takes(locks, run[i], steps[i], run[i + 1]);
    }
    assert Takes(locks, run[n], steps[n], run[n + 1]);
  }

  // ------------------------------------------------------------------- re-entries

  function One(b: bool): nat { if b then 1 else 0 }

  /** A thread asks for a lock that is in its held list. */
  predicate Reenters(s: State, step: Step) {
    step.Begin? && step.t in s.threads && step.hold.lock in s.threads[step.t].held
  }

  function Reentries(run: seq<State>, steps: seq<Step>): nat
    requires |run| == |steps| + 1
  {
    if steps == [] then 0
    else
      var n := |steps| - 1;
      Reentries(run[..n + 1], steps[..n]) + One(Reenters(run[n], steps[n]))
  }

  lemma StepReenters(s: State, step: Step)
    requires step.t in s.threads
    ensures Do(s, step).reg.reentrancy == s.reg.reentrancy + One(Reenters(s, step))
  {
    if step.Begin? {
      AuditAllRecords(s.reg, s.threads[step.t].held, step.hold.lock);
    }
  }

  /** For any number of locks: the re-entrancy counter is the number of re-entries. */
  lemma {:induction false} ReentriesExact(locks: set<LockId>, run: seq<State>, steps: seq<Step>)
    requires IsStepRun(locks, run, steps)
    ensures Last(run).reg.reentrancy == Reentries(run, steps)
  {
    if steps != [] {
      var n := |steps| - 1;
      RunFront(locks, run, steps);
      ReentriesExact(locks, run[..n + 1], steps[..n]);
      StepReenters(run[n], steps[n]);
    }
  }

  // ------------------------------------------------------------------- inversions

  /** How many of the listed locks the recorded order puts behind the one asked for. */
  ghost function Crossed(edges: seq<Edge>, held: seq<LockId>, id: LockId): nat {
    if held == [] then 0
    else Crossed(edges, held[..|held| - 1], id) + One(Connected(edges, id, held[|held| - 1]))
  }

  /** The edges were extended only by edges into one lock. */
  ghost predicate GrownInto(edges: seq<Edge>, more: seq<Edge>, id: LockId) {
    forall b :: Connected(more, id, b) <==> Connected(edges, id, b)
  }

  /** An edge into a lock opens no way from it. */
  lemma IntoOpensNothing(edges: seq<Edge>, e: Edge)
    ensures GrownInto(edges, edges + [e], e.to)
  {
    forall b
      ensures Connected(edges + [e], e.to, b) <==> Connected(edges, e.to, b)
    {
      if Connected(edges, e.to, b) {
        ConnectedGrows(edges, e, e.to, b);
      }
      if Connected(edges + [e], e.to, b) {
        var p :| PathBetween(edges + [e], p, e.to, b);
        ConnectedAfterAdd(edges, e, p);
      }
    }
  }

  lemma AuditHeldCounts(locks: set<LockId>, reg: Registry, held: LockId, id: LockId)
    requires |locks| <= MAX_LOCKS && held in locks && id in locks && held != id && RegistryInv(locks, reg)
    ensures AuditHeld(reg, held, id).inversion == reg.inversion + One(Connected(reg.edges, id, held))
    ensures GrownInto(reg.edges, AuditHeld(reg, held, id).edges, id)
  {
    ReachesExact(reg.edges, locks, id, held);
    IntoOpensNothing(reg.edges, Edge(held, id));
  }

  lemma {:induction false} AuditAllCounts(locks: set<LockId>, reg: Registry, held: seq<LockId>, id: LockId)
    requires |locks| <= MAX_LOCKS && HeldWithin(locks, held) && id in locks && id !in held && RegistryInv(locks, reg)
    ensures AuditAll(reg, held, id).inversion == reg.inversion + Crossed(reg.edges, held, id)
    ensures GrownInto(reg.edges, AuditAll(reg, held, id).edges, id)
  {
    if held != [] {
      var before, last := held[..|held| - 1], held[|held| - 1];
      assert HeldWithin(locks, before) && last in held;
      AuditAllCounts(locks, reg, before, id);
      AuditAllKeeps(locks, reg, before, id);
      AuditHeldCounts(locks, AuditAll(reg, before, id), last, id);
    }
  }

  ghost function Inverts(s: State, step: Step): nat {
    if step.Begin? && step.t in s.threads && !Reenters(s, step)
    then Crossed(s.reg.edges, s.threads[step.t].held, step.hold.lock) else 0
  }

  ghost function Inversions(run: seq<State>, steps: seq<Step>): nat
    requires |run| == |steps| + 1
  {
    if steps == [] then 0
    else
      var n := |steps| - 1;
      Inversions(run[..n + 1], steps[..n]) + Inverts(run[n], steps[n])
  }

  lemma StepInverts(locks: set<LockId>, s: State, step: Step)
    requires |locks| <= MAX_LOCKS && Inv(locks, s) && Enabled(locks, s, step)
    ensures Do(s, step).reg.inversion == s.reg.inversion + Inverts(s, step)
  {
    if step.Begin? && !Reenters(s, step) {
      AuditAllCounts(locks, s.reg, s.threads[step.t].held, step.hold.lock);
    }
  }

  /** Over at most 34 locks: the inversion counter is the number of crossings, one for each listed lock. */
  lemma {:induction false} InversionsExact(locks: set<LockId>, run: seq<State>, steps: seq<Step>)
    requires |locks| <= MAX_LOCKS && IsStepRun(locks, run, steps)
    ensures Last(run).reg.inversion == Inversions(run, steps)
  {
    if steps != [] {
      var n := |steps| - 1;
      RunFront(locks, run, steps);
      InversionsExact(locks, run[..n + 1], steps[..n]);
      RunOfSteps(locks, run, steps);
      RunKeeps(locks, run, n);
      StepInverts(locks, run[n], steps[n]);
    }
  }

  /**
   The report as a whole: violations are re-entries and crossings, and in a run without a
   re-entry there are some if and only if the recorded order has a cycle.
   */
  lemma ReportExact(locks: set<LockId>, run: seq<State>, steps: seq<Step>)
    requires |locks| <= MAX_LOCKS && IsStepRun(locks, run, steps)
    ensures Last(run).reg.violations == Reentries(run, steps) + Inversions(run, steps)
    ensures Reentries(run, steps) == 0 ==> (Last(run).reg.violations > 0 <==> !Acyclic(Last(run).reg.edges))
  {
    ReentriesExact(locks, run, steps);
    InversionsExact(locks, run, steps);
    RunOfSteps(locks, run, steps);
    RunKeeps(locks, run, |run| - 1);
  }

  // ----------------------------------------------------------------- the tables

  ghost predicate TablesBounded(s: State) {
    |s.reg.edges| <= 1024 && forall t :: t in s.threads ==> |s.threads[t].held| <= 64
  }

  lemma {:induction false} PoppedShorter(held: seq<LockId>, id: LockId)
    ensures |Popped(held, id)| <= |held|
  {
    if held != [] {
      PoppedShorter(held[..|held| - 1], id);
    }
  }

  lemma {:induction false} AuditAllBounded(reg: Registry, held: seq<LockId>, id: LockId)
    requires |reg.edges| <= 1024
    ensures |AuditAll(reg, held, id).edges| <= 1024
  {
    if held != [] {
      AuditAllBounded(reg, held[..|held| - 1], id);
    }
  }

  lemma StepBounded(locks: set<LockId>, s: State, step: Step)
    requires TablesBounded(s) && Enabled(locks, s, step)
    ensures TablesBounded(Do(s, step))
  {
    var th := s.threads[step.t];
    match step
    case Begin(_, hold, _) => AuditAllBounded(s.reg, th.held, hold.lock);
    case Acquire(_) =>
    case GiveUp(_) => PoppedShorter(th.held, th.phase.hold.lock);
    case Unlock(_, _) =>
    case Forget(_) => PoppedShorter(th.held, th.phase.lock);
  }

  /** However many locks and threads there are, no table outgrows its size. */
  lemma {:induction false} BoundsHold(locks: set<LockId>, run: seq<State>, i: nat)
    requires IsRun(locks, run) && i < |run|
    ensures TablesBounded(run[i])
  {
    if i > 0 {
      BoundsHold(locks, run, i - 1);
      assert Next(locks, run[i - 1], run[i - 1 + 1]);
      var step :| Enabled(locks, run[i - 1], step) && run[i] == Do(run[i - 1], step);
      StepBounded(locks, run[i - 1], step);
    }
  }

  // ------------------------------------------------------- what is listed is held

  function OwnedTimes(th: Thread, lock: LockId): nat {
    th.owned[Hold(lock, Shared)] + th.owned[Hold(lock, Exclusive)]
  }

  /** Once for the lock being asked for, or being given back. */
  function PendingTimes(phase: Phase, lock: LockId): nat {
    match phase
    case Running => 0
    case Waiting(hold) => if hold.lock == lock then 1 else 0
    case Trying(hold) => if hold.lock == lock then 1 else 0
    case Releasing(given) => if given == lock then 1 else 0
  }

  predicate ListedOnce(th: Thread, lock: LockId) {
    multiset(th.held)[lock] <= OwnedTimes(th, lock) + PendingTimes(th.phase, lock)
  }

  /** Every entry stands for a lock the thread owns, asks for or is giving back. */
  ghost predicate ListedIsHeld(th: Thread) {
    forall lock :: ListedOnce(th, lock)
  }

  lemma {:induction false} PoppedCount(held: seq<LockId>, id: LockId)
    ensures multiset(Popped(held, id)) == multiset(held) - multiset{id}
  {
    if held != [] {
      var front, last := held[..|held| - 1], held[|held| - 1];
      assert held == front + [last] && multiset(held) == multiset(front) + multiset{last};
      if last != id {
        PoppedCount(front, id);
        assert multiset(Popped(held, id)) == multiset(Popped(front, id)) + multiset{last};
      }
    }
  }

  lemma PushedCount(held: seq<LockId>, id: LockId, lock: LockId)
    ensures multiset(Pushed(held, id))[lock] <= multiset(held)[lock] + (if lock == id then 1 else 0)
  {
    assert multiset(held + [id]) == multiset(held) + multiset{id};
  }

  lemma BeginListed(th: Thread, hold: Hold, phase: Phase, lock: LockId)
    requires ListedOnce(th, lock) && th.phase == Running && (phase == Waiting(hold) || phase == Trying(hold))
    ensures ListedOnce(th.(held := Pushed(th.held, hold.lock), phase := phase), lock)
  {
    PushedCount(th.held, hold.lock, lock);
  }

  lemma OwnedMore(th: Thread, hold: Hold, lock: LockId)
    ensures OwnedTimes(th.(owned := th.owned + multiset{hold}), lock)
         == OwnedTimes(th, lock) + (if hold.lock == lock then 1 else 0)
  {
    match hold.mode
    case Shared => assert hold == Hold(hold.lock, Shared);
    case Exclusive => assert hold == Hold(hold.lock, Exclusive);
  }

  lemma AcquireListed(th: Thread, hold: Hold, lock: LockId)
    requires ListedOnce(th, lock) && (th.phase == Waiting(hold) || th.phase == Trying(hold))
    ensures ListedOnce(th.(owned := th.owned + multiset{hold}, phase := Running), lock)
  {
    OwnedMore(th, hold, lock);
  }

  lemma UnlockListed(th: Thread, hold: Hold, lock: LockId)
    requires ListedOnce(th, lock) && th.phase == Running && hold in th.owned
    ensures ListedOnce(th.(owned := th.owned - multiset{hold}, phase := Releasing(hold.lock)), lock)
  {
    var rest := th.(owned := th.owned - multiset{hold});
    OwnedMore(rest, hold, lock);
    assert rest.owned + multiset{hold} == th.owned;
  }

  lemma PopListed(th: Thread, id: LockId, lock: LockId)
    requires ListedOnce(th, lock) && PendingTimes(th.phase, lock) == if id == lock then 1 else 0
    ensures ListedOnce(th.(held := Popped(th.held, id), phase := Running), lock)
  {
    PoppedCount(th.held, id);
  }

  lemma StepListed(locks: set<LockId>, s: State, step: Step, lock: LockId)
    requires Enabled(locks, s, step) && ListedOnce(s.threads[step.t], lock)
    ensures ListedOnce(ThreadAfter(s.threads[step.t], step), lock)
  {
    var th := s.threads[step.t];
    match step
    case Begin(_, hold, blocking) => BeginListed(th, hold, if blocking then Waiting(hold) else Trying(hold), lock);
    case Acquire(_) => AcquireListed(th, th.phase.hold, lock);
    case GiveUp(_) => PopListed(th, th.phase.hold.lock, lock);
    case Unlock(_, hold) => UnlockListed(th, hold, lock);
    case Forget(_) => PopListed(th, th.phase.lock, lock);
  }

  lemma ThreadListed(locks: set<LockId>, s: State, step: Step)
    requires Enabled(locks, s, step) && ListedIsHeld(s.threads[step.t])
    ensures ListedIsHeld(ThreadAfter(s.threads[step.t], step))
  {
    var th := ThreadAfter(s.threads[step.t], step);
    forall lock
      ensures ListedOnce(th, lock)
    {
      StepListed(locks, s, step, lock);
    }
  }

  /** In every state of every run, whatever was violated and however full the lists are. */
  lemma {:induction false} AllListedHeld(locks: set<LockId>, run: seq<State>, i: nat)
    requires IsRun(locks, run) && i < |run|
    ensures forall t :: t in run[i].threads ==> ListedIsHeld(run[i].threads[t])
  {
    if i > 0 {
      AllListedHeld(locks, run, i - 1);
      assert Next(locks, run[i - 1], run[i - 1 + 1]);
      var step :| Enabled(locks, run[i - 1], step) && run[i] == Do(run[i - 1], step);
      ThreadListed(locks, run[i - 1], step);
    }
  }

  /** A reported re-entry is one: the thread owns the lock it asks for. */
  lemma ReentryIsTrue(locks: set<LockId>, run: seq<State>, i: nat, step: Step)
    requires IsRun(locks, run) && i < |run| && Enabled(locks, run[i], step) && Reenters(run[i], step)
    ensures Owns(run[i].threads[step.t], step.hold.lock)
  {
    AllListedHeld(locks, run, i);
    var th := run[i].threads[step.t];
    assert ListedOnce(th, step.hold.lock) && multiset(th.held)[step.hold.lock] > 0;
  }

  // ----------------------------------------------------------------- the held list

  /** A release forgets the newest entry for the lock and no other. */
  lemma {:induction false} PoppedNewest(older: seq<LockId>, id: LockId, newer: seq<LockId>)
    requires id !in newer
    ensures Popped(older + [id] + newer, id) == older + newer
  {
    var held := older + [id] + newer;
    if newer == [] {
      assert held[..|held| - 1] == older;
    } else {
      var front, last := newer[..|newer| - 1], newer[|newer| - 1];
      PoppedNewest(older, id, front);
      assert last in newer && held[..|held| - 1] == older + [id] + front;
      assert older + front + [last] == older + newer;
    }
  }

  lemma {:induction false} PoppedAbsent(held: seq<LockId>, id: LockId)
    requires id !in held
    ensures Popped(held, id) == held
  {
    if held != [] {
      PoppedAbsent(held[..|held| - 1], id);
      assert held[|held| - 1] in held;
    }
  }
}
