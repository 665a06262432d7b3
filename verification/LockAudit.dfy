/**
 The runtime lock audit as a transition system: any number of threads take and
 give back shared or exclusive locks in any interleaving, and every acquisition
 runs the audit step first.

 Main results: `InversionExact`, `NoCircularWait`, `NothingDropped` and, with the
 ring of 35 threads built in LockRing.dfy, `LockRing.AuditSoundExactly`.
 */
module LockAudit {
  import opened LockGraph

  // Capacity of the per thread held list and of the edge table.
  const MAX_HELD := 64
  const MAX_EDGES := 1024

  datatype Registry = Registry(
    edges: seq<Edge>,
    violations: nat,
    reentrancy: nat,
    inversion: nat,
    edgesDropped: nat)

  const EmptyRegistry := Registry([], 0, 0, 0, 0)

  /** The audit of one held lock against the lock about to be acquired. */
  function AuditHeld(reg: Registry, held: LockId, id: LockId): Registry {
    var counted :=
      if Reaches(reg.edges, id, held, 0)
      then reg.(violations := reg.violations + 1, inversion := reg.inversion + 1)
      else reg;
    if Edge(held, id) in reg.edges then counted
    else if |reg.edges| < MAX_EDGES then counted.(edges := reg.edges + [Edge(held, id)])
    else counted.(edgesDropped := reg.edgesDropped + 1)
  }

  /** The audit of every held lock, oldest first. */
  function AuditAll(reg: Registry, held: seq<LockId>, id: LockId): Registry {
    if held == [] then reg
    else AuditHeld(AuditAll(reg, held[..|held| - 1], id), held[|held| - 1], id)
  }

  /** Registry after the audit that precedes an acquisition of `id`. */
  function Audited(reg: Registry, held: seq<LockId>, id: LockId): Registry {
    if id in held
    then reg.(violations := reg.violations + 1, reentrancy := reg.reentrancy + 1)
    else AuditAll(reg, held, id)
  }

  /** Held list after the audit: it silently stops growing at its capacity. */
  function Pushed(held: seq<LockId>, id: LockId): seq<LockId> {
    if |held| < MAX_HELD then held + [id] else held
  }

  /** Held list after a release: the newest entry for `id` is forgotten. */
  function Popped(held: seq<LockId>, id: LockId): seq<LockId> {
    if held == [] then []
    else if held[|held| - 1] == id then held[..|held| - 1]
    else Popped(held[..|held| - 1], id) + [held[|held| - 1]]
  }

  // ------------------------------------------------------ transition system

  type ThreadId = nat
  datatype Mode = Shared | Exclusive
  datatype Hold = Hold(lock: LockId, mode: Mode)

  // What a thread is doing inside a tracked mutex call: blocked in lock, between
  // the audit and the attempt of try_lock, or between unlock and its bookkeeping.
  datatype Phase = Running | Waiting(hold: Hold) | Trying(hold: Hold) | Releasing(lock: LockId)

  // `held` is the audit's thread local list, `owned` the mutexes really owned.
  datatype Thread = Thread(held: seq<LockId>, owned: multiset<Hold>, phase: Phase)

  datatype State = State(reg: Registry, threads: map<ThreadId, Thread>)

  datatype Step =
    | Begin(t: ThreadId, hold: Hold, blocking: bool)  // audit, then block or try
    | Acquire(t: ThreadId)                            // the mutex is granted
    | GiveUp(t: ThreadId)                             // try_lock failed: forget the entry
    | Unlock(t: ThreadId, hold: Hold)                 // the mutex is given back
    | Forget(t: ThreadId)                             // then the entry is forgotten

  predicate Owns(th: Thread, lock: LockId) {
    Hold(lock, Shared) in th.owned || Hold(lock, Exclusive) in th.owned
  }

  /** A shared mutex admits a reader unless a writer owns it, a writer only when free. */
  ghost predicate Grantable(s: State, hold: Hold) {
    forall t :: t in s.threads ==>
      Hold(hold.lock, Exclusive) !in s.threads[t].owned &&
      (hold.mode == Exclusive ==> !Owns(s.threads[t], hold.lock))
  }

  ghost predicate Enabled(locks: set<LockId>, s: State, step: Step) {
    step.t in s.threads &&
    var th := s.threads[step.t];
    match step
    case Begin(_, hold, _) => th.phase == Running && hold.lock in locks
    case Acquire(_) => (th.phase.Waiting? || th.phase.Trying?) && Grantable(s, th.phase.hold)
    case GiveUp(_) => th.phase.Trying?
    case Unlock(_, hold) => th.phase == Running && hold in th.owned
    case Forget(_) => th.phase.Releasing?
  }

  function ThreadAfter(th: Thread, step: Step): Thread {
    match step
    case Begin(_, hold, blocking) =>
      th.(held := Pushed(th.held, hold.lock), phase := if blocking then Waiting(hold) else Trying(hold))
    case Acquire(_) =>
      if th.phase.Waiting? || th.phase.Trying?
      then th.(owned := th.owned + multiset{th.phase.hold}, phase := Running) else th
    case GiveUp(_) =>
      if th.phase.Trying? then th.(held := Popped(th.held, th.phase.hold.lock), phase := Running) else th
    case Unlock(_, hold) =>
      th.(owned := th.owned - multiset{hold}, phase := Releasing(hold.lock))
    case Forget(_) =>
      if th.phase.Releasing? then th.(held := Popped(th.held, th.phase.lock), phase := Running) else th
  }

  function Do(s: State, step: Step): State
    requires step.t in s.threads
  {
    var th := s.threads[step.t];
    State(
      if step.Begin? then Audited(s.reg, th.held, step.hold.lock) else s.reg,
      s.threads[step.t := ThreadAfter(th, step)])
  }

  ghost predicate Init(s: State) {
    s.reg == EmptyRegistry && forall t :: t in s.threads ==> s.threads[t] == Thread([], multiset{}, Running)
  }

  ghost predicate Next(locks: set<LockId>, s: State, s': State) {
    exists step :: Enabled(locks, s, step) && s' == Do(s, step)
  }

  /** A run of any length that only ever acquires the given locks. */
  ghost predicate IsRun(locks: set<LockId>, run: seq<State>) {
    |run| > 0 && Init(run[0]) &&
    forall i, j :: 0 <= i && j == i + 1 && j < |run| ==> Next(locks, run[i], run[j])
  }

  function Last(run: seq<State>): State
    requires |run| > 0
  {
    run[|run| - 1]
  }

  /** Each listed thread is blocked on a lock the next one owns, the last on the first. */
  ghost predicate IsWaitRing(s: State, ring: seq<ThreadId>) {
    |ring| > 0 &&
    (forall i :: 0 <= i < |ring| ==> ring[i] in s.threads && s.threads[ring[i]].phase.Waiting?) &&
    forall i, j :: 0 <= i < |ring| && j == (if i + 1 < |ring| then i + 1 else 0) ==>
      Owns(s.threads[ring[j]], s.threads[ring[i]].phase.hold.lock)
  }

  ghost predicate CircularWait(s: State) {
    exists ring :: IsWaitRing(s, ring)
  }

  // ------------------------------------------------------ how many edges there can be

  ghost predicate EdgesProper(locks: set<LockId>, edges: seq<Edge>) {
    EdgesWithin(edges, locks) && Distinct(edges) && forall e :: e in edges ==> e.from != e.to
  }

  ghost function AllPairs(locks: set<LockId>): set<Edge> {
    set a, b | a in locks && b in locks && a != b :: Edge(a, b)
  }

  ghost function Outs(x: LockId, rest: set<LockId>): set<Edge> {
    set b | b in rest :: Edge(x, b)
  }

  ghost function Ins(x: LockId, rest: set<LockId>): set<Edge> {
    set a | a in rest :: Edge(a, x)
  }

  // Number of ordered pairs of different elements among n.
  function PairCount(n: nat): nat {
    if n == 0 then 0 else PairCount(n - 1) + 2 * (n - 1)
  }

  lemma {:induction false} PairCountClosed(n: nat)
    ensures PairCount(n) == n * (n - 1)
  {
    if n > 0 {
      PairCountClosed(n - 1);
    }
  }

  lemma ProductBound(n: nat, top: nat)
    requires n <= top
    ensures n * (n - 1) <= top * (top - 1)
  {
    if n > 0 {
      Smaller(n, top, n - 1);
      Smaller(n - 1, top - 1, top);
    }
  }

  lemma Smaller(a: nat, b: nat, c: nat)
    requires a <= b
    ensures a * c <= b * c && c * a <= c * b
  {
  }

  lemma PairCountBound(n: nat)
    ensures n <= 32 ==> PairCount(n) <= 992
    ensures n <= MAX_LOCKS ==> PairCount(n) <= 1122
  {
    PairCountClosed(n);
    if n <= 32 {
      ProductBound(n, 32);
    } else if n <= MAX_LOCKS {
      ProductBound(n, MAX_LOCKS);
    }
  }

  lemma {:induction false} AllPairsSize(locks: set<LockId>)
    ensures |AllPairs(locks)| == PairCount(|locks|)
  {
    if locks == {} {
      assert AllPairs(locks) == {};
    } else {
      var x :| x in locks;
      var rest := locks - {x};
      AllPairsSize(rest);
      AllPairsSplit(rest, x);
      assert locks == rest + {x};
    }
  }

  lemma AllPairsParts(rest: set<LockId>, x: LockId)
    requires x !in rest
    ensures AllPairs(rest + {x}) == AllPairs(rest) + Outs(x, rest) + Ins(x, rest)
  {
    forall e
      ensures e in AllPairs(rest + {x}) <==> e in AllPairs(rest) + Outs(x, rest) + Ins(x, rest)
    {
      assert e == Edge(e.from, e.to);
    }
  }

  lemma PartsDisjoint(rest: set<LockId>, x: LockId)
    requires x !in rest
    ensures AllPairs(rest) !! Outs(x, rest) && AllPairs(rest) + Outs(x, rest) !! Ins(x, rest)
  {
  }

  lemma UnionSize<T>(a: set<T>, b: set<T>, c: set<T>)
    requires a !! b && a + b !! c
    ensures |a + b + c| == |a| + |b| + |c|
  {
  }

  lemma AllPairsSplit(rest: set<LockId>, x: LockId)
    requires x !in rest
    ensures |AllPairs(rest + {x})| == |AllPairs(rest)| + 2 * |rest|
  {
    StarSize(x, rest);
    AllPairsParts(rest, x);
    PartsDisjoint(rest, x);
    UnionSize(AllPairs(rest), Outs(x, rest), Ins(x, rest));
  }

  lemma {:induction false} StarSize(x: LockId, rest: set<LockId>)
    requires x !in rest
    ensures |Outs(x, rest)| == |rest| == |Ins(x, rest)|
  {
    if rest != {} {
      var y :| y in rest;
      StarSize(x, rest - {y});
      assert Outs(x, rest) == Outs(x, rest - {y}) + {Edge(x, y)};
      assert Ins(x, rest) == Ins(x, rest - {y}) + {Edge(y, x)};
    }
  }

  lemma InAllPairs(locks: set<LockId>, e: Edge)
    requires e.from in locks && e.to in locks && e.from != e.to
    ensures e in AllPairs(locks)
  {
    assert e == Edge(e.from, e.to);
  }

  lemma EdgesBound(locks: set<LockId>, edges: seq<Edge>)
    requires EdgesProper(locks, edges)
    ensures |edges| <= PairCount(|locks|)
  {
    var pairs := AllPairs(locks);
    assert |pairs| == PairCount(|locks|) by {
      AllPairsSize(locks);
    }
    forall e | e in edges
      ensures e in pairs
    {
      InAllPairs(locks, e);
    }
    DistinctBound(edges, pairs);
  }

  function Reversed(edges: seq<Edge>): (back: seq<Edge>)
    ensures |back| == |edges| && forall i :: 0 <= i < |edges| ==> back[i] == Edge(edges[i].to, edges[i].from)
  {
    seq(|edges|, i requires 0 <= i < |edges| => Edge(edges[i].to, edges[i].from))
  }

  /** In an acyclic order no edge is the reverse of another. */
  lemma NoEdgeBack(edges: seq<Edge>, e: Edge)
    requires Acyclic(edges) && e in edges
    ensures Edge(e.to, e.from) !in edges
  {
    if Edge(e.to, e.from) in edges {
      ConnectedRefl(edges, e.to);
      ConnectedRefl(edges, e.from);
      ConnectedEdge(edges, e.to, e.to, e.from, e.from);
    }
  }

  lemma BothWaysDistinct(locks: set<LockId>, edges: seq<Edge>)
    requires EdgesProper(locks, edges) && Acyclic(edges)
    ensures Distinct(edges + Reversed(edges))
  {
    var back := Reversed(edges);
    forall i, j | 0 <= i < |edges| && 0 <= j < |edges|
      ensures edges[i] != back[j] && (i < j ==> back[i] != back[j])
    {
      NoEdgeBack(edges, edges[i]);
      assert edges[j] == Edge(edges[j].from, edges[j].to) && edges[i] == Edge(edges[i].from, edges[i].to);
      assert i < j ==> edges[i] != edges[j];
    }
  }

  /** An acyclic order uses at most every other pair of locks. */
  lemma AcyclicBound(locks: set<LockId>, edges: seq<Edge>)
    requires EdgesProper(locks, edges) && Acyclic(edges)
    ensures 2 * |edges| <= PairCount(|locks|)
  {
    AllPairsSize(locks);
    BothWaysDistinct(locks, edges);
    BothWaysPairs(locks, edges);
    DistinctBound(edges + Reversed(edges), AllPairs(locks));
  }

  lemma BothWaysPairs(locks: set<LockId>, edges: seq<Edge>)
    requires EdgesProper(locks, edges)
    ensures forall e :: e in edges + Reversed(edges) ==> e in AllPairs(locks)
  {
    forall e | e in edges + Reversed(edges)
      ensures e in AllPairs(locks)
    {
      var i :| 0 <= i < |edges| && (e == edges[i] || e == Reversed(edges)[i]);
      assert edges[i] in edges;
      InAllPairs(locks, e);
    }
  }

  // -------------------------------------------------------------- invariants

  /** Inversions are exactly cycles, and up to the first one nothing is dropped. */
  ghost predicate RegistryInv(locks: set<LockId>, reg: Registry) {
    && EdgesProper(locks, reg.edges)
    && reg.violations == reg.reentrancy + reg.inversion
    && (reg.inversion == 0 <==> Acyclic(reg.edges))
    && (reg.inversion == 0 ==> reg.edgesDropped == 0)
  }

  ghost predicate HeldWithin(locks: set<LockId>, held: seq<LockId>) {
    forall x :: x in held ==> x in locks
  }

  /** While no re-entrancy was seen, the held list covers what the thread owns. */
  ghost predicate ThreadInv(edges: seq<Edge>, th: Thread) {
    Distinct(th.held) &&
    (forall h :: h in th.owned ==> h.lock in th.held && th.owned[h] == 1) &&
    (forall h, k :: h in th.owned && k in th.owned && h.lock == k.lock ==> h == k) &&
    (th.phase.Waiting? || th.phase.Trying? ==>
       th.phase.hold.lock in th.held && !Owns(th, th.phase.hold.lock) &&
       forall x :: x in th.held && x != th.phase.hold.lock ==> Edge(x, th.phase.hold.lock) in edges) &&
    (th.phase.Releasing? ==> !Owns(th, th.phase.lock))
  }

  ghost predicate Inv(locks: set<LockId>, s: State) {
    RegistryInv(locks, s.reg) &&
    (forall t :: t in s.threads ==> HeldWithin(locks, s.threads[t].held)) &&
    (s.reg.reentrancy == 0 && s.reg.edgesDropped == 0 ==>
       forall t :: t in s.threads ==> ThreadInv(s.reg.edges, s.threads[t]))
  }

  lemma ProperGrows(locks: set<LockId>, edges: seq<Edge>, e: Edge)
    requires EdgesProper(locks, edges) && e.from in locks && e.to in locks && e.from != e.to && e !in edges
    ensures EdgesProper(locks, edges + [e])
  {
  }

  lemma RoomWhileAcyclic(locks: set<LockId>, edges: seq<Edge>)
    requires |locks| <= MAX_LOCKS && EdgesProper(locks, edges) && Acyclic(edges)
    ensures |edges| < MAX_EDGES
  {
    AcyclicBound(locks, edges);
    PairCountBound(|locks|);
  }

  lemma AuditHeldKeeps(locks: set<LockId>, reg: Registry, held: LockId, id: LockId)
    requires |locks| <= MAX_LOCKS && held in locks && id in locks && held != id
    requires RegistryInv(locks, reg)
    ensures RegistryInv(locks, AuditHeld(reg, held, id))
  {
    var e := Edge(held, id);
    ReachesExact(reg.edges, locks, id, held);
    AcyclicAfterAdd(reg.edges, e);
    if Acyclic(reg.edges) {
      RoomWhileAcyclic(locks, reg.edges);
    }
    if e !in reg.edges {
      ProperGrows(locks, reg.edges, e);
    }
  }

  /** Auditing a whole held list: the invariant stays, and nothing is ever un-recorded. */
  lemma {:induction false} AuditAllKeeps(locks: set<LockId>, reg: Registry, held: seq<LockId>, id: LockId)
    requires |locks| <= MAX_LOCKS && HeldWithin(locks, held) && id in locks && id !in held
    requires RegistryInv(locks, reg)
    ensures RegistryInv(locks, AuditAll(reg, held, id))
  {
    if held != [] {
      var before, last := held[..|held| - 1], held[|held| - 1];
      assert forall x :: x in before ==> x in held;
      AuditAllKeeps(locks, reg, before, id);
      AuditHeldKeeps(locks, AuditAll(reg, before, id), last, id);
    }
  }

  ghost predicate Records(reg: Registry, after: Registry, held: seq<LockId>, id: LockId) {
    && after.edgesDropped >= reg.edgesDropped
    && after.inversion >= reg.inversion
    && after.reentrancy == reg.reentrancy
    && (forall e :: e in reg.edges ==> e in after.edges)
    && (after.edgesDropped == 0 ==> forall x :: x in held ==> Edge(x, id) in after.edges)
  }

  lemma AuditHeldRecords(reg: Registry, before: seq<LockId>, mid: Registry, last: LockId, id: LockId)
    requires Records(reg, mid, before, id)
    ensures Records(reg, AuditHeld(mid, last, id), before + [last], id)
  {
    var after := AuditHeld(mid, last, id);
    assert forall e :: e in mid.edges ==> e in after.edges;
    assert after.edgesDropped == 0 ==> Edge(last, id) in after.edges;
  }

  lemma {:induction false} AuditAllRecords(reg: Registry, held: seq<LockId>, id: LockId)
    ensures Records(reg, AuditAll(reg, held, id), held, id)
  {
    if held != [] {
      var before, last := held[..|held| - 1], held[|held| - 1];
      AuditAllRecords(reg, before, id);
      AuditHeldRecords(reg, before, AuditAll(reg, before, id), last, id);
      assert held == before + [last];
    }
  }

  lemma {:induction false} PoppedFacts(held: seq<LockId>, id: LockId)
    requires Distinct(held)
    ensures Distinct(Popped(held, id))
    ensures forall x :: x in Popped(held, id) <==> x in held && x != id
  {
    if held != [] {
      var before, last := held[..|held| - 1], held[|held| - 1];
      assert held == before + [last];
      assert last !in before;
      PoppedFacts(before, id);
    }
  }

  lemma {:induction false} PoppedWithin(held: seq<LockId>, id: LockId)
    ensures forall x :: x in Popped(held, id) ==> x in held
  {
    if held != [] {
      PoppedWithin(held[..|held| - 1], id);
    }
  }

  lemma BeginKeepsThread(locks: set<LockId>, reg: Registry, th: Thread, hold: Hold, blocking: bool)
    requires |locks| <= MAX_LOCKS && HeldWithin(locks, th.held) && hold.lock in locks
    requires th.phase == Running && hold.lock !in th.held
    requires ThreadInv(reg.edges, th)
    requires AuditAll(reg, th.held, hold.lock).edgesDropped == 0
    ensures ThreadInv(AuditAll(reg, th.held, hold.lock).edges, ThreadAfter(th, Begin(0, hold, blocking)))
  {
    AuditAllRecords(reg, th.held, hold.lock);
    DistinctBound(th.held, locks);
    assert Pushed(th.held, hold.lock) == th.held + [hold.lock];
  }

  lemma HoldOwns(th: Thread, h: Hold)
    requires h in th.owned
    ensures Owns(th, h.lock)
  {
    match h
    case Hold(_, Shared) =>
    case Hold(_, Exclusive) =>
  }

  /** What a thread owns is not what it does not own. */
  lemma OthersOwned(th: Thread, lock: LockId)
    requires !Owns(th, lock)
    ensures forall h :: h in th.owned ==> h.lock != lock
  {
    forall h | h in th.owned
      ensures h.lock != lock
    {
      HoldOwns(th, h);
    }
  }

  lemma UnlockKeepsThread(edges: seq<Edge>, th: Thread, t: ThreadId, hold: Hold)
    requires ThreadInv(edges, th) && th.phase == Running && hold in th.owned
    ensures ThreadInv(edges, ThreadAfter(th, Unlock(t, hold)))
  {
    var after := ThreadAfter(th, Unlock(t, hold));
    forall h | h in after.owned
      ensures h in th.owned && h.lock != hold.lock && after.owned[h] == 1
    {
    }
  }

  lemma StepKeepsThread(edges: seq<Edge>, th: Thread, step: Step)
    requires ThreadInv(edges, th) && !step.Begin?
    requires step.Unlock? ==> th.phase == Running && step.hold in th.owned
    ensures ThreadInv(edges, ThreadAfter(th, step))
  {
    match step
    case Acquire(_) =>
      if th.phase.Waiting? || th.phase.Trying? {
        OthersOwned(th, th.phase.hold.lock);
      }
    case GiveUp(_) =>
      if th.phase.Trying? {
        PoppedFacts(th.held, th.phase.hold.lock);
        OthersOwned(th, th.phase.hold.lock);
      }
    case Unlock(t, hold) => UnlockKeepsThread(edges, th, t, hold);
    case Forget(_) =>
      if th.phase.Releasing? {
        PoppedFacts(th.held, th.phase.lock);
        OthersOwned(th, th.phase.lock);
      }
  }

  lemma StepKeepsHeld(locks: set<LockId>, th: Thread, step: Step)
    requires HeldWithin(locks, th.held) && (step.Begin? ==> step.hold.lock in locks)
    ensures HeldWithin(locks, ThreadAfter(th, step).held)
  {
    if th.phase.Trying? { PoppedWithin(th.held, th.phase.hold.lock); }
    if th.phase.Releasing? { PoppedWithin(th.held, th.phase.lock); }
  }

  lemma StepKeeps(locks: set<LockId>, s: State, step: Step)
    requires |locks| <= MAX_LOCKS && Inv(locks, s) && Enabled(locks, s, step)
    ensures Inv(locks, Do(s, step))
  {
    var s' := Do(s, step);
    var th := s.threads[step.t];
    StepKeepsHeld(locks, th, step);
    if step.Begin? && step.hold.lock !in th.held {
      AuditAllKeeps(locks, s.reg, th.held, step.hold.lock);
      AuditAllRecords(s.reg, th.held, step.hold.lock);
    }
    assert RegistryInv(locks, s'.reg);
    if s'.reg.reentrancy == 0 && s'.reg.edgesDropped == 0 {
      forall t | t in s'.threads
        ensures ThreadInv(s'.reg.edges, s'.threads[t])
      {
        assert ThreadInv(s.reg.edges, s.threads[t]);
        if t == step.t {
          if step.Begin? {
            BeginKeepsThread(locks, s.reg, th, step.hold, step.blocking);
          } else {
            StepKeepsThread(s.reg.edges, th, step);
          }
        }
      }
    }
  }

  lemma {:induction false} RunKeeps(locks: set<LockId>, run: seq<State>, i: nat)
    requires |locks| <= MAX_LOCKS && IsRun(locks, run) && i < |run|
    ensures Inv(locks, run[i])
  {
    if i > 0 {
      RunKeeps(locks, run, i - 1);
      assert Next(locks, run[i - 1], run[i - 1 + 1]);
      var step :| Enabled(locks, run[i - 1], step) && run[i] == Do(run[i - 1], step);
      StepKeeps(locks, run[i - 1], step);
    }
  }

  // ------------------------------------------------------------ main results

  /**
   In every interleaving over at most 34 locks the audit counts an order inversion if
   and only if the recorded order has a cycle.
   */
  lemma InversionExact(locks: set<LockId>, run: seq<State>)
    requires |locks| <= MAX_LOCKS && IsRun(locks, run)
    ensures Last(run).reg.inversion > 0 <==> !Acyclic(Last(run).reg.edges)
  {
    RunKeeps(locks, run, |run| - 1);
  }

  /** The locks along a wait ring follow one another in the recorded order. */
  lemma {:induction false} RingIsPath(s: State, ring: seq<ThreadId>, i: nat)
    requires forall t :: t in s.threads ==> ThreadInv(s.reg.edges, s.threads[t])
    requires IsWaitRing(s, ring) && i < |ring|
    ensures Connected(s.reg.edges, s.threads[ring[0]].phase.hold.lock, s.threads[ring[i]].phase.hold.lock)
  {
    var first := s.threads[ring[0]].phase.hold.lock;
    ConnectedRefl(s.reg.edges, first);
    if i > 0 {
      RingIsPath(s, ring, i - 1);
      RingEdge(s, ring, i - 1);
      var last := s.threads[ring[i]].phase.hold.lock;
      ConnectedRefl(s.reg.edges, last);
      ConnectedEdge(s.reg.edges, first, s.threads[ring[i - 1]].phase.hold.lock, last, last);
    }
  }

  lemma RingEdge(s: State, ring: seq<ThreadId>, i: nat)
    requires forall t :: t in s.threads ==> ThreadInv(s.reg.edges, s.threads[t])
    requires IsWaitRing(s, ring) && i < |ring|
    ensures
      var u := if i + 1 < |ring| then ring[i + 1] else ring[0];
      u in s.threads && s.threads[u].phase.Waiting? &&
      Edge(s.threads[ring[i]].phase.hold.lock, s.threads[u].phase.hold.lock) in s.reg.edges
  {
    var j := if i + 1 < |ring| then i + 1 else 0;
    var u := ring[j];
    assert ring[i] in s.threads;
    var wanted := s.threads[ring[i]].phase.hold.lock;
    assert Owns(s.threads[u], wanted);
    assert ThreadInv(s.reg.edges, s.threads[u]);
  }

  /**
   Zero recorded violations mean that no edge was dropped and that no set of threads
   is in a circular wait, in any interleaving over at most 34 locks.
   */
  lemma NoCircularWait(locks: set<LockId>, run: seq<State>)
    requires |locks| <= MAX_LOCKS && IsRun(locks, run) && Last(run).reg.violations == 0
    ensures Acyclic(Last(run).reg.edges) && Last(run).reg.edgesDropped == 0
    ensures !CircularWait(Last(run))
  {
    RunKeeps(locks, run, |run| - 1);
    var end := Last(run);
    if CircularWait(end) {
      var ring :| IsWaitRing(end, ring);
      RingIsPath(end, ring, |ring| - 1);
      RingEdge(end, ring, |ring| - 1);
      assert false;
    }
  }

  // ----------------------------------------------------- edge table capacity

  lemma {:induction false} AuditAllProper(locks: set<LockId>, reg: Registry, held: seq<LockId>, id: LockId)
    requires |locks| <= 32 && HeldWithin(locks, held) && id in locks && id !in held
    requires EdgesProper(locks, reg.edges) && reg.edgesDropped == 0
    ensures EdgesProper(locks, AuditAll(reg, held, id).edges) && AuditAll(reg, held, id).edgesDropped == 0
  {
    if held != [] {
      var before := held[..|held| - 1];
      AuditAllProper(locks, reg, before, id);
      var mid := AuditAll(reg, before, id);
      EdgesBound(locks, mid.edges);
      PairCountBound(|locks|);
    }
  }

  ghost predicate ProperState(locks: set<LockId>, s: State) {
    EdgesProper(locks, s.reg.edges) && s.reg.edgesDropped == 0 &&
    forall t :: t in s.threads ==> HeldWithin(locks, s.threads[t].held)
  }

  lemma {:induction false} RunProper(locks: set<LockId>, run: seq<State>, i: nat)
    requires |locks| <= 32 && IsRun(locks, run) && i < |run|
    ensures ProperState(locks, run[i])
  {
    if i > 0 {
      RunProper(locks, run, i - 1);
      var mid := run[i - 1];
      assert Next(locks, run[i - 1], run[i - 1 + 1]);
      var step :| Enabled(locks, mid, step) && run[i] == Do(mid, step);
      var th := mid.threads[step.t];
      StepKeepsHeld(locks, th, step);
      if step.Begin? && step.hold.lock !in th.held {
        AuditAllProper(locks, mid.reg, th.held, step.hold.lock);
      }
    }
  }

  /** With at most 32 locks the edge table cannot overflow, whatever was violated. */
  lemma NothingDropped(locks: set<LockId>, run: seq<State>)
    requires |locks| <= 32 && IsRun(locks, run)
    ensures Last(run).reg.edgesDropped == 0
  {
    RunProper(locks, run, |run| - 1);
  }
}
