/**
 Where the lock audit stops being sound. With 35 locks the depth bound of the
 search hides the path that closes the cycle: 35 threads that each own one lock
 and wait for the next deadlock without a single recorded violation.

 Together with LockAudit.NoCircularWait this gives the exact bound.
 */
module LockRing {
  import opened LockGraph
  import opened LockAudit

  const RING := MAX_LOCKS + 1

  /** Every run over these locks with a clean report is free of circular waits. */
  ghost predicate AuditSound(locks: set<LockId>) {
    forall run :: IsRun(locks, run) && Last(run).reg.violations == 0 ==> !CircularWait(Last(run))
  }

  lemma NextBy(locks: set<LockId>, s: State, step: Step)
    requires Enabled(locks, s, step)
    ensures Next(locks, s, Do(s, step))
  {
  }

  lemma ExtendRun(locks: set<LockId>, run: seq<State>, s: State)
    requires IsRun(locks, run) && Next(locks, Last(run), s)
    ensures IsRun(locks, run + [s]) && Last(run + [s]) == s
  {
  }

  // The ring of locks as it is used: thread i owns ring[i] and asks for the next one.
  ghost predicate IsRing(locks: set<LockId>, ring: seq<LockId>) {
    |ring| == RING && Distinct(ring) && forall x :: x in ring ==> x in locks
  }

  function Mine(ring: seq<LockId>, i: nat): Hold
    requires |ring| == RING && i < RING
  {
    Hold(ring[i], Exclusive)
  }

  function Want(ring: seq<LockId>, i: nat): Hold
    requires |ring| == RING && i < RING
  {
    Hold(if i + 1 < RING then ring[i + 1] else ring[0], Exclusive)
  }

  function Idle(): Thread { Thread([], multiset{}, Running) }

  function Owner(ring: seq<LockId>, i: nat): Thread
    requires |ring| == RING && i < RING
  {
    Thread([ring[i]], multiset{Mine(ring, i)}, Running)
  }

  function Blocked(ring: seq<LockId>, i: nat): Thread
    requires |ring| == RING && i < RING
  {
    Thread([ring[i]] + [Want(ring, i).lock], multiset{Mine(ring, i)}, Waiting(Want(ring, i)))
  }

  function Chain(ring: seq<LockId>, k: nat): seq<Edge>
    requires |ring| == RING && k <= RING
  {
    if k == 0 then [] else Chain(ring, k - 1) + [Edge(ring[k - 1], Want(ring, k - 1).lock)]
  }

  // The first k threads own their lock.
  ghost predicate Owning(ring: seq<LockId>, k: nat, s: State)
    requires |ring| == RING && k <= RING
  {
    s.reg == EmptyRegistry &&
    (forall t: ThreadId :: t in s.threads <==> t < RING) &&
    forall t :: t in s.threads ==> s.threads[t] == if t < k then Owner(ring, t) else Idle()
  }

  // All threads own their lock and the first k wait for the next one.
  ghost predicate Blocking(ring: seq<LockId>, k: nat, s: State)
    requires |ring| == RING && k <= RING
  {
    s.reg == Registry(Chain(ring, k), 0, 0, 0, 0) &&
    (forall t: ThreadId :: t in s.threads <==> t < RING) &&
    forall t :: t in s.threads ==> s.threads[t] == if t < k then Blocked(ring, t) else Owner(ring, t)
  }

  function IdleThreads(n: nat): (threads: map<ThreadId, Thread>)
    ensures forall t: ThreadId :: t in threads <==> t < n
    ensures forall t :: t in threads ==> threads[t] == Idle()
  {
    if n == 0 then map[] else IdleThreads(n - 1)[n - 1 := Idle()]
  }

  lemma AskStep(locks: set<LockId>, ring: seq<LockId>, t: nat, s: State)
    requires IsRing(locks, ring) && t < RING && Owning(ring, t, s)
    ensures Enabled(locks, s, Begin(t, Mine(ring, t), true))
    ensures Do(s, Begin(t, Mine(ring, t), true)).reg == EmptyRegistry
    ensures ThreadAfter(s.threads[t], Begin(t, Mine(ring, t), true))
         == Thread([ring[t]], multiset{}, Waiting(Mine(ring, t)))
  {
    assert s.threads[t] == Idle();
  }

  // The state between the audit of thread t and the grant of its lock.
  function Asking(ring: seq<LockId>, t: nat, s: State): State
    requires |ring| == RING && t < RING
  {
    State(EmptyRegistry, s.threads[t := Thread([ring[t]], multiset{}, Waiting(Mine(ring, t)))])
  }

  lemma GrantEnabled(locks: set<LockId>, ring: seq<LockId>, t: nat, s: State)
    requires IsRing(locks, ring) && t < RING && Owning(ring, t, s)
    ensures Enabled(locks, Asking(ring, t, s), Acquire(t))
  {
    var asked := Asking(ring, t, s);
    forall u | u in asked.threads
      ensures !Owns(asked.threads[u], ring[t])
    {
      if u < t {
        assert asked.threads[u] == Owner(ring, u) && ring[u] != ring[t];
      }
    }
  }

  lemma GrantStep(ring: seq<LockId>, t: nat, s: State)
    requires |ring| == RING && t < RING && Owning(ring, t, s)
    ensures Owning(ring, t + 1, Do(Asking(ring, t, s), Acquire(t)))
  {
    var asked := Asking(ring, t, s);
    assert ThreadAfter(asked.threads[t], Acquire(t)) == Owner(ring, t) by {
      assert multiset{} + multiset{Mine(ring, t)} == multiset{Mine(ring, t)};
    }
  }

  lemma {:induction false} OwnRun(locks: set<LockId>, ring: seq<LockId>, start: State, k: nat)
    returns (run: seq<State>)
    requires IsRing(locks, ring) && k <= RING && Owning(ring, 0, start)
    ensures IsRun(locks, run) && Owning(ring, k, Last(run))
  {
    if k == 0 {
      run := [start];
    } else {
      var t := k - 1;
      var before := OwnRun(locks, ring, start, t);
      var s := Last(before);
      AskStep(locks, ring, t, s);
      var asked := Do(s, Begin(t, Mine(ring, t), true));
      NextBy(locks, s, Begin(t, Mine(ring, t), true));
      ExtendRun(locks, before, asked);
      assert asked == Asking(ring, t, s);
      GrantEnabled(locks, ring, t, s);
      GrantStep(ring, t, s);
      NextBy(locks, asked, Acquire(t));
      ExtendRun(locks, before + [asked], Do(asked, Acquire(t)));
      run := before + [asked] + [Do(asked, Acquire(t))];
    }
  }

  lemma {:induction false} ChainEdges(ring: seq<LockId>, k: nat, e: Edge)
    requires |ring| == RING && k <= RING
    ensures e in Chain(ring, k) <==> exists j :: 0 <= j < k && e == Edge(ring[j], Want(ring, j).lock)
  {
    if k > 0 {
      ChainEdges(ring, k - 1, e);
    }
  }

  lemma {:induction false} ChainSize(ring: seq<LockId>, k: nat)
    requires |ring| == RING && k <= RING
    ensures |Chain(ring, k)| == k
  {
    if k > 0 {
      ChainSize(ring, k - 1);
    }
  }

  lemma SameIndex(ring: seq<LockId>, i: nat, j: nat)
    requires Distinct(ring) && i < |ring| && j < |ring| && ring[i] == ring[j]
    ensures i == j
  {
  }

  /** In an open chain the only edge out of a lock leads to the next one. */
  lemma ChainNext(ring: seq<LockId>, k: nat, i: nat, to: LockId)
    requires |ring| == RING && Distinct(ring) && k < RING && i < RING && Edge(ring[i], to) in Chain(ring, k)
    ensures i < k && to == ring[i + 1]
  {
    ChainEdges(ring, k, Edge(ring[i], to));
    var j :| 0 <= j < k && Edge(ring[i], to) == Edge(ring[j], Want(ring, j).lock);
    SameIndex(ring, i, j);
  }

  /** So the only way from lock i to a later one takes all edges between them. */
  lemma {:induction false} ChainPath(ring: seq<LockId>, k: nat, p: seq<LockId>, i: nat)
    requires |ring| == RING && Distinct(ring) && k < RING
    requires i < RING && IsPath(Chain(ring, k), p) && p[0] == ring[i]
    ensures i + |p| <= RING && p[|p| - 1] == ring[i + |p| - 1]
    ensures |p| > 1 ==> i + |p| - 1 <= k
    decreases |p|
  {
    if |p| > 1 {
      assert Edge(p[0], p[0 + 1]) in Chain(ring, k);
      ChainNext(ring, k, i, p[1]);
      PathSlice(Chain(ring, k), p, 1, |p|);
      ChainPath(ring, k, p[1..|p|], i + 1);
    }
  }

  /** The wait of thread k is recorded without raising an inversion. */
  lemma ChainSilent(ring: seq<LockId>, k: nat)
    requires |ring| == RING && Distinct(ring) && k < RING
    ensures !Reaches(Chain(ring, k), Want(ring, k).lock, ring[k], 0)
    ensures Edge(ring[k], Want(ring, k).lock) !in Chain(ring, k)
  {
    if Reaches(Chain(ring, k), Want(ring, k).lock, ring[k], 0) {
      var p := ReachesSound(Chain(ring, k), Want(ring, k).lock, ring[k], 0);
      ChainPath(ring, k, p, if k + 1 < RING then k + 1 else 0);
      assert false;
    }
    ChainEdges(ring, k, Edge(ring[k], Want(ring, k).lock));
  }

  lemma WaitAudit(ring: seq<LockId>, k: nat)
    requires |ring| == RING && Distinct(ring) && k < RING
    ensures Audited(Registry(Chain(ring, k), 0, 0, 0, 0), [ring[k]], Want(ring, k).lock)
         == Registry(Chain(ring, k + 1), 0, 0, 0, 0)
  {
    var reg, held, id := Registry(Chain(ring, k), 0, 0, 0, 0), [ring[k]], Want(ring, k).lock;
    ChainSilent(ring, k);
    ChainSize(ring, k);
    assert held[..|held| - 1] == [];
    assert AuditAll(reg, [], id) == reg;
  }

  lemma WaitStep(locks: set<LockId>, ring: seq<LockId>, k: nat, s: State)
    requires IsRing(locks, ring) && k < RING && Blocking(ring, k, s)
    ensures Enabled(locks, s, Begin(k, Want(ring, k), true))
    ensures Blocking(ring, k + 1, Do(s, Begin(k, Want(ring, k), true)))
  {
    assert s.threads[k] == Owner(ring, k);
    WaitAudit(ring, k);
  }

  lemma {:induction false} WaitRun(locks: set<LockId>, ring: seq<LockId>, own: seq<State>, k: nat)
    returns (run: seq<State>)
    requires IsRing(locks, ring) && k <= RING && IsRun(locks, own) && Owning(ring, RING, Last(own))
    ensures IsRun(locks, run) && Blocking(ring, k, Last(run))
  {
    if k == 0 {
      run := own;
    } else {
      var before := WaitRun(locks, ring, own, k - 1);
      var s := Last(before);
      WaitStep(locks, ring, k - 1, s);
      NextBy(locks, s, Begin(k - 1, Want(ring, k - 1), true));
      ExtendRun(locks, before, Do(s, Begin(k - 1, Want(ring, k - 1), true)));
      run := before + [Do(s, Begin(k - 1, Want(ring, k - 1), true))];
    }
  }

  lemma RingDeadlocks(ring: seq<LockId>, s: State)
    requires |ring| == RING && Blocking(ring, RING, s)
    ensures CircularWait(s)
  {
    var threads: seq<ThreadId> := seq(RING, i => i);
    forall i, j | 0 <= i < |threads| && j == (if i + 1 < |threads| then i + 1 else 0)
      ensures s.threads[threads[i]].phase.Waiting?
      ensures Owns(s.threads[threads[j]], s.threads[threads[i]].phase.hold.lock)
    {
      assert s.threads[j] == Blocked(ring, j) && s.threads[i] == Blocked(ring, i);
    }
    assert IsWaitRing(s, threads);
  }

  ghost function Enumerate(locks: set<LockId>, n: nat): (ring: seq<LockId>)
    requires n <= |locks|
    ensures |ring| == n && Distinct(ring) && forall x :: x in ring ==> x in locks
  {
    if n == 0 then []
    else
      var x :| x in locks;
      [x] + Enumerate(locks - {x}, n - 1)
  }

  /** The audit rules circular waits out if and only if at most 34 locks are tracked. */
  lemma AuditSoundExactly(locks: set<LockId>)
    ensures AuditSound(locks) <==> |locks| <= 34
  {
    if |locks| <= MAX_LOCKS {
      forall run | IsRun(locks, run) && Last(run).reg.violations == 0
        ensures !CircularWait(Last(run))
      {
        NoCircularWait(locks, run);
      }
    } else {
      var ring := Enumerate(locks, RING);
      var start := State(EmptyRegistry, IdleThreads(RING));
      var own := OwnRun(locks, ring, start, RING);
      var run := WaitRun(locks, ring, own, RING);
      RingDeadlocks(ring, Last(run));
    }
  }
}
