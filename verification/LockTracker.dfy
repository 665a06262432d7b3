/**
 The lock audit as the program runs it: one shared registry whose tables are
 extended in place, and one held list per thread. Each operation is proved equal
 to the transition used in LockAudit.dfy.
 */
module LockTracker {
  import opened LockGraph
  import opened LockAudit

  class LockRegistry {
    var edges: seq<Edge>
    var violations: nat
    var reentrancy: nat
    var inversion: nat
    var edgesDropped: nat

    constructor ()
      ensures State() == EmptyRegistry
    {
      edges := [];
      violations, reentrancy, inversion, edgesDropped := 0, 0, 0, 0;
    }

    function State(): Registry
      reads this
    {
      Registry(edges, violations, reentrancy, inversion, edgesDropped)
    }

    // The linear scan for an edge that is already recorded.
    method IsRecorded(edge: Edge) returns (present: bool)
      ensures present <==> edge in edges
    {
      present := false;
      var i := 0;
      while i < |edges|
        invariant 0 <= i <= |edges|
        invariant !present && edge !in edges[..i]
      {
        if edges[i] == edge {
          present := true;
          break;
        }
        i := i + 1;
      }
    }

    method AuditOne(held: LockId, id: LockId)
      modifies this
      ensures State() == AuditHeld(old(State()), held, id)
    {
      if Reaches(edges, id, held, 0) {
        violations := violations + 1;
        inversion := inversion + 1;
      }
      var present := IsRecorded(Edge(held, id));
      if !present {
        if |edges| < MAX_EDGES {
          edges := edges + [Edge(held, id)];
        } else {
          edgesDropped := edgesDropped + 1;
        }
      }
    }
  }

  class HeldLocks {
    var held: seq<LockId>

    constructor ()
      ensures held == []
    {
      held := [];
    }
  }

  /** Audits the acquisition of `id`, then enters it in the caller's held list. */
  method BeforeAcquire(reg: LockRegistry, tls: HeldLocks, id: LockId)
    modifies reg, tls
    ensures reg.State() == Audited(old(reg.State()), old(tls.held), id)
    ensures tls.held == Pushed(old(tls.held), id)
  {
    var reentrant := false;
    var i := 0;
    while i < |tls.held|
      invariant 0 <= i <= |tls.held|
      invariant !reentrant && id !in tls.held[..i]
    {
      if tls.held[i] == id {
        reentrant := true;
        break;
      }
      i := i + 1;
    }
    if reentrant {
      reg.violations := reg.violations + 1;
      reg.reentrancy := reg.reentrancy + 1;
    } else {
      var index := 0;
      assert tls.held[..0] == [];
      while index < |tls.held|
        invariant 0 <= index <= |tls.held|
        invariant tls.held == old(tls.held)
        invariant reg.State() == AuditAll(old(reg.State()), tls.held[..index], id)
      {
        reg.AuditOne(tls.held[index], id);
        assert tls.held[..index + 1][..index] == tls.held[..index];
        index := index + 1;
      }
      assert tls.held[..index] == tls.held;
    }
    if |tls.held| < MAX_HELD {
      tls.held := tls.held + [id];
    }
  }

  /** Forgets the newest entry for `id`, searching from the back. */
  method AfterRelease(tls: HeldLocks, id: LockId)
    modifies tls
    ensures tls.held == Popped(old(tls.held), id)
  {
    var index := |tls.held|;
    assert tls.held[..index] == tls.held;
    while index > 0
      invariant 0 <= index <= |tls.held|
      invariant tls.held == old(tls.held)
      invariant Popped(old(tls.held), id) == Popped(tls.held[..index], id) + tls.held[index..]
    {
      var front := tls.held[..index];
      assert front[..|front| - 1] == tls.held[..index - 1];
      if tls.held[index - 1] == id {
        tls.held := tls.held[..index - 1] + tls.held[index..];
        return;
      }
      assert [tls.held[index - 1]] + tls.held[index..] == tls.held[index - 1..];
      index := index - 1;
    }
  }
}
