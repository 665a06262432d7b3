/**
 What the registry knows of each link: when it was first seen, and how much evidence came
 for it since, over any run of observations and announcements.

 Main result: `CountedExactly`, with `SinceExactly` for what it counts from.
 */
module LinkCounts {
  import opened Optional
  import opened Evidence
  import opened LinkGenerations

  predicate IsEvidence(op: Op, link: LinkId) { op.Observed? && op.link == link }

  /** What one operation does to the entry of one link that is registered afterwards. */
  ghost predicate EntryAfter(r: Registry, r': Registry, op: Op, link: LinkId)
    requires link in r'.links
  {
    var counted := if IsEvidence(op, link) then 1 else 0;
    if link in r.links
    then r'.links[link].first == r.links[link].first && r'.links[link].evidence == r.links[link].evidence + counted
    else Names(op, link.id, link.generation) && r'.links[link].first == op.at && r'.links[link].evidence == counted
  }

  lemma AdvanceEntry(b: Bounds, r: Registry, id: nat, generation: nat, at: Stamp, link: LinkId)
    requires link in Advance(b, r, id, generation, at).links
    ensures
      var r' := Advance(b, r, id, generation, at);
      if link in r.links && !(link == LinkId(id, generation) && r' != r)
      then r'.links[link].first == r.links[link].first && r'.links[link].evidence == r.links[link].evidence
      else link == LinkId(id, generation) && (link !in r.links ==> r'.links[link] == LinkState(at, 0, None))
  {
  }

  lemma NewNotRegistered(b: Bounds, r: Registry, id: nat, generation: nat, at: Stamp)
    requires Inv(b, r) && Advance(b, r, id, generation, at) != r
    ensures LinkId(id, generation) !in r.links
  {
    assert forall k :: k in r.links ==> MarkedRight(r.current, k, r.links[k]);
  }

  lemma NoteEntry(r: Registry, link: LinkId, at: Stamp, other: LinkId)
    requires other in NoteEvidence(r, link, at).links
    ensures
      var r' := NoteEvidence(r, link, at);
      var counted := if other == link then 1 else 0;
      if other in r.links
      then && r'.links[other].first == r.links[other].first
           && r'.links[other].evidence == r.links[other].evidence + counted
      else other == link && r'.links[other].first == at && r'.links[other].evidence == 1
  {
  }

  lemma ObserveEntry(b: Bounds, r: Registry, seen: LinkId, at: Stamp, link: LinkId)
    requires Inv(b, r) && link in Observe(b, r, seen, at).links
    ensures EntryAfter(r, Observe(b, r, seen, at), Observed(seen, at), link)
  {
    if ObserveStatus(b, r, seen) != Ok {
      RegisteredFits(b, r, link);
    } else if seen.id !in r.current {
      FirstEntry(b, r, seen, at, link);
    } else if seen.generation > r.current[seen.id] {
      var mid := Advance(b, r, seen.id, seen.generation, at);
      NewNotRegistered(b, r, seen.id, seen.generation, at);
      AdvanceEntry(b, r, seen.id, seen.generation, at, link);
      NoteEntry(mid, seen, at, link);
    } else {
      NoteEntry(r, seen, at, link);
    }
  }

  /** A registered link is never turned away. */
  lemma RegisteredFits(b: Bounds, r: Registry, link: LinkId)
    requires Inv(b, r) && link in r.links
    ensures ObserveStatus(b, r, link) == Ok
  {
    assert MarkedRight(r.current, link, r.links[link]);
  }

  lemma FirstEntry(b: Bounds, r: Registry, seen: LinkId, at: Stamp, link: LinkId)
    requires Inv(b, r) && seen.id !in r.current && ObserveStatus(b, r, seen) == Ok
    requires link in Observe(b, r, seen, at).links
    ensures EntryAfter(r, Observe(b, r, seen, at), Observed(seen, at), link)
  {
    FirstShape(b, r, seen, at);
    assert forall k :: k in r.links ==> MarkedRight(r.current, k, r.links[k]);
  }

  lemma StepEntry(b: Bounds, r: Registry, op: Op, link: LinkId)
    requires Inv(b, r) && link in Do(b, r, op).links
    ensures EntryAfter(r, Do(b, r, op), op, link)
  {
    match op
    case Observed(seen, at) => ObserveEntry(b, r, seen, at, link);
    case Advanced(id, generation, at) =>
      AdvanceEntry(b, r, id, generation, at, link);
      if Advance(b, r, id, generation, at) != r {
        NewNotRegistered(b, r, id, generation, at);
      }
    case TakeEvicted =>
  }

  // -------------------------------------------------------------------- over runs

  /** The operation that registered the link, the last time it was registered. */
  ghost function Since(b: Bounds, ops: seq<Op>, link: LinkId): (i: nat)
    requires link in Run(b, ops).links
    ensures i < |ops|
  {
    var n := |ops| - 1;
    if link !in Run(b, ops[..n]).links then n else Since(b, ops[..n], link)
  }

  /** Before that operation the link was not registered; from then on it was. */
  lemma {:induction false} SinceExactly(b: Bounds, ops: seq<Op>, link: LinkId, k: nat)
    requires link in Run(b, ops).links && k <= |ops|
    ensures
      var i := Since(b, ops, link);
      (k == i ==> link !in Run(b, ops[..k]).links) && (k > i ==> link in Run(b, ops[..k]).links)
  {
    var n := |ops| - 1;
    if k == n + 1 {
      assert ops[..k] == ops;
    } else if link in Run(b, ops[..n]).links {
      assert ops[..n][..k] == ops[..k];
      SinceExactly(b, ops[..n], link, k);
    }
  }

  /** How much evidence for the link there is from an operation on. */
  function EvidenceFrom(ops: seq<Op>, i: nat, link: LinkId): nat {
    if |ops| <= i then 0
    else EvidenceFrom(ops[..|ops| - 1], i, link) + (if IsEvidence(ops[|ops| - 1], link) then 1 else 0)
  }

  /**
   Every registered link is stamped with the operation that registered it, and counts
   exactly the evidence for it from that operation on.
   */
  lemma {:induction false} CountedExactly(b: Bounds, ops: seq<Op>, link: LinkId)
    requires ValidBounds(b) && link in Run(b, ops).links
    ensures
      var i, state := Since(b, ops, link), Run(b, ops).links[link];
      && Names(ops[i], link.id, link.generation) && state.first == ops[i].at
      && state.evidence == EvidenceFrom(ops, i, link)
  {
    var n := |ops| - 1;
    var front := ops[..n];
    RunKeeps(b, front);
    StepEntry(b, Run(b, front), ops[n], link);
    if link in Run(b, front).links {
      CountedExactly(b, front, link);
    } else {
      assert EvidenceFrom(front, n, link) == 0;
    }
  }
}
