/**
 Severity: a policy's ranking of quality states, and the roll-ups that report the worst.

 Main results: `TotalOrderIsPermutation`, `WorstIndependentOfOrder`,
 `MissingLaneShows`, `DefaultHealthyExactly` and `DefaultWorst`.
 */
module Severity {
  datatype Quality =
    | Unknown | Unsupported | Healthy | Incomplete | Stale | Marginal | Degraded | Severe | Conflicting

  const STATES := 9

  function Index(q: Quality): (i: nat)
    ensures i < STATES
  {
    match q
    case Unknown => 0
    case Unsupported => 1
    case Healthy => 2
    case Incomplete => 3
    case Stale => 4
    case Marginal => 5
    case Degraded => 6
    case Severe => 7
    case Conflicting => 8
  }

  lemma IndexInjective(p: Quality, q: Quality)
    requires Index(p) == Index(q)
    ensures p == q
  {
  }

  // The rank of every state, by index.
  type Table = t: seq<nat> | |t| == STATES witness [0, 1, 2, 3, 4, 5, 6, 7, 8]

  function Of(t: Table, q: Quality): nat { t[Index(q)] }

  function Worst(t: Table, p: Quality, q: Quality): Quality { if Of(t, p) >= Of(t, q) then p else q }

  const Defaults: Table := [0, 1, 2, 3, 4, 5, 6, 7, 8]

  /** Every rank in range and none given twice. */
  ghost predicate TotalOrder(t: Table) {
    (forall i :: 0 <= i < STATES ==> t[i] < STATES) &&
    (forall i, j :: 0 <= i < j < STATES ==> t[i] != t[j])
  }

  method IsTotalOrder(t: Table) returns (ok: bool)
    ensures ok <==> TotalOrder(t)
  {
    var seen := new bool[STATES](_ => false);
    for i := 0 to STATES
      invariant forall j :: 0 <= j < i ==> t[j] < STATES && seen[t[j]]
      invariant forall v :: 0 <= v < STATES && seen[v] ==> v in t[..i]
      invariant forall j, k :: 0 <= j < k < i ==> t[j] != t[k]
    {
      if t[i] >= STATES {
        return false;
      }
      if seen[t[i]] {
        assert t[i] in t[..i];
        return false;
      }
      seen[t[i]] := true;
      assert t[..i + 1] == t[..i] + [t[i]];
    }
    return true;
  }

  function Below(n: nat): (all: set<nat>)
    ensures |all| == n && forall v: nat :: v in all <==> v < n
  {
    if n == 0 then {} else Below(n - 1) + {n - 1}
  }

  function Elements(xs: seq<nat>): (all: set<nat>)
    ensures forall v :: v in all <==> v in xs
  {
    if xs == [] then {} else
      assert xs == xs[..|xs| - 1] + [xs[|xs| - 1]];
      Elements(xs[..|xs| - 1]) + {xs[|xs| - 1]}
  }

  lemma {:induction false} DistinctCount(xs: seq<nat>)
    requires forall i, j :: 0 <= i < j < |xs| ==> xs[i] != xs[j]
    ensures |Elements(xs)| == |xs|
  {
    if xs != [] {
      var n := |xs| - 1;
      assert forall i :: 0 <= i < n ==> xs[i] != xs[n];
      assert xs[n] !in xs[..n];
      DistinctCount(xs[..n]);
    }
  }

  lemma DistinctFill(xs: seq<nat>, n: nat)
    requires |xs| == n && (forall i :: 0 <= i < n ==> xs[i] < n) && (forall i, j :: 0 <= i < j < n ==> xs[i] != xs[j])
    ensures forall v :: 0 <= v < n ==> v in xs
  {
    DistinctCount(xs);
    SubsetFull(Elements(xs), Below(n));
    assert forall v :: v in Below(n) ==> v in Elements(xs);
  }

  lemma {:induction false} SubsetFull<T>(a: set<T>, b: set<T>)
    requires a <= b && |a| == |b|
    ensures a == b
    decreases |a|
  {
    if a == {} {
      assert b == {};
    } else {
      var x :| x in a;
      SubsetFull(a - {x}, b - {x});
      assert a == (a - {x}) + {x} && b == (b - {x}) + {x};
    }
  }

  /** An accepted table hands out every rank exactly once, so no two states tie. */
  lemma TotalOrderIsPermutation(t: Table)
    requires TotalOrder(t)
    ensures forall v :: 0 <= v < STATES ==> v in t
    ensures forall p, q :: Of(t, p) == Of(t, q) ==> p == q
  {
    DistinctFill(t, STATES);
    forall p, q | Of(t, p) == Of(t, q)
      ensures p == q
    {
      IndexInjective(p, q);
    }
  }

  // ------------------------------------------------------------------ roll-ups

  ghost predicate IsWorst(t: Table, states: seq<Quality>, w: Quality) {
    w in states && forall q :: q in states ==> Of(t, q) <= Of(t, w)
  }

  /** The lane roll-up: a strictly worse lane replaces the worst so far. */
  method WorstLane(t: Table, lanes: seq<Quality>) returns (worst: Quality)
    requires lanes != []
    ensures IsWorst(t, lanes, worst)
  {
    worst := lanes[0];
    for i := 0 to |lanes|
      invariant worst in lanes && forall j :: 0 <= j < i ==> Of(t, lanes[j]) <= Of(t, worst)
    {
      if Of(t, lanes[i]) > Of(t, worst) {
        worst := lanes[i];
      }
    }
  }

  /** The roll-up over metrics, pairwise. */
  method WorstMetric(t: Table, metrics: seq<Quality>) returns (overall: Quality)
    ensures metrics == [] ==> overall == Unknown
    ensures metrics != [] ==> IsWorst(t, metrics, overall)
  {
    overall := Unknown;
    var first := true;
    for i := 0 to |metrics|
      invariant first <==> i == 0
      invariant i == 0 ==> overall == Unknown
      invariant i > 0 ==> overall in metrics[..i] && forall j :: 0 <= j < i ==> Of(t, metrics[j]) <= Of(t, overall)
    {
      assert metrics[..i + 1] == metrics[..i] + [metrics[i]];
      if first {
        overall, first := metrics[i], false;
      } else {
        overall := Worst(t, overall, metrics[i]);
      }
    }
    assert metrics[..|metrics|] == metrics;
  }

  /** Both roll-ups agree, on any arrangement of the same states. */
  lemma {:induction false} WorstIndependentOfOrder(t: Table, a: seq<Quality>, b: seq<Quality>, v: Quality, w: Quality)
    requires TotalOrder(t) && (forall q :: q in a <==> q in b) && IsWorst(t, a, v) && IsWorst(t, b, w)
    ensures v == w
  {
    TotalOrderIsPermutation(t);
  }

  // ------------------------------------------------------------------ missing lanes

  predicate Missing(q: Quality) { q == Unsupported || q == Unknown }

  /** An aggregate over lanes: the worst of them, and no better than Incomplete if one is missing. */
  method AggregateLanes(t: Table, lanes: seq<Quality>) returns (state: Quality)
    requires lanes != []
    ensures exists worst :: IsAggregate(t, lanes, worst, state)
  {
    var worst := WorstLane(t, lanes);
    var missing := false;
    for i := 0 to |lanes|
      invariant missing <==> exists j :: 0 <= j < i && Missing(lanes[j])
    {
      if Missing(lanes[i]) {
        missing := true;
      }
    }
    state := if missing then Worst(t, worst, Incomplete) else worst;
    assert missing <==> AnyMissing(lanes);
    assert IsAggregate(t, lanes, worst, state);
  }

  ghost predicate AnyMissing(lanes: seq<Quality>) { exists i :: 0 <= i < |lanes| && Missing(lanes[i]) }

  ghost predicate IsAggregate(t: Table, lanes: seq<Quality>, worst: Quality, state: Quality) {
    IsWorst(t, lanes, worst) && state == if AnyMissing(lanes) then Worst(t, worst, Incomplete) else worst
  }

  /** A missing lane can never hide behind a better one. */
  lemma {:induction false} MissingLaneShows(t: Table, lanes: seq<Quality>, worst: Quality, state: Quality)
    requires IsAggregate(t, lanes, worst, state)
    ensures AnyMissing(lanes) ==> Of(t, state) >= Of(t, Incomplete)
    ensures forall q :: q in lanes ==> Of(t, q) <= Of(t, state)
    ensures state in lanes || state == Incomplete
  {
  }

  /** Under the default table an aggregate is Healthy exactly when every lane is. */
  lemma {:induction false} DefaultHealthyExactly(lanes: seq<Quality>, worst: Quality, state: Quality)
    requires IsAggregate(Defaults, lanes, worst, state)
    ensures state == Healthy <==> forall i :: 0 <= i < |lanes| ==> lanes[i] == Healthy
  {
    if state == Healthy {
      forall i | 0 <= i < |lanes|
        ensures lanes[i] == Healthy
      {
        assert lanes[i] in lanes;
        assert !Missing(lanes[i]);
      }
    } else if forall i :: 0 <= i < |lanes| ==> lanes[i] == Healthy {
      assert worst == Healthy;
    }
  }

  // From the least to the most severe.
  const BY_DEFAULT := [Unknown, Unsupported, Healthy, Incomplete, Stale, Marginal, Degraded, Severe, Conflicting]

  /** The default table ranks every state apart, and no roll-up reports one while a later one of this list is there. */
  lemma DefaultWorst(states: seq<Quality>, worst: Quality, i: nat, j: nat)
    requires IsWorst(Defaults, states, worst) && i < j < STATES && BY_DEFAULT[j] in states
    ensures TotalOrder(Defaults) && worst != BY_DEFAULT[i]
  {
    assert Of(Defaults, BY_DEFAULT[i]) == i && Of(Defaults, BY_DEFAULT[j]) == j;
  }
}
