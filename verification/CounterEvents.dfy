/**
 What a tracker makes of a step: which claim decides the event, what it forgets and what
 it ignores, and what its tallies count over any stretch of readings.

 Main results: `FirstBreachDecides`, `OutOfRangeForgets`, `RegressedIgnored`,
 `TalliesCount`, `MissingExactly` and `IntervalExactly`.
 */
module CounterEvents {
  import opened Bytes
  import opened Optional
  import opened Counter

  // ------------------------------------------------------------- the claims in turn

  const CLAIMS := 7

  /** What a difference rests on, in the order it is checked. */
  predicate Holds(t: Tracker, r: Reading, claim: nat) {
    match claim
    case 0 => t.identityBound ==> r.incarnation == t.last.incarnation
    case 1 => t.identityBound ==> r.generation == t.last.generation
    case 2 => r.width == Bits32 ==> r.value <= 0xFFFF_FFFF
    case 3 => t.hasBaseline ==> r.width == t.last.width
    case 4 => t.hasBaseline ==> r.sequence >= t.last.sequence
    case 5 => !r.resetDeclared
    case 6 => t.hasBaseline
    case _ => true
  }

  function Breach(claim: nat): Event
    requires claim < CLAIMS
  {
    [SourceReincarnated, LinkGenerationChanged, OutOfRange, WidthChanged, SequenceRegressed, Reset, Baseline][claim]
  }

  /** The event names the first claim that fails; if none does, the readings are differenced. */
  lemma FirstBreachDecides(t: Tracker, r: Reading, cfg: Config, claim: nat)
    requires claim < CLAIMS
    ensures
      var event := Observe(t, r, cfg).event;
      && (event == Breach(claim) <==> !Holds(t, r, claim) && forall k :: 0 <= k < claim ==> Holds(t, r, k))
      && (Differences(event) <==> forall k :: 0 <= k < CLAIMS ==> Holds(t, r, k))
  {
    var held := [Holds(t, r, 0), Holds(t, r, 1), Holds(t, r, 2), Holds(t, r, 3), Holds(t, r, 4), Holds(t, r, 5),
                 Holds(t, r, 6)];
    assert forall k :: 0 <= k < CLAIMS ==> held[k] == Holds(t, r, k);
  }

  // -------------------------------------------------------- what is forgotten or ignored

  /** Across a value out of range no difference is taken. */
  lemma OutOfRangeForgets(t: Tracker, bad: Reading, r: Reading, first: Config, second: Config)
    requires !InRange(bad.value, bad.width) && Holds(t, bad, 0) && Holds(t, bad, 1)
    ensures Observe(t, bad, first).last == t.last && Observe(Observe(t, bad, first), r, second).delta == None
  {
  }

  /** A reading out of sequence changes nothing but the tallies, then and later. */
  lemma {:induction false} RegressedIgnored(t: Tracker, late: Reading, cfg: Config, later: seq<Input>)
    requires t.hasBaseline && late.sequence < t.last.sequence && forall k :: 0 <= k < 4 ==> Holds(t, late, k)
    ensures later != [] ==> Verdict(Run(Observe(t, late, cfg), later)) == Verdict(Run(t, later))
  {
    assert Holds(t, late, 0) && Holds(t, late, 1) && Holds(t, late, 2) && Holds(t, late, 3);
    if later != [] {
      SameAfter(t, Observe(t, late, cfg), later);
    }
  }

  ghost predicate SameBase(t: Tracker, u: Tracker) {
    t.hasBaseline == u.hasBaseline && t.last == u.last && t.identityBound == u.identityBound
  }

  lemma SameStep(t: Tracker, u: Tracker, r: Reading, cfg: Config)
    requires SameBase(t, u)
    ensures Verdict(Observe(t, r, cfg)) == Verdict(Observe(u, r, cfg))
  {
    assert Classify(t, r, cfg) == Classify(u, r, cfg);
  }

  lemma {:induction false} SameAfter(t: Tracker, u: Tracker, later: seq<Input>)
    requires SameBase(t, u) && later != []
    ensures Verdict(Run(t, later)) == Verdict(Run(u, later))
  {
    var n := |later| - 1;
    var front, last := later[..n], later[n];
    if n > 0 {
      SameAfter(t, u, front);
    }
    SameStep(Run(t, front), Run(u, front), last.reading, last.cfg);
  }

  // ------------------------------------------------------------------ what is missing

  /** The samples between two sequence numbers, except that the largest one repeated counts as 2^64 - 1 of them. */
  lemma MissingExactly(last: nat, sequence: nat)
    requires last <= sequence < U64
    ensures Missing(last, sequence) == (if sequence == last then 0 else sequence - last - 1)
       <==> !(last == sequence == U64 - 1)
    ensures Missing(U64 - 1, U64 - 1) == U64 - 1
  {
    if last + 1 < U64 {
      ModOf(last + 1, U64);
      if sequence > last {
        ModOf(sequence - last - 1, U64);
      }
    }
  }

  // --------------------------------------------------------------- what is counted

  /** How many steps of the stretch ended in the event. */
  function Times(t: Tracker, ins: seq<Input>, event: Event): nat {
    if ins == [] then 0
    else Times(t, ins[..|ins| - 1], event) + (if Run(t, ins).event == event then 1 else 0)
  }

  /** How many gave a delta with a gap in it. */
  function Gaps(t: Tracker, ins: seq<Input>): nat {
    if ins == [] then 0
    else
      var delta := Run(t, ins).delta;
      Gaps(t, ins[..|ins| - 1]) + (if delta.Some? && delta.value.spansGap then 1 else 0)
  }

  /** The samples missing before the steps that difference two readings. */
  function Lost(t: Tracker, ins: seq<Input>): nat {
    if ins == [] then 0
    else
      var n := |ins| - 1;
      Lost(t, ins[..n]) + (if Comparable(Run(t, ins[..n]), ins[n].reading)
                           then Missing(Run(t, ins[..n]).last.sequence, ins[n].reading.sequence) else 0)
  }

  ghost predicate StepsCounted(t: Tracker, ins: seq<Input>) {
    var was, now := t.tally, Run(t, ins).tally;
    && now.advances == was.advances + Times(t, ins, Advance)
    && now.wraps == was.wraps + Times(t, ins, Wrap)
    && now.resets == was.resets + Times(t, ins, Reset)
    && now.unproven == was.unproven + Times(t, ins, DecreaseUnproven)
  }

  ghost predicate BreachesCounted(t: Tracker, ins: seq<Input>) {
    var was, now := t.tally, Run(t, ins).tally;
    && now.widthChanges == was.widthChanges + Times(t, ins, WidthChanged)
    && now.outOfRange == was.outOfRange + Times(t, ins, OutOfRange)
    && now.regressions == was.regressions + Times(t, ins, SequenceRegressed)
    && now.reincarnations
         == was.reincarnations + Times(t, ins, SourceReincarnated) + Times(t, ins, LinkGenerationChanged)
  }

  ghost predicate RestCounted(t: Tracker, ins: seq<Input>) {
    var was, now := t.tally, Run(t, ins).tally;
    && now.samples == was.samples + |ins|
    && now.gaps == was.gaps + Gaps(t, ins)
    && now.missing == was.missing + Lost(t, ins)
  }

  lemma RestStep(t: Tracker, r: Reading, cfg: Config)
    ensures
      var t' := Observe(t, r, cfg);
      var was, now := t.tally, t'.tally;
      && now.samples == was.samples + 1
      && now.gaps == was.gaps + (if t'.delta.Some? && t'.delta.value.spansGap then 1 else 0)
      && now.missing == was.missing + (if Comparable(t, r) then Missing(t.last.sequence, r.sequence) else 0)
  {
    assert Comparable(t, r) <==> Differences(Observe(t, r, cfg).event);
  }

  lemma {:induction false} CountsSteps(t: Tracker, ins: seq<Input>)
    ensures StepsCounted(t, ins)
  {
    if ins != [] {
      CountsSteps(t, ins[..|ins| - 1]);
    }
  }

  lemma {:induction false} CountsBreaches(t: Tracker, ins: seq<Input>)
    ensures BreachesCounted(t, ins)
  {
    if ins != [] {
      CountsBreaches(t, ins[..|ins| - 1]);
    }
  }

  lemma {:induction false} CountsRest(t: Tracker, ins: seq<Input>)
    ensures RestCounted(t, ins)
  {
    if ins != [] {
      var n := |ins| - 1;
      CountsRest(t, ins[..n]);
      RestStep(Run(t, ins[..n]), ins[n].reading, ins[n].cfg);
    }
  }

  /** Over any stretch every tally is the number of steps, or of samples, that it stands for. */
  lemma TalliesCount(t: Tracker, ins: seq<Input>)
    ensures StepsCounted(t, ins) && BreachesCounted(t, ins) && RestCounted(t, ins)
  {
    CountsSteps(t, ins);
    CountsBreaches(t, ins);
    CountsRest(t, ins);
  }

  // --------------------------------------------------------------- how long it took

  /**
   The interval of a delta is the time between the two observations, never negative;
   where that cannot be told from 64 bits it is the longest there is. A gap is an
   interval outside what is configured.
   */
  lemma IntervalExactly(t: Tracker, r: Reading, cfg: Config)
    requires ValidReading(t.last) && ValidReading(r) && Observe(t, r, cfg).delta.Some?
    ensures
      var d, apart := Observe(t, r, cfg).delta.value, r.observed - t.last.observed;
      && (t.last.observed > I64_MIN && I64_MIN <= apart <= I64_MAX ==> d.elapsed == if apart > 0 then apart else 0)
      && (t.last.observed == I64_MIN || apart > I64_MAX || apart < I64_MIN ==> d.elapsed == I64_MAX)
      && (d.spansGap <==> !(0 < d.elapsed <= cfg.maxGap))
  {
  }
}
