/**
 Counter continuity: one tracker per counter stream turns raw readings into exact
 deltas, or says which claim failed and gives none.

 Main results: `DeltaExact`, `DeltaExactlyWhen`, `TrueIncrements`, `FollowedExactly`, `IncrementSeen`,
 `StretchBalances`, `LastTwoDecide`, `InOrderRun` and `GaplessExactly`.
 */
module Counter {
  import opened Bytes
  import opened Optional

  const I64_MAX := 0x7FFF_FFFF_FFFF_FFFF
  const I64_MIN := -0x8000_0000_0000_0000

  datatype Width = Unspecified | Bits32 | Bits64

  datatype Reading = Reading(
    value: nat,
    width: Width,
    resetDeclared: bool,
    observed: int,
    sequence: nat,
    incarnation: nat,
    generation: nat)

  datatype Config = Config(wrapInference: bool, ceilingFraction: real, floorFraction: real, maxGap: int)

  datatype Event =
    | Baseline | Advance | Wrap | Reset | DecreaseUnproven | WidthChanged
    | SourceReincarnated | LinkGenerationChanged | OutOfRange | SequenceRegressed

  datatype Delta = Delta(delta: nat, elapsed: int, spansGap: bool, fromWrap: bool)

  datatype Tally = Tally(
    samples: nat, advances: nat, wraps: nat, resets: nat, unproven: nat, gaps: nat,
    reincarnations: nat, widthChanges: nat, outOfRange: nat, regressions: nat, missing: nat)

  const ZeroTally := Tally(0, 0, 0, 0, 0, 0, 0, 0, 0, 0, 0)

  datatype Tracker = Tracker(
    hasBaseline: bool,
    last: Reading,            // the reading deltas are taken against
    identityBound: bool,
    event: Event,
    delta: Option<Delta>,
    rateAdmissible: bool,
    tally: Tally)

  const NewTracker :=
    Tracker(false, Reading(0, Unspecified, false, 0, 0, 0, 0), false, Baseline, None, false, ZeroTally)

  predicate ValidReading(r: Reading) {
    r.value < U64 && I64_MIN <= r.observed <= I64_MAX && r.sequence < U64
  }

  predicate InRange(value: nat, width: Width) { width == Bits32 ==> value < U32 }

  // ---------------------------------------------------------------- decreases

  function Modulus(width: Width): nat {
    match width
    case Bits32 => U32
    case Bits64 => U64
    case Unspecified => 0
  }

  /** A fraction of the modulus, rounded down and kept among the readings. */
  function Boundary(modulus: nat, fraction: real): nat {
    var scaled := modulus as real * fraction;
    if scaled <= 0.0 then 0 else if scaled >= (U64 - 1) as real then U64 - 1 else scaled.Floor
  }

  // The largest 64-bit reading stands in for the modulus 2^64 here.
  function Ceiling(width: Width, cfg: Config): nat {
    Boundary(if width == Bits64 then U64 - 1 else Modulus(width), cfg.ceilingFraction)
  }

  function Floor(width: Width, cfg: Config): nat {
    Boundary(if width == Bits64 then U64 - 1 else Modulus(width), cfg.floorFraction)
  }

  predicate WrapProven(previous: nat, current: nat, width: Width, cfg: Config) {
    cfg.wrapInference && width != Unspecified &&
    previous >= Ceiling(width, cfg) && current <= Floor(width, cfg)
  }

  /** The difference across a wrap, in 64-bit unsigned arithmetic. */
  function WrapDelta(previous: nat, current: nat, width: Width): nat {
    if width == Bits32 then (U32 - previous + current) % U64 else (current - previous) % U64
  }

  // ------------------------------------------------------------ elapsed time

  function Elapsed(last: int, now: int): int {
    if last == I64_MIN || now - last > I64_MAX || now - last < I64_MIN then I64_MAX
    else if now - last < 0 then 0
    else now - last
  }

  predicate SpansGap(elapsed: int, maxGap: int) { elapsed > maxGap || elapsed <= 0 }

  // ---------------------------------------------------------------- one step

  predicate Continues(event: Event) { event == Advance || event == Wrap }

  // Steps that difference two readings.
  predicate Differences(event: Event) { Continues(event) || event == DecreaseUnproven }

  /** What happened between the baseline and this reading: the first claim that fails decides. */
  function Classify(t: Tracker, r: Reading, cfg: Config): Event {
    if t.identityBound && r.incarnation != t.last.incarnation then SourceReincarnated
    else if t.identityBound && r.generation != t.last.generation then LinkGenerationChanged
    else if !InRange(r.value, r.width) then OutOfRange
    else if t.hasBaseline && r.width != t.last.width then WidthChanged
    else if t.hasBaseline && r.sequence < t.last.sequence then SequenceRegressed
    else if r.resetDeclared then Reset
    else if !t.hasBaseline then Baseline
    else if r.value >= t.last.value then Advance
    else if WrapProven(t.last.value, r.value, r.width, cfg) then Wrap
    else DecreaseUnproven
  }

  function Missing(last: nat, sequence: nat): nat {
    if sequence > (last + 1) % U64 then (sequence - last - 1) % U64 else 0
  }

  function One(b: bool): nat { if b then 1 else 0 }

  function Count(y: Tally, event: Event, gap: bool, missing: nat): Tally {
    Tally(y.samples + 1, y.advances + One(event == Advance), y.wraps + One(event == Wrap),
          y.resets + One(event == Reset), y.unproven + One(event == DecreaseUnproven),
          y.gaps + One(Continues(event) && gap),
          y.reincarnations + One(event == SourceReincarnated || event == LinkGenerationChanged),
          y.widthChanges + One(event == WidthChanged), y.outOfRange + One(event == OutOfRange),
          y.regressions + One(event == SequenceRegressed),
          y.missing + (if Differences(event) then missing else 0))
  }

  function DeltaFor(last: Reading, r: Reading, event: Event, cfg: Config): Option<Delta> {
    if !Continues(event) then None
    else
      var amount := if event == Advance && r.value >= last.value then r.value - last.value
                    else WrapDelta(last.value, r.value, r.width);
      var elapsed := Elapsed(last.observed, r.observed);
      Some(Delta(amount, elapsed, SpansGap(elapsed, cfg.maxGap), event == Wrap))
  }

  // An out-of-range reading drops the baseline, a regressed one leaves it; all others replace it.
  predicate Replaces(event: Event) { event != OutOfRange && event != SequenceRegressed }

  function Apply(t: Tracker, r: Reading, event: Event, cfg: Config): Tracker {
    var delta := DeltaFor(t.last, r, event, cfg);
    var gap := delta.Some? && delta.value.spansGap;
    Tracker(if Replaces(event) then true else t.hasBaseline && event != OutOfRange,
            if Replaces(event) then r else t.last,
            t.identityBound || Replaces(event),
            event, delta, delta.Some? && !gap,
            Count(t.tally, event, gap, Missing(t.last.sequence, r.sequence)))
  }

  function Observe(t: Tracker, r: Reading, cfg: Config): Tracker {
    Apply(t, r, Classify(t, r, cfg), cfg)
  }

  // ------------------------------------------------------------ exact deltas

  lemma ModOf(d: int, m: int)
    requires 0 <= d < m
    ensures d % m == d && (d - m) % m == d
  {
  }

  lemma WrapDeltaExact(previous: nat, current: nat, width: Width)
    requires current < previous < Modulus(width)
    ensures WrapDelta(previous, current, width) == current - previous + Modulus(width)
  {
    ModOf(current - previous + Modulus(width), U64);
  }

  lemma DeltaResidue(previous: nat, current: nat, m: nat)
    requires previous < m && current < m
    ensures (current - previous) % m == if current >= previous then current - previous else current - previous + m
  {
    ModOf(if current >= previous then current - previous else current - previous + m, m);
  }

  /**
   A delta is the difference of two readings modulo the declared width, and a wrap
   is claimed only for a difference the configured fractions bound.
   */
  lemma {:induction false} DeltaExact(t: Tracker, r: Reading, cfg: Config)
    requires t.last.value < U64 && r.value < U64
    requires InRange(t.last.value, t.last.width)
    ensures
      var t' := Observe(t, r, cfg);
      Continues(t'.event) ==>
        && t'.delta.Some? && t'.last == r && r.width == t.last.width && InRange(r.value, r.width)
        && (t'.event == Advance ==> t'.delta.value.delta == r.value - t.last.value)
        && (r.width != Unspecified ==> t'.delta.value.delta == (r.value - t.last.value) % Modulus(r.width))
        && (t'.event == Wrap ==>
              && t'.delta.value.delta == r.value - t.last.value + Modulus(r.width)
              && t'.delta.value.delta <= Modulus(r.width) - Ceiling(r.width, cfg) + Floor(r.width, cfg))
  {
    if Continues(Observe(t, r, cfg).event) && r.width != Unspecified {
      DeltaResidue(t.last.value, r.value, Modulus(r.width));
      if r.value < t.last.value {
        WrapDeltaExact(t.last.value, r.value, r.width);
      }
    }
  }

  // ------------------------------------------------------------- when a delta is given

  /** Every claim a difference rests on, the size of the readings aside. */
  predicate Comparable(t: Tracker, r: Reading) {
    && t.hasBaseline && r.width == t.last.width && r.sequence >= t.last.sequence && !r.resetDeclared
    && (t.identityBound ==> r.incarnation == t.last.incarnation && r.generation == t.last.generation)
    && (r.width == Bits32 ==> r.value <= 0xFFFF_FFFF)
  }

  /** The largest reading of the width, or 2^32, in the reals. */
  function Span(width: Width): real { if width == Bits32 then 4294967296.0 else 18446744073709551615.0 }

  /** The evidence for a wrap: the old reading near the top of the range, the new one near its bottom. */
  predicate NearTop(value: nat, width: Width, cfg: Config) {
    var top := Span(width) * cfg.ceilingFraction;
    value as real > (if top < 18446744073709551615.0 then top else 18446744073709551615.0) - 1.0
  }

  predicate NearBottom(value: nat, width: Width, cfg: Config) {
    var bottom := Span(width) * cfg.floorFraction;
    value as real <= if bottom > 0.0 then bottom else 0.0
  }

  lemma FloorAbove(value: int, x: real)
    ensures value >= x.Floor <==> value as real > x - 1.0
    ensures value <= x.Floor <==> value as real <= x
  {
  }

  lemma WrapEvidence(previous: nat, current: nat, width: Width, cfg: Config)
    requires width != Unspecified && previous < U64 && current < U64
    ensures previous >= Ceiling(width, cfg) <==> NearTop(previous, width, cfg)
    ensures current <= Floor(width, cfg) <==> NearBottom(current, width, cfg)
  {
    FloorAbove(previous, Span(width) * cfg.ceilingFraction);
    FloorAbove(current, Span(width) * cfg.floorFraction);
  }

  /**
   A step gives a delta if and only if its claims hold and the reading did not fall,
   or fell with the evidence for a wrap. A fall without it is unproven.
   */
  lemma DeltaExactlyWhen(t: Tracker, r: Reading, cfg: Config)
    requires t.last.value < U64 && r.value < U64
    ensures
      var t' := Observe(t, r, cfg);
      var falls := r.value < t.last.value;
      var proven := cfg.wrapInference && r.width != Unspecified
                    && NearTop(t.last.value, r.width, cfg) && NearBottom(r.value, r.width, cfg);
      && (t'.event == Advance <==> Comparable(t, r) && !falls)
      && (t'.event == Wrap <==> Comparable(t, r) && falls && proven)
      && (t'.event == DecreaseUnproven <==> Comparable(t, r) && falls && !proven)
      && (t'.delta.Some? <==> Comparable(t, r) && (falls ==> proven))
      && (t'.delta.Some? ==> (t'.delta.value.fromWrap <==> falls))
  {
    if r.width != Unspecified {
      WrapEvidence(t.last.value, r.value, r.width, cfg);
    }
  }

  lemma ResidueDifference(before: nat, now: nat, m: nat)
    requires 0 < m && before <= now
    ensures (now % m - before % m) % m == (now - before) % m
  {
    var q, p := now / m, before / m;
    assert now - before == (now % m - before % m) + m * (q - p);
    ModShift(now % m - before % m, m, q - p);
  }

  lemma ModShift(x: int, m: int, k: int)
    requires 0 < m
    ensures (x + m * k) % m == x % m
  {
    var a, b := (x + m * k) / m, x / m;
    var ra, rb := (x + m * k) % m, x % m;
    assert m * (a - b - k) == rb - ra by {
      assert x + m * k == m * a + ra && x == m * b + rb;
    }
    assert -m < rb - ra < m;
    SmallMultiple(m, a - b - k);
  }

  lemma SmallMultiple(m: int, k: int)
    requires 0 < m
    ensures k >= 1 ==> m * k >= m
    ensures k <= -1 ==> m * k <= -m
  {
  }

  /**
   Readings that are the residues of an unbounded counter: a reported delta is the
   true increment if and only if the counter moved by less than its modulus.
   */
  lemma {:induction false} TrueIncrement(t: Tracker, r: Reading, cfg: Config, before: nat, now: nat)
    requires r.width != Unspecified && before <= now
    requires t.last.value == before % Modulus(r.width) && r.value == now % Modulus(r.width)
    requires Continues(Observe(t, r, cfg).event)
    ensures Observe(t, r, cfg).delta.Some?
    ensures Observe(t, r, cfg).delta.value.delta == now - before <==> now - before < Modulus(r.width)
  {
    var m := Modulus(r.width);
    DeltaExact(t, r, cfg);
    ResidueDifference(before, now, m);
    if now - before < m {
      ModOf(now - before, m);
    }
  }

  // ------------------------------------------------------ increments never missed

  /** A counter that moves on by so much from this reading is followed: it advances, or the wrap is proven. */
  predicate Followed(previous: nat, d: nat, width: Width, cfg: Config)
    requires width != Unspecified
  {
    var current := (previous + d) % Modulus(width);
    current >= previous || WrapProven(previous, current, width, cfg)
  }

  ghost predicate AlwaysFollowed(d: nat, width: Width, cfg: Config)
    requires width != Unspecified
  {
    forall previous: nat :: previous < Modulus(width) ==> Followed(previous, d, width, cfg)
  }

  lemma WrapsTo(previous: nat, d: nat, m: nat)
    requires previous < m && d < m
    ensures (previous + d) % m == if previous + d < m then previous + d else previous + d - m
  {
    if previous + d < m {
      ModOf(previous + d, m);
    } else {
      ModOf(previous + d - m, m);
      ModShift(previous + d - m, m, 1);
    }
  }

  /**
   The increments a configuration follows wherever the counter stands: those at most
   one above the floor, and not above what lies beyond the ceiling.
   */
  lemma {:induction false} FollowedExactly(d: nat, width: Width, cfg: Config)
    requires cfg.wrapInference && width != Unspecified && 0 < d < Modulus(width)
    ensures AlwaysFollowed(d, width, cfg) <==> d <= Floor(width, cfg) + 1 && d <= Modulus(width) - Ceiling(width, cfg)
  {
    var m := Modulus(width);
    if d <= Floor(width, cfg) + 1 && d <= m - Ceiling(width, cfg) {
      forall previous: nat | previous < m
        ensures Followed(previous, d, width, cfg)
      {
        WrapsTo(previous, d, m);
      }
    } else {
      WrapsTo(m - 1, d, m);
      WrapsTo(m - d, d, m);
      assert !Followed(m - 1, d, width, cfg) || !Followed(m - d, d, width, cfg);
    }
  }

  /** A reading that continues the baseline: same source and width, in order, in range, not reset. */
  predicate Proceeds(t: Tracker, r: Reading) {
    && t.hasBaseline && t.identityBound && r.incarnation == t.last.incarnation && r.generation == t.last.generation
    && InRange(r.value, r.width) && r.width == t.last.width && r.sequence >= t.last.sequence && !r.resetDeclared
  }

  /** Such an increment of an unbounded counter is always reported, and truly. */
  lemma {:induction false} IncrementSeen(t: Tracker, r: Reading, cfg: Config, before: nat, now: nat)
    requires Proceeds(t, r) && r.width != Unspecified && cfg.wrapInference && before <= now
    requires t.last.value == before % Modulus(r.width) && r.value == now % Modulus(r.width)
    requires now - before <= Floor(r.width, cfg) + 1 && now - before <= Modulus(r.width) - Ceiling(r.width, cfg)
    requires now - before < Modulus(r.width)
    ensures
      var t' := Observe(t, r, cfg);
      Continues(t'.event) && t'.delta.Some? && t'.delta.value.delta == now - before
  {
    var m, d := Modulus(r.width), now - before;
    ResidueSum(before, d, m);
    if d > 0 {
      FollowedExactly(d, r.width, cfg);
      assert Followed(t.last.value, d, r.width, cfg);
    }
    ProceedsFollowed(t, r, cfg);
    TrueIncrement(t, r, cfg, before, now);
  }

  lemma ProceedsFollowed(t: Tracker, r: Reading, cfg: Config)
    requires Proceeds(t, r) && (r.value >= t.last.value || WrapProven(t.last.value, r.value, r.width, cfg))
    ensures Continues(Observe(t, r, cfg).event)
  {
  }

  lemma ResidueSum(before: nat, d: nat, m: nat)
    requires 0 < m
    ensures (before + d) % m == (before % m + d) % m
  {
    ModShift(before % m + d, m, before / m);
    assert before + d == before % m + d + m * (before / m);
  }

  // ----------------------------------------------------------------- stretches

  // A reading, and the configuration in force when it arrives.
  datatype Input = Input(reading: Reading, cfg: Config)

  function Run(t: Tracker, ins: seq<Input>): Tracker {
    if ins == [] then t
    else
      var last := ins[|ins| - 1];
      Observe(Run(t, ins[..|ins| - 1]), last.reading, last.cfg)
  }

  lemma RunNext(t: Tracker, ins: seq<Input>, k: nat)
    requires k < |ins|
    ensures Run(t, ins[..k + 1]) == Observe(Run(t, ins[..k]), ins[k].reading, ins[k].cfg)
  {
    assert ins[..k + 1][..k] == ins[..k];
  }

  lemma RunLastTwo(t: Tracker, ins: seq<Input>)
    requires |ins| >= 2
    ensures
      var n, a, b := |ins|, ins[|ins| - 2], ins[|ins| - 1];
      Run(t, ins) == Observe(Observe(Run(t, ins[..n - 2]), a.reading, a.cfg), b.reading, b.cfg)
  {
    RunNext(t, ins, |ins| - 2);
    RunNext(t, ins, |ins| - 1);
    assert ins[..|ins|] == ins;
  }

  /** Every step of the run reported a delta. */
  ghost predicate Unbroken(t: Tracker, ins: seq<Input>) {
    forall k :: 0 < k <= |ins| ==> Continues(Run(t, ins[..k]).event)
  }

  function SumOfDeltas(t: Tracker, ins: seq<Input>): nat {
    if ins == [] then 0
    else
      var step := Run(t, ins).delta;
      SumOfDeltas(t, ins[..|ins| - 1]) + (if step.Some? then step.value.delta else 0)
  }

  /** A baseline deltas can be taken against. */
  ghost predicate Sound(t: Tracker, width: Width) {
    t.hasBaseline && t.last.width == width && InRange(t.last.value, width) && t.last.value < U64
  }

  lemma StretchStep(t: Tracker, r: Reading, cfg: Config, width: Width)
    requires Sound(t, width) && r.value < U64 && Continues(Observe(t, r, cfg).event)
    ensures
      var t' := Observe(t, r, cfg);
      && Sound(t', width) && t'.delta.Some?
      && (t'.tally.wraps == t.tally.wraps || t'.tally.wraps == t.tally.wraps + 1)
      && t.last.value + t'.delta.value.delta
           == t'.last.value + (if t'.tally.wraps == t.tally.wraps then 0 else Modulus(width))
  {
    DeltaExact(t, r, cfg);
  }

  /** The first value and the deltas since make up the last value and the wraps since. */
  ghost predicate Balanced(t: Tracker, t': Tracker, sum: nat, width: Width) {
    && Sound(t', width) && t'.tally.wraps >= t.tally.wraps
    && t.last.value + sum == t'.last.value + Modulus(width) * (t'.tally.wraps - t.tally.wraps)
  }

  lemma BalancedStep(t: Tracker, mid: Tracker, sum: nat, r: Reading, cfg: Config, width: Width)
    requires Balanced(t, mid, sum, width) && r.value < U64 && Continues(Observe(mid, r, cfg).event)
    ensures Observe(mid, r, cfg).delta.Some?
    ensures Balanced(t, Observe(mid, r, cfg), sum + Observe(mid, r, cfg).delta.value.delta, width)
  {
    var m, w := Modulus(width), mid.tally.wraps - t.tally.wraps;
    StretchStep(mid, r, cfg, width);
    assert m * (w + 1) == m * w + m;
  }

  /** Along an unbroken stretch nothing is lost or counted twice. */
  lemma {:induction false} StretchBalances(t: Tracker, ins: seq<Input>, width: Width)
    requires Sound(t, width) && (forall x :: x in ins ==> x.reading.value < U64) && Unbroken(t, ins)
    ensures Balanced(t, Run(t, ins), SumOfDeltas(t, ins), width)
  {
    if ins != [] {
      var n := |ins| - 1;
      var front := ins[..n];
      assert Unbroken(t, front) by {
        assert forall k :: 0 <= k <= n ==> front[..k] == ins[..k];
      }
      StretchBalances(t, front, width);
      assert Continues(Run(t, ins).event) by {
        assert ins[..n + 1] == ins;
      }
      BalancedStep(t, Run(t, front), SumOfDeltas(t, front), ins[n].reading, ins[n].cfg, width);
    }
  }

  // --------------------------------------------------------- the last two decide

  /** A reading that becomes the baseline whatever happened before. */
  predicate Rebases(t: Tracker, r: Reading) {
    InRange(r.value, r.width) && (t.hasBaseline ==> r.sequence >= t.last.sequence)
  }

  lemma BaselineIsLast(t: Tracker, r: Reading, cfg: Config)
    requires Rebases(t, r)
    ensures var t' := Observe(t, r, cfg); t'.hasBaseline && t'.identityBound && t'.last == r
  {
  }

  // What a tracker says, its tallies aside.
  function Verdict(t: Tracker): Tracker { t.(tally := ZeroTally) }

  lemma SameBaseline(t: Tracker, u: Tracker, r: Reading, cfg: Config)
    requires t.hasBaseline && u.hasBaseline && t.identityBound && u.identityBound && t.last == u.last
    ensures Verdict(Observe(t, r, cfg)) == Verdict(Observe(u, r, cfg))
  {
    assert Classify(t, r, cfg) == Classify(u, r, cfg);
  }

  /**
   What a tracker says after two such readings is settled by those two alone: any
   two trackers, whatever they saw before, agree on everything but the tallies.
   */
  lemma {:induction false} LastTwoDecide(t: Tracker, u: Tracker, a: Reading, b: Reading, first: Config, second: Config)
    requires Rebases(t, a) && Rebases(u, a)
    ensures Verdict(Observe(Observe(t, a, first), b, second)) == Verdict(Observe(Observe(u, a, first), b, second))
  {
    BaselineIsLast(t, a, first);
    BaselineIsLast(u, a, first);
    SameBaseline(Observe(t, a, first), Observe(u, a, first), b, second);
  }

  // ---------------------------------------------------------- in-order streams

  /** What the evidence store feeds: one identity, in range, sequence numbers going up. */
  ghost predicate InOrder(ins: seq<Input>) {
    && (forall i :: 0 <= i < |ins| ==>
          ValidReading(ins[i].reading) && InRange(ins[i].reading.value, ins[i].reading.width))
    && (forall i, j :: 0 <= i < j < |ins| ==> Follows(ins[i].reading, ins[j].reading))
  }

  predicate Follows(a: Reading, b: Reading) {
    a.sequence < b.sequence && a.incarnation == b.incarnation && a.generation == b.generation
  }

  /** The sequence distance covered by the steps that difference two readings. */
  function Covered(ins: seq<Input>): int {
    if |ins| <= 1 then 0
    else
      var n := |ins| - 1;
      Covered(ins[..n]) +
      (if Differences(Run(NewTracker, ins).event) then ins[n].reading.sequence - ins[n - 1].reading.sequence else 0)
  }

  ghost predicate OrderlyEvent(event: Event) {
    event != SequenceRegressed && event != SourceReincarnated && event != LinkGenerationChanged && event != OutOfRange
  }

  // Steps that difference two readings, and what they and the missing samples add up to.
  function Differenced(y: Tally): nat { y.advances + y.wraps + y.unproven }

  ghost predicate Orderly(t: Tracker, last: Reading) {
    && OrderlyEvent(t.event) && t.hasBaseline && t.identityBound && t.last == last
    && t.tally.regressions == 0 && t.tally.reincarnations == 0 && t.tally.outOfRange == 0
  }

  lemma InOrderStep(t: Tracker, a: Reading, r: Reading, cfg: Config)
    requires Orderly(t, a)
    requires ValidReading(a) && ValidReading(r) && InRange(r.value, r.width) && Follows(a, r)
    ensures
      var t' := Observe(t, r, cfg);
      var was, now := t.tally, t'.tally;
      && Orderly(t', r) && now.samples == was.samples + 1
      && now.missing + Differenced(now)
           == was.missing + Differenced(was) + (if Differences(t'.event) then r.sequence - a.sequence else 0)
      && Differenced(now) + now.resets + now.widthChanges == Differenced(was) + was.resets + was.widthChanges + 1
  {
  }

  /**
   In-order streams: the tracker never complains about order, identity or range,
   every sample but a plain first one is accounted for by exactly one tally, and the
   samples it missed make up exactly the rest of the sequence distance it covered.
   */
  lemma {:induction false} InOrderRun(ins: seq<Input>)
    requires InOrder(ins) && ins != []
    ensures
      var t := Run(NewTracker, ins);
      && Orderly(t, ins[|ins| - 1].reading) && t.tally.samples == |ins|
      && t.tally.missing + Differenced(t.tally) == Covered(ins)
      && Differenced(t.tally) + t.tally.resets + t.tally.widthChanges
           == |ins| - (if ins[0].reading.resetDeclared then 0 else 1)
  {
    var n := |ins| - 1;
    var front := ins[..n];
    if n == 0 {
      assert front == [];
    } else {
      assert front[n - 1] == ins[n - 1] && front[0] == ins[0];
      InOrderRun(front);
      InOrderStep(Run(NewTracker, front), ins[n - 1].reading, ins[n].reading, ins[n].cfg);
    }
  }

  lemma InOrderRebases(ins: seq<Input>, k: nat)
    requires InOrder(ins) && k < |ins|
    ensures Rebases(Run(NewTracker, ins[..k]), ins[k].reading)
  {
    if k > 0 {
      assert ins[..k][k - 1] == ins[k - 1];
      InOrderRun(ins[..k]);
    }
  }

  lemma InOrderPart(ins: seq<Input>, lo: nat)
    requires InOrder(ins) && lo <= |ins|
    ensures InOrder(ins[lo..])
  {
    var late := ins[lo..];
    forall i, j | 0 <= i < j < |late|
      ensures Follows(late[i].reading, late[j].reading)
    {
      assert late[i] == ins[lo + i] && late[j] == ins[lo + j];
    }
  }

  /** After an orderly stretch a tracker says what one that saw only the last two readings says. */
  lemma LastTwoSuffice(ins: seq<Input>)
    requires InOrder(ins) && |ins| >= 2
    ensures
      var a, b := ins[|ins| - 2], ins[|ins| - 1];
      Verdict(Run(NewTracker, ins)) == Verdict(Observe(Observe(NewTracker, a.reading, a.cfg), b.reading, b.cfg))
  {
    var a, b := ins[|ins| - 2], ins[|ins| - 1];
    InOrderRebases(ins, |ins| - 2);
    RunLastTwo(NewTracker, ins);
    LastTwoDecide(Run(NewTracker, ins[..|ins| - 2]), NewTracker, a.reading, b.reading, a.cfg, b.cfg);
  }

  /** What a tracker says after an orderly stretch does not depend on how far back it began. */
  lemma {:induction false} SuffixDecides(ins: seq<Input>, lo: nat)
    requires InOrder(ins) && lo + 2 <= |ins|
    ensures Verdict(Run(NewTracker, ins)) == Verdict(Run(NewTracker, ins[lo..]))
  {
    InOrderPart(ins, lo);
    LastTwoSuffice(ins);
    LastTwoSuffice(ins[lo..]);
  }

  ghost predicate OneWidth(ins: seq<Input>) {
    (forall i :: 0 < i < |ins| ==> !ins[i].reading.resetDeclared) &&
    (forall i :: 0 <= i < |ins| ==> ins[i].reading.width == ins[0].reading.width)
  }

  lemma DifferencesOrderly(t: Tracker, a: Reading, r: Reading, cfg: Config)
    requires Orderly(t, a) && InRange(r.value, r.width) && Follows(a, r) && a.width == r.width && !r.resetDeclared
    ensures Differences(Observe(t, r, cfg).event)
  {
  }

  /** If nothing was reset and the width stayed, the whole stream is covered. */
  lemma {:induction false} WholeStreamCovered(ins: seq<Input>)
    requires InOrder(ins) && ins != [] && OneWidth(ins)
    ensures Covered(ins) == ins[|ins| - 1].reading.sequence - ins[0].reading.sequence
  {
    var n := |ins| - 1;
    if n > 0 {
      var front := ins[..n];
      WholeStreamCovered(front);
      InOrderRun(front);
      assert front[n - 1] == ins[n - 1] && front[0] == ins[0];
      DifferencesOrderly(Run(NewTracker, front), ins[n - 1].reading, ins[n].reading, ins[n].cfg);
    }
  }

  /** Over a whole stream of residues of an unbounded counter, every delta reported is the true increment. */
  lemma {:induction false} TrueIncrements(ins: seq<Input>, counts: seq<nat>, k: nat, width: Width)
    requires InOrder(ins) && |counts| == |ins| && 0 < k < |ins| && width != Unspecified
    requires forall i :: 0 <= i < |ins| ==>
      ins[i].reading.width == width && ins[i].reading.value == counts[i] % Modulus(width)
    requires forall i, j :: 0 <= i && j == i + 1 && j < |ins| ==> 0 <= counts[j] - counts[i] < Modulus(width)
    requires Continues(Run(NewTracker, ins[..k + 1]).event)
    ensures
      var t := Run(NewTracker, ins[..k + 1]);
      t.delta.Some? && t.delta.value.delta == counts[k] - counts[k - 1]
  {
    var front := ins[..k];
    RunNext(NewTracker, ins, k);
    InOrderRun(front);
    assert front[k - 1] == ins[k - 1];
    TrueIncrement(Run(NewTracker, front), ins[k].reading, ins[k].cfg, counts[k - 1], counts[k]);
  }

  // ------------------------------------------------------------ honest intervals

  ghost predicate GaplessIsExact(maxGap: int) {
    forall last: int, now: int :: I64_MIN <= last <= I64_MAX && I64_MIN <= now <= I64_MAX ==>
      !SpansGap(Elapsed(last, now), maxGap) ==> Elapsed(last, now) == now - last
  }

  /**
   An interval reported without a gap is the exact difference of two observation
   times, unless the configured gap is the largest representable one: then an
   overflowing difference passes for an interval.
   */
  lemma GaplessExactly(maxGap: int)
    requires maxGap <= I64_MAX
    ensures GaplessIsExact(maxGap) <==> maxGap < I64_MAX
  {
    if maxGap == I64_MAX {
      assert Elapsed(I64_MIN, 0) == I64_MAX && !SpansGap(Elapsed(I64_MIN, 0), maxGap);
    }
  }

  /**
   A rate may be taken exactly from a delta with a positive interval inside the gap, and
   that interval is exact; the earliest representable time begins no interval.
   */
  lemma {:induction false} RateInterval(t: Tracker, r: Reading, cfg: Config)
    requires ValidReading(t.last) && ValidReading(r) && cfg.maxGap < I64_MAX
    ensures
      var t', apart := Observe(t, r, cfg), r.observed - t.last.observed;
      && (t'.rateAdmissible <==> t'.delta.Some? && t.last.observed > I64_MIN && 0 < apart <= cfg.maxGap)
      && (t'.rateAdmissible ==> t'.delta.value.elapsed == apart)
  {
    GaplessExactly(cfg.maxGap);
  }
}
