/**
 From stored streams to the quality of a link: collecting the fresh candidates of a
 lane, assessing it, and rolling lanes and metrics up.

 Main results: `BandNeedsBacking`, `RecoveredNeverBanded`, `CandidatesDistinct`,
 `OrderIrrelevant` and `OverallBacked`.
 */
module LinkQuality {
  import opened Optional
  import opened Evidence
  import opened EvidenceStream
  import opened EvidenceSnapshot
  import opened EvidenceAsOf
  import opened MeasuredRates
  import opened Severity
  import opened Bands
  import opened Classifier
  import Counter

  datatype Entry = Entry(key: Key, stream: Stream)

  /** How one metric of a link is to be judged. */
  datatype Context = Context(
    now: Instant,
    declared: set<Source>,
    validityOf: Source -> int,
    cfg: Counter.Config,
    minInterval: int,
    rule: Option<Rule>)

  // ----------------------------------------------------------------- freshness

  function Age(e: Evidence, now: Instant): int {
    if now.steady - e.received.steady < 0 then 0 else now.steady - e.received.steady
  }

  predicate IsFresh(e: Evidence, validity: int, now: Instant) {
    e.origin == Live && e.received.epoch == now.epoch && validity > 0 && Age(e, now) <= validity
  }

  function RatePerSecond(d: Counter.Delta, minInterval: int): Option<real> {
    if d.elapsed <= 0 || d.elapsed < minInterval then None
    else Some(d.delta as real * 1000000000.0 / d.elapsed as real)
  }

  // ---------------------------------------------------------------- collection

  predicate Relevant(ctx: Context, lane: Option<nat>, entry: Entry) {
    entry.key.lane == lane && entry.key.source in ctx.declared
  }

  function Newest(ctx: Context, entry: Entry): Option<Evidence> { NewestAtOrBefore(entry.stream, ctx.now) }

  predicate HasRecord(ctx: Context, lane: Option<nat>, entry: Entry) {
    Relevant(ctx, lane, entry) && Newest(ctx, entry).Some?
  }

  predicate HasFresh(ctx: Context, lane: Option<nat>, entry: Entry) {
    HasRecord(ctx, lane, entry) && IsFresh(Newest(ctx, entry).value, ctx.validityOf(entry.key.source), ctx.now)
  }

  /** The value a stream contributes: its reading, or the rate of a delta without a gap. */
  function ValueOf(ctx: Context, entry: Entry, e: Evidence): Option<real> {
    match e.observation.sample
    case Gauge(value, _) => Some(value)
    case CounterSample(_, _, _) =>
      var t := AsOf(entry.stream, ctx.now, ctx.cfg);
      if t.delta.Some? && t.rateAdmissible && t.delta.value.elapsed <= ctx.validityOf(entry.key.source)
      then RatePerSecond(t.delta.value, ctx.minInterval) else None
  }

  function CandidateOf(ctx: Context, lane: Option<nat>, entry: Entry): Option<Candidate> {
    if !HasFresh(ctx, lane, entry) then None
    else
      var e := Newest(ctx, entry).value;
      match ValueOf(ctx, entry, e)
      case None => None
      case Some(value) => Some(Candidate(value, e.observation.authority, entry.key.source, e.observation.sequence))
  }

  function Collect(ctx: Context, lane: Option<nat>, entries: seq<Entry>): seq<Candidate> {
    if entries == [] then []
    else
      var front, c := Collect(ctx, lane, entries[..|entries| - 1]), CandidateOf(ctx, lane, entries[|entries| - 1]);
      if c.Some? then front + [c.value] else front
  }

  ghost predicate AnyRecord(ctx: Context, lane: Option<nat>, entries: seq<Entry>) {
    exists i :: 0 <= i < |entries| && HasRecord(ctx, lane, entries[i])
  }

  ghost predicate AnyFresh(ctx: Context, lane: Option<nat>, entries: seq<Entry>) {
    exists i :: 0 <= i < |entries| && HasFresh(ctx, lane, entries[i])
  }

  method CollectLane(ctx: Context, lane: Option<nat>, entries: seq<Entry>)
    returns (hasEvidence: bool, hasFresh: bool, cs: seq<Candidate>)
    ensures hasEvidence == AnyRecord(ctx, lane, entries) && hasFresh == AnyFresh(ctx, lane, entries)
    ensures cs == Collect(ctx, lane, entries)
  {
    hasEvidence, hasFresh, cs := false, false, [];
    for i := 0 to |entries|
      invariant hasEvidence <==> exists j :: 0 <= j < i && HasRecord(ctx, lane, entries[j])
      invariant hasFresh <==> exists j :: 0 <= j < i && HasFresh(ctx, lane, entries[j])
      invariant cs == Collect(ctx, lane, entries[..i])
    {
      assert entries[..i + 1][..i] == entries[..i];
      var entry := entries[i];
      if HasRecord(ctx, lane, entry) {
        hasEvidence := true;
        var e := Newest(ctx, entry).value;
        if IsFresh(e, ctx.validityOf(entry.key.source), ctx.now) {
          hasFresh := true;
          var value := ValueOf(ctx, entry, e);
          if value.Some? {
            cs := cs + [Candidate(value.value, e.observation.authority, entry.key.source, e.observation.sequence)];
          }
        }
      }
    }
    assert entries[..|entries|] == entries;
  }

  // ---------------------------------------------------------------- assessment

  function StateOf(verdict: Verdict): Quality {
    match verdict
    case Disagreement => Conflicting
    case NoRule => Unknown
    case NoBand => Unknown
    case Banded(_, state) => state
  }

  ghost function Assess(ctx: Context, supported: bool, lane: Option<nat>, entries: seq<Entry>): Quality {
    var cs := Collect(ctx, lane, entries);
    if !supported then Unsupported
    else if !AnyRecord(ctx, lane, entries) then Unknown
    else if cs == [] then if AnyFresh(ctx, lane, entries) then Incomplete else Stale
    else StateOf(Judge(cs, ctx.rule))
  }

  method AssessLane(ctx: Context, supported: bool, lane: Option<nat>, entries: seq<Entry>) returns (state: Quality)
    ensures state == Assess(ctx, supported, lane, entries)
  {
    if !supported {
      return Unsupported;
    }
    var hasEvidence, hasFresh, cs := CollectLane(ctx, lane, entries);
    if !hasEvidence {
      return Unknown;
    }
    if cs == [] {
      return if hasFresh then Incomplete else Stale;
    }
    var verdict := Judged(cs, ctx.rule);
    return StateOf(verdict);
  }

  // ------------------------------------------------------- what backs a verdict

  // How each stream came about.
  type Log = Key -> seq<Change>

  /** A counter delta from the record to the newest one, over exactly the time between them. */
  ghost predicate Spans(ctx: Context, entry: Entry, p: Evidence) {
    var t, newest := AsOf(entry.stream, ctx.now, ctx.cfg), Newest(ctx, entry);
    && newest.Some? && t.delta.Some? && CounterOf(entry.key, p) && CounterOf(entry.key, newest.value)
    && Measured(t.delta.value, p.observation, newest.value.observation)
    && t.delta.value.elapsed == newest.value.observation.observed - p.observation.observed
    && 0 < t.delta.value.elapsed <= ctx.validityOf(entry.key.source)
  }

  /**
   A record that can carry a verdict: live, of this process, no older than its
   validity, and for a counter with another record that arrived in its stream and a
   delta between the two: exact in value and time, without a gap, within that validity.
   */
  ghost predicate Backs(ctx: Context, lane: Option<nat>, entry: Entry, arrivals: seq<Arrival>) {
    && HasFresh(ctx, lane, entry)
    && (Newest(ctx, entry).value.observation.sample.CounterSample? ==>
          exists p :: p in Records(arrivals) && Spans(ctx, entry, p))
  }

  /** An admissible rate lies within the gap. */
  ghost predicate Within(t: Counter.Tracker, gap: int) {
    t.rateAdmissible ==> t.delta.Some? && t.delta.value.elapsed <= gap
  }

  lemma ObserveWithin(t: Counter.Tracker, r: Counter.Reading, cfg: Counter.Config, gap: int)
    requires cfg.maxGap <= gap
    ensures Within(Counter.Observe(t, r, cfg), gap)
  {
  }

  lemma {:induction false} ReconstructWithin(es: seq<Evidence>, now: Instant, cfg: Counter.Config, gap: int)
    requires cfg.maxGap <= gap
    ensures Within(Reconstruct(es, now, cfg), gap)
  {
    if es != [] {
      var front, e := es[..|es| - 1], es[|es| - 1];
      ReconstructWithin(front, now, cfg, gap);
      if e.observation.sample.CounterSample? {
        ObserveWithin(Reconstruct(front, now, cfg), CounterReading(e.observation), cfg, gap);
      }
    }
  }

  lemma {:induction false} BuiltWithin(limits: Limits, changes: seq<Change>, gap: int)
    requires GapsWithin(ArrivalsOf(changes), gap)
    ensures Within(Built(limits, changes).tracker, gap)
  {
    if changes != [] {
      var front, last := changes[..|changes| - 1], changes[|changes| - 1];
      GapsFront(changes, gap);
      BuiltWithin(limits, front, gap);
      match last
      case Arrives(a) =>
        if a.evidence.observation.sample.CounterSample? {
          ObserveWithin(Built(limits, front).tracker, CounterReading(a.evidence.observation), a.cfg, gap);
        }
      case Reseeds(entries) => SeedAllKeeps(Built(limits, front), entries);
    }
  }

  ghost predicate GapsWithin(arrivals: seq<Arrival>, gap: int) {
    forall i :: 0 <= i < |arrivals| ==> arrivals[i].cfg.maxGap <= gap
  }

  lemma GapsFront(changes: seq<Change>, gap: int)
    requires changes != [] && GapsWithin(ArrivalsOf(changes), gap)
    ensures GapsWithin(ArrivalsOf(changes[..|changes| - 1]), gap)
    ensures changes[|changes| - 1].Arrives? ==> changes[|changes| - 1].arrival.cfg.maxGap <= gap
  {
    var front, last := ArrivalsOf(changes[..|changes| - 1]), changes[|changes| - 1];
    forall i | 0 <= i < |front|
      ensures front[i].cfg.maxGap <= gap
    {
      assert ArrivalsOf(changes)[i] == front[i];
    }
    if last.Arrives? {
      assert ArrivalsOf(changes)[|front|] == last.arrival;
    }
  }

  /** An overflowing time difference cannot pass for an interval: the validity or every gap excludes it. */
  ghost predicate NoOverflow(ctx: Context, source: Source, arrivals: seq<Arrival>) {
    || ctx.validityOf(source) < Counter.I64_MAX
    || (ctx.cfg.maxGap < Counter.I64_MAX && GapsWithin(arrivals, Counter.I64_MAX - 1))
  }

  /** The stream is what ingest, replay and seeding made of it. */
  ghost predicate IngestedAs(limits: Limits, ctx: Context, entry: Entry, changes: seq<Change>) {
    && entry.stream == Built(limits, changes) && AllAdmissible(entry.key, ArrivalsOf(changes))
    && NoOverflow(ctx, entry.key.source, ArrivalsOf(changes))
  }

  ghost predicate AllIngested(limits: Limits, ctx: Context, entries: seq<Entry>, log: Log) {
    forall i :: 0 <= i < |entries| ==> IngestedAs(limits, ctx, entries[i], log(entries[i].key))
  }

  lemma RateBelow(limits: Limits, ctx: Context, entry: Entry, changes: seq<Change>)
    requires IngestedAs(limits, ctx, entry, changes)
    ensures
      var t := AsOf(entry.stream, ctx.now, ctx.cfg);
      t.rateAdmissible && t.delta.Some? && t.delta.value.elapsed <= ctx.validityOf(entry.key.source) ==>
        t.delta.value.elapsed < Counter.I64_MAX
  {
    if ctx.validityOf(entry.key.source) >= Counter.I64_MAX {
      BuiltWithin(limits, changes, Counter.I64_MAX - 1);
      ReconstructWithin(entry.stream.recent, ctx.now, ctx.cfg, Counter.I64_MAX - 1);
    }
  }

  lemma RateSpans(limits: Limits, ctx: Context, entry: Entry, changes: seq<Change>) returns (p: Evidence)
    requires IngestedAs(limits, ctx, entry, changes) && Newest(ctx, entry).Some?
    requires Newest(ctx, entry).value.observation.sample.CounterSample?
    requires ValueOf(ctx, entry, Newest(ctx, entry).value).Some?
    ensures p in Records(ArrivalsOf(changes)) && Spans(ctx, entry, p)
  {
    var t, newest := AsOf(entry.stream, ctx.now, ctx.cfg), Newest(ctx, entry);
    AsOfMeasured(limits, entry.key, changes, ctx.now, ctx.cfg);
    RateBelow(limits, ctx, entry, changes);
    assert MeasuredTo(t, entry.key, Records(ArrivalsOf(changes)), newest.value);
    p :| p in Records(ArrivalsOf(changes)) && CounterOf(entry.key, p) &&
         Measured(t.delta.value, p.observation, newest.value.observation);
  }

  lemma CandidateBacked(limits: Limits, ctx: Context, lane: Option<nat>, entry: Entry, changes: seq<Change>)
    requires IngestedAs(limits, ctx, entry, changes) && CandidateOf(ctx, lane, entry).Some?
    ensures Backs(ctx, lane, entry, ArrivalsOf(changes))
  {
    if Newest(ctx, entry).value.observation.sample.CounterSample? {
      var p := RateSpans(limits, ctx, entry, changes);
    }
  }

  lemma {:induction false} CollectFrom(ctx: Context, lane: Option<nat>, entries: seq<Entry>, c: Candidate)
    returns (i: nat)
    requires c in Collect(ctx, lane, entries)
    ensures i < |entries| && CandidateOf(ctx, lane, entries[i]) == Some(c)
  {
    var n := |entries| - 1;
    if CandidateOf(ctx, lane, entries[n]) == Some(c) {
      i := n;
    } else {
      i := CollectFrom(ctx, lane, entries[..n], c);
    }
  }

  ghost predicate Backed(ctx: Context, lane: Option<nat>, entries: seq<Entry>, log: Log) {
    exists i :: 0 <= i < |entries| && Backs(ctx, lane, entries[i], ArrivalsOf(log(entries[i].key)))
  }

  // The states only a band can give.
  predicate BandState(q: Quality) { q == Healthy || q == Marginal || q == Degraded || q == Severe }

  /** Whatever the policy says, a lane in such a state has a record behind it. */
  lemma {:induction false} BandNeedsBacking(limits: Limits, ctx: Context, supported: bool, lane: Option<nat>,
                                            entries: seq<Entry>, log: Log)
    requires AllIngested(limits, ctx, entries, log) && BandState(Assess(ctx, supported, lane, entries))
    ensures Backed(ctx, lane, entries, log)
  {
    var cs := Collect(ctx, lane, entries);
    assert cs[0] in cs;
    var i := CollectFrom(ctx, lane, entries, cs[0]);
    CandidateBacked(limits, ctx, lane, entries[i], log(entries[i].key));
  }

  /** Evidence that was only recovered, or came from another process, supports no band at all. */
  lemma RecoveredNeverBanded(ctx: Context, supported: bool, lane: Option<nat>, entries: seq<Entry>)
    requires forall i :: 0 <= i < |entries| && HasRecord(ctx, lane, entries[i]) ==>
      Newest(ctx, entries[i]).value.origin == Recovered || Newest(ctx, entries[i]).value.received.epoch != ctx.now.epoch
    ensures Assess(ctx, supported, lane, entries) in {Unsupported, Unknown, Stale}
  {
    var cs := Collect(ctx, lane, entries);
    if cs != [] {
      var i := CollectFrom(ctx, lane, entries, cs[0]);
      assert false;
    }
  }

  // ----------------------------------------------------------------- enumeration

  /** One entry for each stream of one metric of a link. */
  ghost predicate OneMetric(entries: seq<Entry>, link: LinkId, metric: nat) {
    && (forall i :: 0 <= i < |entries| ==> entries[i].key.link == link && entries[i].key.metric == metric)
    && (forall i, j :: 0 <= i < j < |entries| ==> entries[i].key != entries[j].key)
  }

  /** A source contributes at most one candidate to a lane. */
  lemma CandidatesDistinct(ctx: Context, lane: Option<nat>, entries: seq<Entry>, link: LinkId, metric: nat)
    requires OneMetric(entries, link, metric)
    ensures DistinctSources(Collect(ctx, lane, entries))
  {
    var cs := Collect(ctx, lane, entries);
    forall a, b | a in cs && b in cs && a.source == b.source
      ensures a == b
    {
      var i := CollectFrom(ctx, lane, entries, a);
      var j := CollectFrom(ctx, lane, entries, b);
      assert entries[i].key == entries[j].key;
    }
  }

  lemma {:induction false} Collected(ctx: Context, lane: Option<nat>, entries: seq<Entry>, i: nat)
    requires i < |entries| && CandidateOf(ctx, lane, entries[i]).Some?
    ensures CandidateOf(ctx, lane, entries[i]).value in Collect(ctx, lane, entries)
  {
    var n := |entries| - 1;
    if i < n {
      Collected(ctx, lane, entries[..n], i);
    }
  }

  lemma SameCandidates(ctx: Context, lane: Option<nat>, a: seq<Entry>, b: seq<Entry>, c: Candidate)
    requires (forall e :: e in a <==> e in b) && c in Collect(ctx, lane, a)
    ensures c in Collect(ctx, lane, b)
  {
    var i := CollectFrom(ctx, lane, a, c);
    assert a[i] in b;
    var j :| 0 <= j < |b| && b[j] == a[i];
    Collected(ctx, lane, b, j);
  }

  /** The order in which streams are enumerated does not show in the result. */
  lemma {:induction false} OrderIrrelevant(ctx: Context, supported: bool, lane: Option<nat>, a: seq<Entry>,
                                           b: seq<Entry>, link: LinkId, metric: nat)
    requires OneMetric(a, link, metric) && (forall e :: e in a <==> e in b) && Tolerance(ctx.rule) >= 0.0
    ensures Assess(ctx, supported, lane, a) == Assess(ctx, supported, lane, b)
  {
    SameAny(ctx, lane, a, b);
    SameAny(ctx, lane, b, a);
    var cs, ds := Collect(ctx, lane, a), Collect(ctx, lane, b);
    forall c
      ensures c in cs <==> c in ds
    {
      if c in cs {
        SameCandidates(ctx, lane, a, b, c);
      }
      if c in ds {
        SameCandidates(ctx, lane, b, a, c);
      }
    }
    assert |cs| == 0 || cs[0] in ds;
    assert |ds| == 0 || ds[0] in cs;
    if cs != [] {
      CandidatesDistinct(ctx, lane, a, link, metric);
      OnlyTopMatters(cs, ds, ctx.rule);
    }
  }

  lemma SameAny(ctx: Context, lane: Option<nat>, a: seq<Entry>, b: seq<Entry>)
    requires forall e :: e in a ==> e in b
    ensures AnyRecord(ctx, lane, a) ==> AnyRecord(ctx, lane, b)
    ensures AnyFresh(ctx, lane, a) ==> AnyFresh(ctx, lane, b)
  {
    if AnyRecord(ctx, lane, a) {
      var i :| 0 <= i < |a| && HasRecord(ctx, lane, a[i]);
      assert a[i] in b;
    }
    if AnyFresh(ctx, lane, a) {
      var i :| 0 <= i < |a| && HasFresh(ctx, lane, a[i]);
      assert a[i] in b;
    }
  }

  // -------------------------------------------------------------------- the link

  datatype Metric = Metric(ctx: Context, supported: bool, lanes: nat, entries: seq<Entry>)

  ghost predicate LaneStates(m: Metric, states: seq<Quality>) {
    |states| == m.lanes && forall i :: 0 <= i < m.lanes ==> states[i] == Assess(m.ctx, m.supported, Some(i), m.entries)
  }

  ghost predicate RolledUp(t: Table, states: seq<Quality>, state: Quality) {
    exists worst :: IsAggregate(t, states, worst, state)
  }

  /** The state of a metric: of the lane asked for, or of the link as a whole, or rolled up over the declared lanes. */
  ghost predicate MetricIs(t: Table, asked: Option<nat>, m: Metric, state: Quality) {
    if asked.Some? || m.lanes == 0 then state == Assess(m.ctx, m.supported, asked, m.entries)
    else exists states :: LaneStates(m, states) && RolledUp(t, states, state)
  }

  method AssessLanes(m: Metric) returns (states: seq<Quality>)
    ensures LaneStates(m, states)
  {
    states := [];
    for i := 0 to m.lanes
      invariant |states| == i
      invariant forall j :: 0 <= j < i ==> states[j] == Assess(m.ctx, m.supported, Some(j), m.entries)
    {
      var q := AssessLane(m.ctx, m.supported, Some(i), m.entries);
      states := states + [q];
    }
  }

  method AssessMetric(t: Table, asked: Option<nat>, m: Metric) returns (state: Quality)
    ensures MetricIs(t, asked, m, state)
  {
    if asked.Some? || m.lanes == 0 {
      state := AssessLane(m.ctx, m.supported, asked, m.entries);
    } else {
      var states := AssessLanes(m);
      state := AggregateLanes(t, states);
      assert RolledUp(t, states, state);
    }
  }

  ghost predicate MetricsAre(t: Table, asked: Option<nat>, metrics: seq<Metric>, states: seq<Quality>) {
    |states| == |metrics| && forall k :: 0 <= k < |metrics| ==> MetricIs(t, asked, metrics[k], states[k])
  }

  /** The overall state: the worst of the metrics, unless a conflict is to dominate. */
  ghost predicate OverallIs(t: Table, states: seq<Quality>, conflictingDominates: bool, overall: Quality) {
    if states == [] then overall == Unsupported
    else if conflictingDominates && Conflicting in states then overall == Conflicting
    else IsWorst(t, states, overall)
  }

  method AssessMetrics(t: Table, asked: Option<nat>, metrics: seq<Metric>)
    returns (states: seq<Quality>, anyConflict: bool)
    ensures MetricsAre(t, asked, metrics, states) && (anyConflict <==> Conflicting in states)
  {
    states, anyConflict := [], false;
    for k := 0 to |metrics|
      invariant MetricsAre(t, asked, metrics[..k], states) && (anyConflict <==> Conflicting in states)
    {
      var q := AssessMetric(t, asked, metrics[k]);
      MetricsNext(t, asked, metrics, k, states, q);
      states := states + [q];
      if q == Conflicting {
        anyConflict := true;
      }
    }
    assert metrics[..|metrics|] == metrics;
  }

  lemma MetricsNext(t: Table, asked: Option<nat>, metrics: seq<Metric>, k: nat, states: seq<Quality>, q: Quality)
    requires k < |metrics| && MetricsAre(t, asked, metrics[..k], states) && MetricIs(t, asked, metrics[k], q)
    ensures MetricsAre(t, asked, metrics[..k + 1], states + [q])
  {
    var more := states + [q];
    forall j | 0 <= j < k + 1
      ensures MetricIs(t, asked, metrics[..k + 1][j], more[j])
    {
      if j < k {
        assert metrics[..k + 1][j] == metrics[..k][j] && more[j] == states[j];
      }
    }
  }

  method ClassifyLink(t: Table, asked: Option<nat>, metrics: seq<Metric>, conflictingDominates: bool)
    returns (overall: Quality)
    ensures exists states ::
      MetricsAre(t, asked, metrics, states) && OverallIs(t, states, conflictingDominates, overall)
  {
    var states, anyConflict := AssessMetrics(t, asked, metrics);
    if metrics == [] {
      overall := Unsupported;
    } else {
      overall := WorstMetric(t, states);
      if anyConflict && conflictingDominates {
        overall := Conflicting;
      }
    }
    assert OverallIs(t, states, conflictingDominates, overall);
  }

  /** A record backs one of the lanes that make up the metric's state. */
  ghost predicate MetricBacked(asked: Option<nat>, m: Metric, log: Log) {
    if asked.Some? || m.lanes == 0 then Backed(m.ctx, asked, m.entries, log)
    else exists i: nat :: i < m.lanes && Backed(m.ctx, Some(i), m.entries, log)
  }

  lemma MetricNeedsBacking(t: Table, limits: Limits, asked: Option<nat>, m: Metric, state: Quality, log: Log)
    requires AllIngested(limits, m.ctx, m.entries, log) && MetricIs(t, asked, m, state) && BandState(state)
    ensures MetricBacked(asked, m, log)
  {
    if asked.Some? || m.lanes == 0 {
      BandNeedsBacking(limits, m.ctx, m.supported, asked, m.entries, log);
    } else {
      var states :| LaneStates(m, states) && RolledUp(t, states, state);
      var worst :| IsAggregate(t, states, worst, state);
      MissingLaneShows(t, states, worst, state);
      var i :| 0 <= i < |states| && states[i] == state;
      BandNeedsBacking(limits, m.ctx, m.supported, Some(i), m.entries, log);
    }
  }

  /**
   Through every policy, severity table and roll-up: a link whose overall state is one
   only a band can give has a metric and a lane with a record behind it that is live, of
   this process and fresh, and a counter's rate is measured between two records of it.
   */
  lemma {:induction false} OverallBacked(t: Table, limits: Limits, asked: Option<nat>, metrics: seq<Metric>,
                                         states: seq<Quality>, conflictingDominates: bool, overall: Quality, log: Log)
    requires forall k :: 0 <= k < |metrics| ==> AllIngested(limits, metrics[k].ctx, metrics[k].entries, log)
    requires MetricsAre(t, asked, metrics, states) && OverallIs(t, states, conflictingDominates, overall)
    requires BandState(overall)
    ensures exists k :: 0 <= k < |metrics| && MetricBacked(asked, metrics[k], log)
  {
    var k :| 0 <= k < |states| && states[k] == overall;
    MetricNeedsBacking(t, limits, asked, metrics[k], overall, log);
  }
}
