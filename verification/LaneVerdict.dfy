/**
 What the state of a lane is, told from the stored records and the rule alone: who
 contributes which value, which of them count, and which band decides.

 Main results: `AssessExactly` and `BandedExactly`.
 */
module LaneVerdict {
  import opened Optional
  import opened Evidence
  import opened EvidenceStream
  import opened EvidenceAsOf
  import opened Severity
  import opened Bands
  import opened Classifier
  import opened LinkQuality
  import Counter

  // ------------------------------------------------------------ who contributes what

  /** A declared source has a record for the lane at the instant asked for. */
  predicate Known(ctx: Context, lane: Option<nat>, entry: Entry) {
    entry.key.lane == lane && entry.key.source in ctx.declared && NewestAtOrBefore(entry.stream, ctx.now).Some?
  }

  /** Received live, by this process, and no longer ago than its source is good for. */
  predicate Current(ctx: Context, lane: Option<nat>, entry: Entry) {
    Known(ctx, lane, entry) &&
    var e, validity := NewestAtOrBefore(entry.stream, ctx.now).value, ctx.validityOf(entry.key.source);
    e.origin == Live && e.received.epoch == ctx.now.epoch && 0 < validity
    && ctx.now.steady - e.received.steady <= validity
  }

  /** A gauge counts as read; a counter by what it moved per second, over an interval neither too short nor too long. */
  predicate Reads(ctx: Context, entry: Entry, e: Evidence, value: real) {
    if e.observation.sample.Gauge? then value == e.observation.sample.value
    else
      var t := AsOf(entry.stream, ctx.now, ctx.cfg);
      && t.rateAdmissible && t.delta.Some?
      && var d := t.delta.value;
         && ctx.minInterval <= d.elapsed && 0 < d.elapsed <= ctx.validityOf(entry.key.source)
         && value * d.elapsed as real == d.delta as real * 1000000000.0
  }

  predicate Gives(ctx: Context, lane: Option<nat>, entry: Entry, c: Candidate) {
    Current(ctx, lane, entry) &&
    var e := NewestAtOrBefore(entry.stream, ctx.now).value;
    c.source == entry.key.source && c.authority == e.observation.authority && c.sequence == e.observation.sequence
    && Reads(ctx, entry, e, c.value)
  }

  lemma Quotient(x: real, y: real, value: real)
    requires y > 0.0
    ensures value * y == x <==> value == x / y
  {
  }

  lemma ReadsExactly(ctx: Context, entry: Entry, e: Evidence, value: real)
    ensures ValueOf(ctx, entry, e) == Some(value) <==> Reads(ctx, entry, e, value)
  {
    if e.observation.sample.CounterSample? {
      var t := AsOf(entry.stream, ctx.now, ctx.cfg);
      if t.delta.Some? && t.delta.value.elapsed > 0 {
        Quotient(t.delta.value.delta as real * 1000000000.0, t.delta.value.elapsed as real, value);
      }
    }
  }

  lemma CandidateExactly(ctx: Context, lane: Option<nat>, entry: Entry, c: Candidate)
    ensures HasRecord(ctx, lane, entry) <==> Known(ctx, lane, entry)
    ensures HasFresh(ctx, lane, entry) <==> Current(ctx, lane, entry)
    ensures CandidateOf(ctx, lane, entry) == Some(c) <==> Gives(ctx, lane, entry, c)
  {
    if HasFresh(ctx, lane, entry) {
      ReadsExactly(ctx, entry, NewestAtOrBefore(entry.stream, ctx.now).value, c.value);
    }
  }

  // ---------------------------------------------------------------- which of them count

  ghost predicate Given(ctx: Context, lane: Option<nat>, entries: seq<Entry>, c: Candidate) {
    exists i :: 0 <= i < |entries| && Gives(ctx, lane, entries[i], c)
  }

  /** None given has more authority. */
  ghost predicate Foremost(ctx: Context, lane: Option<nat>, entries: seq<Entry>, c: Candidate) {
    Given(ctx, lane, entries, c) && forall d :: Given(ctx, lane, entries, d) ==> d.authority <= c.authority
  }

  /** By source identifier, then by incarnation, then by sequence number. */
  predicate Before(a: Candidate, b: Candidate) {
    if a.source.id != b.source.id then a.source.id < b.source.id
    else if a.source.incarnation != b.source.incarnation then a.source.incarnation < b.source.incarnation
    else a.sequence < b.sequence
  }

  /** The one whose value is taken. */
  ghost predicate Taken(ctx: Context, lane: Option<nat>, entries: seq<Entry>, c: Candidate) {
    Foremost(ctx, lane, entries, c) && forall d :: Foremost(ctx, lane, entries, d) ==> !Before(d, c)
  }

  /** Two of the foremost lie further apart than the rule tolerates. */
  ghost predicate Apart(ctx: Context, lane: Option<nat>, entries: seq<Entry>) {
    var tolerance := if ctx.rule.Some? then ctx.rule.value.tolerance else 0.0;
    exists a, b ::
      Foremost(ctx, lane, entries, a) && Foremost(ctx, lane, entries, b) && a.value - b.value > tolerance
  }

  /** The first band of the rule that contains the value has this state. */
  ghost predicate BandSays(rule: Option<Rule>, value: real, state: Quality) {
    rule.Some? && exists i ::
      && 0 <= i < |rule.value.bands| && Contains(rule.value.bands[i], Fin(value)) && rule.value.bands[i].state == state
      && forall j :: 0 <= j < i ==> !Contains(rule.value.bands[j], Fin(value))
  }

  ghost predicate NoBandSays(rule: Option<Rule>, value: real) {
    rule.Some? ==> forall i :: 0 <= i < |rule.value.bands| ==> !Contains(rule.value.bands[i], Fin(value))
  }

  lemma GivenExactly(ctx: Context, lane: Option<nat>, entries: seq<Entry>, c: Candidate)
    ensures c in Collect(ctx, lane, entries) <==> Given(ctx, lane, entries, c)
  {
    if c in Collect(ctx, lane, entries) {
      var i := CollectFrom(ctx, lane, entries, c);
      CandidateExactly(ctx, lane, entries[i], c);
    }
    if Given(ctx, lane, entries, c) {
      var i :| 0 <= i < |entries| && Gives(ctx, lane, entries[i], c);
      CandidateExactly(ctx, lane, entries[i], c);
      Collected(ctx, lane, entries, i);
    }
  }

  lemma ForemostExactly(ctx: Context, lane: Option<nat>, entries: seq<Entry>, c: Candidate)
    ensures Top(Collect(ctx, lane, entries), c) <==> Foremost(ctx, lane, entries, c)
  {
    forall d
      ensures d in Collect(ctx, lane, entries) <==> Given(ctx, lane, entries, d)
    {
      GivenExactly(ctx, lane, entries, d);
    }
  }

  lemma AllForemost(ctx: Context, lane: Option<nat>, entries: seq<Entry>)
    ensures forall c :: Top(Collect(ctx, lane, entries), c) <==> Foremost(ctx, lane, entries, c)
  {
    forall c
      ensures Top(Collect(ctx, lane, entries), c) <==> Foremost(ctx, lane, entries, c)
    {
      ForemostExactly(ctx, lane, entries, c);
    }
  }

  lemma ApartExactly(ctx: Context, lane: Option<nat>, entries: seq<Entry>)
    ensures Disagree(Collect(ctx, lane, entries), Tolerance(ctx.rule)) <==> Apart(ctx, lane, entries)
  {
    AllForemost(ctx, lane, entries);
  }

  lemma FirstTaken(ctx: Context, lane: Option<nat>, entries: seq<Entry>)
    requires Collect(ctx, lane, entries) != []
    ensures
      var cs := Collect(ctx, lane, entries);
      Winners(cs) != [] && Taken(ctx, lane, entries, First(Winners(cs)))
  {
    var cs := Collect(ctx, lane, entries);
    WinnersAreTop(cs);
    AllForemost(ctx, lane, entries);
    var c := First(Winners(cs));
    forall d | Foremost(ctx, lane, entries, d)
      ensures !Before(d, c)
    {
      assert d in Winners(cs) && !Precedes(d, c);
    }
  }

  lemma AnyExactly(ctx: Context, lane: Option<nat>, entries: seq<Entry>)
    ensures AnyRecord(ctx, lane, entries) <==> exists i :: 0 <= i < |entries| && Known(ctx, lane, entries[i])
    ensures AnyFresh(ctx, lane, entries) <==> exists i :: 0 <= i < |entries| && Current(ctx, lane, entries[i])
  {
    var c := Candidate(0.0, 0, Source(0, 0), 0);
    forall i | 0 <= i < |entries|
      ensures HasRecord(ctx, lane, entries[i]) <==> Known(ctx, lane, entries[i])
      ensures HasFresh(ctx, lane, entries[i]) <==> Current(ctx, lane, entries[i])
    {
      CandidateExactly(ctx, lane, entries[i], c);
    }
  }

  // -------------------------------------------------------------------- the verdict

  ghost predicate Silent(ctx: Context, lane: Option<nat>, entries: seq<Entry>) {
    forall c :: !Given(ctx, lane, entries, c)
  }

  lemma SilentExactly(ctx: Context, lane: Option<nat>, entries: seq<Entry>)
    ensures Collect(ctx, lane, entries) == [] <==> Silent(ctx, lane, entries)
  {
    var cs := Collect(ctx, lane, entries);
    if cs != [] {
      assert cs[0] in cs;
      GivenExactly(ctx, lane, entries, cs[0]);
    }
    forall c
      ensures c in cs <==> Given(ctx, lane, entries, c)
    {
      GivenExactly(ctx, lane, entries, c);
    }
  }

  /** A conflict, or what the band of the value taken says, or nothing that can be said. */
  ghost predicate JudgedAs(ctx: Context, lane: Option<nat>, entries: seq<Entry>, state: Quality) {
    if Apart(ctx, lane, entries) then state == Conflicting
    else exists c ::
      && Taken(ctx, lane, entries, c)
      && (BandSays(ctx.rule, c.value, state) || (NoBandSays(ctx.rule, c.value) && state == Unknown))
  }

  lemma JudgedExactly(ctx: Context, lane: Option<nat>, entries: seq<Entry>)
    requires Tolerance(ctx.rule) >= 0.0 && Collect(ctx, lane, entries) != []
    ensures JudgedAs(ctx, lane, entries, StateOf(Judge(Collect(ctx, lane, entries), ctx.rule)))
  {
    var cs := Collect(ctx, lane, entries);
    ConflictExactly(cs, ctx.rule);
    ApartExactly(ctx, lane, entries);
    FirstTaken(ctx, lane, entries);
    if !Apart(ctx, lane, entries) {
      assert Judge(cs, ctx.rule) == Conclude(false, First(Winners(cs)).value, ctx.rule);
    }
  }

  /** The state of a lane, case by case. */
  lemma {:induction false} AssessExactly(ctx: Context, supported: bool, lane: Option<nat>, entries: seq<Entry>)
    requires Tolerance(ctx.rule) >= 0.0
    ensures
      var state := Assess(ctx, supported, lane, entries);
      if !supported then state == Unsupported
      else if forall i :: 0 <= i < |entries| ==> !Known(ctx, lane, entries[i]) then state == Unknown
      else if forall i :: 0 <= i < |entries| ==> !Current(ctx, lane, entries[i]) then state == Stale
      else if Silent(ctx, lane, entries) then state == Incomplete
      else JudgedAs(ctx, lane, entries, state)
  {
    AnyExactly(ctx, lane, entries);
    SilentExactly(ctx, lane, entries);
    if !Silent(ctx, lane, entries) {
      JudgedExactly(ctx, lane, entries);
    }
    if forall i :: 0 <= i < |entries| ==> !Current(ctx, lane, entries[i]) {
      assert Silent(ctx, lane, entries);
    }
  }

  lemma TakenOnce(ctx: Context, lane: Option<nat>, entries: seq<Entry>, link: LinkId, metric: nat, a: Candidate,
                  b: Candidate)
    requires OneMetric(entries, link, metric) && Taken(ctx, lane, entries, a) && Taken(ctx, lane, entries, b)
    ensures a == b
  {
    GivenExactly(ctx, lane, entries, a);
    GivenExactly(ctx, lane, entries, b);
    assert !Before(a, b) && !Before(b, a);
    CandidatesDistinct(ctx, lane, entries, link, metric);
  }

  lemma BandSaysOne(rule: Option<Rule>, value: real, p: Quality, q: Quality)
    requires BandSays(rule, value, p) && (BandSays(rule, value, q) || NoBandSays(rule, value))
    ensures BandSays(rule, value, q) && p == q
  {
  }

  lemma JudgedOnce(ctx: Context, lane: Option<nat>, entries: seq<Entry>, link: LinkId, metric: nat, c: Candidate,
                   state: Quality, q: Quality)
    requires OneMetric(entries, link, metric) && !Apart(ctx, lane, entries) && JudgedAs(ctx, lane, entries, q)
    requires Taken(ctx, lane, entries, c) && BandSays(ctx.rule, c.value, state)
    ensures q == state
  {
    var d :| Taken(ctx, lane, entries, d)
      && (BandSays(ctx.rule, d.value, q) || (NoBandSays(ctx.rule, d.value) && q == Unknown));
    TakenOnce(ctx, lane, entries, link, metric, c, d);
    BandSaysOne(ctx.rule, c.value, state, q);
  }

  /** Only what is judged can be in a state only a band can give, and whatever contributes makes it judged. */
  lemma Judgeable(ctx: Context, supported: bool, lane: Option<nat>, entries: seq<Entry>)
    requires Tolerance(ctx.rule) >= 0.0
    ensures
      var q := Assess(ctx, supported, lane, entries);
      && (BandState(q) ==> supported && JudgedAs(ctx, lane, entries, q))
      && (supported && !Silent(ctx, lane, entries) ==> JudgedAs(ctx, lane, entries, q))
  {
    AssessExactly(ctx, supported, lane, entries);
  }

  /**
   A lane is Healthy, or in another state only a band can give, if and only if it is
   supported, its foremost sources agree, and the band of the value taken says so.
   */
  lemma {:induction false} BandedExactly(ctx: Context, supported: bool, lane: Option<nat>, entries: seq<Entry>,
                                         link: LinkId, metric: nat, state: Quality)
    requires OneMetric(entries, link, metric) && Tolerance(ctx.rule) >= 0.0 && BandState(state)
    ensures Assess(ctx, supported, lane, entries) == state
       <==> && supported && !Apart(ctx, lane, entries)
            && exists c :: Taken(ctx, lane, entries, c) && BandSays(ctx.rule, c.value, state)
  {
    Judgeable(ctx, supported, lane, entries);
    if supported && !Apart(ctx, lane, entries) {
      if c :| Taken(ctx, lane, entries, c) && BandSays(ctx.rule, c.value, state) {
        assert Given(ctx, lane, entries, c);
        JudgedOnce(ctx, lane, entries, link, metric, c, state, Assess(ctx, supported, lane, entries));
      }
    }
  }
}
