/**
 Where a rate comes from: the live tracker and the one rebuilt for an earlier instant
 only ever admit a rate between two records that arrived in the stream, over exactly
 their difference in value and in observation time. Streams restored from snapshots are
 included: they differ by seeded windows, in any order with arrivals.

 Main results: `AsOfMeasured` and `StoreRunBuilt`.
 */
module MeasuredRates {
  import opened Bytes
  import opened Optional
  import opened Evidence
  import opened EvidenceStream
  import opened EvidenceSnapshot
  import opened EvidenceAsOf
  import opened StoreModel
  import Counter

  // ------------------------------------------------------------- how a stream is built

  /** What changes a stream: a record arrives, live or replayed, or a saved window is put back. */
  datatype Change = Arrives(arrival: Arrival) | Reseeds(entries: seq<(nat, nat)>)

  ghost function Changed(limits: Limits, s: Stream, change: Change): Stream {
    match change
    case Arrives(a) => Append(limits, s, a.evidence, a.cfg)
    case Reseeds(entries) => Seed(limits, s, entries)
  }

  ghost function Built(limits: Limits, changes: seq<Change>): Stream {
    if changes == [] then EmptyStream
    else Changed(limits, Built(limits, changes[..|changes| - 1]), changes[|changes| - 1])
  }

  function ArrivalsOf(changes: seq<Change>): seq<Arrival> {
    if changes == [] then []
    else
      var front, last := ArrivalsOf(changes[..|changes| - 1]), changes[|changes| - 1];
      if last.Arrives? then front + [last.arrival] else front
  }

  lemma AdmissibleFront(key: Key, changes: seq<Change>)
    requires changes != [] && AllAdmissible(key, ArrivalsOf(changes))
    ensures AllAdmissible(key, ArrivalsOf(changes[..|changes| - 1]))
    ensures changes[|changes| - 1].Arrives? ==>
              Admissible(key, changes[|changes| - 1].arrival.evidence.observation)
  {
    var front, last := ArrivalsOf(changes[..|changes| - 1]), changes[|changes| - 1];
    forall i | 0 <= i < |front|
      ensures Admissible(key, front[i].evidence.observation)
    {
      assert ArrivalsOf(changes)[i] == front[i];
    }
    if last.Arrives? {
      assert ArrivalsOf(changes)[|front|] == last.arrival;
    }
  }

  // ---------------------------------------------------------------- measured deltas

  predicate CounterOf(key: Key, e: Evidence) { Admissible(key, e.observation) && e.observation.sample.CounterSample? }

  predicate DeclaresReset(e: Evidence) { e.observation.sample.CounterSample? && e.observation.sample.resetDeclared }

  /**
   The delta is what lies between the two counts; across a wrap, one modulus more. The
   later record declares no reset. The interval is the one between the two observation
   times, unless that is too large to represent.
   */
  ghost predicate Measured(d: Counter.Delta, a: Observation, b: Observation)
    requires a.sample.CounterSample? && b.sample.CounterSample?
  {
    && a.sequence <= b.sequence && a.sample.width == b.sample.width && !b.sample.resetDeclared
    && a.sample.count + d.delta == b.sample.count + (if d.fromWrap then Counter.Modulus(b.sample.width) else 0)
    && (d.fromWrap <==> b.sample.count < a.sample.count) && (d.fromWrap ==> b.sample.width != Counter.Unspecified)
    && !d.spansGap && 0 < d.elapsed && (d.elapsed == b.observed - a.observed || d.elapsed == Counter.I64_MAX)
  }

  /** The tracker's delta was measured to this record, from one among these. */
  ghost predicate MeasuredTo(t: Counter.Tracker, key: Key, es: seq<Evidence>, b: Evidence) {
    && t.delta.Some? && CounterOf(key, b)
    && exists p :: p in es && CounterOf(key, p) && Measured(t.delta.value, p.observation, b.observation)
  }

  /** The baseline is a record among these. */
  ghost predicate BaseIn(t: Counter.Tracker, key: Key, es: seq<Evidence>) {
    t.hasBaseline ==> exists b :: b in es && CounterOf(key, b) && CounterReading(b.observation) == t.last
  }

  /** An admissible rate is measured between two records among these. */
  ghost predicate RateIn(t: Counter.Tracker, key: Key, es: seq<Evidence>) {
    t.rateAdmissible ==> exists b :: b in es && MeasuredTo(t, key, es, b)
  }

  /** What was fed last shows: a rate is measured to it, and there is no delta if it declares a reset. */
  ghost predicate Shows(t: Counter.Tracker, newest: Option<Evidence>, key: Key, es: seq<Evidence>) {
    newest.Some? && newest.value.observation.sample.CounterSample? ==>
      && (t.rateAdmissible ==> MeasuredTo(t, key, es, newest.value))
      && (DeclaresReset(newest.value) ==> t.delta.None? && !t.rateAdmissible)
  }

  ghost predicate WellMeasured(t: Counter.Tracker, newest: Option<Evidence>, key: Key, es: seq<Evidence>) {
    BaseIn(t, key, es) && RateIn(t, key, es) && Shows(t, newest, key, es)
  }

  lemma InMore(t: Counter.Tracker, newest: Option<Evidence>, key: Key, es: seq<Evidence>, more: seq<Evidence>)
    requires WellMeasured(t, newest, key, es) && forall e :: e in es ==> e in more
    ensures WellMeasured(t, newest, key, more)
  {
    forall b | MeasuredTo(t, key, es, b)
      ensures MeasuredTo(t, key, more, b)
    {
    }
  }

  lemma StepInterval(t: Counter.Tracker, r: Counter.Reading, cfg: Counter.Config)
    requires Counter.Observe(t, r, cfg).rateAdmissible
    ensures
      var d := Counter.Observe(t, r, cfg).delta;
      && d.Some? && !d.value.spansGap && 0 < d.value.elapsed
      && (d.value.elapsed == r.observed - t.last.observed || d.value.elapsed == Counter.I64_MAX)
  {
  }

  /** One step from the reading of an earlier record. */
  lemma StepMeasured(t: Counter.Tracker, key: Key, p: Evidence, e: Evidence, cfg: Counter.Config)
    requires t.hasBaseline && CounterOf(key, p) && CounterReading(p.observation) == t.last && CounterOf(key, e)
    ensures
      var t' := Counter.Observe(t, CounterReading(e.observation), cfg);
      && (DeclaresReset(e) ==> t'.delta.None?)
      && (t'.rateAdmissible ==> t'.delta.Some? && Measured(t'.delta.value, p.observation, e.observation))
  {
    var r := CounterReading(e.observation);
    Counter.DeltaExactlyWhen(t, r, cfg);
    if Counter.Observe(t, r, cfg).rateAdmissible {
      StepInterval(t, r, cfg);
      Counter.DeltaExact(t, r, cfg);
    }
  }

  lemma FeedIn(t: Counter.Tracker, key: Key, es: seq<Evidence>, e: Evidence, cfg: Counter.Config)
    requires BaseIn(t, key, es) && CounterOf(key, e)
    ensures WellMeasured(Counter.Observe(t, CounterReading(e.observation), cfg), Some(e), key, es + [e])
  {
    var t', more := Counter.Observe(t, CounterReading(e.observation), cfg), es + [e];
    assert e in more && forall x :: x in es ==> x in more;
    if t.hasBaseline {
      var p :| p in es && CounterOf(key, p) && CounterReading(p.observation) == t.last;
      StepMeasured(t, key, p, e, cfg);
      assert t'.rateAdmissible ==> MeasuredTo(t', key, more, e);
    }
  }

  // ------------------------------------------------------------- the live tracker

  ghost predicate LiveMeasured(s: Stream, key: Key, es: seq<Evidence>) {
    WellMeasured(s.tracker, s.latestFed, key, es)
  }

  lemma AppendMeasured(limits: Limits, s: Stream, key: Key, es: seq<Evidence>, e: Evidence, cfg: Counter.Config)
    requires LiveMeasured(s, key, es) && Admissible(key, e.observation)
    ensures LiveMeasured(Append(limits, s, e, cfg), key, es + [e])
  {
    InMore(s.tracker, s.latestFed, key, es, es + [e]);
    if e.observation.sample.CounterSample? {
      FeedIn(s.tracker, key, es, e, cfg);
    }
  }

  lemma SeedMeasured(limits: Limits, s: Stream, key: Key, es: seq<Evidence>, entries: seq<(nat, nat)>)
    requires LiveMeasured(s, key, es)
    ensures LiveMeasured(Seed(limits, s, entries), key, es)
  {
    SeedAllKeeps(s, entries);
  }

  lemma {:induction false} BuiltMeasured(limits: Limits, key: Key, changes: seq<Change>)
    requires AllAdmissible(key, ArrivalsOf(changes))
    ensures LiveMeasured(Built(limits, changes), key, Records(ArrivalsOf(changes)))
  {
    if changes != [] {
      var front, last := changes[..|changes| - 1], changes[|changes| - 1];
      AdmissibleFront(key, changes);
      BuiltMeasured(limits, key, front);
      var s, es := Built(limits, front), Records(ArrivalsOf(front));
      match last
      case Arrives(a) =>
        AppendMeasured(limits, s, key, es, a.evidence, a.cfg);
        assert Records(ArrivalsOf(changes)) == es + [a.evidence];
      case Reseeds(entries) => SeedMeasured(limits, s, key, es, entries);
    }
  }

  // ---------------------------------------------------------- the rebuilt tracker

  lemma {:induction false} ReconstructMeasured(key: Key, es: seq<Evidence>, now: Instant, cfg: Counter.Config)
    requires forall e :: e in es ==> Admissible(key, e.observation)
    ensures WellMeasured(Reconstruct(es, now, cfg), NewestIn(es, now), key, es)
  {
    if es != [] {
      var front, e := es[..|es| - 1], es[|es| - 1];
      ReconstructMeasured(key, front, now, cfg);
      assert es == front + [e];
      InMore(Reconstruct(front, now, cfg), NewestIn(front, now), key, front, es);
      if e.observation.sample.CounterSample? {
        FeedIn(Reconstruct(front, now, cfg), key, front, e, cfg);
      }
    }
  }

  lemma {:induction false} RecentArrived(limits: Limits, changes: seq<Change>)
    ensures forall e :: e in Built(limits, changes).recent ==> e in Records(ArrivalsOf(changes))
  {
    if changes != [] {
      var front, last := changes[..|changes| - 1], changes[|changes| - 1];
      RecentArrived(limits, front);
      match last
      case Arrives(a) => assert Records(ArrivalsOf(changes)) == Records(ArrivalsOf(front)) + [a.evidence];
      case Reseeds(entries) => SeedAllKeeps(Built(limits, front), entries);
    }
  }

  lemma RecentAdmissible(limits: Limits, key: Key, changes: seq<Change>)
    requires AllAdmissible(key, ArrivalsOf(changes))
    ensures forall e :: e in Built(limits, changes).recent ==> Admissible(key, e.observation)
  {
    RecentArrived(limits, changes);
  }

  /**
   A rate given for any instant is measured to the newest record visible then, from
   another record that arrived in the same stream, before or after any restart; and if
   that newest record declares a reset there is no delta at all.
   */
  lemma {:induction false} AsOfMeasured(limits: Limits, key: Key, changes: seq<Change>, now: Instant,
                                        cfg: Counter.Config)
    requires AllAdmissible(key, ArrivalsOf(changes))
    ensures
      var s := Built(limits, changes);
      WellMeasured(AsOf(s, now, cfg), NewestAtOrBefore(s, now), key, Records(ArrivalsOf(changes)))
  {
    var s, es := Built(limits, changes), Records(ArrivalsOf(changes));
    BuiltMeasured(limits, key, changes);
    RecentArrived(limits, changes);
    RecentAdmissible(limits, key, changes);
    ReconstructMeasured(key, s.recent, now, cfg);
    InMore(Reconstruct(s.recent, now, cfg), NewestIn(s.recent, now), key, s.recent, es);
  }

  // ------------------------------------------------ every stream of a store is built so

  /** The stream came about by arrivals of its own records and by seeding. */
  ghost predicate IsBuilt(limits: Limits, key: Key, s: Stream) {
    exists changes :: s == Built(limits, changes) && AllAdmissible(key, ArrivalsOf(changes))
  }

  lemma BuiltNext(limits: Limits, changes: seq<Change>, change: Change)
    ensures Built(limits, changes + [change]) == Changed(limits, Built(limits, changes), change)
    ensures ArrivalsOf(changes + [change]) == ArrivalsOf(changes) + (if change.Arrives? then [change.arrival] else [])
  {
    assert (changes + [change])[..|changes|] == changes;
  }

  lemma ChangedBuilt(limits: Limits, key: Key, s: Stream, change: Change)
    requires IsBuilt(limits, key, s) && (change.Arrives? ==> Admissible(key, change.arrival.evidence.observation))
    ensures IsBuilt(limits, key, Changed(limits, s, change))
  {
    var changes :| s == Built(limits, changes) && AllAdmissible(key, ArrivalsOf(changes));
    BuiltNext(limits, changes, change);
    assert Changed(limits, s, change) == Built(limits, changes + [change]);
  }

  lemma EmptyBuilt(limits: Limits, key: Key)
    ensures IsBuilt(limits, key, EmptyStream)
  {
    assert Built(limits, []) == EmptyStream;
  }

  ghost predicate StoreBuilt(limits: Limits, store: Store) {
    forall k :: k in store.streams ==> IsBuilt(limits, k, store.streams[k])
  }

  predicate OwnAdmissible(e: Evidence) { Admissible(e.observation.key, e.observation) }

  lemma StreamBuilt(limits: Limits, store: Store, key: Key)
    requires StoreBuilt(limits, store)
    ensures IsBuilt(limits, key, StreamOf(store, key))
  {
    EmptyBuilt(limits, key);
  }

  lemma AppendBuilt(limits: Limits, store: Store, e: Evidence, cfg: Counter.Config)
    requires StoreBuilt(limits, store) && OwnAdmissible(e)
    ensures StoreBuilt(limits, StoreAppend(limits, store, e, cfg))
  {
    var key := e.observation.key;
    StreamBuilt(limits, store, key);
    ChangedBuilt(limits, key, StreamOf(store, key), Arrives(Arrival(e, cfg)));
  }

  lemma SeedBuilt(limits: Limits, store: Store, key: Key, entries: seq<(nat, nat)>)
    requires StoreBuilt(limits, store)
    ensures StoreBuilt(limits, StoreSeed(limits, store, key, entries))
  {
    StreamBuilt(limits, store, key);
    ChangedBuilt(limits, key, StreamOf(store, key), Reseeds(entries));
  }

  lemma {:induction false} RecordsBuilt(limits: Limits, records: seq<Evidence>, cfgOf: Key -> Counter.Config)
    requires forall e :: e in records ==> OwnAdmissible(e)
    ensures StoreBuilt(limits, ReplayRecords(limits, records, cfgOf))
  {
    if records != [] {
      var last := records[|records| - 1];
      assert last in records;
      RecordsBuilt(limits, records[..|records| - 1], cfgOf);
      AppendBuilt(limits, ReplayRecords(limits, records[..|records| - 1], cfgOf), AsRecovered(last),
                  cfgOf(last.observation.key));
    }
  }

  lemma {:induction false} SeedsBuilt(limits: Limits, before: Store, seeds: seq<SeedRecord>)
    requires StoreBuilt(limits, before)
    ensures StoreBuilt(limits, ReplaySeeds(limits, before, seeds))
  {
    if seeds != [] {
      var last := seeds[|seeds| - 1];
      SeedsBuilt(limits, before, seeds[..|seeds| - 1]);
      SeedBuilt(limits, ReplaySeeds(limits, before, seeds[..|seeds| - 1]), last.key, last.entries);
    }
  }

  /** Evidence of the run, ingested or loaded, is admissible in the stream it belongs to. */
  ghost predicate AllOwn(ops: seq<Op>) {
    forall i :: 0 <= i < |ops| ==>
      && (ops[i].Ingest? ==> OwnAdmissible(ops[i].arrival.evidence))
      && (ops[i].Reload? ==> forall e :: e in ops[i].records ==> OwnAdmissible(e))
  }

  /** Through any ingests, drops and restarts, whatever they lost, every stream is one of these. */
  lemma {:induction false} StoreRunBuilt(limits: Limits, ops: seq<Op>)
    requires AllOwn(ops)
    ensures StoreBuilt(limits, StoreRun(limits, ops))
  {
    if ops != [] {
      var before, last := StoreRun(limits, ops[..|ops| - 1]), ops[|ops| - 1];
      StoreRunBuilt(limits, ops[..|ops| - 1]);
      match last
      case Ingest(a) => AppendBuilt(limits, before, a.evidence, a.cfg);
      case Drop(link) =>
      case Reload(records, seeds, cfgOf) =>
        RecordsBuilt(limits, records, cfgOf);
        SeedsBuilt(limits, ReplayRecords(limits, records, cfgOf), seeds);
    }
  }
}
