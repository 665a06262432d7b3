/**
 One evidence stream: duplicate detection in a bounded window, feeding the counter
 tracker, and a ring of recent records.

 Main results: `RunFaithful`, `DecisionExact`, `AcceptedTwice` and `TrackerOrderly`.
 */
module EvidenceStream {
  import opened Optional
  import opened Evidence
  import Counter

  datatype Stream = Stream(
    recent: seq<Evidence>,        // in arrival order
    dedup: map<nat, nat>,         // digest of every sequence in the window
    watermark: Option<nat>,
    fed: Option<nat>,
    tracker: Counter.Tracker,
    latestFed: Option<Evidence>)

  const EmptyStream := Stream([], map[], None, None, Counter.NewTracker, None)

  datatype Decision = Fresh | Duplicate | Mismatch | Fenced

  function Decide(limits: Limits, s: Stream, o: Observation): Decision {
    if s.watermark.None? then Fresh
    else if o.sequence in s.dedup then
      if s.dedup[o.sequence] == limits.digest(o) then Duplicate else Mismatch
    else if o.sequence + limits.window < s.watermark.value then Fenced
    else Fresh
  }

  function Raise(mark: Option<nat>, sequence: nat): Option<nat> {
    if mark.None? || sequence > mark.value then Some(sequence) else mark
  }

  /** The entries less than a window behind the watermark. */
  function Fence(dedup: map<nat, nat>, watermark: nat, window: nat): map<nat, nat> {
    map k | k in dedup && watermark < k + window :: dedup[k]
  }

  function Feeds(s: Stream, o: Observation): bool { s.fed.None? || o.sequence > s.fed.value }

  function Trim(es: seq<Evidence>, size: nat): seq<Evidence> {
    if |es| > size then es[|es| - size..] else es
  }

  function Accept(limits: Limits, s: Stream, e: Evidence, cfg: Counter.Config): Stream {
    var o := e.observation;
    var watermark := Raise(s.watermark, o.sequence);
    var feeds := Feeds(s, o);
    Stream(Trim(s.recent + [e], limits.history),
           Fence(s.dedup[o.sequence := limits.digest(o)], watermark.value, limits.window),
           watermark,
           if feeds then Some(o.sequence) else s.fed,
           if feeds && o.sample.CounterSample? then Counter.Observe(s.tracker, CounterReading(o), cfg) else s.tracker,
           if feeds then Some(e) else s.latestFed)
  }

  function Append(limits: Limits, s: Stream, e: Evidence, cfg: Counter.Config): Stream {
    if Decide(limits, s, e.observation) == Fresh then Accept(limits, s, e, cfg) else s
  }

  // ---------------------------------------------------------- the full history

  /** Every sequence ever accepted, with the digest it was last accepted with. */
  type History = map<nat, nat>

  function Remember(limits: Limits, s: Stream, history: History, o: Observation): History {
    if Decide(limits, s, o) == Fresh then history[o.sequence := limits.digest(o)] else history
  }

  /** The bounded map is the full history cut to the window; one mark serves both purposes. */
  ghost predicate Faithful(limits: Limits, s: Stream, history: History) {
    && s.fed == s.watermark
    && (s.watermark.None? ==> history == map[] && s.dedup == map[] && s.latestFed.None?)
    && (s.watermark.Some? ==>
          && s.watermark.value in history
          && (forall k :: k in history ==> k <= s.watermark.value)
          && s.dedup == Fence(history, s.watermark.value, limits.window)
          && s.latestFed.Some? && s.latestFed.value.observation.sequence == s.watermark.value)
  }

  lemma AcceptFaithful(limits: Limits, s: Stream, history: History, e: Evidence, cfg: Counter.Config)
    requires Faithful(limits, s, history) && Decide(limits, s, e.observation) == Fresh
    ensures Faithful(limits, Accept(limits, s, e, cfg), history[e.observation.sequence := limits.digest(e.observation)])
  {
    var o := e.observation;
    var history' := history[o.sequence := limits.digest(o)];
    var mark := Raise(s.watermark, o.sequence).value;
    assert Fence(s.dedup[o.sequence := limits.digest(o)], mark, limits.window) == Fence(history', mark, limits.window);
  }

  lemma AppendFaithful(limits: Limits, s: Stream, history: History, e: Evidence, cfg: Counter.Config)
    requires Faithful(limits, s, history)
    ensures Faithful(limits, Append(limits, s, e, cfg), Remember(limits, s, history, e.observation))
  {
    if Decide(limits, s, e.observation) == Fresh {
      AcceptFaithful(limits, s, history, e, cfg);
    }
  }

  // -------------------------------------------------------------------- runs

  // An observation together with the configuration in force when it arrives.
  datatype Arrival = Arrival(evidence: Evidence, cfg: Counter.Config)

  function Run(limits: Limits, arrivals: seq<Arrival>): Stream {
    if arrivals == [] then EmptyStream
    else
      var last := arrivals[|arrivals| - 1];
      Append(limits, Run(limits, arrivals[..|arrivals| - 1]), last.evidence, last.cfg)
  }

  function Accepted(limits: Limits, arrivals: seq<Arrival>): History {
    if arrivals == [] then map[]
    else
      var front := arrivals[..|arrivals| - 1];
      Remember(limits, Run(limits, front), Accepted(limits, front), arrivals[|arrivals| - 1].evidence.observation)
  }

  lemma RunExtend(limits: Limits, arrivals: seq<Arrival>, next: Arrival)
    ensures Run(limits, arrivals + [next]) == Append(limits, Run(limits, arrivals), next.evidence, next.cfg)
  {
    assert (arrivals + [next])[..|arrivals|] == arrivals;
  }

  lemma {:induction false} RunFaithful(limits: Limits, arrivals: seq<Arrival>)
    ensures Faithful(limits, Run(limits, arrivals), Accepted(limits, arrivals))
  {
    if arrivals != [] {
      var front, last := arrivals[..|arrivals| - 1], arrivals[|arrivals| - 1];
      RunFaithful(limits, front);
      AppendFaithful(limits, Run(limits, front), Accepted(limits, front), last.evidence, last.cfg);
    }
  }

  // --------------------------------------------- decisions of an unbounded store

  /** What a store would decide that fences first and forgets nothing. */
  function FullDecide(limits: Limits, history: History, watermark: Option<nat>, o: Observation): Decision {
    if watermark.Some? && o.sequence + limits.window < watermark.value then Fenced
    else if o.sequence in history then
      if history[o.sequence] == limits.digest(o) then Duplicate else Mismatch
    else Fresh
  }

  /**
   The bounded store decides as the unbounded one does, except for a sequence it
   accepted before that is now exactly one window behind the watermark.
   */
  lemma {:induction false} DecisionExact(limits: Limits, arrivals: seq<Arrival>, o: Observation)
    requires ValidLimits(limits)
    ensures
      var s, history := Run(limits, arrivals), Accepted(limits, arrivals);
      Decide(limits, s, o) == FullDecide(limits, history, s.watermark, o)
      <==> !(s.watermark.Some? && o.sequence in history && o.sequence + limits.window == s.watermark.value)
  {
    RunFaithful(limits, arrivals);
  }

  /** A sequence is accepted again only at exactly that distance, and then always. */
  lemma {:induction false} AcceptedTwice(limits: Limits, arrivals: seq<Arrival>, o: Observation)
    requires ValidLimits(limits) && o.sequence in Accepted(limits, arrivals)
    ensures
      var s := Run(limits, arrivals);
      s.watermark.Some? && (Decide(limits, s, o) == Fresh <==> o.sequence + limits.window == s.watermark.value)
  {
    RunFaithful(limits, arrivals);
  }

  /** It does happen: one sequence, a jump by the window, and the first one again. */
  lemma AcceptedTwiceHappens(limits: Limits, a: Arrival, b: Arrival)
    requires ValidLimits(limits)
    requires b.evidence.observation.sequence == a.evidence.observation.sequence + limits.window
    ensures Decide(limits, Run(limits, [a, b]), a.evidence.observation) == Fresh
    ensures a.evidence.observation.sequence in Accepted(limits, [a, b])
  {
    assert [a, b][..1] == [a] && [a][..0] == [];
    assert Run(limits, [a]) == Append(limits, EmptyStream, a.evidence, a.cfg);
    assert Run(limits, [a, b]) == Append(limits, Run(limits, [a]), b.evidence, b.cfg);
    assert Accepted(limits, [a]) == map[a.evidence.observation.sequence := limits.digest(a.evidence.observation)];
  }

  /** The window never holds more entries than it is wide. */
  lemma {:induction false} WindowBounded(limits: Limits, arrivals: seq<Arrival>)
    ensures |Run(limits, arrivals).dedup| <= limits.window
  {
    RunFaithful(limits, arrivals);
    var s := Run(limits, arrivals);
    if s.watermark.Some? {
      InWindow(s.dedup.Keys, s.watermark.value, limits.window);
    }
  }

  /** Numbers less than `window` behind `top` and not above it are at most `window` many. */
  lemma {:induction false} InWindow(keys: set<nat>, top: nat, window: nat)
    requires forall k :: k in keys ==> k <= top < k + window
    ensures |keys| <= window
  {
    if window == 0 {
      assert keys == {};
    } else if top in keys {
      var rest := keys - {top};
      assert |keys| == |rest| + 1;
      if rest != {} {
        assert top > 0;
        InWindow(rest, top - 1, window - 1);
      }
    } else if keys != {} {
      InWindow(keys, top - 1, window);
    }
  }

  // -------------------------------------------------- what the tracker is fed

  /** The counter readings fed so far, oldest first. */
  function Fed(limits: Limits, arrivals: seq<Arrival>): seq<Counter.Input> {
    if arrivals == [] then []
    else
      var front, last := arrivals[..|arrivals| - 1], arrivals[|arrivals| - 1];
      var s, o := Run(limits, front), last.evidence.observation;
      if Decide(limits, s, o) == Fresh && Feeds(s, o) && o.sample.CounterSample?
      then Fed(limits, front) + [Counter.Input(CounterReading(o), last.cfg)] else Fed(limits, front)
  }

  /** What ingest lets through: observations of this stream, counters within their width. */
  predicate Admissible(key: Key, o: Observation) {
    o.key == key &&
    (o.sample.CounterSample? ==>
       Counter.ValidReading(CounterReading(o)) && Counter.InRange(o.sample.count, o.sample.width))
  }

  ghost predicate AllAdmissible(key: Key, arrivals: seq<Arrival>) {
    forall i :: 0 <= i < |arrivals| ==> Admissible(key, arrivals[i].evidence.observation)
  }

  ghost predicate FedUpTo(key: Key, ins: seq<Counter.Input>, fed: Option<nat>) {
    && Counter.InOrder(ins)
    && (forall i :: 0 <= i < |ins| ==>
          && ins[i].reading.incarnation == key.source.incarnation && ins[i].reading.generation == key.link.generation
          && fed.Some? && ins[i].reading.sequence <= fed.value)
  }

  lemma FedUpToNext(key: Key, ins: seq<Counter.Input>, fed: Option<nat>, o: Observation, cfg: Counter.Config)
    requires FedUpTo(key, ins, fed) && Admissible(key, o) && o.sample.CounterSample?
    requires fed.None? || o.sequence > fed.value
    ensures FedUpTo(key, ins + [Counter.Input(CounterReading(o), cfg)], Some(o.sequence))
  {
  }

  lemma {:induction false} FedInOrder(limits: Limits, key: Key, arrivals: seq<Arrival>)
    requires AllAdmissible(key, arrivals)
    ensures FedUpTo(key, Fed(limits, arrivals), Run(limits, arrivals).fed)
    ensures Run(limits, arrivals).tracker == Counter.Run(Counter.NewTracker, Fed(limits, arrivals))
  {
    if arrivals != [] {
      var front, last := arrivals[..|arrivals| - 1], arrivals[|arrivals| - 1];
      FedInOrder(limits, key, front);
      var s, o := Run(limits, front), last.evidence.observation;
      if Decide(limits, s, o) == Fresh && Feeds(s, o) && o.sample.CounterSample? {
        var next := Counter.Input(CounterReading(o), last.cfg);
        FedUpToNext(key, Fed(limits, front), s.fed, o, last.cfg);
        assert (Fed(limits, front) + [next])[..|Fed(limits, front)|] == Fed(limits, front);
      }
    }
  }

  /**
   In every stream ingest can produce, whatever the arrival order, the tracker never
   reports a regressed sequence, a changed identity or a value out of range, and its
   missing samples account exactly for the sequence distance it covered.
   */
  lemma {:induction false} TrackerOrderly(limits: Limits, key: Key, arrivals: seq<Arrival>)
    requires AllAdmissible(key, arrivals)
    ensures
      var s, ins := Run(limits, arrivals), Fed(limits, arrivals);
      && s.fed == s.watermark
      && Counter.OrderlyEvent(s.tracker.event)
      && s.tracker.tally.regressions == 0 && s.tracker.tally.reincarnations == 0 && s.tracker.tally.outOfRange == 0
      && s.tracker.tally.samples == |ins|
      && s.tracker.tally.missing + Counter.Differenced(s.tracker.tally) == Counter.Covered(ins)
  {
    RunFaithful(limits, arrivals);
    FedInOrder(limits, key, arrivals);
    if Fed(limits, arrivals) != [] {
      Counter.InOrderRun(Fed(limits, arrivals));
    }
  }

  /** A rate is only ever taken over the exact, positive time between the last two readings fed. */
  lemma {:induction false} RateExact(limits: Limits, key: Key, arrivals: seq<Arrival>)
    requires AllAdmissible(key, arrivals)
    requires forall i :: 0 <= i < |arrivals| ==> arrivals[i].cfg.maxGap < Counter.I64_MAX
    ensures
      var t, ins := Run(limits, arrivals).tracker, Fed(limits, arrivals);
      t.rateAdmissible ==>
        && |ins| >= 2 && t.delta.Some? && !t.delta.value.spansGap
        && 0 < t.delta.value.elapsed == ins[|ins| - 1].reading.observed - ins[|ins| - 2].reading.observed
  {
    FedInOrder(limits, key, arrivals);
    FedConfigs(limits, arrivals);
    var ins := Fed(limits, arrivals);
    if ins != [] {
      var n := |ins| - 1;
      var front, last := ins[..n], ins[n];
      if n > 0 {
        Counter.InOrderRun(front);
      }
      Counter.RateInterval(Counter.Run(Counter.NewTracker, front), last.reading, last.cfg);
    }
  }

  lemma {:induction false} FedConfigs(limits: Limits, arrivals: seq<Arrival>)
    requires forall i :: 0 <= i < |arrivals| ==> arrivals[i].cfg.maxGap < Counter.I64_MAX
    ensures forall x :: x in Fed(limits, arrivals) ==> x.cfg.maxGap < Counter.I64_MAX
  {
    if arrivals != [] {
      FedConfigs(limits, arrivals[..|arrivals| - 1]);
    }
  }
}
