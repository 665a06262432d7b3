/**
 Streams with late records. The live tracker never sees a late record, but a snapshot
 replays it in sequence order and a question about an earlier instant feeds it in
 arrival order. For counters that rise with their sequence numbers this file says
 exactly when the verdict is the live one all the same.

 Main results: `SnapshotExactly` and `AsOfExactly`; `ReorderedSnapshot` and
 `ReorderedAsOf` show that the conditions can fail.
 */
module EvidenceReorder {
  import opened Optional
  import opened Evidence
  import opened EvidenceStream
  import opened EvidenceSnapshot
  import opened EvidenceAsOf
  import Counter

  // -------------------------------------------------------------- rising counters

  /** A counter reading of this stream and width, in range and without a declared reset. */
  ghost predicate Plain(key: Key, width: Counter.Width, e: Evidence) {
    var o := e.observation;
    Admissible(key, o) && o.sample.CounterSample? && o.sample.width == width && !o.sample.resetDeclared
  }

  /** A later sequence has a higher count, and a sequence stands for one observation. */
  ghost predicate Rises(a: Evidence, b: Evidence)
    requires a.observation.sample.CounterSample? && b.observation.sample.CounterSample?
  {
    && (Sequence(a) < Sequence(b) ==> a.observation.sample.count < b.observation.sample.count)
    && (Sequence(a) == Sequence(b) ==> a.observation == b.observation)
  }

  ghost predicate Rising(key: Key, width: Counter.Width, es: seq<Evidence>) {
    && (forall e :: e in es ==> Plain(key, width, e))
    && (forall a, b :: a in es && b in es ==> Rises(a, b))
  }

  lemma RisingPart(key: Key, width: Counter.Width, es: seq<Evidence>, part: seq<Evidence>)
    requires Rising(key, width, es) && forall e :: e in part ==> e in es
    ensures Rising(key, width, part)
  {
  }

  // ---------------------------------------------------- what two records make it say

  ghost predicate Based(t: Counter.Tracker, e: Evidence) {
    e.observation.sample.CounterSample? && t.hasBaseline && t.identityBound && t.last == CounterReading(e.observation)
  }

  /** What a tracker says of a record fed after another one, or after none. */
  function Says(prev: Option<Evidence>, last: Evidence, cfg: Counter.Config): Counter.Tracker {
    Counter.Verdict(Feed(if prev.Some? then Feed(Counter.NewTracker, prev.value, cfg) else Counter.NewTracker, last,
        cfg))
  }

  lemma FeedNew(key: Key, width: Counter.Width, e: Evidence, cfg: Counter.Config)
    requires Plain(key, width, e)
    ensures var t := Feed(Counter.NewTracker, e, cfg); Based(t, e) && t.event == Counter.Baseline && t.delta == None
  {
  }

  lemma FeedHigher(key: Key, width: Counter.Width, t: Counter.Tracker, a: Evidence, b: Evidence, cfg: Counter.Config)
    requires Plain(key, width, a) && Plain(key, width, b) && Rises(a, b) && Based(t, a) && Sequence(a) < Sequence(b)
    ensures
      var t' := Feed(t, b, cfg);
      && Based(t', b) && t'.event == Counter.Advance
      && t'.delta.Some? && t'.delta.value.delta == b.observation.sample.count - a.observation.sample.count
  {
  }

  lemma FeedSame(key: Key, width: Counter.Width, t: Counter.Tracker, a: Evidence, b: Evidence, cfg: Counter.Config)
    requires Plain(key, width, a) && Plain(key, width, b) && Rises(a, b) && Based(t, a) && Sequence(a) == Sequence(b)
    ensures var t' := Feed(t, b, cfg); Based(t', b) && t'.delta.Some? && t'.delta.value.delta == 0
  {
  }

  lemma FeedLower(key: Key, width: Counter.Width, t: Counter.Tracker, a: Evidence, b: Evidence, cfg: Counter.Config)
    requires Plain(key, width, a) && Plain(key, width, b) && Based(t, a) && Sequence(b) < Sequence(a)
    ensures var t' := Feed(t, b, cfg); Based(t', a) && t'.event == Counter.SequenceRegressed
  {
  }

  lemma FeedBased(t: Counter.Tracker, u: Counter.Tracker, a: Evidence, b: Evidence, cfg: Counter.Config)
    requires Based(t, a) && Based(u, a) && b.observation.sample.CounterSample?
    ensures Counter.Verdict(Feed(t, b, cfg)) == Counter.Verdict(Feed(u, b, cfg))
  {
    Counter.SameBaseline(t, u, CounterReading(b.observation), cfg);
  }

  /** Both none, or records of the same sequence. */
  ghost predicate SameStep(p: Option<Evidence>, q: Option<Evidence>) {
    (p.None? && q.None?) || (p.Some? && q.Some? && Sequence(p.value) == Sequence(q.value))
  }

  /** A record that may come before this one. */
  ghost predicate Earlier(key: Key, width: Counter.Width, p: Option<Evidence>, last: Evidence)
    requires Plain(key, width, last)
  {
    p.Some? ==> Plain(key, width, p.value) && Rises(p.value, last) && Sequence(p.value) < Sequence(last)
  }

  lemma SaysWhat(key: Key, width: Counter.Width, p: Option<Evidence>, last: Evidence, cfg: Counter.Config)
    requires Plain(key, width, last) && Earlier(key, width, p, last)
    ensures p.None? ==> Says(p, last, cfg).event == Counter.Baseline && Says(p, last, cfg).delta == None
    ensures p.Some? ==>
      && Says(p, last, cfg).event == Counter.Advance && Says(p, last, cfg).delta.Some?
      && Says(p, last, cfg).delta.value.delta == last.observation.sample.count - p.value.observation.sample.count > 0
  {
    if p.None? {
      FeedNew(key, width, last, cfg);
    } else {
      FeedNew(key, width, p.value, cfg);
      FeedHigher(key, width, Feed(Counter.NewTracker, p.value, cfg), p.value, last, cfg);
    }
  }

  /** Different predecessors make different verdicts. */
  lemma SaysExactly(key: Key, width: Counter.Width, p: Option<Evidence>, q: Option<Evidence>, last: Evidence,
                    cfg: Counter.Config)
    requires Plain(key, width, last) && Earlier(key, width, p, last) && Earlier(key, width, q, last)
    requires p.Some? && q.Some? ==> Rises(p.value, q.value) && Rises(q.value, p.value)
    ensures Says(p, last, cfg) == Says(q, last, cfg) <==> SameStep(p, q)
  {
    SaysWhat(key, width, p, last, cfg);
    SaysWhat(key, width, q, last, cfg);
    if p.Some? && q.Some? && Sequence(p.value) == Sequence(q.value) {
      assert Feed(Counter.NewTracker, p.value, cfg) == Feed(Counter.NewTracker, q.value, cfg);
    }
  }

  // ------------------------------------------------------ feeding in any order

  /** The record with the highest sequence, the first of them if there are several. */
  function Top(es: seq<Evidence>): (top: Option<Evidence>)
    ensures top.None? <==> es == []
    ensures top.Some? ==> top.value in es && forall e :: e in es ==> Sequence(e) <= Sequence(top.value)
  {
    if es == [] then None
    else
      var front, last := Top(es[..|es| - 1]), es[|es| - 1];
      assert es == es[..|es| - 1] + [last];
      if front.None? || Sequence(last) > Sequence(front.value) then Some(last) else front
  }

  /** Whatever the order, the baseline is the highest record so far. */
  lemma {:induction false} FeedAllTop(key: Key, width: Counter.Width, es: seq<Evidence>, cfg: Counter.Config)
    requires Rising(key, width, es) && es != []
    ensures Based(FeedAll(es, cfg), Top(es).value)
  {
    var n := |es| - 1;
    var front, last := es[..n], es[n];
    assert es == front + [last];
    if front == [] {
      FeedNew(key, width, last, cfg);
    } else {
      RisingPart(key, width, es, front);
      FeedAllTop(key, width, front, cfg);
      var t, top := FeedAll(front, cfg), Top(front).value;
      assert top in es && last in es;
      if Sequence(last) > Sequence(top) {
        FeedHigher(key, width, t, top, last, cfg);
      } else if Sequence(last) == Sequence(top) {
        FeedSame(key, width, t, top, last, cfg);
      } else {
        FeedLower(key, width, t, top, last, cfg);
      }
    }
  }

  /** The last record is higher than all before it. */
  ghost predicate EndsOnTop(es: seq<Evidence>)
    requires es != []
  {
    var top := Top(es[..|es| - 1]);
    top.None? || Sequence(top.value) < Sequence(es[|es| - 1])
  }

  /** If it is, the verdict is about it and the highest record before; if not, it is none the live tracker gives. */
  lemma FeedAllSays(key: Key, width: Counter.Width, es: seq<Evidence>, cfg: Counter.Config)
    requires Rising(key, width, es) && es != []
    ensures EndsOnTop(es) ==>
      Counter.Verdict(FeedAll(es, cfg)) == Says(Top(es[..|es| - 1]), es[|es| - 1], cfg)
    ensures !EndsOnTop(es) ==>
      var t := FeedAll(es, cfg);
      t.event == Counter.SequenceRegressed || (t.delta.Some? && t.delta.value.delta == 0)
  {
    var n := |es| - 1;
    var front, last := es[..n], es[n];
    assert es == front + [last];
    if front != [] {
      RisingPart(key, width, es, front);
      FeedAllTop(key, width, front, cfg);
      var t, top := FeedAll(front, cfg), Top(front).value;
      assert top in es && last in es;
      if Sequence(last) > Sequence(top) {
        FeedNew(key, width, top, cfg);
        FeedBased(t, Feed(Counter.NewTracker, top, cfg), top, last, cfg);
      } else if Sequence(last) == Sequence(top) {
        FeedSame(key, width, t, top, last, cfg);
      } else {
        FeedLower(key, width, t, top, last, cfg);
      }
    }
  }

  function BeforeLast(es: seq<Evidence>): Option<Evidence> { if |es| < 2 then None else Some(es[|es| - 2]) }

  lemma {:induction false} AscendingTop(es: seq<Evidence>)
    requires Ascending(es) && es != []
    ensures Top(es) == Some(es[|es| - 1]) && EndsOnTop(es) && Top(es[..|es| - 1]) == BeforeLast(es)
  {
    var n := |es| - 1;
    if n > 0 {
      AscendingTop(es[..n]);
      assert es[..n][n - 1] == es[n - 1] && Sequence(es[n - 1]) < Sequence(es[n]);
    }
  }

  /** Fed in ascending order, the last two records decide. */
  lemma AscendingSays(key: Key, width: Counter.Width, es: seq<Evidence>, cfg: Counter.Config)
    requires Rising(key, width, es) && Ascending(es) && es != []
    ensures Counter.Verdict(FeedAll(es, cfg)) == Says(BeforeLast(es), es[|es| - 1], cfg)
    ensures es[|es| - 1] in es && Earlier(key, width, BeforeLast(es), es[|es| - 1])
  {
    AscendingTop(es);
    FeedAllSays(key, width, es, cfg);
    assert |es| >= 2 ==> es[|es| - 2] in es;
  }

  // ---------------------------------------------- accepted and fed, in arrival order

  function AcceptedRecords(limits: Limits, arrivals: seq<Arrival>): seq<Evidence> {
    if arrivals == [] then []
    else
      var front, last := arrivals[..|arrivals| - 1], arrivals[|arrivals| - 1].evidence;
      if Decide(limits, Run(limits, front), last.observation) == Fresh
      then AcceptedRecords(limits, front) + [last] else AcceptedRecords(limits, front)
  }

  function FedRecords(limits: Limits, arrivals: seq<Arrival>): seq<Evidence> {
    if arrivals == [] then []
    else
      var front, last := arrivals[..|arrivals| - 1], arrivals[|arrivals| - 1].evidence;
      var s := Run(limits, front);
      if Decide(limits, s, last.observation) == Fresh && Feeds(s, last.observation)
      then FedRecords(limits, front) + [last] else FedRecords(limits, front)
  }

  ghost predicate OneConfig(arrivals: seq<Arrival>, cfg: Counter.Config) {
    forall i :: 0 <= i < |arrivals| ==> arrivals[i].cfg == cfg
  }

  /** The ring is the end of what was accepted; the tracker and the latest record come from what was fed. */
  ghost predicate Kept(limits: Limits, s: Stream, accepted: seq<Evidence>, fed: seq<Evidence>, cfg: Counter.Config) {
    && s.recent == Trim(accepted, limits.history)
    && s.tracker == FeedAll(fed, cfg)
    && s.latestFed == (if fed == [] then None else Some(fed[|fed| - 1]))
    && s.fed == (if fed == [] then None else Some(Sequence(fed[|fed| - 1])))
    && Ascending(fed)
  }

  lemma KeptNext(limits: Limits, s: Stream, accepted: seq<Evidence>, fed: seq<Evidence>, e: Evidence,
                 cfg: Counter.Config)
    requires ValidLimits(limits) && Kept(limits, s, accepted, fed, cfg) && Decide(limits, s, e.observation) == Fresh
    ensures
      Kept(limits, Append(limits, s, e, cfg), accepted + [e], if Feeds(s, e.observation) then fed + [e] else fed, cfg)
  {
    TrimNext(accepted, e, limits.history);
    FeedAllNext(fed, e, cfg);
  }

  lemma {:induction false} RunKept(limits: Limits, arrivals: seq<Arrival>, cfg: Counter.Config)
    requires ValidLimits(limits) && OneConfig(arrivals, cfg)
    ensures Kept(limits, Run(limits, arrivals), AcceptedRecords(limits, arrivals), FedRecords(limits, arrivals), cfg)
  {
    if arrivals != [] {
      var front, last := arrivals[..|arrivals| - 1], arrivals[|arrivals| - 1];
      RunKept(limits, front, cfg);
      if Decide(limits, Run(limits, front), last.evidence.observation) == Fresh {
        KeptNext(limits, Run(limits, front), AcceptedRecords(limits, front), FedRecords(limits, front),
            last.evidence, cfg);
      }
    }
  }

  lemma {:induction false} RecordsArrived(limits: Limits, arrivals: seq<Arrival>)
    ensures forall e :: e in FedRecords(limits, arrivals) ==> e in AcceptedRecords(limits, arrivals)
    ensures forall e :: e in AcceptedRecords(limits, arrivals) ==> e in Records(arrivals)
    ensures arrivals != [] ==> FedRecords(limits, arrivals) != []
  {
    if arrivals != [] {
      var n := |arrivals| - 1;
      var front := arrivals[..n];
      RecordsArrived(limits, front);
      RunFaithful(limits, front);
      assert Records(arrivals) == Records(front) + [arrivals[n].evidence];
      if front == [] {
        assert Decide(limits, Run(limits, front), arrivals[n].evidence.observation) == Fresh;
      }
    }
  }

  // ------------------------------------------------------------------ snapshots

  /** What is replayed are records that arrived. */
  lemma RetainedArrived(limits: Limits, arrivals: seq<Arrival>, cfg: Counter.Config, rs: seq<Evidence>)
    requires ValidLimits(limits) && OneConfig(arrivals, cfg) && IsRetained(Run(limits, arrivals), rs)
    ensures forall e :: e in rs ==> e in Records(arrivals)
  {
    RunKept(limits, arrivals, cfg);
    RecordsArrived(limits, arrivals);
    var s, accepted, fed := Run(limits, arrivals), AcceptedRecords(limits, arrivals), FedRecords(limits, arrivals);
    forall e | e in rs
      ensures e in Records(arrivals)
    {
      if e in s.recent {
        assert e in accepted;
      } else {
        assert fed != [] && e == fed[|fed| - 1];
        assert e in fed;
      }
    }
  }

  /**
   A snapshot gives the tracker's verdict back if and only if the highest sequence it
   retains below the last one fed is the one fed before that.
   */
  lemma {:induction false} SnapshotExactly(limits: Limits, key: Key, width: Counter.Width, arrivals: seq<Arrival>,
                                           cfg: Counter.Config, rs: seq<Evidence>)
    requires ValidLimits(limits) && OneConfig(arrivals, cfg) && arrivals != []
    requires Rising(key, width, Records(arrivals)) && IsRetained(Run(limits, arrivals), rs)
    ensures Counter.Verdict(Replay(limits, rs, cfg).tracker) == Counter.Verdict(Run(limits, arrivals).tracker)
       <==> SameStep(BeforeLast(rs), BeforeLast(FedRecords(limits, arrivals)))
  {
    var s, fed := Run(limits, arrivals), FedRecords(limits, arrivals);
    RunKept(limits, arrivals, cfg);
    RecordsArrived(limits, arrivals);
    RetainedArrived(limits, arrivals, cfg, rs);
    RisingPart(key, width, Records(arrivals), fed);
    RisingPart(key, width, Records(arrivals), rs);
    assert rs != [] && rs[|rs| - 1] == fed[|fed| - 1] by {
      RunRing(limits, arrivals);
      RunFaithful(limits, arrivals);
      RetainedLast(limits, s, rs);
    }
    ReplayTracker(limits, rs, cfg);
    SayAlike(key, width, Records(arrivals), rs, fed, cfg);
  }

  lemma SayAlike(key: Key, width: Counter.Width, all: seq<Evidence>, rs: seq<Evidence>, fed: seq<Evidence>,
                 cfg: Counter.Config)
    requires Rising(key, width, all) && (forall e :: e in rs ==> e in all) && (forall e :: e in fed ==> e in all)
    requires Ascending(rs) && Ascending(fed) && rs != [] && fed != [] && rs[|rs| - 1] == fed[|fed| - 1]
    ensures Counter.Verdict(FeedAll(rs, cfg)) == Counter.Verdict(FeedAll(fed, cfg))
       <==> SameStep(BeforeLast(rs), BeforeLast(fed))
  {
    RisingPart(key, width, all, rs);
    RisingPart(key, width, all, fed);
    AscendingSays(key, width, rs, cfg);
    AscendingSays(key, width, fed, cfg);
    assert |rs| >= 2 ==> rs[|rs| - 2] in rs;
    assert |fed| >= 2 ==> fed[|fed| - 2] in fed;
    SaysExactly(key, width, BeforeLast(rs), BeforeLast(fed), fed[|fed| - 1], cfg);
  }

  // --------------------------------------------------------- earlier instants

  /** One arrival adds itself or nothing to what was accepted, and to what was fed. */
  lemma RecordsNext(limits: Limits, arrivals: seq<Arrival>)
    requires arrivals != []
    ensures
      var front, e := arrivals[..|arrivals| - 1], arrivals[|arrivals| - 1].evidence;
      && AcceptedRecords(limits, arrivals) in {AcceptedRecords(limits, front), AcceptedRecords(limits, front) + [e]}
      && FedRecords(limits, arrivals) in {FedRecords(limits, front), FedRecords(limits, front) + [e]}
  {
  }

  /** What came first, and the rest received after the instant. */
  ghost predicate Continues(early: seq<Evidence>, late: seq<Evidence>, now: Instant) {
    early <= late && AllAfter(late, |early|, now)
  }

  lemma ContinuesNext(early: seq<Evidence>, late: seq<Evidence>, e: Evidence, now: Instant)
    requires Continues(early, late, now) && ReceivedAfter(e, now)
    ensures Continues(early, late + [e], now)
  {
  }

  /** What was accepted and fed by record m comes first in what was accepted and fed later. */
  lemma {:induction false} PrefixRecords(limits: Limits, arrivals: seq<Arrival>, m: nat, now: Instant)
    requires m <= |arrivals| && forall i :: m <= i < |arrivals| ==> ReceivedAfter(arrivals[i].evidence, now)
    ensures Continues(AcceptedRecords(limits, arrivals[..m]), AcceptedRecords(limits, arrivals), now)
    ensures Continues(FedRecords(limits, arrivals[..m]), FedRecords(limits, arrivals), now)
  {
    if m == |arrivals| {
      assert arrivals[..m] == arrivals;
    } else {
      var n := |arrivals| - 1;
      var front, e := arrivals[..n], arrivals[n].evidence;
      assert front[..m] == arrivals[..m];
      PrefixRecords(limits, front, m, now);
      RecordsNext(limits, arrivals);
      ContinuesNext(AcceptedRecords(limits, arrivals[..m]), AcceptedRecords(limits, front), e, now);
      ContinuesNext(FedRecords(limits, arrivals[..m]), FedRecords(limits, front), e, now);
    }
  }

  ghost predicate AllAfter(es: seq<Evidence>, from: nat, now: Instant) {
    forall i :: from <= i < |es| ==> ReceivedAfter(es[i], now)
  }

  ghost predicate AllBefore(es: seq<Evidence>, now: Instant) {
    forall e :: e in es ==> !ReceivedAfter(e, now)
  }

  /** The records of the ring received by the instant, in arrival order. */
  function Visible(es: seq<Evidence>, now: Instant): (vis: seq<Evidence>)
    ensures forall e :: e in vis <==> e in es && !ReceivedAfter(e, now)
  {
    if es == [] then []
    else
      var front, last := Visible(es[..|es| - 1], now), es[|es| - 1];
      assert es == es[..|es| - 1] + [last];
      if ReceivedAfter(last, now) then front else front + [last]
  }

  lemma {:induction false} VisibleIs(es: seq<Evidence>, m: nat, now: Instant)
    requires Between(es, m, now)
    ensures Visible(es, now) == es[..m]
  {
    if es != [] {
      var n := |es| - 1;
      if m <= n {
        VisibleIs(es[..n], m, now);
        assert es[..n][..m] == es[..m];
      } else {
        VisibleIs(es[..n], n, now);
        assert es[..n][..n] + [es[n]] == es[..m];
      }
    }
  }

  /** In the ring, too, the records received by the instant come first. */
  lemma RingBetween(accepted: seq<Evidence>, size: nat, m: nat, now: Instant)
    requires m <= |accepted| && AllBefore(accepted[..m], now) && AllAfter(accepted, m, now)
    ensures exists v :: Between(Trim(accepted, size), v, now)
  {
    var lo := if |accepted| > size then |accepted| - size else 0;
    var ring, v := Trim(accepted, size), if m < lo then 0 else m - lo;
    assert ring == accepted[lo..];
    forall i | 0 <= i < v
      ensures !ReceivedAfter(ring[i], now)
    {
      assert ring[i] == accepted[..m][lo + i];
    }
    assert Between(ring, v, now);
  }

  /** The ring still shows the last step the live tracker had taken by before. */
  ghost predicate StillShows(vis: seq<Evidence>, fed: seq<Evidence>) {
    if vis == [] || fed == [] then vis == fed
    else
      && Sequence(vis[|vis| - 1]) == Sequence(fed[|fed| - 1]) && EndsOnTop(vis)
      && SameStep(Top(vis[..|vis| - 1]), BeforeLast(fed))
  }

  lemma ShowsExactly(key: Key, width: Counter.Width, all: seq<Evidence>, vis: seq<Evidence>, fed: seq<Evidence>,
                     cfg: Counter.Config)
    requires Rising(key, width, all) && (forall e :: e in vis ==> e in all) && (forall e :: e in fed ==> e in all)
    requires Ascending(fed)
    ensures Counter.Verdict(FeedAll(vis, cfg)) == Counter.Verdict(FeedAll(fed, cfg)) <==> StillShows(vis, fed)
  {
    RisingPart(key, width, all, vis);
    RisingPart(key, width, all, fed);
    if vis != [] && fed != [] {
      BothShow(key, width, all, vis, fed, cfg);
    } else if vis != [] {
      FeedAllTop(key, width, vis, cfg);
    } else if fed != [] {
      FeedAllTop(key, width, fed, cfg);
    }
  }

  lemma BothShow(key: Key, width: Counter.Width, all: seq<Evidence>, vis: seq<Evidence>, fed: seq<Evidence>,
                 cfg: Counter.Config)
    requires Rising(key, width, all) && (forall e :: e in vis ==> e in all) && (forall e :: e in fed ==> e in all)
    requires Rising(key, width, vis) && Rising(key, width, fed) && Ascending(fed) && vis != [] && fed != []
    ensures Counter.Verdict(FeedAll(vis, cfg)) == Counter.Verdict(FeedAll(fed, cfg)) <==> StillShows(vis, fed)
  {
    var p, last := BeforeLast(fed), fed[|fed| - 1];
    var top, e := Top(vis[..|vis| - 1]), vis[|vis| - 1];
    AscendingSays(key, width, fed, cfg);
    FeedAllSays(key, width, vis, cfg);
    assert |fed| >= 2 ==> fed[|fed| - 2] in fed;
    assert e in vis && last in fed;
    if EndsOnTop(vis) {
      assert top.Some? ==> top.value in vis;
      StepsCompared(key, width, top, e, p, last, cfg);
    } else {
      SaysWhat(key, width, p, last, cfg);
    }
  }

  /** Two steps say the same if and only if they lead from the same record to the same record. */
  lemma StepsCompared(key: Key, width: Counter.Width, top: Option<Evidence>, e: Evidence, p: Option<Evidence>,
                      last: Evidence, cfg: Counter.Config)
    requires Plain(key, width, e) && Plain(key, width, last) && Rises(e, last) && Rises(last, e)
    requires Earlier(key, width, top, e) && Earlier(key, width, p, last)
    requires top.Some? ==> Rises(top.value, last)
    requires top.Some? && p.Some? ==> Rises(top.value, p.value) && Rises(p.value, top.value)
    ensures Says(top, e, cfg) == Says(p, last, cfg) <==> Sequence(e) == Sequence(last) && SameStep(top, p)
  {
    SaysLast(key, width, top, e, cfg);
    SaysLast(key, width, p, last, cfg);
    if Sequence(e) == Sequence(last) {
      assert CounterReading(e.observation) == CounterReading(last.observation);
      assert Says(top, e, cfg) == Says(top, last, cfg);
      SaysExactly(key, width, top, p, last, cfg);
    }
  }

  /** A verdict names the reading it is about. */
  lemma SaysLast(key: Key, width: Counter.Width, p: Option<Evidence>, last: Evidence, cfg: Counter.Config)
    requires Plain(key, width, last) && Earlier(key, width, p, last)
    ensures Says(p, last, cfg).last == CounterReading(last.observation)
  {
    if p.Some? {
      FeedNew(key, width, p.value, cfg);
      FeedHigher(key, width, Feed(Counter.NewTracker, p.value, cfg), p.value, last, cfg);
    } else {
      FeedNew(key, width, last, cfg);
    }
  }

  /** What a stream answers about an earlier instant, from what it accepted and fed by then and since. */
  lemma AsOfKept(limits: Limits, s: Stream, accepted: seq<Evidence>, fed: seq<Evidence>, m: nat, f: nat,
                 cfg: Counter.Config, now: Instant)
    requires Kept(limits, s, accepted, fed, cfg) && m <= |accepted| && f <= |fed|
    requires AllBefore(accepted[..m], now) && AllAfter(accepted, m, now)
    requires AllBefore(fed[..f], now) && AllAfter(fed, f, now)
    ensures f == |fed| > 0 ==> AsOf(s, now, cfg) == FeedAll(fed[..f], cfg)
    ensures f < |fed| ==> AsOf(s, now, cfg) == FeedAll(Visible(s.recent, now), cfg)
  {
    RingBetween(accepted, limits.history, m, now);
    var v :| Between(s.recent, v, now);
    VisibleIs(s.recent, v, now);
    ReconstructPrefix(s.recent, v, now, cfg);
    if f == |fed| > 0 {
      assert fed[..f] == fed && fed[|fed| - 1] in fed;
    }
  }

  /**
   A question about an earlier instant is answered with the verdict of that instant if
   and only if no record was fed since, or the ring's last record up to the instant is
   the one fed last by then and the highest one before it is the one fed before that.
   */
  lemma {:induction false} AsOfExactly(limits: Limits, key: Key, width: Counter.Width, arrivals: seq<Arrival>,
                                       cfg: Counter.Config, m: nat, now: Instant)
    requires ValidLimits(limits) && OneConfig(arrivals, cfg) && arrivals != []
    requires Rising(key, width, Records(arrivals)) && Between(Records(arrivals), m, now)
    ensures
      var s, past := Run(limits, arrivals), Run(limits, arrivals[..m]);
      var fed := FedRecords(limits, arrivals[..m]);
      Counter.Verdict(AsOf(s, now, cfg)) == Counter.Verdict(past.tracker)
      <==> FedRecords(limits, arrivals) == fed || StillShows(Visible(s.recent, now), fed)
  {
    AnswerFed(limits, arrivals, cfg, m, now);
    EarlyArrived(arrivals, m, cfg);
    PastFed(limits, arrivals[..m], cfg);
    VisibleArrived(limits, arrivals, cfg, now);
    ShowsExactly(key, width, Records(arrivals), Visible(Run(limits, arrivals).recent, now),
                 FedRecords(limits, arrivals[..m]), cfg);
  }

  /** What the answer is made of: everything fed by then, or what the ring still shows of it. */
  lemma AnswerFed(limits: Limits, arrivals: seq<Arrival>, cfg: Counter.Config, m: nat, now: Instant)
    requires ValidLimits(limits) && OneConfig(arrivals, cfg) && arrivals != [] && Between(Records(arrivals), m, now)
    ensures
      var s, fedThen := Run(limits, arrivals), FedRecords(limits, arrivals[..m]);
      AsOf(s, now, cfg)
        == FeedAll(if FedRecords(limits, arrivals) == fedThen then fedThen else Visible(s.recent, now), cfg)
  {
    var accepted, fed := AcceptedRecords(limits, arrivals), FedRecords(limits, arrivals);
    var acceptedThen, fedThen := AcceptedRecords(limits, arrivals[..m]), FedRecords(limits, arrivals[..m]);
    assert forall i :: m <= i < |arrivals| ==> ReceivedAfter(Records(arrivals)[i], now);
    PrefixRecords(limits, arrivals, m, now);
    ArrivedBefore(limits, arrivals, m, now);
    RunKept(limits, arrivals, cfg);
    RecordsArrived(limits, arrivals);
    assert accepted[..|acceptedThen|] == acceptedThen && fed[..|fedThen|] == fedThen;
    AsOfKept(limits, Run(limits, arrivals), accepted, fed, |acceptedThen|, |fedThen|, cfg, now);
  }

  lemma PastFed(limits: Limits, early: seq<Arrival>, cfg: Counter.Config)
    requires ValidLimits(limits) && OneConfig(early, cfg)
    ensures
      var fed := FedRecords(limits, early);
      && Run(limits, early).tracker == FeedAll(fed, cfg) && Ascending(fed)
      && forall e :: e in fed ==> e in Records(early)
  {
    RunKept(limits, early, cfg);
    RecordsArrived(limits, early);
  }

  lemma EarlyArrived(arrivals: seq<Arrival>, m: nat, cfg: Counter.Config)
    requires m <= |arrivals| && OneConfig(arrivals, cfg)
    ensures OneConfig(arrivals[..m], cfg) && forall e :: e in Records(arrivals[..m]) ==> e in Records(arrivals)
  {
    assert Records(arrivals[..m]) == Records(arrivals)[..m];
  }

  lemma ArrivedBefore(limits: Limits, arrivals: seq<Arrival>, m: nat, now: Instant)
    requires Between(Records(arrivals), m, now)
    ensures AllBefore(AcceptedRecords(limits, arrivals[..m]), now) && AllBefore(FedRecords(limits, arrivals[..m]), now)
  {
    RecordsArrived(limits, arrivals[..m]);
    assert Records(arrivals[..m]) == Records(arrivals)[..m];
  }

  lemma VisibleArrived(limits: Limits, arrivals: seq<Arrival>, cfg: Counter.Config, now: Instant)
    requires ValidLimits(limits) && OneConfig(arrivals, cfg)
    ensures forall e :: e in Visible(Run(limits, arrivals).recent, now) ==> e in Records(arrivals)
  {
    RunKept(limits, arrivals, cfg);
    RecordsArrived(limits, arrivals);
    var s, accepted := Run(limits, arrivals), AcceptedRecords(limits, arrivals);
    assert forall e :: e in s.recent ==> e in accepted;
  }

  // -------------------------------------------------------- both conditions can fail

  /** A late record is kept but not fed. */
  lemma AppendLate(limits: Limits, s: Stream, b: Evidence, cfg: Counter.Config)
    requires Capped(s) && s.watermark.Some? && Sequence(b) < s.watermark.value <= Sequence(b) + limits.window
    requires Sequence(b) !in s.dedup
    ensures Decide(limits, s, b.observation) == Fresh && !Feeds(s, b.observation)
  {
  }

  lemma TwoAccepted(limits: Limits, x: Arrival, y: Arrival)
    requires Sequence(x.evidence) < Sequence(y.evidence)
    ensures Accepted(limits, [x, y]).Keys == {Sequence(x.evidence), Sequence(y.evidence)}
    ensures AcceptedRecords(limits, [x, y]) == FedRecords(limits, [x, y]) == [x.evidence, y.evidence]
    ensures Capped(Run(limits, [x, y])) && Run(limits, [x, y]).watermark == Some(Sequence(y.evidence))
  {
    assert [x, y][..1] == [x] && [x][..0] == [];
    assert Accepted(limits, [x]) == map[Sequence(x.evidence) := limits.digest(x.evidence.observation)];
    assert AcceptedRecords(limits, [x]) == FedRecords(limits, [x]) == [x.evidence];
    RunFaithful(limits, [x]);
    assert Run(limits, [x]).watermark == Some(Sequence(x.evidence));
    assert Decide(limits, Run(limits, [x]), y.evidence.observation) == Fresh;
    RunCapped(limits, [x, y]);
  }

  /** The middle record comes last, and is accepted but not fed. */
  lemma LateAccepted(limits: Limits, x: Arrival, y: Arrival, z: Arrival)
    requires Sequence(x.evidence) < Sequence(z.evidence) < Sequence(y.evidence) <= Sequence(z.evidence) + limits.window
    ensures AcceptedRecords(limits, [x, y, z]) == [x.evidence, y.evidence, z.evidence]
    ensures FedRecords(limits, [x, y, z]) == [x.evidence, y.evidence]
  {
    TwoAccepted(limits, x, y);
    LateFresh(limits, x, y, z);
    LateRecorded(limits, [x, y], z);
    assert [x, y] + [z] == [x, y, z];
  }

  lemma LateRecorded(limits: Limits, front: seq<Arrival>, z: Arrival)
    requires Decide(limits, Run(limits, front), z.evidence.observation) == Fresh
    requires !Feeds(Run(limits, front), z.evidence.observation)
    ensures AcceptedRecords(limits, front + [z]) == AcceptedRecords(limits, front) + [z.evidence]
    ensures FedRecords(limits, front + [z]) == FedRecords(limits, front)
  {
    assert (front + [z])[..|front|] == front;
  }

  lemma LateFresh(limits: Limits, x: Arrival, y: Arrival, z: Arrival)
    requires Sequence(x.evidence) < Sequence(z.evidence) < Sequence(y.evidence) <= Sequence(z.evidence) + limits.window
    ensures
      var s, o := Run(limits, [x, y]), z.evidence.observation;
      Decide(limits, s, o) == Fresh && !Feeds(s, o)
  {
    TwoAccepted(limits, x, y);
    NotAccepted(limits, [x, y], Sequence(z.evidence));
    AppendLate(limits, Run(limits, [x, y]), z.evidence, z.cfg);
  }

  lemma NotAccepted(limits: Limits, arrivals: seq<Arrival>, sequence: nat)
    requires sequence !in Accepted(limits, arrivals).Keys
    ensures sequence !in Run(limits, arrivals).dedup
  {
    RunFaithful(limits, arrivals);
  }

  /**
   Three records, the middle one late: the snapshot does not give the verdict back.
   Live the delta runs from a to c, replayed it runs from b to c.
   */
  lemma ReorderedSnapshot(limits: Limits, key: Key, width: Counter.Width, a: Evidence, b: Evidence, c: Evidence,
                          cfg: Counter.Config)
    requires ValidLimits(limits) && limits.history >= 3 && Rising(key, width, [a, c, b])
    requires Sequence(a) < Sequence(b) < Sequence(c) <= Sequence(b) + limits.window
    ensures
      var s := Run(limits, [Arrival(a, cfg), Arrival(c, cfg), Arrival(b, cfg)]);
      && IsRetained(s, [a, b, c])
      && Counter.Verdict(Replay(limits, [a, b, c], cfg).tracker) != Counter.Verdict(s.tracker)
  {
    var x, y, z := Arrival(a, cfg), Arrival(c, cfg), Arrival(b, cfg);
    LateAccepted(limits, x, y, z);
    RunKept(limits, [x, y, z], cfg);
    assert Records([x, y, z]) == [a, c, b];
    assert a in [a, b, c] && b in [a, b, c] && c in [a, b, c];
    SnapshotExactly(limits, key, width, [x, y, z], cfg, [a, b, c]);
  }

  /** A newer record is always accepted and fed. */
  lemma NewerAccepted(limits: Limits, front: seq<Arrival>, last: Arrival)
    requires
      var s := Run(limits, front);
      Capped(s) && s.watermark.Some? && s.watermark.value < Sequence(last.evidence)
    ensures AcceptedRecords(limits, front + [last]) == AcceptedRecords(limits, front) + [last.evidence]
    ensures FedRecords(limits, front + [last]) == FedRecords(limits, front) + [last.evidence]
  {
    assert (front + [last])[..|front|] == front;
    assert Sequence(last.evidence) !in Run(limits, front).dedup;
  }

  /**
   The same three records and a fourth received later. Asked about the instant before
   it, the stream names the late record b and reports a sequence regression; at that
   instant it had named c and reported an advance.
   */
  lemma ReorderedAsOf(limits: Limits, key: Key, width: Counter.Width, a: Evidence, b: Evidence, c: Evidence,
                      d: Evidence, cfg: Counter.Config, now: Instant)
    requires ValidLimits(limits) && limits.history >= 4 && Rising(key, width, [a, c, b, d])
    requires Sequence(a) < Sequence(b) < Sequence(c) <= Sequence(b) + limits.window && Sequence(c) < Sequence(d)
    requires Between([a, c, b, d], 3, now)
    ensures
      var three := [Arrival(a, cfg), Arrival(c, cfg), Arrival(b, cfg)];
      var s, before := Run(limits, three + [Arrival(d, cfg)]), Run(limits, three);
      && NewestAtOrBefore(s, now) == Some(b) && AsOf(s, now, cfg).event == Counter.SequenceRegressed
      && NewestAtOrBefore(before, now) == Some(c) && AsOf(before, now, cfg).event == Counter.Advance
  {
    var x, y, z, w := Arrival(a, cfg), Arrival(c, cfg), Arrival(b, cfg), Arrival(d, cfg);
    FourRun(limits, x, y, z, w, cfg);
    assert a in [a, c, b, d] && b in [a, c, b, d] && c in [a, c, b, d];
    ReconstructPrefix([a, c, b, d], 3, now, cfg);
    assert [a, c, b, d][..3] == [a, c, b];
    FedOutOfOrder(key, width, a, b, c, cfg);
    assert !ReceivedAfter([a, c, b, d][1], now) && ReceivedAfter([a, c, b, d][3], now);
  }

  lemma FourRun(limits: Limits, x: Arrival, y: Arrival, z: Arrival, w: Arrival, cfg: Counter.Config)
    requires ValidLimits(limits) && limits.history >= 4 && x.cfg == y.cfg == z.cfg == w.cfg == cfg
    requires Sequence(x.evidence) < Sequence(z.evidence) < Sequence(y.evidence) <= Sequence(z.evidence) + limits.window
    requires Sequence(y.evidence) < Sequence(w.evidence)
    ensures
      var s, before := Run(limits, [x, y, z] + [w]), Run(limits, [x, y, z]);
      && s.recent == [x.evidence, y.evidence, z.evidence, w.evidence] && s.latestFed == Some(w.evidence)
      && before.latestFed == Some(y.evidence) && before.tracker == FeedAll([x.evidence, y.evidence], cfg)
  {
    LateAccepted(limits, x, y, z);
    RunKept(limits, [x, y, z], cfg);
    RunCapped(limits, [x, y, z]);
    NewerAccepted(limits, [x, y, z], w);
    RunKept(limits, [x, y, z] + [w], cfg);
  }

  lemma FedOutOfOrder(key: Key, width: Counter.Width, a: Evidence, b: Evidence, c: Evidence, cfg: Counter.Config)
    requires Plain(key, width, a) && Plain(key, width, b) && Plain(key, width, c) && Rises(a, c)
    requires Sequence(a) < Sequence(b) < Sequence(c)
    ensures FeedAll([a, c], cfg).event == Counter.Advance
    ensures FeedAll([a, c, b], cfg).event == Counter.SequenceRegressed
  {
    assert [] + [a] == [a] && [a] + [c] == [a, c] && [a, c] + [b] == [a, c, b];
    FeedAllNext([], a, cfg);
    FeedNew(key, width, a, cfg);
    FeedAllNext([a], c, cfg);
    FeedHigher(key, width, FeedAll([a], cfg), a, c, cfg);
    FeedAllNext([a, c], b, cfg);
    FeedLower(key, width, FeedAll([a, c], cfg), c, b, cfg);
  }
}
