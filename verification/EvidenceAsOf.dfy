/**
 Questions about an earlier instant: the tracker's verdict is rebuilt from the records
 the stream still retains. The same argument settles what a snapshot does to it.

 Main results: `AsOfExact` and `SnapshotVerdict`, for streams that arrived in order.
 EvidenceReorder.dfy has the exact conditions for streams that did not.
 */
module EvidenceAsOf {
  import opened Optional
  import opened Evidence
  import opened EvidenceStream
  import opened EvidenceSnapshot
  import Counter

  // An instant on the steady clock of one process.
  datatype Instant = Instant(steady: int, epoch: nat)

  predicate ReceivedAfter(e: Evidence, now: Instant) {
    e.origin == Live && e.received.epoch == now.epoch && e.received.steady > now.steady
  }

  function NewestIn(es: seq<Evidence>, now: Instant): Option<Evidence> {
    if es == [] then None
    else if !ReceivedAfter(es[|es| - 1], now) then Some(es[|es| - 1])
    else NewestIn(es[..|es| - 1], now)
  }

  function NewestAtOrBefore(s: Stream, now: Instant): Option<Evidence> {
    if s.latestFed.Some? && !ReceivedAfter(s.latestFed.value, now) then s.latestFed else NewestIn(s.recent, now)
  }

  /** The retained counter records up to the instant, fed to a new tracker in arrival order. */
  function Reconstruct(es: seq<Evidence>, now: Instant, cfg: Counter.Config): Counter.Tracker {
    if es == [] then Counter.NewTracker
    else
      var before, e := Reconstruct(es[..|es| - 1], now, cfg), es[|es| - 1];
      if ReceivedAfter(e, now) || !e.observation.sample.CounterSample? then before
      else Counter.Observe(before, CounterReading(e.observation), cfg)
  }

  function AsOf(s: Stream, now: Instant, cfg: Counter.Config): Counter.Tracker {
    if s.latestFed.Some? && !ReceivedAfter(s.latestFed.value, now) then s.tracker
    else Reconstruct(s.recent, now, cfg)
  }

  // ------------------------------------------------------------ orderly streams

  /** Counter evidence of one stream that arrived live, in order, under one configuration. */
  ghost predicate Orderly(key: Key, arrivals: seq<Arrival>, epoch: nat, cfg: Counter.Config) {
    && AllAdmissible(key, arrivals)
    && (forall i :: 0 <= i < |arrivals| ==>
          && arrivals[i].cfg == cfg && arrivals[i].evidence.observation.sample.CounterSample?
          && arrivals[i].evidence.origin == Live && arrivals[i].evidence.received.epoch == epoch)
    && (forall i, j :: 0 <= i < j < |arrivals| ==>
          && Sequence(arrivals[i].evidence) < Sequence(arrivals[j].evidence)
          && arrivals[i].evidence.received.steady <= arrivals[j].evidence.received.steady)
  }

  function Records(arrivals: seq<Arrival>): (es: seq<Evidence>)
    ensures |es| == |arrivals| && forall i :: 0 <= i < |es| ==> es[i] == arrivals[i].evidence
  {
    seq(|arrivals|, i requires 0 <= i < |arrivals| => arrivals[i].evidence)
  }

  predicate AllCounters(es: seq<Evidence>) {
    forall i :: 0 <= i < |es| ==> es[i].observation.sample.CounterSample?
  }

  function Feed(t: Counter.Tracker, e: Evidence, cfg: Counter.Config): Counter.Tracker {
    if e.observation.sample.CounterSample? then Counter.Observe(t, CounterReading(e.observation), cfg) else t
  }

  /** All of the records fed to a new tracker. */
  function FeedAll(es: seq<Evidence>, cfg: Counter.Config): Counter.Tracker {
    if es == [] then Counter.NewTracker else Feed(FeedAll(es[..|es| - 1], cfg), es[|es| - 1], cfg)
  }

  lemma FeedAllNext(es: seq<Evidence>, e: Evidence, cfg: Counter.Config)
    ensures FeedAll(es + [e], cfg) == Feed(FeedAll(es, cfg), e, cfg)
  {
    assert (es + [e])[..|es|] == es;
  }

  function Inputs(es: seq<Evidence>, cfg: Counter.Config): (ins: seq<Counter.Input>)
    requires AllCounters(es)
    ensures |ins| == |es|
    ensures forall i :: 0 <= i < |es| ==> ins[i] == Counter.Input(CounterReading(es[i].observation), cfg)
  {
    seq(|es|, i requires 0 <= i < |es| => Counter.Input(CounterReading(es[i].observation), cfg))
  }

  lemma {:induction false} FeedAllIsRun(es: seq<Evidence>, cfg: Counter.Config)
    requires AllCounters(es)
    ensures FeedAll(es, cfg) == Counter.Run(Counter.NewTracker, Inputs(es, cfg))
  {
    if es != [] {
      var n := |es| - 1;
      FeedAllIsRun(es[..n], cfg);
      assert Inputs(es, cfg)[..n] == Inputs(es[..n], cfg);
    }
  }

  lemma OrderlyInputs(key: Key, arrivals: seq<Arrival>, epoch: nat, cfg: Counter.Config, m: nat)
    requires Orderly(key, arrivals, epoch, cfg) && m <= |arrivals|
    ensures AllCounters(Records(arrivals)[..m])
    ensures Counter.InOrder(Inputs(Records(arrivals)[..m], cfg))
  {
  }

  /** Feeding from record lo on says what feeding the whole orderly stretch says. */
  lemma FeedSuffix(es: seq<Evidence>, cfg: Counter.Config, lo: nat)
    requires AllCounters(es) && Counter.InOrder(Inputs(es, cfg)) && lo + 2 <= |es|
    ensures Counter.Verdict(FeedAll(es[lo..], cfg)) == Counter.Verdict(FeedAll(es, cfg))
  {
    FeedAllIsRun(es, cfg);
    FeedAllIsRun(es[lo..], cfg);
    assert Inputs(es[lo..], cfg) == Inputs(es, cfg)[lo..];
    Counter.SuffixDecides(Inputs(es, cfg), lo);
  }

  // ------------------------------------------------- the live stream, record by record

  /** The record with the highest sequence so far, fed last. */
  ghost predicate Newest(s: Stream, e: Evidence) {
    s.latestFed == Some(e) && s.watermark == s.fed == Some(Sequence(e))
  }

  /** Nothing lies above the watermark. */
  ghost predicate Capped(s: Stream) {
    s.fed == s.watermark && forall k :: k in s.dedup ==> s.watermark.Some? && k <= s.watermark.value
  }

  lemma RunCapped(limits: Limits, arrivals: seq<Arrival>)
    ensures Capped(Run(limits, arrivals))
  {
    RunFaithful(limits, arrivals);
  }

  lemma AppendNewer(limits: Limits, s: Stream, e: Evidence, cfg: Counter.Config)
    requires Capped(s) && (s.watermark.Some? ==> s.watermark.value < Sequence(e))
    ensures
      var s' := Append(limits, s, e, cfg);
      && Newest(s', e) && s'.recent == Trim(s.recent + [e], limits.history) && s'.tracker == Feed(s.tracker, e, cfg)
  {
    assert Sequence(e) !in s.dedup;
  }

  lemma TrimNext(es: seq<Evidence>, e: Evidence, size: nat)
    requires size >= 1
    ensures Trim(Trim(es, size) + [e], size) == Trim(es + [e], size)
  {
  }

  /** The stream accepted and fed all of the records, and keeps the last of them. */
  ghost predicate Mirrors(limits: Limits, s: Stream, es: seq<Evidence>, cfg: Counter.Config) {
    && s.recent == Trim(es, limits.history)
    && s.tracker == FeedAll(es, cfg)
    && (es == [] ==> s.latestFed == None && s.watermark == None)
    && (es != [] ==> Newest(s, es[|es| - 1]))
  }

  lemma MirrorsNext(limits: Limits, s: Stream, es: seq<Evidence>, e: Evidence, cfg: Counter.Config)
    requires ValidLimits(limits) && Capped(s) && Mirrors(limits, s, es, cfg)
    requires es != [] ==> Sequence(es[|es| - 1]) < Sequence(e)
    ensures Mirrors(limits, Append(limits, s, e, cfg), es + [e], cfg)
  {
    AppendNewer(limits, s, e, cfg);
    TrimNext(es, e, limits.history);
    FeedAllNext(es, e, cfg);
  }

  lemma OrderlyFront(key: Key, arrivals: seq<Arrival>, epoch: nat, cfg: Counter.Config, k: nat)
    requires Orderly(key, arrivals, epoch, cfg) && k <= |arrivals|
    ensures Orderly(key, arrivals[..k], epoch, cfg) && Records(arrivals[..k]) == Records(arrivals)[..k]
    ensures 0 < k < |arrivals| ==> Sequence(Records(arrivals)[k - 1]) < Sequence(arrivals[k].evidence)
    ensures k < |arrivals| ==> arrivals[k].cfg == cfg
  {
  }

  lemma MirrorsArrival(limits: Limits, front: seq<Arrival>, last: Arrival, es: seq<Evidence>, cfg: Counter.Config)
    requires ValidLimits(limits) && Mirrors(limits, Run(limits, front), es, cfg) && last.cfg == cfg
    requires es != [] ==> Sequence(es[|es| - 1]) < Sequence(last.evidence)
    ensures Mirrors(limits, Run(limits, front + [last]), es + [last.evidence], cfg)
  {
    RunCapped(limits, front);
    RunExtend(limits, front, last);
    MirrorsNext(limits, Run(limits, front), es, last.evidence, cfg);
  }

  lemma {:induction false} OrderlyMirrors(limits: Limits, key: Key, arrivals: seq<Arrival>, epoch: nat,
                                          cfg: Counter.Config)
    requires ValidLimits(limits) && Orderly(key, arrivals, epoch, cfg)
    ensures Mirrors(limits, Run(limits, arrivals), Records(arrivals), cfg)
  {
    if arrivals != [] {
      var n := |arrivals| - 1;
      var front, last, es := arrivals[..n], arrivals[n], Records(arrivals);
      OrderlyFront(key, arrivals, epoch, cfg, n);
      OrderlyMirrors(limits, key, front, epoch, cfg);
      assert arrivals == front + [last] && es == es[..n] + [last.evidence];
      MirrorsArrival(limits, front, last, es[..n], cfg);
    }
  }

  // ---------------------------------------------------------- reconstruction

  /** The instant falls between record m - 1 and record m. */
  ghost predicate Between(es: seq<Evidence>, m: nat, now: Instant) {
    && m <= |es|
    && (forall i :: 0 <= i < m ==> !ReceivedAfter(es[i], now))
    && (forall i :: m <= i < |es| ==> ReceivedAfter(es[i], now))
  }

  lemma ReconstructLast(es: seq<Evidence>, now: Instant, cfg: Counter.Config)
    requires es != []
    ensures
      var front, e := es[..|es| - 1], es[|es| - 1];
      Reconstruct(es, now, cfg)
        == if ReceivedAfter(e, now) then Reconstruct(front, now, cfg) else Feed(Reconstruct(front, now, cfg), e, cfg)
  {
  }

  lemma {:induction false} ReconstructPrefix(es: seq<Evidence>, m: nat, now: Instant, cfg: Counter.Config)
    requires Between(es, m, now)
    ensures Reconstruct(es, now, cfg) == FeedAll(es[..m], cfg)
    ensures NewestIn(es, now) == if m == 0 then None else Some(es[m - 1])
  {
    if es != [] {
      var n := |es| - 1;
      var front := es[..n];
      ReconstructLast(es, now, cfg);
      if m <= n {
        ReconstructPrefix(front, m, now, cfg);
        assert front[..m] == es[..m];
      } else {
        ReconstructPrefix(front, n, now, cfg);
        assert front[..n] == front && es[..m] == es == front + [es[n]];
        FeedAllNext(front, es[n], cfg);
      }
    }
  }

  /** Rebuilding from record lo on says what the whole stream up to record m said. */
  lemma RebuiltFrom(es: seq<Evidence>, cfg: Counter.Config, lo: nat, m: nat, now: Instant)
    requires Between(es, m, now) && lo <= m && (lo == 0 || lo + 2 <= m)
    requires AllCounters(es[..m]) && Counter.InOrder(Inputs(es[..m], cfg))
    ensures Counter.Verdict(Reconstruct(es[lo..], now, cfg)) == Counter.Verdict(FeedAll(es[..m], cfg))
    ensures NewestIn(es[lo..], now) == if m == lo then None else Some(es[m - 1])
  {
    ReconstructPrefix(es[lo..], m - lo, now, cfg);
    assert es[lo..][..m - lo] == es[..m][lo..];
    if lo > 0 {
      FeedSuffix(es[..m], cfg, lo);
    } else {
      assert es[..m][0..] == es[..m];
    }
  }

  /** Records of an orderly counter stream. */
  ghost predicate Steady(es: seq<Evidence>, cfg: Counter.Config) {
    AllCounters(es) && Counter.InOrder(Inputs(es, cfg))
  }

  lemma AsOfNow(limits: Limits, s: Stream, es: seq<Evidence>, cfg: Counter.Config, now: Instant)
    requires Between(es, |es|, now) && Mirrors(limits, s, es, cfg)
    ensures AsOf(s, now, cfg) == s.tracker && NewestAtOrBefore(s, now) == s.latestFed
  {
  }

  lemma AsOfThen(limits: Limits, s: Stream, es: seq<Evidence>, cfg: Counter.Config, m: nat, now: Instant)
    requires Between(es, m, now) && m < |es| && Mirrors(limits, s, es, cfg) && Steady(es[..m], cfg)
    requires |es| <= limits.history || |es| - limits.history + 2 <= m
    ensures Counter.Verdict(AsOf(s, now, cfg)) == Counter.Verdict(FeedAll(es[..m], cfg))
    ensures NewestAtOrBefore(s, now) == if m == 0 then None else Some(es[m - 1])
  {
    var lo := if |es| <= limits.history then 0 else |es| - limits.history;
    assert s.recent == es[lo..];
    RebuiltFrom(es, cfg, lo, m, now);
  }

  /** The first m of the records were received no later than the instant, by the clock they share. */
  ghost predicate ReceivedBy(es: seq<Evidence>, m: nat, now: Instant) {
    && m <= |es|
    && (forall i :: 0 <= i < m ==> es[i].received.steady <= now.steady)
    && (forall i :: m <= i < |es| ==> es[i].received.steady > now.steady)
  }

  /** What was recovered, or received by another process, came before any instant. */
  lemma ForeignAlwaysSeen(s: Stream, now: Instant, cfg: Counter.Config)
    requires s.latestFed.Some?
    requires s.latestFed.value.origin == Recovered || s.latestFed.value.received.epoch != now.epoch
    ensures AsOf(s, now, cfg) == s.tracker && NewestAtOrBefore(s, now) == s.latestFed
  {
  }

  /**
   A question about an earlier instant is answered as the live stream answered then,
   provided nothing was dropped yet or two records up to the instant are still there.
   */
  lemma {:induction false} AsOfExact(limits: Limits, key: Key, arrivals: seq<Arrival>, epoch: nat,
                                     cfg: Counter.Config, m: nat, now: Instant)
    requires ValidLimits(limits) && Orderly(key, arrivals, epoch, cfg) && now.epoch == epoch
    requires ReceivedBy(Records(arrivals), m, now)
    requires |arrivals| <= limits.history || |arrivals| - limits.history + 2 <= m
    ensures Counter.Verdict(AsOf(Run(limits, arrivals), now, cfg))
        == Counter.Verdict(Run(limits, arrivals[..m]).tracker)
    ensures NewestAtOrBefore(Run(limits, arrivals), now) == Run(limits, arrivals[..m]).latestFed
  {
    OrderlyMirrors(limits, key, arrivals, epoch, cfg);
    assert Between(Records(arrivals), m, now);
    if m == |arrivals| {
      assert arrivals[..m] == arrivals;
      AsOfNow(limits, Run(limits, arrivals), Records(arrivals), cfg, now);
    } else {
      PastMirrors(limits, key, arrivals, epoch, cfg, m);
      AsOfMirrored(limits, Run(limits, arrivals), Run(limits, arrivals[..m]), Records(arrivals), cfg, m, now);
    }
  }

  /** The stream as it was after m records. */
  ghost predicate After(s: Stream, es: seq<Evidence>, cfg: Counter.Config, m: nat)
    requires m <= |es|
  {
    s.tracker == FeedAll(es[..m], cfg) && s.latestFed == if m == 0 then None else Some(es[m - 1])
  }

  lemma PastMirrors(limits: Limits, key: Key, arrivals: seq<Arrival>, epoch: nat, cfg: Counter.Config, m: nat)
    requires ValidLimits(limits) && Orderly(key, arrivals, epoch, cfg) && m <= |arrivals|
    ensures After(Run(limits, arrivals[..m]), Records(arrivals), cfg, m) && Steady(Records(arrivals)[..m], cfg)
  {
    OrderlyFront(key, arrivals, epoch, cfg, m);
    OrderlyMirrors(limits, key, arrivals[..m], epoch, cfg);
    OrderlyInputs(key, arrivals, epoch, cfg, m);
  }

  lemma AsOfMirrored(limits: Limits, s: Stream, past: Stream, es: seq<Evidence>, cfg: Counter.Config, m: nat,
                     now: Instant)
    requires Between(es, m, now) && m < |es| && Mirrors(limits, s, es, cfg) && Steady(es[..m], cfg)
    requires After(past, es, cfg, m)
    requires |es| <= limits.history || |es| - limits.history + 2 <= m
    ensures Counter.Verdict(AsOf(s, now, cfg)) == Counter.Verdict(past.tracker)
    ensures NewestAtOrBefore(s, now) == past.latestFed
  {
    AsOfThen(limits, s, es, cfg, m, now);
  }

  // ------------------------------------------------------------------ snapshots

  lemma AscendingDistinct(b: seq<Evidence>, x: Evidence, y: Evidence)
    requires Ascending(b) && x in b && y in b && Sequence(x) == Sequence(y)
    ensures x == y
  {
    var i :| 0 <= i < |b| && b[i] == x;
    var j :| 0 <= j < |b| && b[j] == y;
  }

  lemma CoversElement(a: seq<Evidence>, b: seq<Evidence>, y: Evidence)
    requires Ascending(b) && (forall x :: x in a ==> x in b) && y in b && HasSequence(a, Sequence(y))
    ensures y in a
  {
    var x :| x in a && Sequence(x) == Sequence(y);
    AscendingDistinct(b, x, y);
  }

  lemma LastHighest(a: seq<Evidence>, x: Evidence)
    requires Ascending(a) && x in a
    ensures x == a[|a| - 1] || Sequence(x) < Sequence(a[|a| - 1])
  {
    var i :| 0 <= i < |a| && a[i] == x;
    if i < |a| - 1 {
      assert Sequence(a[i]) < Sequence(a[|a| - 1]);
    }
  }

  lemma SameLast(a: seq<Evidence>, b: seq<Evidence>)
    requires Ascending(a) && Ascending(b) && a != [] && b != [] && a[|a| - 1] in b && b[|b| - 1] in a
    ensures a[|a| - 1] == b[|b| - 1]
  {
    LastHighest(a, b[|b| - 1]);
    LastHighest(b, a[|a| - 1]);
  }

  /** Two ascending sequences with the same elements are the same. */
  lemma {:induction false} AscendingUnique(a: seq<Evidence>, b: seq<Evidence>)
    requires Ascending(a) && Ascending(b) && forall x :: x in a <==> x in b
    ensures a == b
  {
    assert |a| == 0 || a[|a| - 1] in b;
    assert |b| == 0 || b[|b| - 1] in a;
    if a != [] && b != [] {
      var n, m := |a| - 1, |b| - 1;
      SameLast(a, b);
      forall x
        ensures x in a[..n] <==> x in b[..m]
      {
        FrontIs(a, x);
        FrontIs(b, x);
      }
      AscendingUnique(a[..n], b[..m]);
      assert a == a[..n] + [a[n]] && b == b[..m] + [b[m]];
    }
  }

  lemma FrontIs(a: seq<Evidence>, x: Evidence)
    requires Ascending(a) && a != []
    ensures x in a[..|a| - 1] <==> x in a && x != a[|a| - 1]
  {
    var n := |a| - 1;
    if x in a && x != a[n] {
      var i :| 0 <= i < |a| && a[i] == x;
      assert a[..n][i] == x;
    }
    if x in a[..n] {
      var i :| 0 <= i < n && a[..n][i] == x;
      assert Sequence(a[i]) < Sequence(a[n]);
    }
  }

  /** Replaying records in sequence order feeds all of them. */
  lemma {:induction false} ReplayTracker(limits: Limits, rs: seq<Evidence>, cfg: Counter.Config)
    requires ValidLimits(limits) && Ascending(rs)
    ensures Replay(limits, rs, cfg).tracker == FeedAll(rs, cfg)
  {
    if rs != [] {
      var n := |rs| - 1;
      var front, last := rs[..n], rs[n];
      ReplayTracker(limits, front, cfg);
      ReplayCapped(limits, front, cfg);
      assert n > 0 ==> front[n - 1] == rs[n - 1];
      AppendNewer(limits, Replay(limits, front, cfg), AsRecovered(last), cfg);
      assert Feed(FeedAll(front, cfg), AsRecovered(last), cfg) == Feed(FeedAll(front, cfg), last, cfg);
    }
  }

  lemma ReplayCapped(limits: Limits, rs: seq<Evidence>, cfg: Counter.Config)
    requires ValidLimits(limits) && Ascending(rs)
    ensures
      var t := Replay(limits, rs, cfg);
      Capped(t) && (rs == [] ==> t.watermark.None?) && (rs != [] ==> t.watermark == Some(Sequence(rs[|rs| - 1])))
  {
    ReplayAscending(limits, rs, cfg);
    var t := Replay(limits, rs, cfg);
    forall k | k in t.dedup
      ensures t.watermark.Some? && k <= t.watermark.value
    {
      var r :| r in rs && Sequence(r) == k;
      var i :| 0 <= i < |rs| && rs[i] == r;
      assert i < |rs| - 1 ==> Sequence(rs[i]) < Sequence(rs[|rs| - 1]);
    }
  }

  lemma OrderlyAscending(key: Key, arrivals: seq<Arrival>, epoch: nat, cfg: Counter.Config, lo: nat)
    requires Orderly(key, arrivals, epoch, cfg) && lo <= |arrivals|
    ensures Ascending(Records(arrivals)[lo..])
  {
  }

  /** A snapshot of an orderly stream keeps its ring, whatever way the records are collected. */
  lemma RetainedIsRing(s: Stream, rs: seq<Evidence>)
    requires IsRetained(s, rs) && Ascending(s.recent) && (s.latestFed.Some? ==> s.latestFed.value in s.recent)
    ensures rs == s.recent
  {
    forall y | y in s.recent
      ensures y in rs
    {
      CoversElement(rs, s.recent, y);
    }
    AscendingUnique(rs, s.recent);
  }

  /**
   An orderly stream also gets its tracker's verdict back, if the ring holds two
   records or nothing was ever dropped from it.
   */
  lemma {:induction false} SnapshotVerdict(limits: Limits, key: Key, arrivals: seq<Arrival>, epoch: nat,
                                           cfg: Counter.Config, rs: seq<Evidence>)
    requires ValidLimits(limits) && Orderly(key, arrivals, epoch, cfg) && IsRetained(Run(limits, arrivals), rs)
    requires |arrivals| <= limits.history || 2 <= limits.history
    ensures Counter.Verdict(Replay(limits, rs, cfg).tracker) == Counter.Verdict(Run(limits, arrivals).tracker)
  {
    var s, es, n := Run(limits, arrivals), Records(arrivals), |arrivals|;
    var lo := if n <= limits.history then 0 else n - limits.history;
    OrderlyMirrors(limits, key, arrivals, epoch, cfg);
    OrderlySteady(key, arrivals, epoch, cfg, lo);
    SteadySnapshot(limits, s, es, lo, rs, cfg);
  }

  lemma OrderlySteady(key: Key, arrivals: seq<Arrival>, epoch: nat, cfg: Counter.Config, lo: nat)
    requires Orderly(key, arrivals, epoch, cfg) && lo <= |arrivals|
    ensures Steady(Records(arrivals), cfg) && Ascending(Records(arrivals)[lo..])
  {
    OrderlyAscending(key, arrivals, epoch, cfg, lo);
    OrderlyInputs(key, arrivals, epoch, cfg, |arrivals|);
    assert Records(arrivals)[..|arrivals|] == Records(arrivals);
  }

  lemma SteadySnapshot(limits: Limits, s: Stream, es: seq<Evidence>, lo: nat, rs: seq<Evidence>, cfg: Counter.Config)
    requires ValidLimits(limits) && Mirrors(limits, s, es, cfg) && IsRetained(s, rs) && Steady(es, cfg)
    requires lo == (if |es| <= limits.history then 0 else |es| - limits.history) && Ascending(es[lo..])
    requires lo == 0 || 2 <= limits.history
    ensures Counter.Verdict(Replay(limits, rs, cfg).tracker) == Counter.Verdict(s.tracker)
  {
    assert s.recent == es[lo..];
    LatestInRing(limits, s, es, cfg);
    RetainedIsRing(s, rs);
    ReplayTracker(limits, es[lo..], cfg);
    if lo == 0 {
      assert es[0..] == es;
    } else {
      FeedSuffix(es, cfg, lo);
    }
  }

  lemma LatestInRing(limits: Limits, s: Stream, es: seq<Evidence>, cfg: Counter.Config)
    requires ValidLimits(limits) && Mirrors(limits, s, es, cfg)
    ensures s.latestFed.Some? ==> s.latestFed.value in s.recent
  {
    if es != [] {
      assert s.recent[|s.recent| - 1] == es[|es| - 1];
    }
  }
}
