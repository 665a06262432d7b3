/**
 Snapshots of a stream: the records it retains, replayed in sequence order into an
 empty stream, and then its duplicate window.

 Main results: `AppendSound`, `StreamRestored` and `SameDecisionsForever`: what every
 stream keeps, through arrivals and restorations alike, is enough to restore it.
 */
module EvidenceSnapshot {
  import opened Optional
  import opened Evidence
  import opened EvidenceStream
  import Counter

  // ------------------------------------------------------- what the ring holds

  function Sequence(e: Evidence): nat { e.observation.sequence }

  /** A record of the window carries the digest the window knows, and there is one at the watermark. */
  ghost predicate Vouched(limits: Limits, s: Stream, e: Evidence)
    requires s.watermark.Some?
  {
    && Sequence(e) <= s.watermark.value
    && (s.watermark.value < Sequence(e) + limits.window ==>
          Sequence(e) in s.dedup && s.dedup[Sequence(e)] == limits.digest(e.observation))
    && (Sequence(e) == s.watermark.value ==> s.latestFed == Some(e))
  }

  ghost predicate RingFaithful(limits: Limits, s: Stream) {
    && |s.recent| <= limits.history
    && (s.watermark.None? ==> s.recent == [])
    && (s.watermark.Some? ==>
          && s.latestFed.Some? && Sequence(s.latestFed.value) == s.watermark.value
          && Vouched(limits, s, s.latestFed.value)
          && forall i :: 0 <= i < |s.recent| ==> Vouched(limits, s, s.recent[i]))
  }

  lemma VouchedStays(limits: Limits, s: Stream, e: Evidence, cfg: Counter.Config, kept: Evidence)
    requires ValidLimits(limits) && s.watermark.Some? && s.fed == s.watermark && s.watermark.value in s.dedup
    requires Decide(limits, s, e.observation) == Fresh && Vouched(limits, s, kept)
    ensures Vouched(limits, Accept(limits, s, e, cfg), kept)
  {
  }

  lemma VouchedNew(limits: Limits, s: Stream, e: Evidence, cfg: Counter.Config)
    requires ValidLimits(limits) && s.fed == s.watermark && (s.watermark.Some? ==> s.watermark.value in s.dedup)
    requires Decide(limits, s, e.observation) == Fresh
    ensures Vouched(limits, Accept(limits, s, e, cfg), e)
  {
  }

  lemma AcceptRing(limits: Limits, s: Stream, history: History, e: Evidence, cfg: Counter.Config)
    requires ValidLimits(limits) && Faithful(limits, s, history) && RingFaithful(limits, s)
    requires Decide(limits, s, e.observation) == Fresh
    ensures RingFaithful(limits, Accept(limits, s, e, cfg))
  {
    var s' := Accept(limits, s, e, cfg);
    VouchedNew(limits, s, e, cfg);
    if s.watermark.Some? {
      VouchedStays(limits, s, e, cfg, s.latestFed.value);
    }
    forall i | 0 <= i < |s'.recent|
      ensures Vouched(limits, s', s'.recent[i])
    {
      if s'.recent[i] in s.recent {
        var k :| 0 <= k < |s.recent| && s.recent[k] == s'.recent[i];
        VouchedStays(limits, s, e, cfg, s.recent[k]);
      } else {
        assert s'.recent[i] in s.recent + [e];
      }
    }
  }

  lemma {:induction false} RunRing(limits: Limits, arrivals: seq<Arrival>)
    requires ValidLimits(limits)
    ensures RingFaithful(limits, Run(limits, arrivals))
  {
    if arrivals != [] {
      var front, last := arrivals[..|arrivals| - 1], arrivals[|arrivals| - 1];
      RunRing(limits, front);
      RunFaithful(limits, front);
      if Decide(limits, Run(limits, front), last.evidence.observation) == Fresh {
        AcceptRing(limits, Run(limits, front), Accepted(limits, front), last.evidence, last.cfg);
      }
    }
  }

  // ----------------------------------------------------- what every stream keeps

  /** Window, marks, latest fed record and ring agree with one another. */
  ghost predicate Sound(limits: Limits, s: Stream) { Faithful(limits, s, s.dedup) && RingFaithful(limits, s) }

  /** What is true of a stream and its full history is true of it and its window. */
  lemma FaithfulToWindow(limits: Limits, s: Stream, history: History)
    requires ValidLimits(limits) && Faithful(limits, s, history)
    ensures Faithful(limits, s, s.dedup)
  {
    if s.watermark.Some? {
      assert Fence(s.dedup, s.watermark.value, limits.window) == s.dedup;
    }
  }

  lemma AppendSound(limits: Limits, s: Stream, e: Evidence, cfg: Counter.Config)
    requires ValidLimits(limits) && Sound(limits, s)
    ensures Sound(limits, Append(limits, s, e, cfg)) && Append(limits, s, e, cfg).watermark.Some?
  {
    if Decide(limits, s, e.observation) == Fresh {
      AcceptRing(limits, s, s.dedup, e, cfg);
      AcceptFaithful(limits, s, s.dedup, e, cfg);
      FaithfulToWindow(limits, Accept(limits, s, e, cfg),
                       s.dedup[e.observation.sequence := limits.digest(e.observation)]);
    }
  }

  lemma SoundWindow(limits: Limits, s: Stream)
    requires Sound(limits, s)
    ensures |s.dedup| <= limits.window
  {
    if s.watermark.Some? {
      assert forall k :: k in s.dedup.Keys ==> k in Fence(s.dedup, s.watermark.value, limits.window);
      InWindow(s.dedup.Keys, s.watermark.value, limits.window);
    }
  }

  // ------------------------------------------------------------------ replay

  ghost predicate Ascending(rs: seq<Evidence>) {
    forall i, j :: 0 <= i < j < |rs| ==> Sequence(rs[i]) < Sequence(rs[j])
  }

  /** Records of a stream that are enough to restore it: in order, the latest fed one among them. */
  ghost predicate Suffices(s: Stream, rs: seq<Evidence>) {
    && Ascending(rs)
    && (forall r :: r in rs ==> r in s.recent || s.latestFed == Some(r))
    && (s.latestFed.Some? ==> s.latestFed.value in rs)
  }

  /** The records a snapshot writes for a stream: one for each sequence it holds. */
  ghost predicate IsRetained(s: Stream, rs: seq<Evidence>) {
    Suffices(s, rs) && forall e :: e in s.recent ==> HasSequence(rs, Sequence(e))
  }

  ghost predicate HasSequence(rs: seq<Evidence>, sequence: nat) {
    exists r :: r in rs && Sequence(r) == sequence
  }

  function AsRecovered(e: Evidence): Evidence { e.(origin := Recovered) }

  function Replay(limits: Limits, rs: seq<Evidence>, cfg: Counter.Config): Stream {
    if rs == [] then EmptyStream
    else Append(limits, Replay(limits, rs[..|rs| - 1], cfg), AsRecovered(rs[|rs| - 1]), cfg)
  }

  /** Records in sequence order are all accepted, and nothing else gets into the window. */
  lemma {:induction false} ReplayAscending(limits: Limits, rs: seq<Evidence>, cfg: Counter.Config)
    requires ValidLimits(limits) && Ascending(rs)
    ensures
      var t := Replay(limits, rs, cfg);
      && t.fed == t.watermark
      && (rs == [] ==> t == EmptyStream)
      && (rs != [] ==> t.watermark == Some(Sequence(rs[|rs| - 1])) && t.latestFed == Some(AsRecovered(rs[|rs| - 1])))
      && forall k :: k in t.dedup ==>
           && t.watermark.Some? && t.watermark.value < k + limits.window
           && exists r :: r in rs && Sequence(r) == k && t.dedup[k] == limits.digest(AsRecovered(r).observation)
  {
    if rs != [] {
      var n := |rs| - 1;
      var front, last := rs[..n], rs[n];
      ReplayAscending(limits, front, cfg);
      var t := Replay(limits, front, cfg);
      if n > 0 {
        assert front[n - 1] == rs[n - 1];
      }
      assert Sequence(last) !in t.dedup;
    }
  }

  // ------------------------------------------------------------------ seeding

  lemma {:induction false} LeastExists(keys: set<nat>)
    requires keys != {}
    ensures exists k :: k in keys && forall j :: j in keys ==> k <= j
  {
    var x :| x in keys;
    var rest := keys - {x};
    if rest == {} {
      assert keys == {x};
    } else {
      LeastExists(rest);
      var y :| y in rest && forall j :: j in rest ==> y <= j;
      var least := if x < y then x else y;
      assert least in keys && forall j :: j in keys ==> least <= j by {
        assert keys == rest + {x};
      }
    }
  }

  ghost function Least(keys: set<nat>): (k: nat)
    requires keys != {}
    ensures k in keys && forall j :: j in keys ==> k <= j
  {
    LeastExists(keys);
    var k :| k in keys && forall j :: j in keys ==> k <= j;
    k
  }

  /** Drops the oldest entries until the window is no larger than allowed. */
  ghost function DropOldest(dedup: map<nat, nat>, size: nat): map<nat, nat>
    decreases |dedup|
  {
    if |dedup| <= size then dedup
    else
      var rest := dedup - {Least(dedup.Keys)};
      assert rest.Keys == dedup.Keys - {Least(dedup.Keys)};
      DropOldest(rest, size)
  }

  function SeedOne(s: Stream, entry: (nat, nat)): Stream {
    s.(dedup := s.dedup[entry.0 := entry.1], watermark := Raise(s.watermark, entry.0))
  }

  function SeedAll(s: Stream, entries: seq<(nat, nat)>): Stream {
    if entries == [] then s else SeedOne(SeedAll(s, entries[..|entries| - 1]), entries[|entries| - 1])
  }

  ghost function Seed(limits: Limits, s: Stream, entries: seq<(nat, nat)>): Stream {
    var seeded := SeedAll(s, entries);
    seeded.(dedup := DropOldest(seeded.dedup, limits.window))
  }

  /** Seeding touches window and watermark and nothing else. */
  lemma {:induction false} SeedAllKeeps(s: Stream, entries: seq<(nat, nat)>)
    ensures var t := SeedAll(s, entries); t == s.(dedup := t.dedup, watermark := t.watermark)
  {
    if entries != [] {
      SeedAllKeeps(s, entries[..|entries| - 1]);
    }
  }

  /** The window as it is written out: every entry once. */
  ghost predicate Lists(entries: seq<(nat, nat)>, dedup: map<nat, nat>) {
    && (forall i :: 0 <= i < |entries| ==> entries[i].0 in dedup && dedup[entries[i].0] == entries[i].1)
    && (forall k :: k in dedup ==> (k, dedup[k]) in entries)
  }

  ghost predicate Within(small: map<nat, nat>, large: map<nat, nat>) {
    forall k :: k in small ==> k in large && small[k] == large[k]
  }

  lemma {:induction false} SeedAllFills(t: Stream, entries: seq<(nat, nat)>, dedup: map<nat, nat>, mark: nat)
    requires t.watermark == Some(mark) && Within(t.dedup, dedup) && (forall k :: k in dedup ==> k <= mark)
    requires forall i :: 0 <= i < |entries| ==> entries[i].0 in dedup && dedup[entries[i].0] == entries[i].1
    ensures
      var t' := SeedAll(t, entries);
      && t' == t.(dedup := t'.dedup) && Within(t'.dedup, dedup)
      && (forall i :: 0 <= i < |entries| ==> entries[i].0 in t'.dedup)
  {
    if entries != [] {
      SeedAllFills(t, entries[..|entries| - 1], dedup, mark);
    }
  }

  lemma SeedRestores(limits: Limits, t: Stream, entries: seq<(nat, nat)>, dedup: map<nat, nat>, mark: nat)
    requires t.watermark == Some(mark) && Within(t.dedup, dedup) && (forall k :: k in dedup ==> k <= mark)
    requires Lists(entries, dedup) && |dedup| <= limits.window
    ensures Seed(limits, t, entries) == t.(dedup := dedup)
  {
    SeedAllFills(t, entries, dedup, mark);
    var t' := SeedAll(t, entries);
    forall k | k in dedup
      ensures k in t'.dedup
    {
      var i :| 0 <= i < |entries| && entries[i] == (k, dedup[k]);
      assert entries[i].0 in t'.dedup;
    }
    assert t'.dedup == dedup;
  }

  // ---------------------------------------------------------- what is restored

  /** Two streams between which no later observation can tell. */
  ghost predicate SameFence(s: Stream, t: Stream) {
    s.dedup == t.dedup && s.watermark == t.watermark && s.fed == t.fed
  }

  lemma RetainedVouched(limits: Limits, s: Stream, rs: seq<Evidence>, r: Evidence)
    requires RingFaithful(limits, s) && s.watermark.Some? && Suffices(s, rs) && r in rs
    ensures Vouched(limits, s, r)
  {
  }

  /** The last record written is the one fed last. */
  lemma RetainedLast(limits: Limits, s: Stream, rs: seq<Evidence>)
    requires RingFaithful(limits, s) && s.watermark.Some? && Suffices(s, rs)
    ensures rs != [] && rs[|rs| - 1] == s.latestFed.value
  {
    var i :| 0 <= i < |rs| && rs[i] == s.latestFed.value;
    var last := rs[|rs| - 1];
    assert i < |rs| - 1 ==> Sequence(rs[i]) < Sequence(last);
    RetainedVouched(limits, s, rs, last);
  }

  lemma ReplayWithin(limits: Limits, s: Stream, rs: seq<Evidence>, cfg: Counter.Config)
    requires ValidLimits(limits) && RingFaithful(limits, s) && s.watermark.Some? && Suffices(s, rs)
    ensures
      var t := Replay(limits, rs, cfg);
      && t.watermark == s.watermark == t.fed && Within(t.dedup, s.dedup)
      && t.latestFed == Some(AsRecovered(s.latestFed.value))
  {
    var t := Replay(limits, rs, cfg);
    ReplayAscending(limits, rs, cfg);
    RetainedLast(limits, s, rs);
    forall k | k in t.dedup
      ensures k in s.dedup && t.dedup[k] == s.dedup[k]
    {
      var r :| r in rs && Sequence(r) == k && t.dedup[k] == limits.digest(AsRecovered(r).observation);
      RetainedVouched(limits, s, rs, r);
    }
  }

  lemma {:induction false} ReplaySound(limits: Limits, rs: seq<Evidence>, cfg: Counter.Config)
    requires ValidLimits(limits)
    ensures Sound(limits, Replay(limits, rs, cfg))
  {
    if rs != [] {
      ReplaySound(limits, rs[..|rs| - 1], cfg);
      AppendSound(limits, Replay(limits, rs[..|rs| - 1], cfg), AsRecovered(rs[|rs| - 1]), cfg);
    }
  }

  /** A sound stream stays so when its window is filled up to that of another with the same marks. */
  lemma FilledSound(limits: Limits, s: Stream, t: Stream)
    requires Sound(limits, s) && Sound(limits, t) && Within(t.dedup, s.dedup)
    requires s.watermark.Some? && t.watermark == s.watermark
    ensures Sound(limits, t.(dedup := s.dedup))
  {
    var t' := t.(dedup := s.dedup);
    forall e | Vouched(limits, t, e)
      ensures Vouched(limits, t', e)
    {
    }
  }

  /**
   A snapshot of any sound stream, or as much of it as suffices, replayed into an empty
   one, brings back its duplicate window, watermark, fed sequence and latest fed
   observation, and is a sound stream again.
   */
  lemma {:induction false} StreamRestored(limits: Limits, s: Stream, rs: seq<Evidence>, entries: seq<(nat, nat)>,
                                          cfg: Counter.Config)
    requires ValidLimits(limits) && Sound(limits, s) && Suffices(s, rs) && Lists(entries, s.dedup)
    ensures
      var t := Seed(limits, Replay(limits, rs, cfg), entries);
      && SameFence(s, t) && Sound(limits, t)
      && (s.latestFed.Some? ==> t.latestFed == Some(AsRecovered(s.latestFed.value)))
  {
    assert |rs| == 0 || rs[0] in rs;
    assert |entries| == 0 || entries[0].0 in s.dedup;
    SoundWindow(limits, s);
    if s.watermark.Some? {
      ReplayWithin(limits, s, rs, cfg);
      ReplaySound(limits, rs, cfg);
      SeedRestores(limits, Replay(limits, rs, cfg), entries, s.dedup, s.watermark.value);
      FilledSound(limits, s, Replay(limits, rs, cfg));
    }
  }

  function AppendAll(limits: Limits, s: Stream, later: seq<Arrival>): Stream {
    if later == [] then s
    else
      var last := later[|later| - 1];
      Append(limits, AppendAll(limits, s, later[..|later| - 1]), last.evidence, last.cfg)
  }

  /** From then on both decide alike on everything that may ever arrive. */
  lemma {:induction false} SameDecisionsForever(limits: Limits, s: Stream, t: Stream, later: seq<Arrival>,
                                                o: Observation)
    requires SameFence(s, t)
    ensures SameFence(AppendAll(limits, s, later), AppendAll(limits, t, later))
    ensures Decide(limits, AppendAll(limits, s, later), o) == Decide(limits, AppendAll(limits, t, later), o)
  {
    if later != [] {
      var front, last := later[..|later| - 1], later[|later| - 1];
      SameDecisionsForever(limits, s, t, front, last.evidence.observation);
    }
  }
}
