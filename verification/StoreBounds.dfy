/**
 What a store holds whatever happens to it: no more streams of a link than configured,
 of the records it accepted the newest, and of a saved window the largest sequences.

 Main results: `BoundsAlways`, `TurnedAwayExactly`, `HistoryNewest` and `SeedExactly`.
 */
module StoreBounds {
  import opened Optional
  import opened Evidence
  import opened EvidenceStream
  import opened EvidenceSnapshot
  import opened StoreModel
  import Counter

  ghost predicate Bounded(limits: Limits, store: Store) {
    Capped(limits, store) && |store.history| <= limits.globalHistory
  }

  lemma AppendBounded(limits: Limits, store: Store, e: Evidence, cfg: Counter.Config)
    requires Bounded(limits, store)
    ensures Bounded(limits, StoreAppend(limits, store, e, cfg))
  {
    forall link
      ensures |KeysOf(StoreAppend(limits, store, e, cfg).streams, link)| <= limits.streamsPerLink
    {
      AppendKeysOf(limits, store, e, cfg, link);
    }
  }

  lemma KeysWith(streams: map<Key, Stream>, key: Key, s: Stream, link: LinkId)
    ensures |KeysOf(streams[key := s], link)|
         == |KeysOf(streams, link)| + (if key.link == link && key !in streams then 1 else 0)
  {
    if key.link == link && key !in streams {
      assert KeysOf(streams[key := s], link) == KeysOf(streams, link) + {key};
    } else {
      assert KeysOf(streams[key := s], link) == KeysOf(streams, link);
    }
  }

  lemma SeedKeysOf(limits: Limits, store: Store, key: Key, entries: seq<(nat, nat)>, link: LinkId)
    requires |KeysOf(store.streams, link)| <= limits.streamsPerLink
    ensures |KeysOf(StoreSeed(limits, store, key, entries).streams, link)| <= limits.streamsPerLink
  {
    if HasRoom(limits, store, key) {
      KeysWith(store.streams, key, Seed(limits, StreamOf(store, key), entries), link);
    }
  }

  lemma SeedBounded(limits: Limits, store: Store, key: Key, entries: seq<(nat, nat)>)
    requires Bounded(limits, store)
    ensures Bounded(limits, StoreSeed(limits, store, key, entries))
  {
    forall link
      ensures |KeysOf(StoreSeed(limits, store, key, entries).streams, link)| <= limits.streamsPerLink
    {
      SeedKeysOf(limits, store, key, entries, link);
    }
  }

  lemma {:induction false} OthersShorter(es: seq<Evidence>, link: LinkId)
    ensures |Others(es, link)| <= |es|
  {
    if es != [] {
      OthersShorter(es[..|es| - 1], link);
    }
  }

  lemma {:induction false} Smaller<T>(a: set<T>, b: set<T>)
    requires a <= b
    ensures |a| <= |b|
  {
    assert b == a + (b - a);
  }

  lemma DropBounded(limits: Limits, store: Store, link: LinkId)
    requires Bounded(limits, store)
    ensures Bounded(limits, DropLink(store, link))
  {
    OthersShorter(store.history, link);
    forall other
      ensures |KeysOf(DropLink(store, link).streams, other)| <= limits.streamsPerLink
    {
      Smaller(KeysOf(DropLink(store, link).streams, other), KeysOf(store.streams, other));
    }
  }

  lemma EmptyBounded(limits: Limits)
    ensures Bounded(limits, EmptyStore)
  {
    forall link
      ensures |KeysOf(EmptyStore.streams, link)| <= limits.streamsPerLink
    {
      assert KeysOf(EmptyStore.streams, link) == {};
    }
  }

  lemma {:induction false} RecordsBounded(limits: Limits, records: seq<Evidence>, cfgOf: Key -> Counter.Config)
    ensures Bounded(limits, ReplayRecords(limits, records, cfgOf))
  {
    if records == [] {
      EmptyBounded(limits);
    } else {
      var front, last := records[..|records| - 1], records[|records| - 1];
      RecordsBounded(limits, front, cfgOf);
      AppendBounded(limits, ReplayRecords(limits, front, cfgOf), AsRecovered(last), cfgOf(last.observation.key));
    }
  }

  lemma {:induction false} SeedsBounded(limits: Limits, store: Store, seeds: seq<SeedRecord>)
    requires Bounded(limits, store)
    ensures Bounded(limits, ReplaySeeds(limits, store, seeds))
  {
    if seeds != [] {
      var front, last := seeds[..|seeds| - 1], seeds[|seeds| - 1];
      SeedsBounded(limits, store, front);
      SeedBounded(limits, ReplaySeeds(limits, store, front), last.key, last.entries);
    }
  }

  /** Through any ingests, drops and restarts, from any records and windows whatever, both bounds hold. */
  lemma {:induction false} BoundsAlways(limits: Limits, ops: seq<Op>)
    ensures Bounded(limits, StoreRun(limits, ops))
  {
    if ops == [] {
      EmptyBounded(limits);
    } else {
      var before, last := StoreRun(limits, ops[..|ops| - 1]), ops[|ops| - 1];
      BoundsAlways(limits, ops[..|ops| - 1]);
      match last
      case Ingest(a) => AppendBounded(limits, before, a.evidence, a.cfg);
      case Drop(link) => DropBounded(limits, before, link);
      case Reload(records, seeds, cfgOf) =>
        RecordsBounded(limits, records, cfgOf);
        SeedsBounded(limits, ReplayRecords(limits, records, cfgOf), seeds);
    }
  }

  // ------------------------------------------------------------------ no room

  ghost predicate NoRoom(limits: Limits, store: Store, key: Key) {
    && key !in store.streams
    && |set k | k in store.streams && k.link == key.link| == limits.streamsPerLink
  }

  /**
   A record or a saved window is turned away if and only if its stream is not there and
   its link has as many as it may; the store is then as it was. Otherwise the stream is there.
   */
  lemma TurnedAwayExactly(limits: Limits, ops: seq<Op>, e: Evidence, cfg: Counter.Config, entries: seq<(nat, nat)>)
    ensures
      var store, key := StoreRun(limits, ops), e.observation.key;
      var appended, seeded := StoreAppend(limits, store, e, cfg), StoreSeed(limits, store, key, entries);
      && (StoreDecide(limits, store, e.observation) == LimitExceeded <==> NoRoom(limits, store, key))
      && (NoRoom(limits, store, key) ==> appended == store && seeded == store)
      && (!NoRoom(limits, store, key) ==> key in appended.streams && key in seeded.streams)
  {
    BoundsAlways(limits, ops);
    var store, key := StoreRun(limits, ops), e.observation.key;
    assert |KeysOf(store.streams, key.link)| <= limits.streamsPerLink;
    assert KeysOf(store.streams, key.link) == set k | k in store.streams && k.link == key.link;
  }

  // ------------------------------------------------------------ the newest records

  ghost function Ingests(arrivals: seq<Arrival>): (ops: seq<Op>)
    ensures |ops| == |arrivals| && forall i :: 0 <= i < |ops| ==> ops[i] == Ingest(arrivals[i])
  {
    seq(|arrivals|, i requires 0 <= i < |arrivals| => Ingest(arrivals[i]))
  }

  /** The records accepted along the way. */
  ghost function TakenIn(limits: Limits, arrivals: seq<Arrival>): seq<Evidence> {
    if arrivals == [] then []
    else
      var front, e := arrivals[..|arrivals| - 1], arrivals[|arrivals| - 1].evidence;
      TakenIn(limits, front) +
      (if StoreDecide(limits, StoreRun(limits, Ingests(front)), e.observation) == Decided(Fresh) then [e] else [])
  }

  ghost predicate NewestOf(some: seq<Evidence>, all: seq<Evidence>, size: nat) {
    |some| == (if |all| < size then |all| else size) && some == all[|all| - |some|..]
  }

  lemma NewestNext(some: seq<Evidence>, all: seq<Evidence>, size: nat, e: Evidence)
    requires NewestOf(some, all, size)
    ensures NewestOf(Trim(some + [e], size), all + [e], size)
  {
    var more, kept := all + [e], Trim(some + [e], size);
    assert kept == more[|more| - |kept|..];
  }

  /** The history is the newest of all records accepted, as many as it may hold. */
  lemma {:induction false} HistoryNewest(limits: Limits, arrivals: seq<Arrival>)
    ensures NewestOf(StoreRun(limits, Ingests(arrivals)).history, TakenIn(limits, arrivals), limits.globalHistory)
  {
    if arrivals != [] {
      var n := |arrivals| - 1;
      var front, last := arrivals[..n], arrivals[n];
      HistoryNewest(limits, front);
      assert Ingests(arrivals)[..n] == Ingests(front);
      NewestNext(StoreRun(limits, Ingests(front)).history, TakenIn(limits, front), limits.globalHistory, last.evidence);
    }
  }

  // ------------------------------------------------------------------ restored windows

  /** The digest of a sequence after the entries were put in: the last one listed, or the one there before. */
  function Listed(entries: seq<(nat, nat)>, before: map<nat, nat>): map<nat, nat> {
    if entries == [] then before
    else
      var last := entries[|entries| - 1];
      Listed(entries[..|entries| - 1], before)[last.0 := last.1]
  }

  /** The largest `size` of the sequences, or all of them. */
  ghost predicate Largest(some: map<nat, nat>, all: map<nat, nat>, size: nat) {
    && (forall k :: k in some ==> k in all && some[k] == all[k])
    && |some| == (if |all| < size then |all| else size)
    && (forall k, dropped :: k in some && dropped in all && dropped !in some ==> dropped < k)
  }

  lemma {:induction false} DropOldestExactly(dedup: map<nat, nat>, size: nat)
    ensures Largest(DropOldest(dedup, size), dedup, size)
    decreases |dedup|
  {
    if |dedup| > size {
      var least := Least(dedup.Keys);
      var rest := dedup - {least};
      assert rest.Keys == dedup.Keys - {least} && |rest| == |dedup| - 1;
      DropOldestExactly(rest, size);
    }
  }

  lemma {:induction false} SeedAllExactly(s: Stream, entries: seq<(nat, nat)>)
    ensures
      var t := SeedAll(s, entries);
      && t.dedup == Listed(entries, s.dedup) && t == s.(dedup := t.dedup, watermark := t.watermark)
      && (forall i :: 0 <= i < |entries| ==> t.watermark.Some? && entries[i].0 <= t.watermark.value)
      && (s.watermark.Some? ==> t.watermark.Some? && s.watermark.value <= t.watermark.value)
      && (t.watermark == s.watermark || exists i :: 0 <= i < |entries| && t.watermark == Some(entries[i].0))
  {
    if entries != [] {
      var n := |entries| - 1;
      SeedAllExactly(s, entries[..n]);
      assert forall i :: 0 <= i < n ==> entries[..n][i] == entries[i];
    }
  }

  /**
   Putting a saved window back: the digests listed replace those there, the largest
   sequences stay, as many as the window is wide, the watermark is the largest sequence
   of all, and nothing else of the stream changes.
   */
  lemma SeedExactly(limits: Limits, s: Stream, entries: seq<(nat, nat)>)
    ensures
      var t := Seed(limits, s, entries);
      && Largest(t.dedup, Listed(entries, s.dedup), limits.window)
      && (forall i :: 0 <= i < |entries| ==> t.watermark.Some? && entries[i].0 <= t.watermark.value)
      && (s.watermark.Some? ==> t.watermark.Some? && s.watermark.value <= t.watermark.value)
      && (t.watermark == s.watermark || exists i :: 0 <= i < |entries| && t.watermark == Some(entries[i].0))
      && t == s.(dedup := t.dedup, watermark := t.watermark)
  {
    SeedAllExactly(s, entries);
    DropOldestExactly(Listed(entries, s.dedup), limits.window);
  }
}
