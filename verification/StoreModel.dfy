/**
 The evidence store: streams by key, bounded in number for each link.

 Main results: `StoreRestored`, `StoreRunSound` and `StoreDecidesAlike`.
 */
module StoreModel {
  import opened Optional
  import opened Evidence
  import opened EvidenceStream
  import opened EvidenceSnapshot
  import Counter

  datatype Store = Store(streams: map<Key, Stream>, history: seq<Evidence>)

  const EmptyStore := Store(map[], [])

  datatype Outcome = LimitExceeded | Decided(decision: Decision)

  function KeysOf(streams: map<Key, Stream>, link: LinkId): set<Key> {
    set k | k in streams && k.link == link
  }

  predicate HasRoom(limits: Limits, store: Store, key: Key) {
    key in store.streams || |KeysOf(store.streams, key.link)| < limits.streamsPerLink
  }

  function StreamOf(store: Store, key: Key): Stream {
    if key in store.streams then store.streams[key] else EmptyStream
  }

  function StoreDecide(limits: Limits, store: Store, o: Observation): Outcome {
    if HasRoom(limits, store, o.key) then Decided(Decide(limits, StreamOf(store, o.key), o)) else LimitExceeded
  }

  function StoreAppend(limits: Limits, store: Store, e: Evidence, cfg: Counter.Config): Store {
    var key := e.observation.key;
    match StoreDecide(limits, store, e.observation)
    case LimitExceeded => store
    case Decided(decision) =>
      Store(store.streams[key := Append(limits, StreamOf(store, key), e, cfg)],
            if decision == Fresh then Trim(store.history + [e], limits.globalHistory) else store.history)
  }

  ghost function StoreSeed(limits: Limits, store: Store, key: Key, entries: seq<(nat, nat)>): Store {
    if HasRoom(limits, store, key)
    then store.(streams := store.streams[key := Seed(limits, StreamOf(store, key), entries)]) else store
  }

  function Others(es: seq<Evidence>, link: LinkId): seq<Evidence> {
    if es == [] then []
    else
      var front, last := Others(es[..|es| - 1], link), es[|es| - 1];
      if last.observation.key.link == link then front else front + [last]
  }

  function DropLink(store: Store, link: LinkId): Store {
    Store(map k | k in store.streams && k.link != link :: store.streams[k], Others(store.history, link))
  }

  // ----------------------------------------------------------- reachable stores

  // `Reload` is a restart: the store is built again from a snapshot.
  datatype Op =
    | Ingest(arrival: Arrival)
    | Drop(link: LinkId)
    | Reload(records: seq<Evidence>, seeds: seq<SeedRecord>, cfgOf: Key -> Counter.Config)

  ghost function StoreDo(limits: Limits, store: Store, op: Op): Store {
    match op
    case Ingest(a) => StoreAppend(limits, store, a.evidence, a.cfg)
    case Drop(link) => DropLink(store, link)
    case Reload(records, seeds, cfgOf) => Loaded(limits, records, seeds, cfgOf)
  }

  ghost function StoreRun(limits: Limits, ops: seq<Op>): Store {
    if ops == [] then EmptyStore else StoreDo(limits, StoreRun(limits, ops[..|ops| - 1]), ops[|ops| - 1])
  }

  /** All the records a stream holds are its own. */
  ghost predicate KeyedBy(key: Key, s: Stream) {
    && (forall e :: e in s.recent ==> e.observation.key == key)
    && (s.latestFed.Some? ==> s.latestFed.value.observation.key == key)
  }

  ghost predicate Capped(limits: Limits, store: Store) {
    forall link :: |KeysOf(store.streams, link)| <= limits.streamsPerLink
  }

  /** Every stream is sound, holds something and only records of its own, and no link has too many streams. */
  ghost predicate SoundStore(limits: Limits, store: Store) {
    && (forall k :: k in store.streams ==> Sound(limits, store.streams[k]) && store.streams[k].watermark.Some?)
    && (forall k :: k in store.streams ==> KeyedBy(k, store.streams[k]))
    && Capped(limits, store)
  }

  lemma AppendKeyed(limits: Limits, key: Key, s: Stream, e: Evidence, cfg: Counter.Config)
    requires KeyedBy(key, s) && e.observation.key == key
    ensures KeyedBy(key, Append(limits, s, e, cfg))
  {
  }

  lemma AppendKeysOf(limits: Limits, store: Store, e: Evidence, cfg: Counter.Config, link: LinkId)
    requires |KeysOf(store.streams, link)| <= limits.streamsPerLink
    ensures |KeysOf(StoreAppend(limits, store, e, cfg).streams, link)| <= limits.streamsPerLink
  {
    var key, store' := e.observation.key, StoreAppend(limits, store, e, cfg);
    if key in store'.streams && key !in store.streams && key.link == link {
      assert KeysOf(store'.streams, link) == KeysOf(store.streams, link) + {key};
    } else {
      assert KeysOf(store'.streams, link) == KeysOf(store.streams, link);
    }
  }

  lemma StoreAppendSound(limits: Limits, store: Store, e: Evidence, cfg: Counter.Config)
    requires ValidLimits(limits) && SoundStore(limits, store)
    ensures SoundStore(limits, StoreAppend(limits, store, e, cfg))
  {
    var key, store' := e.observation.key, StoreAppend(limits, store, e, cfg);
    AppendSound(limits, StreamOf(store, key), e, cfg);
    AppendKeyed(limits, key, StreamOf(store, key), e, cfg);
    forall link
      ensures |KeysOf(store'.streams, link)| <= limits.streamsPerLink
    {
      AppendKeysOf(limits, store, e, cfg, link);
    }
  }

  lemma DropSound(limits: Limits, store: Store, dropped: LinkId)
    requires SoundStore(limits, store)
    ensures SoundStore(limits, DropLink(store, dropped))
  {
    forall link
      ensures |KeysOf(DropLink(store, dropped).streams, link)| <= limits.streamsPerLink
    {
      assert KeysOf(DropLink(store, dropped).streams, link)
          == if link == dropped then {} else KeysOf(store.streams, link);
    }
  }

  lemma EmptyStoreSound(limits: Limits)
    ensures SoundStore(limits, EmptyStore)
  {
    assert forall link :: KeysOf(EmptyStore.streams, link) == {};
  }

  // ----------------------------------------------------------------- snapshots

  /** The records of one stream, in the order they are written. */
  function Of(records: seq<Evidence>, key: Key): seq<Evidence> {
    if records == [] then []
    else
      var front, last := Of(records[..|records| - 1], key), records[|records| - 1];
      if last.observation.key == key then front + [last] else front
  }

  datatype SeedRecord = SeedRecord(key: Key, entries: seq<(nat, nat)>)

  /** Records of every stream that are enough to restore it, and the windows of all streams. */
  ghost predicate Enough(store: Store, records: seq<Evidence>, seeds: seq<SeedRecord>) {
    && (forall i :: 0 <= i < |records| ==> records[i].observation.key in store.streams)
    && (forall k :: k in store.streams ==> Suffices(store.streams[k], Of(records, k)))
    && (forall i :: 0 <= i < |seeds| ==>
          seeds[i].key in store.streams && Lists(seeds[i].entries, store.streams[seeds[i].key].dedup))
    && (forall i, j :: 0 <= i < j < |seeds| ==> seeds[i].key != seeds[j].key)
    && (forall k :: k in store.streams ==> exists i :: 0 <= i < |seeds| && seeds[i].key == k)
  }

  /** What a snapshot writes: the retained records of every stream, in order, then every window. */
  ghost predicate IsSnapshot(store: Store, records: seq<Evidence>, seeds: seq<SeedRecord>) {
    Enough(store, records, seeds) && forall k :: k in store.streams ==> IsRetained(store.streams[k], Of(records, k))
  }

  function ReplayRecords(limits: Limits, records: seq<Evidence>, cfgOf: Key -> Counter.Config): Store {
    if records == [] then EmptyStore
    else
      var last := records[|records| - 1];
      StoreAppend(limits, ReplayRecords(limits, records[..|records| - 1], cfgOf), AsRecovered(last),
                  cfgOf(last.observation.key))
  }

  ghost function ReplaySeeds(limits: Limits, store: Store, seeds: seq<SeedRecord>): Store {
    if seeds == [] then store
    else
      var last := seeds[|seeds| - 1];
      StoreSeed(limits, ReplaySeeds(limits, store, seeds[..|seeds| - 1]), last.key, last.entries)
  }

  /** What a restart makes of a snapshot. */
  ghost function Loaded(limits: Limits, records: seq<Evidence>, seeds: seq<SeedRecord>,
                        cfgOf: Key -> Counter.Config): Store {
    ReplaySeeds(limits, ReplayRecords(limits, records, cfgOf), seeds)
  }

  ghost predicate Holds(limits: Limits, store: Store, records: seq<Evidence>, cfgOf: Key -> Counter.Config) {
    && (forall k :: k in store.streams <==> Of(records, k) != [])
    && (forall k :: k in store.streams ==> store.streams[k] == Replay(limits, Of(records, k), cfgOf(k)))
  }

  /** A store holding some of the live store's streams has room for any other of them. */
  lemma RoomForKnown(limits: Limits, live: Store, store: Store, key: Key)
    requires |KeysOf(live.streams, key.link)| <= limits.streamsPerLink
    requires key in live.streams && (forall k :: k in store.streams ==> k in live.streams)
    ensures HasRoom(limits, store, key)
  {
    if key !in store.streams {
      var small, large := KeysOf(store.streams, key.link), KeysOf(live.streams, key.link);
      assert small <= large - {key};
      SubsetSmaller(small, large - {key});
    }
  }

  lemma {:induction false} SubsetSmaller<T>(a: set<T>, b: set<T>)
    requires a <= b
    ensures |a| <= |b|
    decreases |a|
  {
    if a != {} {
      var x :| x in a;
      SubsetSmaller(a - {x}, b - {x});
    }
  }

  lemma {:induction false} OfKnown(records: seq<Evidence>, key: Key)
    requires Of(records, key) != []
    ensures exists i :: 0 <= i < |records| && records[i].observation.key == key
  {
    var n := |records| - 1;
    if records[n].observation.key != key {
      OfKnown(records[..n], key);
      var i :| 0 <= i < n && records[..n][i].observation.key == key;
      assert records[i].observation.key == key;
    }
  }

  lemma OfNext(front: seq<Evidence>, last: Evidence, key: Key)
    ensures Of(front + [last], key) == if last.observation.key == key then Of(front, key) + [last] else Of(front, key)
  {
    assert (front + [last])[..|front|] == front;
  }

  lemma ReplayNext(limits: Limits, rs: seq<Evidence>, last: Evidence, cfg: Counter.Config)
    ensures Replay(limits, rs + [last], cfg) == Append(limits, Replay(limits, rs, cfg), AsRecovered(last), cfg)
  {
    assert (rs + [last])[..|rs|] == rs;
  }

  lemma HoldsNext(limits: Limits, store: Store, front: seq<Evidence>, last: Evidence, cfgOf: Key -> Counter.Config)
    requires Holds(limits, store, front, cfgOf) && HasRoom(limits, store, last.observation.key)
    ensures Holds(limits, StoreAppend(limits, store, AsRecovered(last), cfgOf(last.observation.key)),
        front + [last], cfgOf)
  {
    var key := last.observation.key;
    var store' := StoreAppend(limits, store, AsRecovered(last), cfgOf(key));
    assert store'.streams == store.streams[key := Append(limits, StreamOf(store, key), AsRecovered(last), cfgOf(key))];
    assert StreamOf(store, key) == Replay(limits, Of(front, key), cfgOf(key));
    forall k
      ensures k in store'.streams <==> Of(front + [last], k) != []
      ensures k in store'.streams ==> store'.streams[k] == Replay(limits, Of(front + [last], k), cfgOf(k))
    {
      OfNext(front, last, k);
      ReplayNext(limits, Of(front, k), last, cfgOf(k));
    }
  }

  lemma HeldKnown(limits: Limits, live: Store, store: Store, records: seq<Evidence>, cfgOf: Key -> Counter.Config)
    requires Holds(limits, store, records, cfgOf) && AllFrom(live, records)
    ensures forall k :: k in store.streams ==> k in live.streams
  {
    forall k | k in store.streams
      ensures k in live.streams
    {
      OfKnown(records, k);
    }
  }

  ghost predicate AllFrom(live: Store, records: seq<Evidence>) {
    forall i :: 0 <= i < |records| ==> records[i].observation.key in live.streams
  }

  lemma HeldNext(limits: Limits, live: Store, store: Store, front: seq<Evidence>, last: Evidence,
                 cfgOf: Key -> Counter.Config)
    requires Capped(limits, live) && AllFrom(live, front) && last.observation.key in live.streams
    requires Holds(limits, store, front, cfgOf)
    ensures Holds(limits, StoreAppend(limits, store, AsRecovered(last), cfgOf(last.observation.key)), front + [last],
                  cfgOf)
  {
    HeldKnown(limits, live, store, front, cfgOf);
    RoomForKnown(limits, live, store, last.observation.key);
    HoldsNext(limits, store, front, last, cfgOf);
  }

  lemma {:induction false} RecordsHeld(limits: Limits, live: Store, records: seq<Evidence>,
                                       cfgOf: Key -> Counter.Config)
    requires Capped(limits, live) && AllFrom(live, records)
    ensures Holds(limits, ReplayRecords(limits, records, cfgOf), records, cfgOf)
  {
    if records == [] {
      NoneHeld(limits, cfgOf);
    } else {
      var front, last := records[..|records| - 1], records[|records| - 1];
      assert AllFrom(live, front) && records == front + [last];
      RecordsHeld(limits, live, front, cfgOf);
      HeldNext(limits, live, ReplayRecords(limits, front, cfgOf), front, last, cfgOf);
      RecordsNext(limits, front, last, cfgOf);
    }
  }

  lemma RecordsNext(limits: Limits, front: seq<Evidence>, last: Evidence, cfgOf: Key -> Counter.Config)
    ensures ReplayRecords(limits, front + [last], cfgOf)
         == StoreAppend(limits, ReplayRecords(limits, front, cfgOf), AsRecovered(last), cfgOf(last.observation.key))
  {
    assert (front + [last])[..|front|] == front;
  }

  lemma NoneHeld(limits: Limits, cfgOf: Key -> Counter.Config)
    ensures Holds(limits, EmptyStore, [], cfgOf)
  {
  }

  ghost predicate KnownKeys(store: Store, seeds: seq<SeedRecord>) {
    forall i :: 0 <= i < |seeds| ==> seeds[i].key in store.streams
  }

  lemma {:induction false} SeedKeys(limits: Limits, before: Store, seeds: seq<SeedRecord>)
    requires KnownKeys(before, seeds)
    ensures ReplaySeeds(limits, before, seeds).streams.Keys == before.streams.Keys
  {
    if seeds != [] {
      SeedKeys(limits, before, seeds[..|seeds| - 1]);
      assert seeds[|seeds| - 1].key in before.streams.Keys;
    }
  }

  lemma {:induction false} Unseeded(limits: Limits, before: Store, seeds: seq<SeedRecord>, key: Key)
    requires KnownKeys(before, seeds) && key in before.streams
    requires forall i :: 0 <= i < |seeds| ==> seeds[i].key != key
    ensures
      var after := ReplaySeeds(limits, before, seeds);
      key in after.streams && after.streams[key] == before.streams[key]
  {
    if seeds != [] {
      Unseeded(limits, before, seeds[..|seeds| - 1], key);
    }
  }

  lemma {:induction false} SeededAt(limits: Limits, before: Store, seeds: seq<SeedRecord>, i: nat)
    requires KnownKeys(before, seeds) && i < |seeds|
    requires forall i, j :: 0 <= i < j < |seeds| ==> seeds[i].key != seeds[j].key
    ensures
      var after, key := ReplaySeeds(limits, before, seeds), seeds[i].key;
      key in after.streams && after.streams[key] == Seed(limits, before.streams[key], seeds[i].entries)
  {
    var n := |seeds| - 1;
    var front, key := seeds[..n], seeds[i].key;
    if i == n {
      Unseeded(limits, before, front, key);
    } else {
      SeededAt(limits, before, front, i);
      assert seeds[n].key != key;
    }
  }

  ghost predicate SameStreams(live: Store, store: Store) {
    && store.streams.Keys == live.streams.Keys
    && forall k :: k in live.streams ==> SameFence(live.streams[k], store.streams[k])
  }

  lemma SnapshotKeys(limits: Limits, live: Store, records: seq<Evidence>, seeds: seq<SeedRecord>, mid: Store,
                     cfgOf: Key -> Counter.Config)
    requires SoundStore(limits, live) && Enough(live, records, seeds) && Holds(limits, mid, records, cfgOf)
    ensures mid.streams.Keys == live.streams.Keys
  {
    forall k
      ensures k in live.streams.Keys <==> k in mid.streams.Keys
    {
      if k in live.streams {
        assert live.streams[k].latestFed.value in Of(records, k);
      } else if k in mid.streams {
        OfKnown(records, k);
      }
    }
  }

  /** One stream, live and restored. */
  ghost predicate RestoredStream(s: Stream, t: Stream) {
    SameFence(s, t) && s.latestFed.Some? && t.latestFed == Some(AsRecovered(s.latestFed.value))
  }

  lemma RestoredAt(limits: Limits, live: Store, records: seq<Evidence>, seeds: seq<SeedRecord>, mid: Store,
                   cfgOf: Key -> Counter.Config, i: nat)
    requires ValidLimits(limits) && SoundStore(limits, live) && Enough(live, records, seeds) && i < |seeds|
    requires Holds(limits, mid, records, cfgOf) && mid.streams.Keys == live.streams.Keys
    ensures
      var key := seeds[i].key;
      && key in live.streams && key in mid.streams
      && var t := Seed(limits, mid.streams[key], seeds[i].entries);
         RestoredStream(live.streams[key], t) && Sound(limits, t) && KeyedBy(key, t)
  {
    var key := seeds[i].key;
    assert key in mid.streams.Keys;
    StreamRestored(limits, live.streams[key], Of(records, key), seeds[i].entries, cfgOf(key));
    LoadedKeyed(limits, records, key, cfgOf(key), seeds[i].entries);
  }

  lemma {:induction false} OfKeyed(records: seq<Evidence>, key: Key)
    ensures forall e :: e in Of(records, key) ==> e.observation.key == key
  {
    if records != [] {
      OfKeyed(records[..|records| - 1], key);
    }
  }

  lemma {:induction false} ReplayKeyed(limits: Limits, rs: seq<Evidence>, key: Key, cfg: Counter.Config)
    requires forall e :: e in rs ==> e.observation.key == key
    ensures KeyedBy(key, Replay(limits, rs, cfg))
  {
    if rs != [] {
      ReplayKeyed(limits, rs[..|rs| - 1], key, cfg);
      AppendKeyed(limits, key, Replay(limits, rs[..|rs| - 1], cfg), AsRecovered(rs[|rs| - 1]), cfg);
    }
  }

  lemma LoadedKeyed(limits: Limits, records: seq<Evidence>, key: Key, cfg: Counter.Config, entries: seq<(nat, nat)>)
    ensures KeyedBy(key, Seed(limits, Replay(limits, Of(records, key), cfg), entries))
  {
    OfKeyed(records, key);
    ReplayKeyed(limits, Of(records, key), key, cfg);
    SeedAllKeeps(Replay(limits, Of(records, key), cfg), entries);
  }

  /** The store as it was, with the latest fed observation of every stream. */
  ghost predicate Restored(live: Store, store: Store) {
    SameStreams(live, store) && forall k :: k in live.streams ==> RestoredStream(live.streams[k], store.streams[k])
  }

  /**
   Any sound store comes back from its snapshot, or as much of it as suffices: the same
   streams, each with its window, watermark and fed sequence, and with its latest fed
   observation. It is a sound store again.
   */
  lemma {:induction false} StoreRestored(limits: Limits, live: Store, records: seq<Evidence>, seeds: seq<SeedRecord>,
                                         cfgOf: Key -> Counter.Config)
    requires ValidLimits(limits) && SoundStore(limits, live) && Enough(live, records, seeds)
    ensures Restored(live, Loaded(limits, records, seeds, cfgOf))
    ensures SoundStore(limits, Loaded(limits, records, seeds, cfgOf))
  {
    var mid := ReplayRecords(limits, records, cfgOf);
    RecordsHeld(limits, live, records, cfgOf);
    SnapshotKeys(limits, live, records, seeds, mid, cfgOf);
    assert KnownKeys(mid, seeds) by {
      assert forall i :: 0 <= i < |seeds| ==> seeds[i].key in mid.streams.Keys;
    }
    SeedKeys(limits, mid, seeds);
    var store := Loaded(limits, records, seeds, cfgOf);
    forall k | k in live.streams
      ensures k in store.streams && RestoredStream(live.streams[k], store.streams[k])
      ensures Sound(limits, store.streams[k]) && KeyedBy(k, store.streams[k])
    {
      var i :| 0 <= i < |seeds| && seeds[i].key == k;
      RestoredAt(limits, live, records, seeds, mid, cfgOf, i);
      SeededAt(limits, mid, seeds, i);
    }
    SameSound(limits, live, store);
  }

  lemma SameSound(limits: Limits, live: Store, store: Store)
    requires SoundStore(limits, live) && SameStreams(live, store)
    requires forall k :: k in live.streams ==> Sound(limits, store.streams[k]) && KeyedBy(k, store.streams[k])
    ensures SoundStore(limits, store)
  {
    forall k | k in store.streams
      ensures k in live.streams && SameFence(live.streams[k], store.streams[k])
    {
      assert k in live.streams.Keys;
    }
    forall link
      ensures |KeysOf(store.streams, link)| <= limits.streamsPerLink
    {
      assert KeysOf(store.streams, link) == KeysOf(live.streams, link) by {
        assert forall k :: k in store.streams <==> k in store.streams.Keys;
      }
    }
  }

  // -------------------------------------------------------------------- whole runs

  /** Every restart of the run loaded a snapshot of the store at that moment, or enough of one. */
  ghost predicate Loads(limits: Limits, ops: seq<Op>) {
    forall i :: 0 <= i < |ops| && ops[i].Reload? ==>
      Enough(StoreRun(limits, ops[..i]), ops[i].records, ops[i].seeds)
  }

  lemma LoadsFront(limits: Limits, ops: seq<Op>)
    requires Loads(limits, ops) && ops != []
    ensures Loads(limits, ops[..|ops| - 1])
  {
    var front := ops[..|ops| - 1];
    assert forall i :: 0 <= i < |front| ==> front[..i] == ops[..i];
  }

  /** Through any ingests, drops and restarts, in any order. */
  lemma {:induction false} StoreRunSound(limits: Limits, ops: seq<Op>)
    requires ValidLimits(limits) && Loads(limits, ops)
    ensures SoundStore(limits, StoreRun(limits, ops))
  {
    if ops == [] {
      EmptyStoreSound(limits);
    } else {
      var before, last := StoreRun(limits, ops[..|ops| - 1]), ops[|ops| - 1];
      LoadsFront(limits, ops);
      StoreRunSound(limits, ops[..|ops| - 1]);
      match last
      case Ingest(a) => StoreAppendSound(limits, before, a.evidence, a.cfg);
      case Drop(link) => DropSound(limits, before, link);
      case Reload(records, seeds, cfgOf) => StoreRestored(limits, before, records, seeds, cfgOf);
    }
  }

  // ------------------------------------------------------ every store has a snapshot

  /** A snapshot of the streams of some keys. */
  ghost predicate IsPart(store: Store, keys: set<Key>, records: seq<Evidence>, seeds: seq<SeedRecord>) {
    && keys <= store.streams.Keys && (forall e :: e in records ==> e.observation.key in keys)
    && (forall k :: k in keys ==> IsRetained(store.streams[k], Of(records, k)))
    && keys == Seeded(seeds)
    && (forall i :: 0 <= i < |seeds| ==>
          seeds[i].key in store.streams && Lists(seeds[i].entries, store.streams[seeds[i].key].dedup))
    && (forall i, j :: 0 <= i < j < |seeds| ==> seeds[i].key != seeds[j].key)
  }

  function Seeded(seeds: seq<SeedRecord>): set<Key> { set seed | seed in seeds :: seed.key }

  lemma Regroup(a: seq<Evidence>, b: seq<Evidence>, c: seq<Evidence>)
    ensures (a + b) + c == a + (b + c)
  {
  }

  lemma {:induction false} OfConcat(a: seq<Evidence>, b: seq<Evidence>, key: Key)
    ensures Of(a + b, key) == Of(a, key) + Of(b, key)
  {
    if b == [] {
      assert a + b == a && Of(a, key) + [] == Of(a, key);
    } else {
      var front, last := b[..|b| - 1], b[|b| - 1];
      OfConcat(a, front, key);
      OfNext(a + front, last, key);
      OfNext(front, last, key);
      assert a + b == a + front + [last] && b == front + [last];
      Regroup(Of(a, key), Of(front, key), if last.observation.key == key then [last] else []);
    }
  }

  lemma {:induction false} OfOwn(rs: seq<Evidence>, own: Key, key: Key)
    requires forall e :: e in rs ==> e.observation.key == own
    ensures Of(rs, key) == if key == own then rs else []
  {
    if rs != [] {
      var front, last := rs[..|rs| - 1], rs[|rs| - 1];
      OfOwn(front, own, key);
      assert last in rs && rs == front + [last];
    }
  }

  lemma {:induction false} OfNone(records: seq<Evidence>, keys: set<Key>, key: Key)
    requires (forall e :: e in records ==> e.observation.key in keys) && key !in keys
    ensures Of(records, key) == []
  {
    if records != [] {
      OfNone(records[..|records| - 1], keys, key);
      assert records[|records| - 1] in records;
    }
  }

  lemma OfPart(records: seq<Evidence>, keys: set<Key>, rs: seq<Evidence>, own: Key, key: Key)
    requires (forall e :: e in records ==> e.observation.key in keys) && own !in keys
    requires forall e :: e in rs ==> e.observation.key == own
    ensures Of(records + rs, key) == if key == own then rs else Of(records, key)
  {
    OfConcat(records, rs, key);
    OfOwn(rs, own, key);
    if key == own {
      OfNone(records, keys, key);
    }
  }

  /** One more stream. */
  lemma PartNext(store: Store, keys: set<Key>, records: seq<Evidence>, seeds: seq<SeedRecord>, key: Key,
                 rs: seq<Evidence>, entries: seq<(nat, nat)>)
    requires IsPart(store, keys, records, seeds) && key in store.streams && key !in keys
    requires KeyedBy(key, store.streams[key]) && IsRetained(store.streams[key], rs)
    requires Lists(entries, store.streams[key].dedup)
    ensures IsPart(store, keys + {key}, records + rs, seeds + [SeedRecord(key, entries)])
  {
    forall k | k in keys + {key}
      ensures IsRetained(store.streams[k], Of(records + rs, k))
    {
      OfPart(records, keys, rs, key, k);
    }
    SeededNext(seeds, SeedRecord(key, entries));
    forall i | 0 <= i < |seeds|
      ensures seeds[i].key != key
    {
      assert seeds[i] in seeds;
    }
  }

  lemma SeededNext(seeds: seq<SeedRecord>, seed: SeedRecord)
    ensures Seeded(seeds + [seed]) == Seeded(seeds) + {seed.key}
  {
    assert seed in seeds + [seed] && forall x :: x in seeds ==> x in seeds + [seed];
  }

  lemma PartIsSnapshot(store: Store, records: seq<Evidence>, seeds: seq<SeedRecord>)
    requires IsPart(store, store.streams.Keys, records, seeds)
    ensures IsSnapshot(store, records, seeds)
  {
    assert forall i :: 0 <= i < |records| ==> records[i] in records;
    forall k | k in store.streams
      ensures IsRetained(store.streams[k], Of(records, k)) && exists i :: 0 <= i < |seeds| && seeds[i].key == k
    {
      assert k in store.streams.Keys && k in Seeded(seeds);
      var seed :| seed in seeds && seed.key == k;
      var i :| 0 <= i < |seeds| && seeds[i] == seed;
      assert seeds[i].key == k;
    }
  }

  // ------------------------------------------------------------- later decisions

  ghost function StoreRunFrom(limits: Limits, store: Store, ops: seq<Op>): Store {
    if ops == [] then store
    else StoreDo(limits, StoreRunFrom(limits, store, ops[..|ops| - 1]), ops[|ops| - 1])
  }

  lemma SameRoom(limits: Limits, live: Store, store: Store, key: Key)
    requires SameStreams(live, store)
    ensures HasRoom(limits, live, key) == HasRoom(limits, store, key)
  {
    assert key in live.streams <==> key in store.streams;
    assert KeysOf(live.streams, key.link) == KeysOf(store.streams, key.link);
  }

  lemma SameAppend(limits: Limits, live: Store, store: Store, e: Evidence, cfg: Counter.Config)
    requires SameStreams(live, store)
    ensures SameStreams(StoreAppend(limits, live, e, cfg), StoreAppend(limits, store, e, cfg))
    ensures StoreDecide(limits, live, e.observation) == StoreDecide(limits, store, e.observation)
  {
    SameRoom(limits, live, store, e.observation.key);
  }

  lemma SameDrop(live: Store, store: Store, link: LinkId)
    requires SameStreams(live, store)
    ensures SameStreams(DropLink(live, link), DropLink(store, link))
  {
  }

  /** Stores that agree in this way decide alike on every observation after any further run. */
  lemma {:induction false} StoreDecidesAlike(limits: Limits, live: Store, store: Store, later: seq<Op>, o: Observation)
    requires SameStreams(live, store)
    ensures SameStreams(StoreRunFrom(limits, live, later), StoreRunFrom(limits, store, later))
    ensures StoreDecide(limits, StoreRunFrom(limits, live, later), o)
         == StoreDecide(limits, StoreRunFrom(limits, store, later), o)
  {
    if later != [] {
      var front := later[..|later| - 1];
      StoreDecidesAlike(limits, live, store, front, o);
      var l, s := StoreRunFrom(limits, live, front), StoreRunFrom(limits, store, front);
      match later[|later| - 1] {
        case Ingest(a) => SameAppend(limits, l, s, a.evidence, a.cfg);
        case Drop(link) => SameDrop(l, s, link);
        case Reload(_, _, _) =>
      }
    }
    SameRoom(limits, StoreRunFrom(limits, live, later), StoreRunFrom(limits, store, later), o.key);
  }
}
