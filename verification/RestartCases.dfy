/**
 What restarts lose: a stream with one record, of a link evicted again; and, in a system
 that has lost one before, a fence that a snapshot no longer describes.

 Main results: `RestartLoses` and `LossSpreads`.
 */
module RestartCases {
  import opened Optional
  import opened Evidence
  import opened EvidenceStream
  import opened EvidenceSnapshot
  import opened StoreModel
  import opened LinkGenerations
  import opened Restart
  import Counter

  // --------------------------------------------------------------- one record lost

  lemma LateRegistry(b: Bounds, id: nat, at: Stamp, received: Stamp)
    requires ValidBounds(b) && b.maxGenerations == 1
    ensures
      var r := Observe(b, Advance(b, EmptyRegistry, id, 2, at), LinkId(id, 1), received);
      && ObserveStatus(b, Advance(b, EmptyRegistry, id, 2, at), LinkId(id, 1)) == Ok
      && Advance(b, EmptyRegistry, id, 2, at).evicted == [] && r.evicted == []
      && r.links.Keys == {LinkId(id, 1), LinkId(id, 2)}
  {
    var r := Advance(b, EmptyRegistry, id, 2, at);
    assert [] + [2] == [2] && ListOf(EmptyRegistry, id) == [];
    assert r.current == map[id := 2] && r.links.Keys == {LinkId(id, 2)};
  }

  lemma LateCrowded(b: Bounds, id: nat)
    requires b.maxGenerations == 1
    ensures Crowded(b, [LinkId(id, 1), LinkId(id, 2)], LinkId(id, 1))
  {
    var one, two := LinkId(id, 1), LinkId(id, 2);
    GensOfNext([], one, id);
    GensOfNext([one], two, id);
    assert [] + [one] == [one] && [one] + [two] == [one, two];
    assert GensOf([one, two], id) == [1, 2];
  }

  lemma LateStream(limits: Limits, e: Evidence, cfg: Counter.Config)
    requires ValidLimits(limits)
    ensures
      var o, s := e.observation, Append(limits, EmptyStream, e, cfg);
      s.recent == [e] && s.latestFed == Some(e) && s.dedup == map[o.sequence := limits.digest(o)]
  {
    assert [] + [e] == [e];
  }

  lemma LateRetained(limits: Limits, s: Stream, e: Evidence)
    requires s.recent == [e] && s.latestFed == Some(e)
    ensures Of([e], e.observation.key) == [e] && IsRetained(s, [e])
  {
    assert Of([e], e.observation.key) == [e] by {
      OfNext([], e, e.observation.key);
      assert [] + [e] == [e];
    }
    assert e in [e] && HasSequence([e], Sequence(e));
  }

  lemma LateStore(limits: Limits, e: Evidence, cfg: Counter.Config)
    requires ValidLimits(limits)
    ensures
      var o := e.observation;
      IsSnapshot(StoreAppend(limits, EmptyStore, e, cfg), [e], [SeedRecord(o.key, [(o.sequence, limits.digest(o))])])
  {
    var o, store := e.observation, StoreAppend(limits, EmptyStore, e, cfg);
    LateStreams(limits, e, cfg);
    LateStream(limits, e, cfg);
    OneRetained(limits, store.streams[o.key], e);
    FirstPart(store, o.key, e, LateSeeds(limits, e)[0].entries);
    PartIsSnapshot(store, [e], LateSeeds(limits, e));
  }

  lemma LateStreams(limits: Limits, e: Evidence, cfg: Counter.Config)
    requires ValidLimits(limits)
    ensures StoreAppend(limits, EmptyStore, e, cfg).streams
         == map[e.observation.key := Append(limits, EmptyStream, e, cfg)]
    ensures StoreAppend(limits, EmptyStore, e, cfg).streams.Keys == {e.observation.key}
  {
    assert KeysOf(EmptyStore.streams, e.observation.key.link) == {};
  }

  // Evidence for the first generation of a link that has moved on to the second.
  function LateActs(id: nat, e: Evidence, cfg: Counter.Config, at: Stamp): seq<Act> {
    [Happened(Moved(id, 2, at)), Happened(Ingested(Arrival(e, cfg)))]
  }

  function LateSeeds(limits: Limits, e: Evidence): seq<SeedRecord> {
    [SeedRecord(e.observation.key, [(e.observation.sequence, limits.digest(e.observation))])]
  }

  lemma LateLive(b: Bounds, limits: Limits, id: nat, e: Evidence, cfg: Counter.Config, at: Stamp)
    requires ValidBounds(b) && b.maxGenerations == 1 && e.observation.key.link == LinkId(id, 1)
    ensures
      var live := SystemRun(b, limits, LateActs(id, e, cfg, at));
      && live.registry.links.Keys == {LinkId(id, 1), LinkId(id, 2)}
      && live.store == StoreAppend(limits, EmptyStore, e, cfg)
  {
    var acts := LateActs(id, e, cfg, at);
    LateRegistry(b, id, at, e.received);
    var s := Restart.Live(b, limits, EmptySystem, acts[0].event);
    assert s == System(Advance(b, EmptyRegistry, id, 2, at), EmptyStore);
    assert SystemRun(b, limits, [acts[0]]) == s by {
      assert [acts[0]][..0] == [];
    }
    assert acts[..1] == [acts[0]];
  }

  lemma NotedLinks(b: Bounds, r: Registry, link: LinkId, at: Stamp)
    requires ValidBounds(b) && LinkGenerations.Inv(b, r) && Reached(r.current, link)
    ensures
      var r' := Observe(b, r, link, at);
      && ObserveStatus(b, r, link) == Ok && LinkGenerations.Inv(b, r'.(evicted := [])) && r'.current == r.current
      && r'.links.Keys == r.links.Keys + {link}
  {
    LinkGenerations.StepKeeps(b, r, Observed(link, at));
  }

  lemma LateListed(r: Registry, id: nat)
    requires r.links.Keys == {LinkId(id, 1), LinkId(id, 2)}
    ensures ListsLinks(r, [LinkId(id, 1), LinkId(id, 2)])
  {
    assert forall k :: k in r.links <==> k in r.links.Keys;
  }

  /** One evidence record that arrives late for a generation already left behind. */
  lemma RestartLoses(b: Bounds, limits: Limits, id: nat, e: Evidence, cfg: Counter.Config, at: Stamp,
                     atOf: LinkId -> Stamp, cfgOf: Key -> Counter.Config)
    requires ValidBounds(b) && ValidLimits(limits) && b.maxGenerations == 1
    requires e.observation.key.link == LinkId(id, 1)
    ensures
      var live, ls := SystemRun(b, limits, LateActs(id, e, cfg, at)), [LinkId(id, 1), LinkId(id, 2)];
      && Proper(live, Restarts(ls, atOf, [e], LateSeeds(limits, e), cfgOf))
      && !Restored(live.store, Restarted(b, limits, ls, atOf, [e], LateSeeds(limits, e), cfgOf).store)
  {
    var acts, ls := LateActs(id, e, cfg, at), [LinkId(id, 1), LinkId(id, 2)];
    var live := SystemRun(b, limits, acts);
    LateLive(b, limits, id, e, cfg, at);
    LateListed(live.registry, id);
    LateStore(limits, e, cfg);
    LateLoses(b, id, e);
    Restart.RunKeeps(b, limits, acts);
    RestoredExactly(b, limits, live, ls, atOf, [e], LateSeeds(limits, e), cfgOf);
  }

  lemma LateLoses(b: Bounds, id: nat, e: Evidence)
    requires b.maxGenerations == 1 && e.observation.key.link == LinkId(id, 1)
    ensures Loses(b, [LinkId(id, 1), LinkId(id, 2)], [e])
  {
    LateCrowded(b, id);
    OfNext([], e, e.observation.key);
    assert [] + [e] == [e];
  }

  // --------------------------------------------------- and what that leads to later

  /** The system after that restart: the stream is back with its window, and has fed nothing. */
  ghost predicate Hollow(b: Bounds, limits: Limits, s: System, id: nat, e: Evidence) {
    && LinkGenerations.Inv(b, s.registry) && s.registry.evicted == [] && s.registry.current == map[id := 2]
    && s.registry.links.Keys == {LinkId(id, 1), LinkId(id, 2)}
    && s.store.streams == map[e.observation.key := HollowStream(limits, e)]
  }

  function HollowStream(limits: Limits, e: Evidence): Stream {
    var o := e.observation;
    Stream([], map[o.sequence := limits.digest(o)], Some(o.sequence), None, Counter.NewTracker, None)
  }

  lemma LateReplayed(b: Bounds, id: nat, atOf: LinkId -> Stamp)
    requires ValidBounds(b) && b.maxGenerations == 1
    ensures
      var r := ReplayLinks(b, [LinkId(id, 1), LinkId(id, 2)], atOf);
      r.current == map[id := 2] && r.links.Keys == {LinkId(id, 2)} && r.evicted == [LinkId(id, 1)]
  {
    var one, two := LinkId(id, 1), LinkId(id, 2);
    assert [one, two][..1] == [one] && [one][..0] == [];
    assert [] + [1] == [1] && [1] + [2] == [1, 2] && [1, 2][..1] == [1] && [1, 2][1..] == [2];
    var first := Observe(b, EmptyRegistry, one, atOf(one));
    assert first.current == map[id := 1] && first.generations == map[id := [1]] && first.links.Keys == {one};
    assert ReplayLinks(b, [one], atOf) == first;
    LateSecond(b, first, id, atOf(two));
  }

  lemma LateSecond(b: Bounds, r: Registry, id: nat, at: Stamp)
    requires ValidBounds(b) && b.maxGenerations == 1
    requires r.current == map[id := 1] && r.generations == map[id := [1]] && r.links.Keys == {LinkId(id, 1)}
    requires r.evicted == []
    ensures
      var r' := Observe(b, r, LinkId(id, 2), at);
      r'.current == map[id := 2] && r'.links.Keys == {LinkId(id, 2)} && r'.evicted == [LinkId(id, 1)]
  {
    assert [1] + [2] == [1, 2] && [1, 2][..1] == [1];
    var promoted := Promote(b, r, id, 2, at);
    assert Ids(id, [1]) == [LinkId(id, 1)];
    assert promoted.evicted == [LinkId(id, 1)] && promoted.links.Keys == {LinkId(id, 2)};
  }

  lemma SeedSingle(s: Stream, entry: (nat, nat))
    ensures SeedAll(s, [entry]) == SeedOne(s, entry)
  {
    assert [entry][..0] == [];
  }

  lemma HollowSeeded(limits: Limits, e: Evidence)
    requires ValidLimits(limits)
    ensures ReplaySeeds(limits, EmptyStore, LateSeeds(limits, e)).streams
         == map[e.observation.key := HollowStream(limits, e)]
  {
    var o, seeds := e.observation, LateSeeds(limits, e);
    var entries := seeds[0].entries;
    assert KeysOf(EmptyStore.streams, o.key.link) == {};
    assert seeds[..0] == [];
    SeedSingle(EmptyStream, entries[0]);
    assert Seed(limits, EmptyStream, entries) == HollowStream(limits, e);
  }

  /** The restart that loses the record. */
  lemma HollowAfter(b: Bounds, limits: Limits, id: nat, e: Evidence, atOf: LinkId -> Stamp,
                    cfgOf: Key -> Counter.Config)
    requires ValidBounds(b) && ValidLimits(limits) && b.maxGenerations == 1
    requires e.observation.key.link == LinkId(id, 1)
    ensures
      var ls, seeds := [LinkId(id, 1), LinkId(id, 2)], LateSeeds(limits, e);
      Hollow(b, limits, Restarted(b, limits, ls, atOf, [e], seeds, cfgOf), id, e)
  {
    HollowReplayed(b, limits, id, e, atOf, cfgOf);
    HollowSeeded(limits, e);
  }

  lemma HollowReplayed(b: Bounds, limits: Limits, id: nat, e: Evidence, atOf: LinkId -> Stamp,
                       cfgOf: Key -> Counter.Config)
    requires ValidBounds(b) && ValidLimits(limits) && b.maxGenerations == 1
    requires e.observation.key.link == LinkId(id, 1)
    ensures
      var r := ReplayLinks(b, [LinkId(id, 1), LinkId(id, 2)], atOf);
      var s := ReplayAll(b, limits, System(r, EmptyStore), [e], cfgOf);
      && LinkGenerations.Inv(b, s.registry) && s.registry.evicted == [] && s.registry.current == map[id := 2]
      && s.registry.links.Keys == {LinkId(id, 1), LinkId(id, 2)} && s.store == EmptyStore
  {
    var ls := [LinkId(id, 1), LinkId(id, 2)];
    var r := ReplayLinks(b, ls, atOf);
    LateReplayed(b, id, atOf);
    ReplayKeeps(b, ls, atOf);
    RestartQuiet(b, limits, r, [e], cfgOf);
    assert [e][1..] == [];
    RecordsKeep(b, limits, System(r, EmptyStore), r.current, [e], cfgOf);
    HollowLinks(b, limits, r, id, e, cfgOf);
  }

  lemma HollowLinks(b: Bounds, limits: Limits, r: Registry, id: nat, e: Evidence, cfgOf: Key -> Counter.Config)
    requires ValidBounds(b) && ValidLimits(limits) && LinkGenerations.Inv(b, r)
    requires r.current == map[id := 2] && r.links.Keys == {LinkId(id, 2)} && e.observation.key.link == LinkId(id, 1)
    ensures ReplayAll(b, limits, System(r, EmptyStore), [e], cfgOf).registry.links.Keys
         == {LinkId(id, 1), LinkId(id, 2)}
  {
    NotedLinks(b, r, LinkId(id, 1), e.received);
    RecordObserved(b, limits, r, e, cfgOf(e.observation.key));
    ReplayOne(b, limits, System(r, EmptyStore), e, cfgOf);
  }

  lemma ReplayOne(b: Bounds, limits: Limits, s: System, e: Evidence, cfgOf: Key -> Counter.Config)
    ensures ReplayAll(b, limits, s, [e], cfgOf) == ReplayRecord(b, limits, s, e, cfgOf(e.observation.key))
  {
    assert [e][..0] == [];
  }

  lemma RecordObserved(b: Bounds, limits: Limits, r: Registry, e: Evidence, cfg: Counter.Config)
    requires ValidLimits(limits) && ObserveStatus(b, r, e.observation.key.link) == Ok
    ensures ReplayRecord(b, limits, System(r, EmptyStore), e, cfg).registry
         == Observe(b, r, e.observation.key.link, e.received).(evicted := [])
  {
    FirstStored(limits, e, cfg);
  }

  /** It then accepts a sequence one window behind, forgets it at once, and has fed nothing else. */
  ghost predicate Behind(limits: Limits, s: Stream, e: Evidence, late: Evidence) {
    && s.recent == [late] && s.latestFed == Some(late)
    && s.dedup == map[Sequence(e) := limits.digest(e.observation)] && s.watermark == Some(Sequence(e))
  }

  lemma AcceptsBehind(limits: Limits, e: Evidence, late: Evidence, cfg: Counter.Config)
    requires ValidLimits(limits) && Sequence(late) + limits.window == Sequence(e)
    ensures Decide(limits, HollowStream(limits, e), late.observation) == Fresh
    ensures Behind(limits, Append(limits, HollowStream(limits, e), late, cfg), e, late)
  {
    var s := HollowStream(limits, e);
    var dedup := Fence(s.dedup[Sequence(late) := limits.digest(late.observation)], Sequence(e), limits.window);
    assert dedup == s.dedup;
    assert [] + [late] == [late];
  }

  /** Live it is still fresh; restored from a snapshot it is a duplicate. */
  lemma BehindRestored(limits: Limits, s: Stream, e: Evidence, late: Evidence, cfg: Counter.Config)
    requires ValidLimits(limits) && 2 <= limits.window && Sequence(late) + limits.window == Sequence(e)
    requires Behind(limits, s, e, late)
    ensures
      var t := Seed(limits, Replay(limits, [late], cfg), [(Sequence(e), limits.digest(e.observation))]);
      && IsRetained(s, [late]) && Lists([(Sequence(e), limits.digest(e.observation))], s.dedup)
      && Decide(limits, s, late.observation) == Fresh && Decide(limits, t, late.observation) == Duplicate
  {
    var entries := [(Sequence(e), limits.digest(e.observation))];
    var replayed := Replay(limits, [late], cfg);
    ReplayNext(limits, [], late, cfg);
    assert [] + [late] == [late];
    assert replayed == Append(limits, EmptyStream, AsRecovered(late), cfg);
    LateStream(limits, AsRecovered(late), cfg);
    SeedSingle(replayed, entries[0]);
    var seeded := SeedAll(replayed, entries);
    assert seeded.dedup.Keys == {Sequence(late), Sequence(e)};
    assert |seeded.dedup| == 2 <= limits.window;
    assert late in [late] && HasSequence([late], Sequence(late)) && entries[0] in entries;
  }

  // ------------------------------------------------------------ the whole second run

  /** Two streams, of which the first one is behind. */
  ghost predicate TwoStored(limits: Limits, store: Store, e: Evidence, late: Evidence, other: Evidence) {
    var kb, ka := e.observation.key, other.observation.key;
    && store.streams.Keys == {ka, kb} && Behind(limits, store.streams[kb], e, late)
    && store.streams[ka].recent == [other] && store.streams[ka].latestFed == Some(other)
    && store.streams[ka].dedup == map[Sequence(other) := limits.digest(other.observation)]
  }

  ghost predicate TwoStreams(b: Bounds, limits: Limits, s: System, id: nat, e: Evidence, late: Evidence,
                             other: Evidence) {
    && LinkGenerations.Inv(b, s.registry) && TwoStored(limits, s.store, e, late, other)
    && s.registry.links.Keys == {other.observation.key.link, LinkId(id, 1), LinkId(id, 2)}
  }

  lemma LiveQuiet(b: Bounds, limits: Limits, s: System, a: Arrival)
    requires s.registry.evicted == [] && Known(s.registry.current, a.evidence)
    ensures
      var link, s' := a.evidence.observation.key.link, Restart.Live(b, limits, s, Ingested(a));
      s' == System(Observe(b, s.registry, link, a.evidence.received).(evicted := []),
                   StoreAppend(limits, s.store, a.evidence, a.cfg))
  {
    QuietObserve(b, s.registry, a.evidence.observation.key.link, a.evidence.received);
  }

  lemma LateStored(limits: Limits, store: Store, e: Evidence, late: Evidence, cfg: Counter.Config)
    requires ValidLimits(limits) && store.streams == map[e.observation.key := HollowStream(limits, e)]
    requires e.observation.key == late.observation.key && Sequence(late) + limits.window == Sequence(e)
    ensures
      var streams := StoreAppend(limits, store, late, cfg).streams;
      streams.Keys == {e.observation.key} && Behind(limits, streams[e.observation.key], e, late)
  {
    AcceptsBehind(limits, e, late, cfg);
  }

  // One stream, behind, of the first generation of a link now at its second.
  ghost predicate OneStream(b: Bounds, limits: Limits, s: System, id: nat, e: Evidence, late: Evidence) {
    && LinkGenerations.Inv(b, s.registry) && s.registry.evicted == [] && s.registry.current == map[id := 2]
    && s.registry.links.Keys == {LinkId(id, 1), LinkId(id, 2)}
    && s.store.streams.Keys == {e.observation.key} && Behind(limits, s.store.streams[e.observation.key], e, late)
  }

  lemma LateArrives(b: Bounds, limits: Limits, s: System, id: nat, e: Evidence, late: Evidence, cfg: Counter.Config)
    requires ValidBounds(b) && ValidLimits(limits) && Hollow(b, limits, s, id, e)
    requires e.observation.key == late.observation.key && e.observation.key.link == LinkId(id, 1)
    requires Sequence(late) + limits.window == Sequence(e)
    ensures OneStream(b, limits, Restart.Live(b, limits, s, Ingested(Arrival(late, cfg))), id, e, late)
  {
    LiveQuiet(b, limits, s, Arrival(late, cfg));
    NotedLinks(b, s.registry, LinkId(id, 1), late.received);
    LateStored(limits, s.store, e, late, cfg);
  }

  lemma OtherStored(limits: Limits, store: Store, e: Evidence, late: Evidence, other: Evidence, cfg: Counter.Config)
    requires ValidLimits(limits) && other.observation.key.link != e.observation.key.link
    requires store.streams.Keys == {e.observation.key} && Behind(limits, store.streams[e.observation.key], e, late)
    ensures TwoStored(limits, StoreAppend(limits, store, other, cfg), e, late, other)
  {
    var ka := other.observation.key;
    assert KeysOf(store.streams, ka.link) == {} by {
      assert forall k :: k in store.streams <==> k in store.streams.Keys;
    }
    assert ka !in store.streams.Keys;
    LateStream(limits, other, cfg);
  }

  lemma OtherRegistered(b: Bounds, r: Registry, id: nat, link: LinkId, at: Stamp)
    requires ValidBounds(b) && 2 <= b.maxLinks && LinkGenerations.Inv(b, r) && r.evicted == []
    requires r.current == map[id := 2] && link.id != id && 0 < link.generation
    ensures
      var r' := Observe(b, r, link, at);
      && ObserveStatus(b, r, link) == Ok && LinkGenerations.Inv(b, r') && r'.evicted == []
      && r'.links.Keys == r.links.Keys + {link}
  {
    OneCurrent(r.current, id);
    FirstShape(b, r, link, at);
    FirstKeeps(b, r, link, at);
  }

  lemma OneCurrent(current: map<nat, nat>, id: nat)
    requires current == map[id := 2]
    ensures |current| == 1
  {
  }

  lemma OtherArrives(b: Bounds, limits: Limits, s: System, id: nat, e: Evidence, late: Evidence, other: Evidence,
                     cfg: Counter.Config)
    requires ValidBounds(b) && 2 <= b.maxLinks && ValidLimits(limits) && OneStream(b, limits, s, id, e, late)
    requires e.observation.key.link == LinkId(id, 1)
    requires other.observation.key.link.id != id && 0 < other.observation.key.link.generation
    ensures TwoStreams(b, limits, Restart.Live(b, limits, s, Ingested(Arrival(other, cfg))), id, e, late, other)
  {
    OtherRegistered(b, s.registry, id, other.observation.key.link, other.received);
    OtherStored(limits, s.store, e, late, other, cfg);
  }

  function TwoSeeds(limits: Limits, e: Evidence, other: Evidence): seq<SeedRecord> {
    LateSeeds(limits, other) + LateSeeds(limits, e)
  }

  lemma TwoSnapshot(limits: Limits, store: Store, e: Evidence, late: Evidence, other: Evidence)
    requires ValidLimits(limits) && 2 <= limits.window && Sequence(late) + limits.window == Sequence(e)
    requires e.observation.key == late.observation.key != other.observation.key
    requires TwoStored(limits, store, e, late, other)
    ensures IsSnapshot(store, [other, late], TwoSeeds(limits, e, other))
  {
    var kb, ka := e.observation.key, other.observation.key;
    OneRetained(limits, store.streams[ka], other);
    FirstPart(store, ka, other, LateSeeds(limits, other)[0].entries);
    BehindRestored(limits, store.streams[kb], e, late, Counter.Config(false, 0.0, 0.0, 0));
    SecondPart(store, other, late, LateSeeds(limits, other), LateSeeds(limits, e)[0].entries);
  }

  lemma SecondPart(store: Store, other: Evidence, late: Evidence, seeds: seq<SeedRecord>, entries: seq<(nat, nat)>)
    requires IsPart(store, {other.observation.key}, [other], seeds)
    requires store.streams.Keys == {other.observation.key, late.observation.key}
    requires other.observation.key != late.observation.key
    requires
      var kb := late.observation.key;
      KeyedBy(kb, store.streams[kb]) && IsRetained(store.streams[kb], [late]) && Lists(entries, store.streams[kb].dedup)
    ensures IsSnapshot(store, [other, late], seeds + [SeedRecord(late.observation.key, entries)])
  {
    var kb, ka := late.observation.key, other.observation.key;
    PartNext(store, {ka}, [other], seeds, kb, [late], entries);
    assert [other] + [late] == [other, late] && {ka} + {kb} == store.streams.Keys;
    PartIsSnapshot(store, [other, late], seeds + [SeedRecord(kb, entries)]);
  }

  lemma FirstPart(store: Store, key: Key, e: Evidence, entries: seq<(nat, nat)>)
    requires key in store.streams && e.observation.key == key
    requires KeyedBy(key, store.streams[key]) && IsRetained(store.streams[key], [e])
    requires Lists(entries, store.streams[key].dedup)
    ensures IsPart(store, {key}, [e], [SeedRecord(key, entries)])
  {
    assert Seeded([]) == {};
    assert IsPart(store, {}, [], []);
    PartNext(store, {}, [], [], key, [e], entries);
    assert [] + [e] == [e] && [] + [SeedRecord(key, entries)] == [SeedRecord(key, entries)] && {} + {key} == {key};
  }

  lemma OneRetained(limits: Limits, s: Stream, e: Evidence)
    requires s.recent == [e] && s.latestFed == Some(e) && s.dedup == map[Sequence(e) := limits.digest(e.observation)]
    ensures IsRetained(s, [e]) && Lists(LateSeeds(limits, e)[0].entries, s.dedup)
  {
    LateRetained(limits, s, e);
    var entries := LateSeeds(limits, e)[0].entries;
    assert entries[0] in entries;
  }

  // The links as the second snapshot lists them.
  function ThreeLinks(a: nat, id: nat): seq<LinkId> { [LinkId(a, 1), LinkId(id, 1), LinkId(id, 2)] }

  lemma ThreeListed(r: Registry, a: nat, id: nat)
    requires a < id && r.links.Keys == {LinkId(a, 1), LinkId(id, 1), LinkId(id, 2)}
    ensures ListsLinks(r, ThreeLinks(a, id))
  {
    assert forall k :: k in r.links <==> k in r.links.Keys;
  }

  /** The first link has only one generation, so nothing counts as lost. */
  lemma FirstStays(b: Bounds, a: nat, id: nat, other: Evidence, late: Evidence)
    requires ValidBounds(b) && a < id && other.observation.key.link == LinkId(a, 1)
    ensures !Crowded(b, ThreeLinks(a, id), LinkId(a, 1)) && !Loses(b, ThreeLinks(a, id), [other, late])
  {
    var x, y, z := LinkId(a, 1), LinkId(id, 1), LinkId(id, 2);
    GensOfNext([], x, a);
    GensOfNext([x], y, a);
    GensOfNext([x, y], z, a);
    assert [] + [x] == [x] && [x] + [y] == [x, y] && [x, y] + [z] == ThreeLinks(a, id);
    assert GensOf(ThreeLinks(a, id), a) == [1];
  }

  lemma TwoCaps(limits: Limits, store: Store, link: LinkId, ka: Key, kb: Key)
    requires ValidLimits(limits) && store.streams.Keys == {ka, kb} && ka.link != kb.link
    ensures |KeysOf(store.streams, link)| <= limits.streamsPerLink
  {
    assert forall k :: k in store.streams <==> k in store.streams.Keys;
    if link == ka.link {
      assert KeysOf(store.streams, link) == {ka};
    } else if link == kb.link {
      assert KeysOf(store.streams, link) == {kb};
    } else {
      assert KeysOf(store.streams, link) == {};
    }
  }

  lemma OfTwo(other: Evidence, late: Evidence)
    requires other.observation.key != late.observation.key
    ensures Of([other, late], late.observation.key) == [late] && Of([other, late], other.observation.key) == [other]
  {
    var kb, ka := late.observation.key, other.observation.key;
    OfNext([], other, kb);
    OfNext([], other, ka);
    OfNext([other], late, kb);
    OfNext([other], late, ka);
    assert [] + [other] == [other] && [other] + [late] == [other, late] && [] + [late] == [late];
  }

  lemma TwoLoaded(limits: Limits, live: Store, e: Evidence, late: Evidence, other: Evidence,
                  cfgOf: Key -> Counter.Config)
    requires ValidLimits(limits) && TwoStored(limits, live, e, late, other)
    requires e.observation.key == late.observation.key && e.observation.key.link != other.observation.key.link
    ensures
      var store, kb := Loaded(limits, [other, late], TwoSeeds(limits, e, other), cfgOf), e.observation.key;
      && kb in store.streams
      && store.streams[kb] == Seed(limits, Replay(limits, [late], cfgOf(kb)), LateSeeds(limits, e)[0].entries)
  {
    TwoHeld(limits, live, late, other, cfgOf);
    var mid, seeds := ReplayRecords(limits, [other, late], cfgOf), TwoSeeds(limits, e, other);
    assert seeds[0] == LateSeeds(limits, other)[0] && seeds[1] == LateSeeds(limits, e)[0];
    SeededAt(limits, mid, seeds, 1);
  }

  lemma TwoHeld(limits: Limits, live: Store, late: Evidence, other: Evidence, cfgOf: Key -> Counter.Config)
    requires ValidLimits(limits) && late.observation.key.link != other.observation.key.link
    requires live.streams.Keys == {other.observation.key, late.observation.key}
    ensures
      var streams, kb := ReplayRecords(limits, [other, late], cfgOf).streams, late.observation.key;
      && other.observation.key in streams && kb in streams && streams[kb] == Replay(limits, [late], cfgOf(kb))
  {
    var kb, ka, records := late.observation.key, other.observation.key, [other, late];
    forall link
      ensures |KeysOf(live.streams, link)| <= limits.streamsPerLink
    {
      TwoCaps(limits, live, link, ka, kb);
    }
    assert ka in live.streams.Keys && kb in live.streams.Keys;
    RecordsHeld(limits, live, records, cfgOf);
    OfTwo(other, late);
    HeldAt(limits, ReplayRecords(limits, records, cfgOf), records, cfgOf, ka);
    HeldAt(limits, ReplayRecords(limits, records, cfgOf), records, cfgOf, kb);
  }

  lemma HeldAt(limits: Limits, store: Store, records: seq<Evidence>, cfgOf: Key -> Counter.Config, key: Key)
    requires Holds(limits, store, records, cfgOf) && Of(records, key) != []
    ensures key in store.streams && store.streams[key] == Replay(limits, Of(records, key), cfgOf(key))
  {
  }

  /** The restart of that system: what live is fresh is now a duplicate. */
  lemma SpreadRestart(b: Bounds, limits: Limits, live: System, a: nat, id: nat, e: Evidence, late: Evidence,
                      other: Evidence, atOf: LinkId -> Stamp, cfgOf: Key -> Counter.Config)
    requires ValidBounds(b) && ValidLimits(limits) && 2 <= limits.window && a < id
    requires e.observation.key == late.observation.key && e.observation.key.link == LinkId(id, 1)
    requires Sequence(late) + limits.window == Sequence(e) && other.observation.key.link == LinkId(a, 1)
    requires TwoStreams(b, limits, live, id, e, late, other)
    ensures ListsLinks(live.registry, ThreeLinks(a, id))
    ensures
      var s := Restarted(b, limits, ThreeLinks(a, id), atOf, [other, late], TwoSeeds(limits, e, other), cfgOf);
      && StoreDecide(limits, live.store, late.observation) == Decided(Fresh)
      && StoreDecide(limits, s.store, late.observation) == Decided(Duplicate)
  {
    var kb := e.observation.key;
    ThreeListed(live.registry, a, id);
    SpreadReaches(b, limits, live.registry, a, id, late, other, atOf, cfgOf);
    TwoLoaded(limits, live.store, e, late, other, cfgOf);
    BehindRestored(limits, live.store.streams[kb], e, late, cfgOf(kb));
  }

  /** Both records reach the store. */
  lemma SpreadReaches(b: Bounds, limits: Limits, live: Registry, a: nat, id: nat, late: Evidence, other: Evidence,
                      atOf: LinkId -> Stamp, cfgOf: Key -> Counter.Config)
    requires ValidBounds(b) && ValidLimits(limits) && a < id && LinkGenerations.Inv(b, live)
    requires ListsLinks(live, ThreeLinks(a, id))
    requires late.observation.key.link == LinkId(id, 1) && other.observation.key.link == LinkId(a, 1)
    ensures
      var r := ReplayLinks(b, ThreeLinks(a, id), atOf);
      ReplayAll(b, limits, System(r, EmptyStore), [other, late], cfgOf).store
        == ReplayRecords(limits, [other, late], cfgOf)
  {
    var ls := ThreeLinks(a, id);
    var r := ReplayLinks(b, ls, atOf);
    SpreadKnown(b, live, a, id, late, other, atOf);
    RestartStores(b, limits, r, [other, late], cfgOf);
    EvictedExactly(b, live, ls, atOf, LinkId(a, 1));
    FirstStays(b, a, id, other, late);
  }

  lemma SpreadKnown(b: Bounds, live: Registry, a: nat, id: nat, late: Evidence, other: Evidence, atOf: LinkId -> Stamp)
    requires ValidBounds(b) && LinkGenerations.Inv(b, live) && ListsLinks(live, ThreeLinks(a, id))
    requires late.observation.key.link == LinkId(id, 1) && other.observation.key.link == LinkId(a, 1)
    ensures AllKnown(ReplayLinks(b, ThreeLinks(a, id), atOf).current, [other, late])
  {
    var ls := ThreeLinks(a, id);
    assert ls[0] in ls && ls[1] in ls;
    BothKnown(b, live, ls, late, other, atOf);
  }

  lemma BothKnown(b: Bounds, live: Registry, ls: seq<LinkId>, late: Evidence, other: Evidence, atOf: LinkId -> Stamp)
    requires ValidBounds(b) && LinkGenerations.Inv(b, live) && ListsLinks(live, ls)
    requires late.observation.key.link in ls && other.observation.key.link in ls
    ensures AllKnown(ReplayLinks(b, ls, atOf).current, [other, late])
  {
    ReplayReaches(b, live, ls, atOf, late.observation.key.link);
    ReplayReaches(b, live, ls, atOf, other.observation.key.link);
  }

  lemma RunNext(b: Bounds, limits: Limits, acts: seq<Act>, act: Act)
    ensures SystemRun(b, limits, acts + [act]) == After(b, limits, SystemRun(b, limits, acts), act)
  {
    assert (acts + [act])[..|acts|] == acts;
  }

  // A record lost by a restart, then one exactly a window behind it, then one of another link.
  function SpreadActs(limits: Limits, id: nat, e: Evidence, late: Evidence, other: Evidence, cfg: Counter.Config,
                      at: Stamp, atOf: LinkId -> Stamp, cfgOf: Key -> Counter.Config): seq<Act> {
    LateActs(id, e, cfg, at) + [Restarts([LinkId(id, 1), LinkId(id, 2)], atOf, [e], LateSeeds(limits, e), cfgOf)]
    + [Happened(Ingested(Arrival(late, cfg)))] + [Happened(Ingested(Arrival(other, cfg)))]
  }

  lemma SpreadRun(b: Bounds, limits: Limits, a: nat, id: nat, e: Evidence, late: Evidence, other: Evidence,
                  cfg: Counter.Config, at: Stamp, atOf: LinkId -> Stamp, cfgOf: Key -> Counter.Config)
    requires ValidBounds(b) && b.maxGenerations == 1 && 2 <= b.maxLinks && ValidLimits(limits) && a < id
    requires e.observation.key == late.observation.key && e.observation.key.link == LinkId(id, 1)
    requires Sequence(late) + limits.window == Sequence(e) && other.observation.key.link == LinkId(a, 1)
    ensures TwoStreams(b, limits, SystemRun(b, limits, SpreadActs(limits, id, e, late, other, cfg, at, atOf, cfgOf)),
                       id, e, late, other)
  {
    var acts := LateActs(id, e, cfg, at);
    var restart := Restarts([LinkId(id, 1), LinkId(id, 2)], atOf, [e], LateSeeds(limits, e), cfgOf);
    var second, third := Happened(Ingested(Arrival(late, cfg))), Happened(Ingested(Arrival(other, cfg)));
    RunNext(b, limits, acts, restart);
    HollowAfter(b, limits, id, e, atOf, cfgOf);
    LateArrives(b, limits, SystemRun(b, limits, acts + [restart]), id, e, late, cfg);
    RunNext(b, limits, acts + [restart], second);
    OtherArrives(b, limits, SystemRun(b, limits, acts + [restart] + [second]), id, e, late, other, cfg);
    RunNext(b, limits, acts + [restart] + [second], third);
  }

  /**
   After a restart that lost a record, a later one can go wrong in another way although
   nothing counts as lost: the store accepts a sequence one window behind, forgets it at
   once, and the snapshot brings it back as known.
   */
  lemma LossSpreads(b: Bounds, limits: Limits, a: nat, id: nat, e: Evidence, late: Evidence, other: Evidence,
                    cfg: Counter.Config, at: Stamp, atOf: LinkId -> Stamp, cfgOf: Key -> Counter.Config)
    requires ValidBounds(b) && b.maxGenerations == 1 && 2 <= b.maxLinks
    requires ValidLimits(limits) && 2 <= limits.window && a < id
    requires e.observation.key == late.observation.key && e.observation.key.link == LinkId(id, 1)
    requires Sequence(late) + limits.window == Sequence(e) && other.observation.key.link == LinkId(a, 1)
    ensures
      Proper(SystemRun(b, limits, LateActs(id, e, cfg, at)),
             Restarts([LinkId(id, 1), LinkId(id, 2)], atOf, [e], LateSeeds(limits, e), cfgOf))
    ensures
      var live := SystemRun(b, limits, SpreadActs(limits, id, e, late, other, cfg, at, atOf, cfgOf));
      var ls, records, seeds := ThreeLinks(a, id), [other, late], TwoSeeds(limits, e, other);
      && Proper(live, Restarts(ls, atOf, records, seeds, cfgOf)) && !Loses(b, ls, records)
      && StoreDecide(limits, live.store, late.observation) == Decided(Fresh)
      && StoreDecide(limits, Restarted(b, limits, ls, atOf, records, seeds, cfgOf).store, late.observation)
           == Decided(Duplicate)
  {
    RestartLoses(b, limits, id, e, cfg, at, atOf, cfgOf);
    SpreadRun(b, limits, a, id, e, late, other, cfg, at, atOf, cfgOf);
    var live := SystemRun(b, limits, SpreadActs(limits, id, e, late, other, cfg, at, atOf, cfgOf));
    TwoSnapshot(limits, live.store, e, late, other);
    SpreadRestart(b, limits, live, a, id, e, late, other, atOf, cfgOf);
    FirstStays(b, a, id, other, late);
  }
}
