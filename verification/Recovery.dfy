/**
 The journal between compactions, with evictions: what a restart makes of the records
 written since the last snapshot, next to the process that wrote them. Replay leaves the
 evictions of a registered link pending until the next evidence or generation record.

 Main result: `StepExactly`. RecoveryRuns.dfy carries it over whole runs.
 */
module Recovery {
  import opened Evidence
  import opened EvidenceStream
  import opened EvidenceSnapshot
  import opened StoreModel
  import opened LinkGenerations
  import opened Restart
  import Counter

  // ---------------------------------------------------------------- the journal

  // An evidence record is replayed under the counter settings in force where it stands.
  datatype Entry =
    | LinkEntry(link: LinkId, at: Stamp)
    | MoveEntry(id: nat, generation: nat, at: Stamp)
    | EvidenceEntry(evidence: Evidence, cfg: Counter.Config)

  predicate Accepts(outcome: Outcome) { outcome == Decided(Fresh) || outcome == Decided(Duplicate) }

  /** What the live process writes for an event. */
  function Emits(b: Bounds, limits: Limits, s: System, event: Event): seq<Entry> {
    match event
    case Registered(link, at) =>
      if link in s.registry.links || ObserveStatus(b, s.registry, link) != Ok then [] else [LinkEntry(link, at)]
    case Moved(id, generation, at) =>
      if AdvanceStatus(b, s.registry, id, generation) != Ok then [] else [MoveEntry(id, generation, at)]
    case Ingested(a) =>
      var e, link := a.evidence, a.evidence.observation.key.link;
      if ObserveStatus(b, s.registry, link) != Ok then []
      else
        var s1 := Settle(s.(registry := Observe(b, s.registry, link, e.received)));
        (if link in s.registry.links then [] else [LinkEntry(link, e.received)]) +
        (if Accepts(StoreDecide(limits, s1.store, e.observation)) then [EvidenceEntry(e, a.cfg)] else [])
  }

  /** What a restart makes of one of them. */
  function Apply(b: Bounds, limits: Limits, s: System, entry: Entry): System {
    match entry
    case LinkEntry(link, at) => s.(registry := Observe(b, s.registry, link, at))
    case MoveEntry(id, generation, at) =>
      if AdvanceStatus(b, s.registry, id, generation) != Ok then s
      else Settle(s.(registry := Advance(b, s.registry, id, generation, at)))
    case EvidenceEntry(e, cfg) => ReplayRecord(b, limits, s, e, cfg)
  }

  function ApplyAll(b: Bounds, limits: Limits, s: System, entries: seq<Entry>): System {
    if entries == [] then s
    else Apply(b, limits, ApplyAll(b, limits, s, entries[..|entries| - 1]), entries[|entries| - 1])
  }

  // ------------------------------------------------------------- what is compared

  /** A generation record or evidence carries out what is pending; a link record only adds to it. */
  lemma PendingAfter(b: Bounds, limits: Limits, s: System, entry: Entry)
    ensures
      var pending := Apply(b, limits, s, entry).registry.evicted;
      match entry
      case LinkEntry(_, _) => s.registry.evicted <= pending
      case MoveEntry(id, generation, _) =>
        if AdvanceStatus(b, s.registry, id, generation) == Ok then pending == [] else pending == s.registry.evicted
      case EvidenceEntry(e, _) =>
        if && Accepts(StoreDecide(limits, s.store, e.observation))
           && ObserveStatus(b, s.registry, e.observation.key.link) == Ok
        then pending == [] else pending == s.registry.evicted
  {
  }

  // The streams by key, those of the given links left out.
  function Kept(streams: map<Key, Stream>, links: seq<LinkId>): map<Key, Stream> {
    map k | k in streams && k.link !in links :: streams[k]
  }

  /** The streams of a system once its pending evictions are carried out. */
  function Settled(s: System): map<Key, Stream> { Kept(s.store.streams, s.registry.evicted) }

  /** Two streams between which no later observation can tell, with the same latest fed one. */
  ghost predicate Alike(s: Stream, t: Stream) {
    && SameFence(s, t) && (s.latestFed.Some? <==> t.latestFed.Some?)
    && (s.latestFed.Some? ==> AsRecovered(s.latestFed.value) == AsRecovered(t.latestFed.value))
  }

  ghost predicate AllAlike(m: map<Key, Stream>, n: map<Key, Stream>) {
    m.Keys == n.Keys && forall k :: k in m ==> Alike(m[k], n[k])
  }

  ghost predicate SameLinks(r: Registry, q: Registry) {
    r.current == q.current && r.generations == q.generations && r.links.Keys == q.links.Keys
  }

  /** The replayed system knows the same links and, evictions carried out, the same streams. */
  ghost predicate InStep(live: System, rep: System) {
    SameLinks(live.registry, rep.registry) && AllAlike(Settled(live), Settled(rep))
  }

  // ------------------------------------------------------------------ the registry

  /** The generations a promotion pushes out. */
  function Pushed(b: Bounds, r: Registry, id: nat, generation: nat): seq<LinkId> {
    var before := ListOf(r, id);
    var gens := if generation in before then before else before + [generation];
    Ids(id, gens[..Surplus(b, gens)])
  }

  function ObservePushes(b: Bounds, r: Registry, link: LinkId): seq<LinkId> {
    if ObserveStatus(b, r, link) == Ok && link.id in r.current && link.generation > r.current[link.id]
    then Pushed(b, r, link.id, link.generation) else []
  }

  function AdvancePushes(b: Bounds, r: Registry, id: nat, generation: nat): seq<LinkId> {
    if AdvanceStatus(b, r, id, generation) == Ok && !(id in r.current && generation == r.current[id])
    then Pushed(b, r, id, generation) else []
  }

  lemma PromoteSame(b: Bounds, r: Registry, q: Registry, id: nat, generation: nat, at: Stamp, later: Stamp)
    requires SameLinks(r, q)
    ensures SameLinks(Promote(b, r, id, generation, at), Promote(b, q, id, generation, later))
    ensures Promote(b, r, id, generation, at).evicted == r.evicted + Pushed(b, r, id, generation)
    ensures Pushed(b, r, id, generation) == Pushed(b, q, id, generation)
  {
    assert forall k :: k in r.links <==> k in r.links.Keys;
    assert forall k :: k in q.links <==> k in q.links.Keys;
  }

  lemma AdvanceSame(b: Bounds, r: Registry, q: Registry, id: nat, generation: nat, at: Stamp)
    requires SameLinks(r, q)
    ensures AdvanceStatus(b, r, id, generation) == AdvanceStatus(b, q, id, generation)
    ensures SameLinks(Advance(b, r, id, generation, at), Advance(b, q, id, generation, at))
    ensures Advance(b, r, id, generation, at).evicted == r.evicted + AdvancePushes(b, r, id, generation)
    ensures AdvancePushes(b, r, id, generation) == AdvancePushes(b, q, id, generation)
  {
    PromoteSame(b, r, q, id, generation, at, at);
    assert r.evicted + [] == r.evicted;
  }

  lemma ObserveSame(b: Bounds, r: Registry, q: Registry, link: LinkId, at: Stamp, later: Stamp)
    requires SameLinks(r, q)
    ensures ObserveStatus(b, r, link) == ObserveStatus(b, q, link)
    ensures SameLinks(Observe(b, r, link, at), Observe(b, q, link, later))
    ensures Observe(b, r, link, at).evicted == r.evicted + ObservePushes(b, r, link)
    ensures ObservePushes(b, r, link) == ObservePushes(b, q, link)
  {
    if link.id in r.current && link.generation > r.current[link.id] {
      PromoteSame(b, r, q, link.id, link.generation, at, later);
    }
    assert r.evicted + [] == r.evicted;
  }

  lemma ObserveRegisters(b: Bounds, r: Registry, link: LinkId, at: Stamp)
    requires ObserveStatus(b, r, link) == Ok
    ensures link in Observe(b, r, link, at).links
  {
  }

  /** A registered link pushes nothing out and changes no list. */
  lemma ObserveRegistered(b: Bounds, r: Registry, link: LinkId, at: Stamp)
    requires LinkGenerations.Inv(b, r) && link in r.links
    ensures ObserveStatus(b, r, link) == Ok && ObservePushes(b, r, link) == []
    ensures SameLinks(Observe(b, r, link, at), r) && Observe(b, r, link, at).evicted == r.evicted
  {
    assert MarkedRight(r.current, link, r.links[link]);
  }

  /** What a link pushes out is older than itself. */
  lemma PushesOlder(b: Bounds, r: Registry, link: LinkId)
    requires ValidBounds(b) && LinkGenerations.Inv(b, r)
    ensures link !in ObservePushes(b, r, link)
  {
    if link.id in r.current && link.generation > r.current[link.id] {
      PromoteDrops(b, r, link.id, link.generation);
    }
  }

  // ---------------------------------------------------------------------- streams

  lemma KeptTwice(m: map<Key, Stream>, a: seq<LinkId>, more: seq<LinkId>)
    ensures Kept(Kept(m, a), more) == Kept(m, a + more)
  {
  }

  lemma KeptAll(m: map<Key, Stream>)
    ensures Kept(m, []) == m
  {
  }

  lemma {:induction false} DropAllKept(store: Store, links: seq<LinkId>)
    ensures DropAll(store, links).streams == Kept(store.streams, links)
  {
    if links == [] {
      KeptAll(store.streams);
    } else {
      var front, last := links[..|links| - 1], links[|links| - 1];
      DropAllKept(store, front);
      assert DropLink(DropAll(store, front), last).streams == Kept(Kept(store.streams, front), [last]);
      KeptTwice(store.streams, front, [last]);
      assert links == front + [last];
    }
  }

  lemma KeptAlike(m: map<Key, Stream>, n: map<Key, Stream>, links: seq<LinkId>)
    requires AllAlike(m, n)
    ensures AllAlike(Kept(m, links), Kept(n, links))
  {
    assert forall k :: k in m <==> k in m.Keys;
    assert forall k :: k in n <==> k in n.Keys;
  }

  /** What an observation decides and does depends on the streams alone. */
  function AppendTo(limits: Limits, m: map<Key, Stream>, e: Evidence, cfg: Counter.Config): map<Key, Stream> {
    StoreAppend(limits, Store(m, []), e, cfg).streams
  }

  function DecideIn(limits: Limits, m: map<Key, Stream>, o: Observation): Outcome {
    StoreDecide(limits, Store(m, []), o)
  }

  lemma StreamsOnly(limits: Limits, store: Store, e: Evidence, cfg: Counter.Config)
    ensures StoreDecide(limits, store, e.observation) == DecideIn(limits, store.streams, e.observation)
    ensures StoreAppend(limits, store, e, cfg).streams == AppendTo(limits, store.streams, e, cfg)
  {
  }

  /** Leaving out other links changes neither. */
  lemma KeptDecides(limits: Limits, m: map<Key, Stream>, links: seq<LinkId>, o: Observation)
    requires o.key.link !in links
    ensures DecideIn(limits, Kept(m, links), o) == DecideIn(limits, m, o)
  {
    assert KeysOf(Kept(m, links), o.key.link) == KeysOf(m, o.key.link);
  }

  lemma KeptAppends(limits: Limits, m: map<Key, Stream>, links: seq<LinkId>, e: Evidence, cfg: Counter.Config)
    requires e.observation.key.link !in links
    ensures Kept(AppendTo(limits, m, e, cfg), links) == AppendTo(limits, Kept(m, links), e, cfg)
  {
    KeptDecides(limits, m, links, e.observation);
  }

  lemma AlikeDecides(limits: Limits, m: map<Key, Stream>, n: map<Key, Stream>, o: Observation)
    requires AllAlike(m, n)
    ensures DecideIn(limits, m, o) == DecideIn(limits, n, o)
  {
    assert o.key in m.Keys <==> o.key in n.Keys;
    assert KeysOf(m, o.key.link) == KeysOf(n, o.key.link) by {
      assert forall k :: k in m <==> k in m.Keys;
      assert forall k :: k in n <==> k in n.Keys;
    }
  }

  lemma AlikeAppend(limits: Limits, s: Stream, t: Stream, e: Evidence, f: Evidence, cfg: Counter.Config)
    requires Alike(s, t) && AsRecovered(e) == AsRecovered(f)
    ensures Alike(Append(limits, s, e, cfg), Append(limits, t, f, cfg))
  {
    assert e.observation == AsRecovered(e).observation == f.observation;
  }

  lemma AlikeAppends(limits: Limits, m: map<Key, Stream>, n: map<Key, Stream>, e: Evidence, cfg: Counter.Config)
    requires AllAlike(m, n)
    ensures AllAlike(AppendTo(limits, m, e, cfg), AppendTo(limits, n, AsRecovered(e), cfg))
  {
    var key := e.observation.key;
    AlikeDecides(limits, m, n, e.observation);
    assert key in m.Keys <==> key in n.Keys;
    AlikeAppend(limits, StreamOf(Store(m, []), key), StreamOf(Store(n, []), key), e, AsRecovered(e), cfg);
  }

  /** Only accepted evidence changes the streams. */
  lemma RefusedAppends(limits: Limits, m: map<Key, Stream>, e: Evidence, cfg: Counter.Config)
    requires !Accepts(DecideIn(limits, m, e.observation))
    ensures AppendTo(limits, m, e, cfg) == m
  {
  }

  // -------------------------------------------------------------------- one event

  lemma SettleSettled(s: System)
    ensures Settle(s).store.streams == Settled(s) && Settled(Settle(s)) == Settled(s)
  {
    DropAllKept(s.store, s.registry.evicted);
    KeptAll(Settled(s));
  }

  lemma ObserveSettled(b: Bounds, s: System, link: LinkId, at: Stamp)
    ensures Settled(s.(registry := Observe(b, s.registry, link, at)))
         == Kept(Settled(s), ObservePushes(b, s.registry, link))
  {
    ObserveSame(b, s.registry, s.registry, link, at, at);
    KeptTwice(s.store.streams, s.registry.evicted, ObservePushes(b, s.registry, link));
  }

  lemma AdvanceSettled(b: Bounds, s: System, id: nat, generation: nat, at: Stamp)
    ensures Settled(s.(registry := Advance(b, s.registry, id, generation, at)))
         == Kept(Settled(s), AdvancePushes(b, s.registry, id, generation))
  {
    AdvanceSame(b, s.registry, s.registry, id, generation, at);
    KeptTwice(s.store.streams, s.registry.evicted, AdvancePushes(b, s.registry, id, generation));
  }

  /** Both observe the same link. */
  lemma BothObserve(b: Bounds, live: System, rep: System, link: LinkId, at: Stamp, later: Stamp)
    requires InStep(live, rep)
    ensures InStep(live.(registry := Observe(b, live.registry, link, at)),
                   rep.(registry := Observe(b, rep.registry, link, later)))
  {
    ObserveSame(b, live.registry, rep.registry, link, at, later);
    ObserveSettled(b, live, link, at);
    ObserveSettled(b, rep, link, later);
    KeptAlike(Settled(live), Settled(rep), ObservePushes(b, live.registry, link));
  }

  lemma BothAdvance(b: Bounds, live: System, rep: System, id: nat, generation: nat, at: Stamp)
    requires InStep(live, rep)
    ensures InStep(live.(registry := Advance(b, live.registry, id, generation, at)),
                   rep.(registry := Advance(b, rep.registry, id, generation, at)))
  {
    AdvanceSame(b, live.registry, rep.registry, id, generation, at);
    AdvanceSettled(b, live, id, generation, at);
    AdvanceSettled(b, rep, id, generation, at);
    KeptAlike(Settled(live), Settled(rep), AdvancePushes(b, live.registry, id, generation));
  }

  lemma SettleEither(live: System, rep: System)
    ensures InStep(live, rep) <==> InStep(Settle(live), rep)
    ensures InStep(live, rep) <==> InStep(live, Settle(rep))
  {
    SettleSettled(live);
    SettleSettled(rep);
  }

  lemma ApplyOne(b: Bounds, limits: Limits, s: System, entry: Entry)
    ensures ApplyAll(b, limits, s, [entry]) == Apply(b, limits, s, entry)
  {
    assert [entry][..0] == [];
  }

  lemma RegisteredStep(b: Bounds, limits: Limits, live: System, rep: System, link: LinkId, at: Stamp)
    requires InStep(live, rep)
    ensures
      var event := Registered(link, at);
      InStep(Restart.Live(b, limits, live, event), ApplyAll(b, limits, rep, Emits(b, limits, live, event)))
  {
    if link !in live.registry.links && ObserveStatus(b, live.registry, link) == Ok {
      BothObserve(b, live, rep, link, at, at);
      SettleEither(live.(registry := Observe(b, live.registry, link, at)),
                   rep.(registry := Observe(b, rep.registry, link, at)));
      ApplyOne(b, limits, rep, LinkEntry(link, at));
    }
  }

  lemma MovedStep(b: Bounds, limits: Limits, live: System, rep: System, id: nat, generation: nat, at: Stamp)
    requires InStep(live, rep)
    ensures
      var event := Moved(id, generation, at);
      InStep(Restart.Live(b, limits, live, event), ApplyAll(b, limits, rep, Emits(b, limits, live, event)))
  {
    AdvanceSame(b, live.registry, rep.registry, id, generation, at);
    if AdvanceStatus(b, live.registry, id, generation) == Ok {
      BothAdvance(b, live, rep, id, generation, at);
      var l := live.(registry := Advance(b, live.registry, id, generation, at));
      var q := rep.(registry := Advance(b, rep.registry, id, generation, at));
      SettleEither(l, q);
      SettleEither(Settle(l), q);
      ApplyOne(b, limits, rep, MoveEntry(id, generation, at));
    }
  }

  // ------------------------------------------------------------------ one ingest

  // The replayed system once the link of the evidence is registered.
  function Noted(b: Bounds, live: System, rep: System, link: LinkId, at: Stamp): System {
    if link in live.registry.links then rep else rep.(registry := Observe(b, rep.registry, link, at))
  }

  /** Live and replayed system when the evidence meets the store. */
  lemma NotedInStep(b: Bounds, live: System, rep: System, link: LinkId, at: Stamp)
    requires InStep(live, rep) && LinkGenerations.Inv(b, live.registry) && LinkGenerations.Inv(b, rep.registry)
    requires ObserveStatus(b, live.registry, link) == Ok
    ensures InStep(live.(registry := Observe(b, live.registry, link, at)), Noted(b, live, rep, link, at))
    ensures Noted(b, live, rep, link, at).registry.evicted
         == rep.registry.evicted + ObservePushes(b, rep.registry, link)
    ensures link in Noted(b, live, rep, link, at).registry.links
  {
    if link in live.registry.links {
      assert link in rep.registry.links.Keys;
      ObserveRegistered(b, live.registry, link, at);
      ObserveRegistered(b, rep.registry, link, at);
      assert rep.registry.evicted + [] == rep.registry.evicted;
    } else {
      BothObserve(b, live, rep, link, at, at);
      ObserveSame(b, rep.registry, live.registry, link, at, at);
      ObserveRegisters(b, rep.registry, link, at);
    }
  }

  /** Accepted evidence of a link with nothing pending against it. */
  lemma EvidenceReplayed(b: Bounds, limits: Limits, live: System, rep: System, e: Evidence, cfg: Counter.Config)
    requires InStep(live, rep) && LinkGenerations.Inv(b, rep.registry) && live.registry.evicted == []
    requires e.observation.key.link in rep.registry.links && e.observation.key.link !in rep.registry.evicted
    requires Accepts(StoreDecide(limits, live.store, e.observation))
    ensures InStep(live.(store := StoreAppend(limits, live.store, e, cfg)), ReplayRecord(b, limits, rep, e, cfg))
  {
    KeptAll(live.store.streams);
    StreamsOnly(limits, live.store, e, cfg);
    StreamsOnly(limits, rep.store, AsRecovered(e), cfg);
    EvidenceAlike(limits, live.store.streams, rep.store.streams, rep.registry.evicted, e, cfg);
    RecordSettled(b, limits, rep, e, cfg);
    KeptAll(StoreAppend(limits, live.store, e, cfg).streams);
  }

  /** An accepted record of a registered link. */
  lemma RecordSettled(b: Bounds, limits: Limits, rep: System, e: Evidence, cfg: Counter.Config)
    requires LinkGenerations.Inv(b, rep.registry) && e.observation.key.link in rep.registry.links
    requires Accepts(StoreDecide(limits, rep.store, e.observation))
    ensures SameLinks(ReplayRecord(b, limits, rep, e, cfg).registry, rep.registry)
    ensures Settled(ReplayRecord(b, limits, rep, e, cfg))
         == Kept(StoreAppend(limits, rep.store, AsRecovered(e), cfg).streams, rep.registry.evicted)
  {
    var link := e.observation.key.link;
    ObserveRegistered(b, rep.registry, link, e.received);
    var r, store := Observe(b, rep.registry, link, e.received), StoreAppend(limits, rep.store, AsRecovered(e), cfg);
    SettleSettled(System(r, store));
  }

  lemma EvidenceAlike(limits: Limits, m: map<Key, Stream>, n: map<Key, Stream>, pending: seq<LinkId>, e: Evidence,
                      cfg: Counter.Config)
    requires AllAlike(m, Kept(n, pending)) && e.observation.key.link !in pending
    ensures DecideIn(limits, n, e.observation) == DecideIn(limits, m, e.observation)
    ensures AllAlike(AppendTo(limits, m, e, cfg), Kept(AppendTo(limits, n, AsRecovered(e), cfg), pending))
  {
    AlikeDecides(limits, m, Kept(n, pending), e.observation);
    KeptDecides(limits, n, pending, e.observation);
    KeptAppends(limits, n, pending, AsRecovered(e), cfg);
    AlikeAppends(limits, m, Kept(n, pending), e, cfg);
  }

  /** Evidence for a link whose eviction the replay still has pending. */
  predicate Overtaken(b: Bounds, rep: System, event: Event) {
    event.Ingested? &&
    var link := event.arrival.evidence.observation.key.link;
    ObserveStatus(b, rep.registry, link) == Ok && link in rep.registry.evicted
  }

  /** Live such evidence starts a new stream; replayed it goes to the old one, and with that. */
  lemma OvertakenDiverges(b: Bounds, limits: Limits, live: System, rep: System, e: Evidence, cfg: Counter.Config)
    requires ValidLimits(limits) && InStep(live, rep) && LinkGenerations.Inv(b, rep.registry)
    requires live.registry.evicted == []
    requires e.observation.key.link in rep.registry.links && e.observation.key.link in rep.registry.evicted
    ensures Accepts(StoreDecide(limits, live.store, e.observation))
    ensures !InStep(live.(store := StoreAppend(limits, live.store, e, cfg)), ReplayRecord(b, limits, rep, e, cfg))
  {
    var key, m := e.observation.key, live.store.streams;
    KeptAll(m);
    assert forall k :: k in m ==> k in Settled(rep).Keys;
    assert KeysOf(m, key.link) == {};
    ObserveRegistered(b, rep.registry, key.link, e.received);
    var r := Observe(b, rep.registry, key.link, e.received);
    SettleSettled(System(r, StoreAppend(limits, rep.store, AsRecovered(e), cfg)));
    KeptAll(StoreAppend(limits, live.store, e, cfg).streams);
    assert key in StoreAppend(limits, live.store, e, cfg).streams.Keys;
    assert key !in Settled(ReplayRecord(b, limits, rep, e, cfg)).Keys;
  }

  /** The entries an accepted or refused observation leaves. */
  lemma IngestedReplay(b: Bounds, limits: Limits, live: System, rep: System, a: Arrival)
    requires ObserveStatus(b, live.registry, a.evidence.observation.key.link) == Ok
    ensures
      var e, link := a.evidence, a.evidence.observation.key.link;
      var s1 := Settle(live.(registry := Observe(b, live.registry, link, e.received)));
      var noted := Noted(b, live, rep, link, e.received);
      ApplyAll(b, limits, rep, Emits(b, limits, live, Ingested(a)))
        == if Accepts(StoreDecide(limits, s1.store, e.observation)) then ReplayRecord(b, limits, noted, e, a.cfg)
           else noted
  {
    var e, link := a.evidence, a.evidence.observation.key.link;
    var x, y := LinkEntry(link, e.received), EvidenceEntry(e, a.cfg);
    ApplyOne(b, limits, rep, x);
    ApplyOne(b, limits, rep, y);
    ApplyTwo(b, limits, rep, x, y);
    assert [] + [y] == [y] && [x] + [] == [x] && [x] + [y] == [x, y];
  }

  lemma ApplyTwo(b: Bounds, limits: Limits, s: System, x: Entry, y: Entry)
    ensures ApplyAll(b, limits, s, [x, y]) == Apply(b, limits, Apply(b, limits, s, x), y)
  {
    ApplyOne(b, limits, s, x);
    assert [x, y][..1] == [x];
  }

  /** With live and replayed system at the point where the evidence meets the store. */
  lemma MeetsStore(b: Bounds, limits: Limits, live: System, noted: System, e: Evidence, cfg: Counter.Config)
    requires ValidLimits(limits) && InStep(live, noted) && LinkGenerations.Inv(b, noted.registry)
    requires live.registry.evicted == [] && e.observation.key.link in noted.registry.links
    ensures
      var accepted := Accepts(StoreDecide(limits, live.store, e.observation));
      InStep(live.(store := StoreAppend(limits, live.store, e, cfg)),
             if accepted then ReplayRecord(b, limits, noted, e, cfg) else noted)
      <==> e.observation.key.link !in noted.registry.evicted
  {
    if e.observation.key.link in noted.registry.evicted {
      OvertakenDiverges(b, limits, live, noted, e, cfg);
    } else if Accepts(StoreDecide(limits, live.store, e.observation)) {
      EvidenceReplayed(b, limits, live, noted, e, cfg);
    } else {
      StreamsOnly(limits, live.store, e, cfg);
      RefusedAppends(limits, live.store.streams, e, cfg);
    }
  }

  lemma NotedInv(b: Bounds, live: System, rep: System, link: LinkId, at: Stamp)
    requires ValidBounds(b) && LinkGenerations.Inv(b, rep.registry)
    ensures LinkGenerations.Inv(b, Noted(b, live, rep, link, at).registry)
  {
    LinkGenerations.StepKeeps(b, rep.registry, Observed(link, at));
  }

  lemma IngestedStep(b: Bounds, limits: Limits, live: System, rep: System, a: Arrival)
    requires ValidBounds(b) && ValidLimits(limits) && InStep(live, rep)
    requires LinkGenerations.Inv(b, live.registry) && LinkGenerations.Inv(b, rep.registry)
    requires ObserveStatus(b, live.registry, a.evidence.observation.key.link) == Ok
    ensures InStep(Restart.Live(b, limits, live, Ingested(a)),
                   ApplyAll(b, limits, rep, Emits(b, limits, live, Ingested(a))))
       <==> a.evidence.observation.key.link !in rep.registry.evicted
  {
    var e, link := a.evidence, a.evidence.observation.key.link;
    var l := live.(registry := Observe(b, live.registry, link, e.received));
    var noted := Noted(b, live, rep, link, e.received);
    NotedInStep(b, live, rep, link, e.received);
    NotedInv(b, live, rep, link, e.received);
    PushesOlder(b, rep.registry, link);
    SettleEither(l, noted);
    IngestedReplay(b, limits, live, rep, a);
    MeetsStore(b, limits, Settle(l), noted, e, a.cfg);
  }

  /**
   A restart stays in step with the live process through an event if and only if the
   event is not evidence for a link whose eviction it still has pending.
   */
  lemma {:induction false} StepExactly(b: Bounds, limits: Limits, live: System, rep: System, event: Event)
    requires ValidBounds(b) && ValidLimits(limits) && InStep(live, rep)
    requires LinkGenerations.Inv(b, live.registry) && LinkGenerations.Inv(b, rep.registry)
    ensures InStep(Restart.Live(b, limits, live, event), ApplyAll(b, limits, rep, Emits(b, limits, live, event)))
       <==> !Overtaken(b, rep, event)
  {
    match event
    case Registered(link, at) => RegisteredStep(b, limits, live, rep, link, at);
    case Moved(id, generation, at) => MovedStep(b, limits, live, rep, id, generation, at);
    case Ingested(a) =>
      var e := a.evidence;
      ObserveSame(b, live.registry, rep.registry, e.observation.key.link, e.received, e.received);
      if ObserveStatus(b, live.registry, e.observation.key.link) == Ok {
        IngestedStep(b, limits, live, rep, a);
      }
  }
}
