/**
 Registry and store together, and what a restart makes of a snapshot of them. The
 snapshot lists the links first; registering them again evicts surplus generations, and
 the first evidence record replayed drops what was evicted from the store.

 Main results: `EvictedExactly`, `RestoredExactly` and `RunKeeps`, which carries it over
 any number of events and earlier restarts. RestartCases.dfy has the exceptions.
 */
module Restart {
  import opened Optional
  import opened Evidence
  import opened EvidenceStream
  import opened EvidenceSnapshot
  import opened StoreModel
  import opened LinkGenerations
  import Counter

  datatype System = System(registry: Registry, store: Store)

  const EmptySystem := System(EmptyRegistry, EmptyStore)

  function DropAll(store: Store, links: seq<LinkId>): Store {
    if links == [] then store else DropLink(DropAll(store, links[..|links| - 1]), links[|links| - 1])
  }

  /** Takes the evicted links over from the registry and drops their streams. */
  function Settle(s: System): System {
    System(s.registry.(evicted := []), DropAll(s.store, s.registry.evicted))
  }

  // -------------------------------------------------------------- the live runtime

  datatype Event =
    | Ingested(arrival: Arrival)
    | Registered(link: LinkId, at: Stamp)
    | Moved(id: nat, generation: nat, at: Stamp)

  function Live(b: Bounds, limits: Limits, s: System, event: Event): System {
    match event
    case Ingested(a) =>
      var e := a.evidence;
      if ObserveStatus(b, s.registry, e.observation.key.link) != Ok then s
      else
        var s1 := Settle(s.(registry := Observe(b, s.registry, e.observation.key.link, e.received)));
        s1.(store := StoreAppend(limits, s1.store, e, a.cfg))
    case Registered(link, at) =>
      if link in s.registry.links || ObserveStatus(b, s.registry, link) != Ok then s
      else Settle(s.(registry := Observe(b, s.registry, link, at)))
    case Moved(id, generation, at) =>
      if AdvanceStatus(b, s.registry, id, generation) != Ok then s
      else Settle(s.(registry := Advance(b, s.registry, id, generation, at)))
  }

  predicate Reached(current: map<nat, nat>, k: LinkId) { k.id in current && 0 < k.generation <= current[k.id] }

  /** Registry and store are sound, and no stream is ahead of the current generation of its link. */
  ghost predicate LiveInv(b: Bounds, limits: Limits, s: System) {
    && LinkGenerations.Inv(b, s.registry) && SoundStore(limits, s.store)
    && forall k :: k in s.store.streams ==> Reached(s.registry.current, k.link)
  }

  lemma {:induction false} DropAllKeeps(limits: Limits, store: Store, links: seq<LinkId>)
    requires SoundStore(limits, store)
    ensures SoundStore(limits, DropAll(store, links))
    ensures forall k :: k in DropAll(store, links).streams <==> k in store.streams && k.link !in links
    ensures forall k :: k in DropAll(store, links).streams ==> DropAll(store, links).streams[k] == store.streams[k]
  {
    if links != [] {
      var n := |links| - 1;
      DropAllKeeps(limits, store, links[..n]);
      DropSound(limits, DropAll(store, links[..n]), links[n]);
      assert links == links[..n] + [links[n]];
    }
  }

  lemma ObserveReaches(b: Bounds, r: Registry, l: LinkId, at: Stamp, k: LinkId)
    requires Reached(r.current, k) || (k == l && ObserveStatus(b, r, l) == Ok)
    ensures Reached(Observe(b, r, l, at).current, k)
  {
  }

  lemma AdvanceReaches(b: Bounds, r: Registry, id: nat, generation: nat, at: Stamp, k: LinkId)
    requires Reached(r.current, k)
    ensures Reached(Advance(b, r, id, generation, at).current, k)
  {
  }

  /** A step of the registry, and what it evicts dropped. */
  lemma SettleKeeps(b: Bounds, limits: Limits, s: System, r: Registry)
    requires ValidBounds(b) && LiveInv(b, limits, s) && LinkGenerations.Inv(b, r)
    requires forall k :: Reached(s.registry.current, k) ==> Reached(r.current, k)
    ensures LiveInv(b, limits, Settle(System(r, s.store)))
  {
    DropAllKeeps(limits, s.store, r.evicted);
    LinkGenerations.StepKeeps(b, r, TakeEvicted);
  }

  lemma ObservedSettles(b: Bounds, limits: Limits, s: System, link: LinkId, at: Stamp)
    requires ValidBounds(b) && LiveInv(b, limits, s)
    ensures LiveInv(b, limits, Settle(s.(registry := Observe(b, s.registry, link, at))))
  {
    LinkGenerations.StepKeeps(b, s.registry, Observed(link, at));
    forall k | Reached(s.registry.current, k)
      ensures Reached(Observe(b, s.registry, link, at).current, k)
    {
      ObserveReaches(b, s.registry, link, at, k);
    }
    SettleKeeps(b, limits, s, Observe(b, s.registry, link, at));
  }

  lemma MovedSettles(b: Bounds, limits: Limits, s: System, id: nat, generation: nat, at: Stamp)
    requires ValidBounds(b) && LiveInv(b, limits, s)
    ensures LiveInv(b, limits, Settle(s.(registry := Advance(b, s.registry, id, generation, at))))
  {
    LinkGenerations.StepKeeps(b, s.registry, Advanced(id, generation, at));
    forall k | Reached(s.registry.current, k)
      ensures Reached(Advance(b, s.registry, id, generation, at).current, k)
    {
      AdvanceReaches(b, s.registry, id, generation, at, k);
    }
    SettleKeeps(b, limits, s, Advance(b, s.registry, id, generation, at));
  }

  lemma StoredKeeps(b: Bounds, limits: Limits, s: System, e: Evidence, cfg: Counter.Config)
    requires ValidLimits(limits) && LiveInv(b, limits, s) && Reached(s.registry.current, e.observation.key.link)
    ensures LiveInv(b, limits, s.(store := StoreAppend(limits, s.store, e, cfg)))
  {
    StoreAppendSound(limits, s.store, e, cfg);
  }

  lemma IngestedKeeps(b: Bounds, limits: Limits, s: System, a: Arrival)
    requires ValidBounds(b) && ValidLimits(limits) && LiveInv(b, limits, s)
    ensures LiveInv(b, limits, Live(b, limits, s, Ingested(a)))
  {
    var e, link := a.evidence, a.evidence.observation.key.link;
    if ObserveStatus(b, s.registry, link) == Ok {
      ObservedSettles(b, limits, s, link, e.received);
      ObserveReaches(b, s.registry, link, e.received, link);
      StoredKeeps(b, limits, Settle(s.(registry := Observe(b, s.registry, link, e.received))), e, a.cfg);
    }
  }

  lemma NoneLive(b: Bounds, limits: Limits)
    requires ValidBounds(b)
    ensures LiveInv(b, limits, EmptySystem)
  {
    LinkGenerations.RunKeeps(b, []);
    EmptyStoreSound(limits);
  }

  lemma NextLive(b: Bounds, limits: Limits, s: System, event: Event)
    requires ValidBounds(b) && ValidLimits(limits) && LiveInv(b, limits, s)
    ensures LiveInv(b, limits, Live(b, limits, s, event))
  {
    match event
    case Ingested(a) => IngestedKeeps(b, limits, s, a);
    case Registered(link, at) => ObservedSettles(b, limits, s, link, at);
    case Moved(id, generation, at) => MovedSettles(b, limits, s, id, generation, at);
  }

  // ------------------------------------------------------- registering links again

  predicate LinkBefore(k: LinkId, l: LinkId) { k.id < l.id || (k.id == l.id && k.generation < l.generation) }

  /** Links the registry knows, each at most once, in order. */
  ghost predicate SomeLinks(r: Registry, ls: seq<LinkId>) {
    && (forall i, j :: 0 <= i < j < |ls| ==> LinkBefore(ls[i], ls[j]))
    && (forall k :: k in ls ==> k in r.links)
  }

  /** The registered links as a snapshot lists them: each once, in order. */
  ghost predicate ListsLinks(r: Registry, ls: seq<LinkId>) {
    SomeLinks(r, ls) && forall k :: k in r.links ==> k in ls
  }

  function ReplayLinks(b: Bounds, ls: seq<LinkId>, atOf: LinkId -> Stamp): Registry {
    if ls == [] then EmptyRegistry
    else Observe(b, ReplayLinks(b, ls[..|ls| - 1], atOf), ls[|ls| - 1], atOf(ls[|ls| - 1]))
  }

  /** The generations of one link, in the order listed. */
  function GensOf(ls: seq<LinkId>, id: nat): seq<nat> {
    if ls == [] then []
    else
      var front, last := GensOf(ls[..|ls| - 1], id), ls[|ls| - 1];
      if last.id == id then front + [last.generation] else front
  }

  lemma {:induction false} InGens(ls: seq<LinkId>, id: nat, g: nat)
    ensures g in GensOf(ls, id) <==> LinkId(id, g) in ls
  {
    if ls != [] {
      InGens(ls[..|ls| - 1], id, g);
      assert ls == ls[..|ls| - 1] + [ls[|ls| - 1]];
    }
  }

  /** So many newer generations of the link are listed that this one has no room. */
  ghost predicate Crowded(b: Bounds, ls: seq<LinkId>, k: LinkId) {
    var gens := GensOf(ls, k.id);
    k.generation in gens[..Surplus(b, gens)]
  }

  lemma GensOfNext(ls: seq<LinkId>, l: LinkId, id: nat)
    ensures GensOf(ls + [l], id) == if l.id == id then GensOf(ls, id) + [l.generation] else GensOf(ls, id)
  {
    assert (ls + [l])[..|ls|] == ls;
  }

  /** Trimming a list again after one more entry is trimming the whole list. */
  lemma TrimAgain(b: Bounds, gens: seq<nat>, g: nat)
    requires ValidBounds(b)
    ensures
      var s, all := Surplus(b, gens), gens + [g];
      var kept := gens[s..] + [g];
      var n := Surplus(b, kept);
      && kept[n..] == all[Surplus(b, all)..]
      && all[..Surplus(b, all)] == gens[..s] + kept[..n]
  {
  }

  lemma InIds(id: nat, gens: seq<nat>, k: LinkId)
    ensures k in Ids(id, gens) <==> k.id == id && k.generation in gens
  {
    if k.id == id && k.generation in gens {
      var i :| 0 <= i < |gens| && gens[i] == k.generation;
      assert Ids(id, gens)[i] == k;
    }
  }

  /** A generation that is neither new nor newer leaves lists and evictions alone. */
  lemma QuietObserve(b: Bounds, r: Registry, link: LinkId, at: Stamp)
    requires link.id in r.current && link.generation <= r.current[link.id]
    ensures
      var r' := Observe(b, r, link, at);
      r'.current == r.current && r'.generations == r.generations && r'.evicted == r.evicted
  {
  }

  /** A generation above the current one becomes current, and the oldest surplus ones are evicted. */
  ghost predicate Promoted(b: Bounds, r: Registry, r': Registry, link: LinkId) {
    var gens := ListOf(r, link.id) + [link.generation];
    var n := Surplus(b, gens);
    && r'.current == r.current[link.id := link.generation] && r'.generations == r.generations[link.id := gens[n..]]
    && r'.evicted == r.evicted + Ids(link.id, gens[..n])
  }

  lemma NewerPromotes(b: Bounds, r: Registry, link: LinkId, at: Stamp)
    requires ValidBounds(b) && LinkGenerations.Inv(b, r) && link.id in r.current && r.current[link.id] < link.generation
    ensures Promoted(b, r, Observe(b, r, link, at), link)
  {
    PromoteDrops(b, r, link.id, link.generation);
  }

  lemma FirstPromotes(b: Bounds, r: Registry, link: LinkId, at: Stamp)
    requires ValidBounds(b) && LinkGenerations.Inv(b, r) && link.id !in r.current && ObserveStatus(b, r, link) == Ok
    ensures Promoted(b, r, Observe(b, r, link, at), link)
  {
    FirstShape(b, r, link, at);
    assert link.id !in r.generations.Keys;
    assert [] + [link.generation] == [link.generation] && r.evicted + [] == r.evicted;
  }

  /** The link is known if listed, its newest generations are kept and the others evicted. */
  ghost predicate Tracks(b: Bounds, r: Registry, gens: seq<nat>, k: LinkId) {
    && (k.id in r.current <==> gens != []) && ListOf(r, k.id) == gens[Surplus(b, gens)..]
    && (k in r.evicted <==> k.generation in gens[..Surplus(b, gens)])
  }

  lemma TracksPromoted(b: Bounds, r: Registry, r': Registry, gens: seq<nat>, l: LinkId, k: LinkId)
    requires ValidBounds(b) && Tracks(b, r, gens, k) && Promoted(b, r, r', l)
    ensures Tracks(b, r', if l.id == k.id then gens + [l.generation] else gens, k)
  {
    var list := ListOf(r, l.id) + [l.generation];
    InIds(l.id, list[..Surplus(b, list)], k);
    if l.id == k.id {
      TrimAgain(b, gens, l.generation);
    }
  }

  /** There is room for every link the live registry knows. */
  lemma RoomForLink(b: Bounds, live: Registry, r: Registry, l: LinkId)
    requires LinkGenerations.Inv(b, live) && l in live.links && r.current.Keys <= live.current.Keys
    ensures ObserveStatus(b, r, l) == Ok
  {
    assert MarkedRight(live.current, l, live.links[l]);
    if l.id !in r.current {
      assert r.current.Keys <= live.current.Keys - {l.id};
      SubsetSmaller(r.current.Keys, live.current.Keys - {l.id});
    }
  }

  /** The current generations are among the listed ones. */
  ghost predicate CurrentIn(current: map<nat, nat>, ls: seq<LinkId>) {
    forall id :: id in current ==> LinkId(id, current[id]) in ls
  }

  lemma CurrentKnown(b: Bounds, live: Registry, current: map<nat, nat>, ls: seq<LinkId>)
    requires LinkGenerations.Inv(b, live) && SomeLinks(live, ls) && CurrentIn(current, ls)
    ensures current.Keys <= live.current.Keys
  {
    forall id | id in current
      ensures id in live.current
    {
      var k := LinkId(id, current[id]);
      assert MarkedRight(live.current, k, live.links[k]);
    }
  }

  lemma CurrentBelow(r: Registry, current: map<nat, nat>, ls: seq<LinkId>)
    requires ls != [] && SomeLinks(r, ls) && CurrentIn(current, ls[..|ls| - 1])
    ensures var l := ls[|ls| - 1]; l.id in current ==> current[l.id] < l.generation
  {
    var l := ls[|ls| - 1];
    if l.id in current {
      assert LinkId(l.id, current[l.id]) in ls[..|ls| - 1];
    }
  }

  lemma ObserveCurrent(b: Bounds, r: Registry, front: seq<LinkId>, l: LinkId, at: Stamp)
    requires CurrentIn(r.current, front)
    ensures CurrentIn(Observe(b, r, l, at).current, front + [l])
  {
    var current := Observe(b, r, l, at).current;
    assert current == r.current || current == r.current[l.id := l.generation];
  }

  lemma SomeFront(r: Registry, ls: seq<LinkId>)
    requires ls != [] && SomeLinks(r, ls)
    ensures SomeLinks(r, ls[..|ls| - 1]) && ls[|ls| - 1] in r.links
  {
  }

  lemma {:induction false} ReplayKeeps(b: Bounds, ls: seq<LinkId>, atOf: LinkId -> Stamp)
    requires ValidBounds(b)
    ensures LinkGenerations.Inv(b, ReplayLinks(b, ls, atOf))
  {
    if ls == [] {
      LinkGenerations.RunKeeps(b, []);
    } else {
      var front, l := ls[..|ls| - 1], ls[|ls| - 1];
      ReplayKeeps(b, front, atOf);
      LinkGenerations.StepKeeps(b, ReplayLinks(b, front, atOf), Observed(l, atOf(l)));
    }
  }

  lemma {:induction false} ReplayCurrent(b: Bounds, ls: seq<LinkId>, atOf: LinkId -> Stamp)
    ensures CurrentIn(ReplayLinks(b, ls, atOf).current, ls)
  {
    if ls != [] {
      var front, l := ls[..|ls| - 1], ls[|ls| - 1];
      ReplayCurrent(b, front, atOf);
      ObserveCurrent(b, ReplayLinks(b, front, atOf), front, l, atOf(l));
      assert ls == front + [l];
    }
  }

  lemma ReplayReady(b: Bounds, live: Registry, ls: seq<LinkId>, atOf: LinkId -> Stamp)
    requires ValidBounds(b) && LinkGenerations.Inv(b, live) && ls != [] && SomeLinks(live, ls)
    ensures
      var r, l := ReplayLinks(b, ls[..|ls| - 1], atOf), ls[|ls| - 1];
      && SomeLinks(live, ls[..|ls| - 1]) && LinkGenerations.Inv(b, r) && ObserveStatus(b, r, l) == Ok
      && (l.id in r.current ==> r.current[l.id] < l.generation)
  {
    SomeFront(live, ls);
    ReplayKeeps(b, ls[..|ls| - 1], atOf);
    ReplayCurrent(b, ls[..|ls| - 1], atOf);
    var r := ReplayLinks(b, ls[..|ls| - 1], atOf);
    CurrentKnown(b, live, r.current, ls[..|ls| - 1]);
    CurrentBelow(live, r.current, ls);
    RoomForLink(b, live, r, ls[|ls| - 1]);
  }

  /** Each listed link in turn was promoted. */
  ghost predicate AllPromoted(b: Bounds, ls: seq<LinkId>, atOf: LinkId -> Stamp) {
    ls != [] ==>
      var front := ls[..|ls| - 1];
      AllPromoted(b, front, atOf) && Promoted(b, ReplayLinks(b, front, atOf), ReplayLinks(b, ls, atOf), ls[|ls| - 1])
  }

  lemma {:induction false} ReplayPromotes(b: Bounds, live: Registry, ls: seq<LinkId>, atOf: LinkId -> Stamp)
    requires ValidBounds(b) && LinkGenerations.Inv(b, live) && SomeLinks(live, ls)
    ensures AllPromoted(b, ls, atOf)
  {
    if ls != [] {
      var r, l := ReplayLinks(b, ls[..|ls| - 1], atOf), ls[|ls| - 1];
      ReplayReady(b, live, ls, atOf);
      ReplayPromotes(b, live, ls[..|ls| - 1], atOf);
      if l.id in r.current {
        NewerPromotes(b, r, l, atOf(l));
      } else {
        FirstPromotes(b, r, l, atOf(l));
      }
    }
  }

  lemma TracksNone(b: Bounds, k: LinkId)
    ensures Tracks(b, EmptyRegistry, [], k)
  {
    assert ListOf(EmptyRegistry, k.id) == [];
  }

  lemma {:induction false} ReplayTracks(b: Bounds, ls: seq<LinkId>, atOf: LinkId -> Stamp, k: LinkId)
    requires ValidBounds(b) && AllPromoted(b, ls, atOf)
    ensures Tracks(b, ReplayLinks(b, ls, atOf), GensOf(ls, k.id), k)
  {
    if ls == [] {
      TracksNone(b, k);
    } else {
      var front, l := ls[..|ls| - 1], ls[|ls| - 1];
      ReplayTracks(b, front, atOf, k);
      TracksPromoted(b, ReplayLinks(b, front, atOf), ReplayLinks(b, ls, atOf), GensOf(front, k.id), l, k);
    }
  }

  /** A link is evicted again by the restart if and only if newer ones leave it no room. */
  lemma EvictedExactly(b: Bounds, live: Registry, ls: seq<LinkId>, atOf: LinkId -> Stamp, k: LinkId)
    requires ValidBounds(b) && LinkGenerations.Inv(b, live) && ListsLinks(live, ls)
    ensures k in ReplayLinks(b, ls, atOf).evicted <==> Crowded(b, ls, k)
  {
    ReplayPromotes(b, live, ls, atOf);
    ReplayTracks(b, ls, atOf, k);
  }

  // ------------------------------------------------------------- replaying records

  /** What a restart makes of one evidence record. */
  function ReplayRecord(b: Bounds, limits: Limits, s: System, e: Evidence, cfg: Counter.Config): System {
    var o := e.observation;
    match StoreDecide(limits, s.store, o)
    case LimitExceeded => s
    case Decided(Mismatch) => s
    case Decided(Fenced) => s
    case Decided(_) =>
      var store := StoreAppend(limits, s.store, AsRecovered(e), cfg);
      if ObserveStatus(b, s.registry, o.key.link) != Ok then s.(store := store)
      else Settle(System(Observe(b, s.registry, o.key.link, e.received), store))
  }

  function ReplayAll(b: Bounds, limits: Limits, s: System, records: seq<Evidence>,
                     cfgOf: Key -> Counter.Config): System {
    if records == [] then s
    else
      var last := records[|records| - 1];
      ReplayRecord(b, limits, ReplayAll(b, limits, s, records[..|records| - 1], cfgOf), last,
          cfgOf(last.observation.key))
  }

  /** The whole restart: links, then records, then windows. */
  ghost function Restarted(b: Bounds, limits: Limits, ls: seq<LinkId>, atOf: LinkId -> Stamp, records: seq<Evidence>,
                           seeds: seq<SeedRecord>, cfgOf: Key -> Counter.Config): System {
    var s := ReplayAll(b, limits, System(ReplayLinks(b, ls, atOf), EmptyStore), records, cfgOf);
    s.(store := ReplaySeeds(limits, s.store, seeds))
  }

  predicate Known(current: map<nat, nat>, e: Evidence) { Reached(current, e.observation.key.link) }

  predicate AllKnown(current: map<nat, nat>, records: seq<Evidence>) { forall e :: e in records ==> Known(current, e) }

  lemma UnchangedAppend(limits: Limits, store: Store, e: Evidence, cfg: Counter.Config)
    requires StoreDecide(limits, store, e.observation) != Decided(Fresh)
    ensures StoreAppend(limits, store, AsRecovered(e), cfg) == store
  {
  }

  /** With nothing pending, a record only goes to the store. */
  lemma QuietRecord(b: Bounds, limits: Limits, s: System, e: Evidence, cfg: Counter.Config)
    requires s.registry.evicted == [] && Known(s.registry.current, e)
    ensures
      var s' := ReplayRecord(b, limits, s, e, cfg);
      && s'.registry.evicted == [] && s'.registry.current == s.registry.current
      && s'.store == StoreAppend(limits, s.store, AsRecovered(e), cfg)
  {
    QuietObserve(b, s.registry, e.observation.key.link, e.received);
    if StoreDecide(limits, s.store, e.observation) != Decided(Fresh) {
      UnchangedAppend(limits, s.store, e, cfg);
    }
  }

  /** The store of a restart with nothing pending. */
  ghost predicate QuietAfter(limits: Limits, s: System, current: map<nat, nat>, records: seq<Evidence>,
                             cfgOf: Key -> Counter.Config) {
    s.registry.evicted == [] && s.registry.current == current && s.store == ReplayRecords(limits, records, cfgOf)
  }

  lemma QuietNext(b: Bounds, limits: Limits, s: System, current: map<nat, nat>, done: seq<Evidence>, e: Evidence,
                  cfgOf: Key -> Counter.Config)
    requires QuietAfter(limits, s, current, done, cfgOf) && Known(current, e)
    ensures QuietAfter(limits, ReplayRecord(b, limits, s, e, cfgOf(e.observation.key)), current, done + [e], cfgOf)
  {
    QuietRecord(b, limits, s, e, cfgOf(e.observation.key));
    RecordsNext(limits, done, e, cfgOf);
  }

  lemma {:induction false} QuietRecords(b: Bounds, limits: Limits, s: System, current: map<nat, nat>,
                                        done: seq<Evidence>, records: seq<Evidence>, cfgOf: Key -> Counter.Config)
    requires QuietAfter(limits, s, current, done, cfgOf) && AllKnown(current, records)
    ensures QuietAfter(limits, ReplayAll(b, limits, s, records, cfgOf), current, done + records, cfgOf)
  {
    if records == [] {
      assert done + [] == done;
    } else {
      var front, last := records[..|records| - 1], records[|records| - 1];
      assert AllKnown(current, front) && Known(current, last);
      QuietRecords(b, limits, s, current, done, front, cfgOf);
      QuietNext(b, limits, ReplayAll(b, limits, s, front, cfgOf), current, done + front, last, cfgOf);
      assert done + records == done + front + [last];
    }
  }

  // --------------------------------------------------------- what the restart loses

  lemma OthersOne(e: Evidence, link: LinkId)
    ensures Others([e], link) == if e.observation.key.link == link then [] else [e]
  {
    assert [e][..0] == [];
  }

  lemma DropOne(store: Store, e: Evidence, link: LinkId)
    requires store == EmptyStore || (store.history == [e] && store.streams.Keys == {e.observation.key})
    ensures DropLink(store, link) == if e.observation.key.link == link then EmptyStore else store
  {
    OthersOne(e, link);
    var streams := DropLink(store, link).streams;
    if store == EmptyStore || e.observation.key.link == link {
      assert streams.Keys == {};
    } else {
      assert streams == store.streams;
    }
  }

  /** Dropping links from a store of one record leaves it alone or empties it. */
  lemma {:induction false} DropAllOne(limits: Limits, store: Store, e: Evidence, links: seq<LinkId>)
    requires store.history == [e] && store.streams.Keys == {e.observation.key}
    ensures DropAll(store, links) == if e.observation.key.link in links then EmptyStore else store
  {
    if links != [] {
      var n := |links| - 1;
      DropAllOne(limits, store, e, links[..n]);
      assert links == links[..n] + [links[n]];
      DropOne(DropAll(store, links[..n]), e, links[n]);
    }
  }

  lemma FirstStored(limits: Limits, e: Evidence, cfg: Counter.Config)
    requires ValidLimits(limits)
    ensures StoreDecide(limits, EmptyStore, e.observation) == Decided(Fresh)
    ensures
      var store := StoreAppend(limits, EmptyStore, AsRecovered(e), cfg);
      store.history == [AsRecovered(e)] && store.streams.Keys == {e.observation.key}
  {
    assert KeysOf(EmptyStore.streams, e.observation.key.link) == {};
    assert [] + [AsRecovered(e)] == [AsRecovered(e)];
  }

  /** The first record settles what the links left pending. */
  lemma FirstRecord(b: Bounds, limits: Limits, r: Registry, e: Evidence, cfgOf: Key -> Counter.Config)
    requires ValidLimits(limits) && Known(r.current, e)
    ensures
      QuietAfter(limits, ReplayRecord(b, limits, System(r, EmptyStore), e, cfgOf(e.observation.key)), r.current,
                 if e.observation.key.link in r.evicted then [] else [e], cfgOf)
  {
    var cfg := cfgOf(e.observation.key);
    FirstStored(limits, e, cfg);
    QuietObserve(b, r, e.observation.key.link, e.received);
    DropAllOne(limits, StoreAppend(limits, EmptyStore, AsRecovered(e), cfg), AsRecovered(e), r.evicted);
    assert [] + [e] == [e];
    RecordsNext(limits, [], e, cfgOf);
  }

  lemma {:induction false} ReplayFirst(b: Bounds, limits: Limits, s: System, records: seq<Evidence>,
                                       cfgOf: Key -> Counter.Config)
    requires records != []
    ensures ReplayAll(b, limits, s, records, cfgOf)
         == ReplayAll(b, limits, ReplayRecord(b, limits, s, records[0], cfgOf(records[0].observation.key)),
             records[1..], cfgOf)
  {
    var n := |records| - 1;
    if n == 0 {
      assert records[..0] == [] && records[1..] == [];
    } else {
      ReplayFirst(b, limits, s, records[..n], cfgOf);
      assert records[..n][1..] == records[1..][..n - 1] && records[..n][0] == records[0];
    }
  }

  /** The records that reach the store: all of them, or all but the first. */
  function Reaching(r: Registry, records: seq<Evidence>): seq<Evidence> {
    if records != [] && records[0].observation.key.link in r.evicted then records[1..] else records
  }

  lemma RestartQuiet(b: Bounds, limits: Limits, r: Registry, records: seq<Evidence>, cfgOf: Key -> Counter.Config)
    requires ValidLimits(limits) && AllKnown(r.current, records) && records != []
    ensures QuietAfter(limits, ReplayAll(b, limits, System(r, EmptyStore), records, cfgOf), r.current,
                       Reaching(r, records), cfgOf)
  {
    var e, s := records[0], System(r, EmptyStore);
    assert Known(r.current, e) && AllKnown(r.current, records[1..]);
    ReplayFirst(b, limits, s, records, cfgOf);
    FirstRecord(b, limits, r, e, cfgOf);
    var s1 := ReplayRecord(b, limits, s, e, cfgOf(e.observation.key));
    var done := if e.observation.key.link in r.evicted then [] else [e];
    QuietRecords(b, limits, s1, r.current, done, records[1..], cfgOf);
    assert done + records[1..] == Reaching(r, records);
  }

  lemma RestartStores(b: Bounds, limits: Limits, r: Registry, records: seq<Evidence>, cfgOf: Key -> Counter.Config)
    requires ValidLimits(limits) && AllKnown(r.current, records)
    ensures ReplayAll(b, limits, System(r, EmptyStore), records, cfgOf).store
         == ReplayRecords(limits, Reaching(r, records), cfgOf)
  {
    if records != [] {
      RestartQuiet(b, limits, r, records, cfgOf);
    }
  }

  lemma {:induction false} ReplayReaches(b: Bounds, live: Registry, ls: seq<LinkId>, atOf: LinkId -> Stamp, k: LinkId)
    requires ValidBounds(b) && LinkGenerations.Inv(b, live) && SomeLinks(live, ls) && k in ls
    ensures Reached(ReplayLinks(b, ls, atOf).current, k)
  {
    var front, l := ls[..|ls| - 1], ls[|ls| - 1];
    ReplayReady(b, live, ls, atOf);
    assert k == l || k in front;
    if k != l {
      ReplayReaches(b, live, front, atOf, k);
    }
    ObserveReaches(b, ReplayLinks(b, front, atOf), l, atOf(l), k);
  }

  /** The links listed bring every current generation back. */
  lemma ReachedAgain(b: Bounds, live: Registry, ls: seq<LinkId>, atOf: LinkId -> Stamp, k: LinkId)
    requires ValidBounds(b) && LinkGenerations.Inv(b, live) && ListsLinks(live, ls) && Reached(live.current, k)
    ensures Reached(ReplayLinks(b, ls, atOf).current, k)
  {
    CurrentKept(b, live, k.id);
    ReplayReaches(b, live, ls, atOf, LinkId(k.id, live.current[k.id]));
  }

  /** The first record written is the only one of a stream whose link the restart evicts. */
  ghost predicate Loses(b: Bounds, ls: seq<LinkId>, records: seq<Evidence>) {
    records != [] && Crowded(b, ls, records[0].observation.key.link) && |Of(records, records[0].observation.key)| == 1
  }

  lemma {:induction false} OfRest(records: seq<Evidence>, key: Key)
    requires records != []
    ensures
      var rs := Of(records, key);
      if records[0].observation.key == key then rs != [] && rs[0] == records[0] && Of(records[1..], key) == rs[1..]
      else Of(records[1..], key) == rs
  {
    var front, last := records[..|records| - 1], records[|records| - 1];
    if front == [] {
      assert records[1..] == [];
    } else {
      OfRest(front, key);
      assert front[1..] + [last] == records[1..] && records == front + [last];
      OfNext(front, last, key);
      OfNext(front[1..], last, key);
    }
  }

  /** A record of a stream below another one is not its latest fed one. */
  lemma NotLatest(limits: Limits, s: Stream, rs: seq<Evidence>)
    requires Sound(limits, s) && s.watermark.Some? && Suffices(s, rs) && |rs| > 1
    ensures Suffices(s, rs[1..])
  {
    RetainedLast(limits, s, rs);
    assert rs[1..][|rs| - 2] == rs[|rs| - 1];
  }

  lemma RestEnough(limits: Limits, live: Store, records: seq<Evidence>, seeds: seq<SeedRecord>)
    requires SoundStore(limits, live) && Enough(live, records, seeds)
    requires records != [] && |Of(records, records[0].observation.key)| > 1
    ensures Enough(live, records[1..], seeds)
  {
    forall k | k in live.streams
      ensures Suffices(live.streams[k], Of(records[1..], k))
    {
      OfRest(records, k);
      if k == records[0].observation.key {
        NotLatest(limits, live.streams[k], Of(records, k));
      }
    }
  }

  lemma {:induction false} SeedsFeedNothing(limits: Limits, before: Store, seeds: seq<SeedRecord>, key: Key)
    requires key !in before.streams
    ensures var after := ReplaySeeds(limits, before, seeds); key in after.streams ==> after.streams[key].fed == None
  {
    if seeds != [] {
      SeedsFeedNothing(limits, before, seeds[..|seeds| - 1], key);
      var mid := ReplaySeeds(limits, before, seeds[..|seeds| - 1]);
      SeedAllKeeps(StreamOf(mid, key), seeds[|seeds| - 1].entries);
    }
  }

  lemma NotHeld(limits: Limits, live: Store, records: seq<Evidence>, cfgOf: Key -> Counter.Config)
    requires Capped(limits, live) && AllFrom(live, records)
    requires records != [] && |Of(records, records[0].observation.key)| == 1
    ensures records[0].observation.key !in ReplayRecords(limits, records[1..], cfgOf).streams
  {
    OfRest(records, records[0].observation.key);
    RecordsHeld(limits, live, records[1..], cfgOf);
  }

  /** Without its only record a stream is not restored. */
  lemma OnlyRecordLost(limits: Limits, live: Store, records: seq<Evidence>, seeds: seq<SeedRecord>,
                       cfgOf: Key -> Counter.Config)
    requires SoundStore(limits, live) && Enough(live, records, seeds)
    requires records != [] && |Of(records, records[0].observation.key)| == 1
    ensures !SameStreams(live, ReplaySeeds(limits, ReplayRecords(limits, records[1..], cfgOf), seeds))
  {
    var key := records[0].observation.key;
    NotHeld(limits, live, records, cfgOf);
    assert live.streams[key].fed.Some?;
    SeedsFeedNothing(limits, ReplayRecords(limits, records[1..], cfgOf), seeds, key);
  }

  lemma SnapshotKnown(b: Bounds, limits: Limits, live: System, ls: seq<LinkId>, atOf: LinkId -> Stamp,
                      records: seq<Evidence>, seeds: seq<SeedRecord>)
    requires ValidBounds(b) && LiveInv(b, limits, live)
    requires ListsLinks(live.registry, ls) && Enough(live.store, records, seeds)
    ensures AllKnown(ReplayLinks(b, ls, atOf).current, records)
  {
    forall e | e in records
      ensures Known(ReplayLinks(b, ls, atOf).current, e)
    {
      ReachedAgain(b, live.registry, ls, atOf, e.observation.key.link);
    }
  }

  lemma NothingLost(b: Bounds, limits: Limits, live: Store, r: Registry, ls: seq<LinkId>, records: seq<Evidence>,
                    seeds: seq<SeedRecord>, cfgOf: Key -> Counter.Config)
    requires ValidLimits(limits) && SoundStore(limits, live) && Enough(live, records, seeds) && !Loses(b, ls, records)
    requires records != [] ==>
               var link := records[0].observation.key.link; (link in r.evicted <==> Crowded(b, ls, link))
    ensures
      var store := Loaded(limits, Reaching(r, records), seeds, cfgOf);
      Restored(live, store) && SoundStore(limits, store)
  {
    if Reaching(r, records) != records {
      OfRest(records, records[0].observation.key);
      RestEnough(limits, live, records, seeds);
    }
    StoreRestored(limits, live, Reaching(r, records), seeds, cfgOf);
  }

  /**
   A restart restores every stream of any such system from its snapshot, unless the first
   record written is the only one of a stream whose link it evicts; then it does not.
   */
  lemma RestoredExactly(b: Bounds, limits: Limits, live: System, ls: seq<LinkId>, atOf: LinkId -> Stamp,
                        records: seq<Evidence>, seeds: seq<SeedRecord>, cfgOf: Key -> Counter.Config)
    requires ValidBounds(b) && ValidLimits(limits) && LiveInv(b, limits, live)
    requires ListsLinks(live.registry, ls) && IsSnapshot(live.store, records, seeds)
    ensures Restored(live.store, Restarted(b, limits, ls, atOf, records, seeds, cfgOf).store)
       <==> !Loses(b, ls, records)
  {
    var r := ReplayLinks(b, ls, atOf);
    SnapshotKnown(b, limits, live, ls, atOf, records, seeds);
    RestartStores(b, limits, r, records, cfgOf);
    if records != [] {
      EvictedExactly(b, live.registry, ls, atOf, records[0].observation.key.link);
    }
    if Loses(b, ls, records) {
      OnlyRecordLost(limits, live.store, records, seeds, cfgOf);
    } else {
      NothingLost(b, limits, live.store, r, ls, records, seeds, cfgOf);
    }
  }

  // ------------------------------------------------- any number of events and restarts

  // What the registry keeps while records are replayed.
  ghost predicate ReplayInv(b: Bounds, r: Registry, current: map<nat, nat>) {
    LinkGenerations.Inv(b, r) && r.current == current
  }

  lemma RecordKeeps(b: Bounds, limits: Limits, s: System, current: map<nat, nat>, e: Evidence, cfg: Counter.Config)
    requires ValidBounds(b) && ReplayInv(b, s.registry, current) && Known(current, e)
    ensures ReplayInv(b, ReplayRecord(b, limits, s, e, cfg).registry, current)
  {
    QuietObserve(b, s.registry, e.observation.key.link, e.received);
    LinkGenerations.StepKeeps(b, s.registry, Observed(e.observation.key.link, e.received));
  }

  lemma {:induction false} RecordsKeep(b: Bounds, limits: Limits, s: System, current: map<nat, nat>,
                                       records: seq<Evidence>, cfgOf: Key -> Counter.Config)
    requires ValidBounds(b) && ReplayInv(b, s.registry, current) && AllKnown(current, records)
    ensures ReplayInv(b, ReplayAll(b, limits, s, records, cfgOf).registry, current)
  {
    if records != [] {
      var front, last := records[..|records| - 1], records[|records| - 1];
      assert AllKnown(current, front) && Known(current, last);
      RecordsKeep(b, limits, s, current, front, cfgOf);
      RecordKeeps(b, limits, ReplayAll(b, limits, s, front, cfgOf), current, last, cfgOf(last.observation.key));
    }
  }

  /** A restart that loses nothing leaves a system of the same kind. */
  lemma RestartKeeps(b: Bounds, limits: Limits, live: System, ls: seq<LinkId>, atOf: LinkId -> Stamp,
                     records: seq<Evidence>, seeds: seq<SeedRecord>, cfgOf: Key -> Counter.Config)
    requires ValidBounds(b) && ValidLimits(limits) && LiveInv(b, limits, live)
    requires ListsLinks(live.registry, ls) && IsSnapshot(live.store, records, seeds) && !Loses(b, ls, records)
    ensures LiveInv(b, limits, Restarted(b, limits, ls, atOf, records, seeds, cfgOf))
  {
    var r, s := ReplayLinks(b, ls, atOf), Restarted(b, limits, ls, atOf, records, seeds, cfgOf);
    SnapshotKnown(b, limits, live, ls, atOf, records, seeds);
    RestartStores(b, limits, r, records, cfgOf);
    if records != [] {
      EvictedExactly(b, live.registry, ls, atOf, records[0].observation.key.link);
    }
    NothingLost(b, limits, live.store, r, ls, records, seeds, cfgOf);
    ReplayKeeps(b, ls, atOf);
    RecordsKeep(b, limits, System(r, EmptyStore), r.current, records, cfgOf);
    forall k | k in s.store.streams
      ensures Reached(s.registry.current, k.link)
    {
      assert k in live.store.streams.Keys;
      ReachedAgain(b, live.registry, ls, atOf, k.link);
    }
  }

  datatype Act =
    | Happened(event: Event)
    | Restarts(ls: seq<LinkId>, atOf: LinkId -> Stamp, records: seq<Evidence>, seeds: seq<SeedRecord>,
               cfgOf: Key -> Counter.Config)

  ghost function After(b: Bounds, limits: Limits, s: System, act: Act): System {
    match act
    case Happened(event) => Live(b, limits, s, event)
    case Restarts(ls, atOf, records, seeds, cfgOf) => Restarted(b, limits, ls, atOf, records, seeds, cfgOf)
  }

  /** A restart replays a snapshot of the system it ends. */
  ghost predicate Proper(s: System, act: Act) {
    act.Restarts? ==> ListsLinks(s.registry, act.ls) && IsSnapshot(s.store, act.records, act.seeds)
  }

  ghost predicate LosesNothing(b: Bounds, act: Act) { act.Restarts? ==> !Loses(b, act.ls, act.records) }

  ghost function SystemRun(b: Bounds, limits: Limits, acts: seq<Act>): System {
    if acts == [] then EmptySystem else After(b, limits, SystemRun(b, limits, acts[..|acts| - 1]), acts[|acts| - 1])
  }

  ghost predicate Lossless(b: Bounds, limits: Limits, acts: seq<Act>) {
    forall i :: 0 <= i < |acts| ==> Proper(SystemRun(b, limits, acts[..i]), acts[i]) && LosesNothing(b, acts[i])
  }

  lemma LosslessFront(b: Bounds, limits: Limits, acts: seq<Act>)
    requires Lossless(b, limits, acts) && acts != []
    ensures Lossless(b, limits, acts[..|acts| - 1])
  {
    var front := acts[..|acts| - 1];
    assert forall i :: 0 <= i < |front| ==> front[..i] == acts[..i];
  }

  lemma NextKeeps(b: Bounds, limits: Limits, s: System, act: Act)
    requires ValidBounds(b) && ValidLimits(limits) && LiveInv(b, limits, s) && Proper(s, act) && LosesNothing(b, act)
    ensures LiveInv(b, limits, After(b, limits, s, act))
  {
    match act
    case Happened(event) => NextLive(b, limits, s, event);
    case Restarts(ls, atOf, records, seeds, cfgOf) => RestartKeeps(b, limits, s, ls, atOf, records, seeds, cfgOf);
  }

  /** Every system reached by events and restarts that lost nothing, in any order, is one of these. */
  lemma {:induction false} RunKeeps(b: Bounds, limits: Limits, acts: seq<Act>)
    requires ValidBounds(b) && ValidLimits(limits) && Lossless(b, limits, acts)
    ensures LiveInv(b, limits, SystemRun(b, limits, acts))
  {
    if acts == [] {
      NoneLive(b, limits);
    } else {
      LosslessFront(b, limits, acts);
      RunKeeps(b, limits, acts[..|acts| - 1]);
      NextKeeps(b, limits, SystemRun(b, limits, acts[..|acts| - 1]), acts[|acts| - 1]);
    }
  }
}
