/**
 Runs in which a restart falls out of step: late evidence for a link whose eviction it
 has pending, and a compaction right after a crash, while an eviction is pending.

 Main results: `ReplayLoses` and `CompactedTooSoon`.
 */
module RecoveryCases {
  import opened Evidence
  import opened EvidenceStream
  import opened StoreModel
  import opened LinkGenerations
  import opened Restart
  import opened Recovery
  import opened RecoveryRuns

  // Evidence for the first generation of a link, and then its second registered.
  function SecondTurns(id: nat, a: Arrival, at: Stamp): seq<Turn> {
    [Happens(Ingested(a)), Happens(Registered(LinkId(id, 2), at))]
  }

  lemma RunNext(b: Bounds, limits: Limits, turns: seq<Turn>, turn: Turn)
    ensures WorldRun(b, limits, turns + [turn]) == Next(b, limits, WorldRun(b, limits, turns), turn)
  {
    assert (turns + [turn])[..|turns|] == turns;
  }

  /** After the first of them: one generation listed, one stream stored. */
  lemma FirstLive(b: Bounds, limits: Limits, id: nat, a: Arrival)
    requires ValidBounds(b) && ValidLimits(limits) && a.evidence.observation.key.link == LinkId(id, 1)
    ensures
      var s := Restart.Live(b, limits, EmptySystem, Ingested(a));
      && s.registry.current == map[id := 1] && ListOf(s.registry, id) == [1] && s.registry.evicted == []
      && s.registry.links.Keys == {LinkId(id, 1)} && a.evidence.observation.key in s.store.streams
  {
    var r := Observe(b, EmptyRegistry, LinkId(id, 1), a.evidence.received);
    assert [] + [1] == [1];
    assert r.links.Keys == {LinkId(id, 1)};
    assert KeysOf(EmptyStore.streams, LinkId(id, 1)) == {};
  }

  lemma FirstFine(b: Bounds, limits: Limits, id: nat, a: Arrival, at: Stamp)
    requires ValidBounds(b) && ValidLimits(limits) && a.evidence.observation.key.link == LinkId(id, 1)
    ensures AllFine(b, limits, SecondTurns(id, a, at)) && AllFine(b, limits, [Happens(Ingested(a))])
    ensures WorldRun(b, limits, [Happens(Ingested(a))]).live == Restart.Live(b, limits, EmptySystem, Ingested(a))
  {
    var turns := SecondTurns(id, a, at);
    FirstLive(b, limits, id, a);
    assert turns[..0] == [] && turns[..1] == [turns[0]] && [turns[0]][..0] == [];
    RunNext(b, limits, [], turns[0]);
    assert [] + [turns[0]] == [turns[0]];
  }

  /** After both: the restart has the first generation pending and still holds its stream. */
  lemma SecondPending(b: Bounds, limits: Limits, id: nat, a: Arrival, at: Stamp)
    requires ValidBounds(b) && b.maxGenerations == 1 && ValidLimits(limits)
    requires a.evidence.observation.key.link == LinkId(id, 1)
    ensures
      var w := WorldRun(b, limits, SecondTurns(id, a, at));
      && LinkId(id, 1) in w.rep.registry.evicted && id in w.rep.registry.current
      && a.evidence.observation.key in w.rep.store.streams
  {
    FirstHeld(b, limits, id, a, at);
    SecondNext(b, limits, id, a, at);
    SecondPushes(b, limits, WorldRun(b, limits, [Happens(Ingested(a))]), id, at);
  }

  lemma SecondNext(b: Bounds, limits: Limits, id: nat, a: Arrival, at: Stamp)
    ensures WorldRun(b, limits, SecondTurns(id, a, at))
         == Next(b, limits, WorldRun(b, limits, [Happens(Ingested(a))]), Happens(Registered(LinkId(id, 2), at)))
  {
    var first, second := Happens(Ingested(a)), Happens(Registered(LinkId(id, 2), at));
    RunNext(b, limits, [first], second);
    assert [first] + [second] == SecondTurns(id, a, at);
  }

  lemma SecondInv(b: Bounds, limits: Limits, id: nat, a: Arrival, at: Stamp)
    requires ValidBounds(b) && ValidLimits(limits) && a.evidence.observation.key.link == LinkId(id, 1)
    ensures WorldInv(b, limits, WorldRun(b, limits, SecondTurns(id, a, at)))
  {
    FirstFine(b, limits, id, a, at);
    RecoveredAlways(b, limits, SecondTurns(id, a, at));
  }

  lemma FirstHeld(b: Bounds, limits: Limits, id: nat, a: Arrival, at: Stamp)
    requires ValidBounds(b) && ValidLimits(limits) && a.evidence.observation.key.link == LinkId(id, 1)
    ensures
      var w := WorldRun(b, limits, [Happens(Ingested(a))]);
      && SameLinks(w.live.registry, w.rep.registry) && a.evidence.observation.key in w.rep.store.streams
      && w.live.registry.current == map[id := 1] && ListOf(w.live.registry, id) == [1]
      && w.live.registry.links.Keys == {LinkId(id, 1)}
  {
    FirstLive(b, limits, id, a);
    FirstFine(b, limits, id, a, at);
    RecoveredAlways(b, limits, [Happens(Ingested(a))]);
    var w := WorldRun(b, limits, [Happens(Ingested(a))]);
    StepHolds(w.live, w.rep, a.evidence.observation.key);
  }

  lemma StepHolds(live: System, rep: System, key: Key)
    requires InStep(live, rep) && live.registry.evicted == [] && key in live.store.streams
    ensures key in rep.store.streams
  {
    assert key in Settled(live).Keys;
  }

  lemma SecondPushes(b: Bounds, limits: Limits, w: World, id: nat, at: Stamp)
    requires ValidBounds(b) && b.maxGenerations == 1 && SameLinks(w.live.registry, w.rep.registry)
    requires w.live.registry.current == map[id := 1] && ListOf(w.live.registry, id) == [1]
    requires w.live.registry.links.Keys == {LinkId(id, 1)}
    ensures
      var rep := Next(b, limits, w, Happens(Registered(LinkId(id, 2), at))).rep;
      LinkId(id, 1) in rep.registry.evicted && id in rep.registry.current && rep.store == w.rep.store
  {
    var two := LinkId(id, 2);
    assert two !in w.live.registry.links.Keys;
    ApplyOne(b, limits, w.rep, LinkEntry(two, at));
    ObserveSame(b, w.rep.registry, w.live.registry, two, at, at);
    assert ([1] + [2])[..1] == [1];
    InIds(id, [1], LinkId(id, 1));
  }

  /** Late evidence for that generation: live it is stored, replayed it is lost. */
  lemma ReplayLoses(b: Bounds, limits: Limits, id: nat, a: Arrival, late: Arrival, at: Stamp)
    requires ValidBounds(b) && b.maxGenerations == 1 && ValidLimits(limits)
    requires a.evidence.observation.key.link == late.evidence.observation.key.link == LinkId(id, 1)
    ensures
      var w := WorldRun(b, limits, SecondTurns(id, a, at));
      var w' := Next(b, limits, w, Happens(Ingested(late)));
      InStep(w.live, w.rep) && !InStep(w'.live, w'.rep)
  {
    SecondPending(b, limits, id, a, at);
    SecondInv(b, limits, id, a, at);
    var w := WorldRun(b, limits, SecondTurns(id, a, at));
    StepExactly(b, limits, w.live, w.rep, Ingested(late));
  }

  // The same after a crash: the process is what the restart made of it.
  ghost function Crashed(b: Bounds, limits: Limits, id: nat, a: Arrival, at: Stamp): World {
    Next(b, limits, WorldRun(b, limits, SecondTurns(id, a, at)), Crashes)
  }

  lemma CrashedPending(b: Bounds, limits: Limits, id: nat, a: Arrival, at: Stamp)
    requires ValidBounds(b) && b.maxGenerations == 1 && ValidLimits(limits)
    requires a.evidence.observation.key.link == LinkId(id, 1)
    ensures var w := Crashed(b, limits, id, a, at); WorldInv(b, limits, w) && !Calm(w.live)
  {
    SecondPending(b, limits, id, a, at);
    SecondInv(b, limits, id, a, at);
    NextFine(b, limits, WorldRun(b, limits, SecondTurns(id, a, at)), Crashes);
    PendingNotCalm(Crashed(b, limits, id, a, at).live, a.evidence.observation.key);
  }

  lemma PendingNotCalm(s: System, key: Key)
    requires key in s.store.streams && key.link in s.registry.evicted
    ensures !Calm(s)
  {
  }

  /** Compacted then, before anything else happens, the dropped stream comes back for good. */
  lemma CompactedTooSoon(b: Bounds, limits: Limits, id: nat, a: Arrival, at: Stamp, turn: Turn)
    requires ValidBounds(b) && b.maxGenerations == 1 && ValidLimits(limits)
    requires a.evidence.observation.key.link == LinkId(id, 1) && turn.Compacts?
    requires ListsLinks(Crashed(b, limits, id, a, at).live.registry, turn.ls)
    requires IsSnapshot(Crashed(b, limits, id, a, at).live.store, turn.records, turn.seeds)
    ensures
      var w := Crashed(b, limits, id, a, at);
      var w' := Next(b, limits, w, turn);
      InStep(w.live, w.rep) && !InStep(w'.live, w'.rep)
  {
    CrashedPending(b, limits, id, a, at);
    var w := Crashed(b, limits, id, a, at);
    CompactExactly(b, limits, w.live, turn.ls, turn.atOf, turn.records, turn.seeds, turn.cfgOf);
  }
}
