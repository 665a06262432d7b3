/**
 Whole runs of a process and its journal: events, compactions and crashes, in any order
 and number. At every moment a restart would know the same links and the same streams, as
 long as no evidence arrives late for a generation already left behind.

 Main results: `CompactExactly` and `RecoveredAlways`. RecoveryCases.dfy shows what
 happens otherwise.
 */
module RecoveryRuns {
  import opened Evidence
  import opened EvidenceStream
  import opened EvidenceSnapshot
  import opened StoreModel
  import opened LinkGenerations
  import opened Restart
  import opened Recovery
  import Counter

  // ------------------------------------------------------------------ the registry

  /** Every listed generation is registered. */
  ghost predicate ListsRegistered(r: Registry) {
    forall id, g :: g in ListOf(r, id) ==> LinkId(id, g) in r.links
  }

  /** No evicted generation is listed. */
  ghost predicate EvictedUnlisted(r: Registry) {
    forall k :: k in r.evicted ==> k.generation !in ListOf(r, k.id)
  }

  /** Registered and listed is the same, and what is evicted is neither. */
  ghost predicate Tidy(b: Bounds, r: Registry) {
    LinkGenerations.Inv(b, r) && Listed(r) && ListsRegistered(r) && EvictedUnlisted(r)
  }

  lemma SplitDistinct(gens: seq<nat>, n: nat, g: nat)
    requires Increasing(gens) && n <= |gens| && g in gens[..n]
    ensures g !in gens[n..]
  {
    var i :| 0 <= i < n && gens[i] == g;
    forall j | 0 <= j < |gens[n..]|
      ensures gens[n..][j] != g
    {
      assert gens[n..][j] == gens[n + j] && gens[i] < gens[n + j];
    }
  }

  lemma GrownIncreasing(before: seq<nat>, generation: nat)
    requires Increasing(before) && forall g :: g in before ==> g < generation
    ensures Increasing(before + [generation])
  {
    assert forall i :: 0 <= i < |before| ==> before[i] in before;
  }

  // What a promotion keeps listed, what it registers and what it evicts.
  ghost predicate Parts(r: Registry, r': Registry, id: nat, gens: seq<nat>, n: nat) {
    && n <= |gens| && Increasing(gens) && ListOf(r', id) == gens[n..] && r'.evicted == r.evicted + Ids(id, gens[..n])
    && (forall other :: other != id ==> ListOf(r', other) == ListOf(r, other))
    && (forall k :: k in r.links && k !in Ids(id, gens[..n]) ==> k in r'.links)
  }

  lemma PromoteParts(b: Bounds, r: Registry, id: nat, generation: nat, at: Stamp)
    requires ValidBounds(b) && LinkGenerations.Inv(b, r) && (id in r.current ==> r.current[id] < generation)
    ensures
      var r', gens := Promote(b, r, id, generation, at), ListOf(r, id) + [generation];
      Parts(r, r', id, gens, Surplus(b, gens)) && LinkId(id, generation) in r'.links
  {
    ListBelow(b, r, id, generation);
    GrownIncreasing(ListOf(r, id), generation);
    PromoteDrops(b, r, id, generation);
  }

  lemma UnlistedOne(r: Registry, r': Registry, id: nat, generation: nat, n: nat, k: LinkId)
    requires Parts(r, r', id, ListOf(r, id) + [generation], n)
    requires k in Ids(id, (ListOf(r, id) + [generation])[..n])
          || (k.generation !in ListOf(r, k.id) && (k.id == id ==> k.generation < generation))
    ensures k.generation !in ListOf(r', k.id)
  {
    var gens := ListOf(r, id) + [generation];
    InIds(id, gens[..n], k);
    if k in Ids(id, gens[..n]) {
      SplitDistinct(gens, n, k.generation);
    } else if k.id == id {
      assert k.generation !in gens;
    }
  }

  lemma EvictedBelow(b: Bounds, r: Registry, id: nat, generation: nat, k: LinkId)
    requires LinkGenerations.Inv(b, r) && (id in r.current ==> r.current[id] < generation) && k in r.evicted
    ensures k.id == id ==> k.generation < generation
  {
  }

  lemma PromoteUnlisted(b: Bounds, r: Registry, id: nat, generation: nat, at: Stamp)
    requires ValidBounds(b) && LinkGenerations.Inv(b, r) && EvictedUnlisted(r)
    requires id in r.current ==> r.current[id] < generation
    ensures EvictedUnlisted(Promote(b, r, id, generation, at))
  {
    PromoteParts(b, r, id, generation, at);
    var r', gens := Promote(b, r, id, generation, at), ListOf(r, id) + [generation];
    forall k | k in r'.evicted
      ensures k.generation !in ListOf(r', k.id)
    {
      if k in r.evicted {
        EvictedBelow(b, r, id, generation, k);
      }
      UnlistedOne(r, r', id, generation, Surplus(b, gens), k);
    }
  }

  lemma RegisteredOne(r: Registry, r': Registry, id: nat, generation: nat, n: nat, k: LinkId)
    requires Parts(r, r', id, ListOf(r, id) + [generation], n) && LinkId(id, generation) in r'.links
    requires k.generation in ListOf(r', k.id) && (k.generation in ListOf(r, k.id) ==> k in r.links)
    ensures k in r'.links
  {
    var gens := ListOf(r, id) + [generation];
    InIds(id, gens[..n], k);
    if k.id == id {
      assert k.generation in gens;
      if k.generation in gens[..n] {
        SplitDistinct(gens, n, k.generation);
      }
    }
  }

  lemma PromoteRegistered(b: Bounds, r: Registry, id: nat, generation: nat, at: Stamp)
    requires ValidBounds(b) && LinkGenerations.Inv(b, r) && ListsRegistered(r)
    requires id in r.current ==> r.current[id] < generation
    ensures ListsRegistered(Promote(b, r, id, generation, at))
  {
    PromoteParts(b, r, id, generation, at);
    var r', gens := Promote(b, r, id, generation, at), ListOf(r, id) + [generation];
    forall other, g | g in ListOf(r', other)
      ensures LinkId(other, g) in r'.links
    {
      RegisteredOne(r, r', id, generation, Surplus(b, gens), LinkId(other, g));
    }
  }

  // The part of `Tidy` that needs a proof of its own here.
  ghost predicate Neat(r: Registry) { ListsRegistered(r) && EvictedUnlisted(r) }

  /** Links may be added freely. */
  lemma NeatMore(r: Registry, r': Registry)
    requires Neat(r) && r'.generations == r.generations && r.links.Keys <= r'.links.Keys
    requires r'.evicted == r.evicted || r'.evicted == []
    ensures Neat(r')
  {
    forall id, g | g in ListOf(r', id)
      ensures LinkId(id, g) in r'.links
    {
      assert g in ListOf(r, id) && LinkId(id, g) in r.links.Keys;
    }
    forall k | k in r'.evicted
      ensures k.generation !in ListOf(r', k.id)
    {
      assert k in r.evicted;
    }
  }

  lemma AdvanceNeat(b: Bounds, r: Registry, id: nat, generation: nat, at: Stamp)
    requires ValidBounds(b) && LinkGenerations.Inv(b, r) && Neat(r)
    ensures Neat(Advance(b, r, id, generation, at))
  {
    if AdvanceStatus(b, r, id, generation) == Ok && !(id in r.current && generation == r.current[id]) {
      PromoteUnlisted(b, r, id, generation, at);
      PromoteRegistered(b, r, id, generation, at);
    }
  }

  lemma FirstNeat(b: Bounds, r: Registry, link: LinkId, at: Stamp)
    requires LinkGenerations.Inv(b, r) && Neat(r) && link.id !in r.current && ObserveStatus(b, r, link) == Ok
    ensures Neat(Observe(b, r, link, at))
  {
    FirstShape(b, r, link, at);
    var r' := Observe(b, r, link, at);
    forall id, g | g in ListOf(r', id)
      ensures LinkId(id, g) in r'.links
    {
      assert id != link.id ==> g in ListOf(r, id);
    }
    forall k | k in r'.evicted
      ensures k.generation !in ListOf(r', k.id)
    {
      assert k in r.evicted && k.id in r.current;
    }
  }

  lemma NoteKeys(r: Registry, link: LinkId, at: Stamp)
    ensures
      var r' := NoteEvidence(r, link, at);
      r'.links.Keys == r.links.Keys + {link} && r'.generations == r.generations && r'.evicted == r.evicted
  {
  }

  lemma ObserveNeat(b: Bounds, r: Registry, link: LinkId, at: Stamp)
    requires ValidBounds(b) && LinkGenerations.Inv(b, r) && Neat(r)
    ensures Neat(Observe(b, r, link, at))
  {
    if ObserveStatus(b, r, link) == Ok {
      if link.id !in r.current {
        FirstNeat(b, r, link, at);
      } else {
        var mid := if link.generation > r.current[link.id] then Advance(b, r, link.id, link.generation, at) else r;
        AdvanceNeat(b, r, link.id, link.generation, at);
        NoteKeys(mid, link, at);
        NeatMore(mid, NoteEvidence(mid, link, at));
      }
    }
  }

  lemma ObserveTidy(b: Bounds, r: Registry, link: LinkId, at: Stamp)
    requires ValidBounds(b) && Tidy(b, r) && !IsLate(b, r, Observed(link, at))
    ensures Tidy(b, Observe(b, r, link, at))
  {
    LinkGenerations.StepKeeps(b, r, Observed(link, at));
    StepListed(b, r, Observed(link, at));
    ObserveNeat(b, r, link, at);
  }

  lemma AdvanceTidy(b: Bounds, r: Registry, id: nat, generation: nat, at: Stamp)
    requires ValidBounds(b) && Tidy(b, r)
    ensures Tidy(b, Advance(b, r, id, generation, at))
  {
    LinkGenerations.StepKeeps(b, r, Advanced(id, generation, at));
    StepListed(b, r, Advanced(id, generation, at));
    AdvanceNeat(b, r, id, generation, at);
  }

  lemma TakeTidy(b: Bounds, r: Registry)
    requires ValidBounds(b) && Tidy(b, r)
    ensures Tidy(b, r.(evicted := []))
  {
    LinkGenerations.StepKeeps(b, r, TakeEvicted);
    NeatMore(r, r.(evicted := []));
    assert forall id :: ListOf(r.(evicted := []), id) == ListOf(r, id);
  }

  // -------------------------------------------------------------- one system alone

  /** Sound, and every stream not about to be dropped belongs to a registered link. */
  ghost predicate Okay(b: Bounds, limits: Limits, s: System) {
    Tidy(b, s.registry) && LiveInv(b, limits, s) && forall k :: k in Settled(s) ==> k.link in s.registry.links
  }

  /** A link disappears from the registry only by being evicted. */
  lemma AdvanceEvicts(b: Bounds, r: Registry, id: nat, generation: nat, at: Stamp, k: LinkId)
    requires k in r.links && k !in Advance(b, r, id, generation, at).links
    ensures k in Advance(b, r, id, generation, at).evicted
  {
  }

  lemma ObserveEvicts(b: Bounds, r: Registry, link: LinkId, at: Stamp, k: LinkId)
    requires k in r.links && k !in Observe(b, r, link, at).links
    ensures k in Observe(b, r, link, at).evicted
  {
    if link.id in r.current && link.generation > r.current[link.id] &&
        k !in Advance(b, r, link.id, link.generation, at).links {
      AdvanceEvicts(b, r, link.id, link.generation, at, k);
    }
  }

  /** Whatever the registry drops it also evicts. */
  lemma RegistryOkay(b: Bounds, limits: Limits, s: System, r: Registry, pushed: seq<LinkId>)
    requires Okay(b, limits, s) && Tidy(b, r) && r.evicted == s.registry.evicted + pushed
    requires forall k :: k in s.registry.links && k !in r.links ==> k in r.evicted
    requires forall k :: Reached(s.registry.current, k) ==> Reached(r.current, k)
    ensures Okay(b, limits, s.(registry := r))
  {
    forall k | k in Settled(s.(registry := r))
      ensures k.link in r.links
    {
      assert k in Settled(s);
    }
  }

  lemma ObservedOkay(b: Bounds, limits: Limits, s: System, link: LinkId, at: Stamp)
    requires ValidBounds(b) && Okay(b, limits, s) && !IsLate(b, s.registry, Observed(link, at))
    ensures Okay(b, limits, s.(registry := Observe(b, s.registry, link, at)))
  {
    var r := Observe(b, s.registry, link, at);
    ObserveTidy(b, s.registry, link, at);
    ObserveSame(b, s.registry, s.registry, link, at, at);
    forall k | k in s.registry.links && k !in r.links
      ensures k in r.evicted
    {
      ObserveEvicts(b, s.registry, link, at, k);
    }
    forall k | Reached(s.registry.current, k)
      ensures Reached(r.current, k)
    {
      ObserveReaches(b, s.registry, link, at, k);
    }
    RegistryOkay(b, limits, s, r, ObservePushes(b, s.registry, link));
  }

  lemma AdvancedOkay(b: Bounds, limits: Limits, s: System, id: nat, generation: nat, at: Stamp)
    requires ValidBounds(b) && Okay(b, limits, s)
    ensures Okay(b, limits, s.(registry := Advance(b, s.registry, id, generation, at)))
  {
    var r := Advance(b, s.registry, id, generation, at);
    AdvanceTidy(b, s.registry, id, generation, at);
    AdvanceSame(b, s.registry, s.registry, id, generation, at);
    forall k | k in s.registry.links && k !in r.links
      ensures k in r.evicted
    {
      AdvanceEvicts(b, s.registry, id, generation, at, k);
    }
    forall k | Reached(s.registry.current, k)
      ensures Reached(r.current, k)
    {
      AdvanceReaches(b, s.registry, id, generation, at, k);
    }
    RegistryOkay(b, limits, s, r, AdvancePushes(b, s.registry, id, generation));
  }

  lemma SettleOkay(b: Bounds, limits: Limits, s: System)
    requires ValidBounds(b) && Okay(b, limits, s)
    ensures Okay(b, limits, Settle(s))
  {
    TakeTidy(b, s.registry);
    DropAllKeeps(limits, s.store, s.registry.evicted);
    SettleSettled(s);
  }

  /** Evidence of a registered link. */
  lemma StoredOkay(b: Bounds, limits: Limits, s: System, e: Evidence, cfg: Counter.Config)
    requires ValidLimits(limits) && Okay(b, limits, s) && e.observation.key.link in s.registry.links
    ensures Okay(b, limits, s.(store := StoreAppend(limits, s.store, e, cfg)))
  {
    StoreAppendSound(limits, s.store, e, cfg);
    assert MarkedRight(s.registry.current, e.observation.key.link, s.registry.links[e.observation.key.link]);
    var s' := s.(store := StoreAppend(limits, s.store, e, cfg));
    forall k | k in Settled(s')
      ensures k.link in s.registry.links
    {
      assert k == e.observation.key || k in Settled(s);
    }
  }

  // ------------------------------------------------------------- no late evidence

  /** The event brings no generation that was left behind and is no longer listed. */
  ghost predicate Timely(b: Bounds, r: Registry, event: Event) {
    match event
    case Registered(link, at) => link in r.links || !IsLate(b, r, Observed(link, at))
    case Moved(_, _, _) => true
    case Ingested(a) => !IsLate(b, r, Observed(a.evidence.observation.key.link, a.evidence.received))
  }

  lemma LateSame(b: Bounds, r: Registry, q: Registry, link: LinkId, at: Stamp)
    requires SameLinks(r, q)
    ensures IsLate(b, r, Observed(link, at)) == IsLate(b, q, Observed(link, at))
  {
  }

  lemma RegisteredTimely(b: Bounds, r: Registry, link: LinkId, at: Stamp)
    requires Tidy(b, r) && link in r.links
    ensures !IsLate(b, r, Observed(link, at))
  {
  }

  /** What replay still has pending is no longer listed, so evidence for it is late. */
  lemma OvertakenLate(b: Bounds, rep: System, event: Event)
    requires Tidy(b, rep.registry) && Overtaken(b, rep, event)
    ensures !Timely(b, rep.registry, event)
  {
    var link := event.arrival.evidence.observation.key.link;
    assert link.generation !in ListOf(rep.registry, link.id);
  }

  lemma LiveOkay(b: Bounds, limits: Limits, s: System, event: Event)
    requires ValidBounds(b) && ValidLimits(limits) && Okay(b, limits, s) && Timely(b, s.registry, event)
    ensures Okay(b, limits, Restart.Live(b, limits, s, event))
  {
    match event
    case Registered(link, at) =>
      if link !in s.registry.links {
        ObservedOkay(b, limits, s, link, at);
        SettleOkay(b, limits, s.(registry := Observe(b, s.registry, link, at)));
      }
    case Moved(id, generation, at) =>
      AdvancedOkay(b, limits, s, id, generation, at);
      SettleOkay(b, limits, s.(registry := Advance(b, s.registry, id, generation, at)));
    case Ingested(a) =>
      var e, link := a.evidence, a.evidence.observation.key.link;
      if ObserveStatus(b, s.registry, link) == Ok {
        var s1 := s.(registry := Observe(b, s.registry, link, e.received));
        ObservedOkay(b, limits, s, link, e.received);
        SettleOkay(b, limits, s1);
        ObserveRegisters(b, s.registry, link, e.received);
        StoredOkay(b, limits, Settle(s1), e, a.cfg);
      }
  }

  lemma RecordOkay(b: Bounds, limits: Limits, s: System, e: Evidence, cfg: Counter.Config)
    requires ValidBounds(b) && ValidLimits(limits) && Okay(b, limits, s) && e.observation.key.link in s.registry.links
    ensures Okay(b, limits, ReplayRecord(b, limits, s, e, cfg))
  {
    var link, s1 := e.observation.key.link, s.(store := StoreAppend(limits, s.store, AsRecovered(e), cfg));
    StoredOkay(b, limits, s, AsRecovered(e), cfg);
    RegisteredTimely(b, s.registry, link, e.received);
    ObservedOkay(b, limits, s1, link, e.received);
    SettleOkay(b, limits, s1.(registry := Observe(b, s.registry, link, e.received)));
  }

  lemma NotedOkay(b: Bounds, limits: Limits, live: System, rep: System, link: LinkId, at: Stamp)
    requires ValidBounds(b) && InStep(live, rep) && Okay(b, limits, live) && Okay(b, limits, rep)
    requires ObserveStatus(b, live.registry, link) == Ok && !IsLate(b, live.registry, Observed(link, at))
    ensures Okay(b, limits, Noted(b, live, rep, link, at)) && link in Noted(b, live, rep, link, at).registry.links
  {
    NotedInStep(b, live, rep, link, at);
    LateSame(b, live.registry, rep.registry, link, at);
    ObservedOkay(b, limits, rep, link, at);
  }

  lemma RegisteredOkay(b: Bounds, limits: Limits, live: System, rep: System, link: LinkId, at: Stamp)
    requires ValidBounds(b) && InStep(live, rep) && Okay(b, limits, rep)
    requires Timely(b, live.registry, Registered(link, at))
    ensures Okay(b, limits, ApplyAll(b, limits, rep, Emits(b, limits, live, Registered(link, at))))
  {
    if link !in live.registry.links && ObserveStatus(b, live.registry, link) == Ok {
      LateSame(b, live.registry, rep.registry, link, at);
      ObservedOkay(b, limits, rep, link, at);
      ApplyOne(b, limits, rep, LinkEntry(link, at));
    }
  }

  lemma MovedOkay(b: Bounds, limits: Limits, live: System, rep: System, id: nat, generation: nat, at: Stamp)
    requires ValidBounds(b) && Okay(b, limits, rep)
    ensures Okay(b, limits, ApplyAll(b, limits, rep, Emits(b, limits, live, Moved(id, generation, at))))
  {
    EmitsMoved(b, limits, live, id, generation, at);
    if AdvanceStatus(b, live.registry, id, generation) == Ok {
      MoveApplied(b, limits, rep, id, generation, at);
      ApplyOne(b, limits, rep, MoveEntry(id, generation, at));
    }
  }

  lemma EmitsMoved(b: Bounds, limits: Limits, live: System, id: nat, generation: nat, at: Stamp)
    ensures Emits(b, limits, live, Moved(id, generation, at))
         == if AdvanceStatus(b, live.registry, id, generation) == Ok then [MoveEntry(id, generation, at)] else []
  {
  }

  lemma MoveApplied(b: Bounds, limits: Limits, rep: System, id: nat, generation: nat, at: Stamp)
    requires ValidBounds(b) && Okay(b, limits, rep)
    ensures Okay(b, limits, Apply(b, limits, rep, MoveEntry(id, generation, at)))
  {
    AdvancedOkay(b, limits, rep, id, generation, at);
    SettleOkay(b, limits, rep.(registry := Advance(b, rep.registry, id, generation, at)));
  }

  lemma IngestedOkay(b: Bounds, limits: Limits, live: System, rep: System, a: Arrival)
    requires ValidBounds(b) && ValidLimits(limits) && InStep(live, rep)
    requires Okay(b, limits, live) && Okay(b, limits, rep) && Timely(b, live.registry, Ingested(a))
    ensures Okay(b, limits, ApplyAll(b, limits, rep, Emits(b, limits, live, Ingested(a))))
  {
    var e, link := a.evidence, a.evidence.observation.key.link;
    if ObserveStatus(b, live.registry, link) == Ok {
      NotedOkay(b, limits, live, rep, link, e.received);
      IngestedReplay(b, limits, live, rep, a);
      RecordOkay(b, limits, Noted(b, live, rep, link, e.received), e, a.cfg);
    }
  }

  lemma RepOkay(b: Bounds, limits: Limits, live: System, rep: System, event: Event)
    requires ValidBounds(b) && ValidLimits(limits) && InStep(live, rep)
    requires Okay(b, limits, live) && Okay(b, limits, rep) && Timely(b, live.registry, event)
    ensures Okay(b, limits, ApplyAll(b, limits, rep, Emits(b, limits, live, event)))
  {
    match event
    case Registered(link, at) => RegisteredOkay(b, limits, live, rep, link, at);
    case Moved(id, generation, at) => MovedOkay(b, limits, live, rep, id, generation, at);
    case Ingested(a) => IngestedOkay(b, limits, live, rep, a);
  }

  lemma TimelySame(b: Bounds, r: Registry, q: Registry, event: Event)
    requires SameLinks(r, q)
    ensures Timely(b, r, event) == Timely(b, q, event)
  {
    match event
    case Registered(link, at) =>
      LateSame(b, r, q, link, at);
      assert link in r.links.Keys <==> link in q.links.Keys;
    case Moved(_, _, _) =>
    case Ingested(a) => LateSame(b, r, q, a.evidence.observation.key.link, a.evidence.received);
  }

  /** Without late evidence a restart stays in step. */
  lemma TimelyInStep(b: Bounds, limits: Limits, live: System, rep: System, event: Event)
    requires ValidBounds(b) && ValidLimits(limits) && InStep(live, rep)
    requires Okay(b, limits, live) && Okay(b, limits, rep) && Timely(b, live.registry, event)
    ensures InStep(Restart.Live(b, limits, live, event), ApplyAll(b, limits, rep, Emits(b, limits, live, event)))
  {
    StepExactly(b, limits, live, rep, event);
    TimelySame(b, live.registry, rep.registry, event);
    if Overtaken(b, rep, event) {
      OvertakenLate(b, rep, event);
    }
  }

  // ------------------------------------------------------------------- compaction

  /** Two increasing lists with the same elements are the same. */
  lemma {:induction false} IncreasingUnique(a: seq<nat>, c: seq<nat>)
    requires Increasing(a) && Increasing(c) && forall g :: g in a <==> g in c
    ensures a == c
  {
    assert |a| == 0 || a[|a| - 1] in c;
    assert |c| == 0 || c[|c| - 1] in a;
    if a != [] && c != [] {
      var n, m := |a| - 1, |c| - 1;
      LastIsMost(a, c[m]);
      LastIsMost(c, a[n]);
      forall g
        ensures g in a[..n] <==> g in c[..m]
      {
        FrontOf(a, g);
        FrontOf(c, g);
      }
      IncreasingUnique(a[..n], c[..m]);
      assert a == a[..n] + [a[n]] && c == c[..m] + [c[m]];
    }
  }

  lemma LastIsMost(a: seq<nat>, g: nat)
    requires Increasing(a) && g in a
    ensures g <= a[|a| - 1]
  {
    var i :| 0 <= i < |a| && a[i] == g;
    if i < |a| - 1 {
      assert a[i] < a[|a| - 1];
    }
  }

  lemma FrontOf(a: seq<nat>, g: nat)
    requires Increasing(a) && a != []
    ensures g in a[..|a| - 1] <==> g in a && g != a[|a| - 1]
  {
    var n := |a| - 1;
    if g in a && g != a[n] {
      var i :| 0 <= i < |a| && a[i] == g;
      assert a[..n][i] == g;
    }
  }

  lemma {:induction false} GensIncreasing(r: Registry, ls: seq<LinkId>, id: nat)
    requires SomeLinks(r, ls)
    ensures Increasing(GensOf(ls, id))
  {
    if ls != [] {
      var front, l := ls[..|ls| - 1], ls[|ls| - 1];
      SomeFront(r, ls);
      GensIncreasing(r, front, id);
      if l.id == id {
        forall g | g in GensOf(front, id)
          ensures g < l.generation
        {
          InGens(front, id, g);
        }
        GrownIncreasing(GensOf(front, id), l.generation);
      }
    }
  }

  /** What a snapshot lists of a link is its list of generations. */
  lemma GensAreList(b: Bounds, r: Registry, ls: seq<LinkId>, id: nat)
    requires Tidy(b, r) && ListsLinks(r, ls)
    ensures GensOf(ls, id) == ListOf(r, id) && Increasing(ListOf(r, id)) && |ListOf(r, id)| <= b.maxGenerations
  {
    GensIncreasing(r, ls, id);
    ListWithin(b, r, id);
    forall g
      ensures g in GensOf(ls, id) <==> g in ListOf(r, id)
    {
      InGens(ls, id, g);
      assert g in ListOf(r, id) ==> LinkId(id, g) in r.links;
      assert LinkId(id, g) in r.links ==> g in ListOf(r, id);
    }
    IncreasingUnique(GensOf(ls, id), ListOf(r, id));
  }

  lemma ListWithin(b: Bounds, r: Registry, id: nat)
    requires LinkGenerations.Inv(b, r)
    ensures Increasing(ListOf(r, id)) && |ListOf(r, id)| <= b.maxGenerations
  {
    if id in r.generations {
      assert id in r.current.Keys;
      assert ListInv(b, r.generations[id], r.current[id]);
    }
  }

  /** So registering the listed links again evicts nothing and gives every list back. */
  lemma ListsReplayed(b: Bounds, r: Registry, ls: seq<LinkId>, atOf: LinkId -> Stamp, k: LinkId)
    requires ValidBounds(b) && Tidy(b, r) && ListsLinks(r, ls)
    ensures
      var q := ReplayLinks(b, ls, atOf);
      && ListOf(q, k.id) == ListOf(r, k.id) && (k.id in q.current <==> ListOf(r, k.id) != [])
      && k !in q.evicted && !Crowded(b, ls, k)
  {
    GensAreList(b, r, ls, k.id);
    ReplayPromotes(b, r, ls, atOf);
    ReplayTracks(b, ls, atOf, k);
  }

  lemma NothingEvicted(b: Bounds, r: Registry, ls: seq<LinkId>, atOf: LinkId -> Stamp)
    requires ValidBounds(b) && Tidy(b, r) && ListsLinks(r, ls)
    ensures ReplayLinks(b, ls, atOf).evicted == []
  {
    var q := ReplayLinks(b, ls, atOf);
    if q.evicted != [] {
      ListsReplayed(b, r, ls, atOf, q.evicted[0]);
    }
  }

  // The list of a link, and whether it is known, decide both tables.
  lemma SameTables(b: Bounds, r: Registry, q: Registry)
    requires LinkGenerations.Inv(b, r) && LinkGenerations.Inv(b, q)
    requires forall id :: ListOf(q, id) == ListOf(r, id)
    ensures r.current == q.current && r.generations == q.generations
  {
    forall id
      ensures id in r.current <==> id in q.current
      ensures id in r.current ==> r.current[id] == q.current[id]
    {
      CurrentEnds(b, r, id);
      CurrentEnds(b, q, id);
      assert ListOf(q, id) == ListOf(r, id);
    }
    assert r.current.Keys == q.current.Keys;
    SameGenerations(b, r, q);
  }

  lemma SameGenerations(b: Bounds, r: Registry, q: Registry)
    requires r.generations.Keys == q.generations.Keys
    requires forall id :: ListOf(q, id) == ListOf(r, id)
    ensures r.generations == q.generations
  {
    forall id | id in r.generations.Keys
      ensures r.generations[id] == q.generations[id]
    {
      assert ListOf(q, id) == ListOf(r, id);
    }
  }

  lemma CurrentEnds(b: Bounds, r: Registry, id: nat)
    requires LinkGenerations.Inv(b, r)
    ensures id in r.current <==> ListOf(r, id) != []
    ensures id in r.current ==> id in r.generations && r.generations[id] == ListOf(r, id)
    ensures id in r.current ==> ListOf(r, id)[|ListOf(r, id)| - 1] == r.current[id]
  {
    assert id in r.current.Keys <==> id in r.generations.Keys;
    if id in r.current {
      assert ListInv(b, r.generations[id], r.current[id]);
    }
  }

  lemma ObserveAdds(b: Bounds, r: Registry, link: LinkId, at: Stamp)
    ensures Observe(b, r, link, at).links.Keys <= r.links.Keys + {link}
  {
  }

  lemma ObserveKeepsAll(b: Bounds, r: Registry, link: LinkId, at: Stamp)
    requires ObserveStatus(b, r, link) == Ok && Observe(b, r, link, at).evicted == []
    ensures Observe(b, r, link, at).links.Keys == r.links.Keys + {link}
  {
    ObserveAdds(b, r, link, at);
    ObserveRegisters(b, r, link, at);
    var r' := Observe(b, r, link, at);
    forall k | k in r.links.Keys
      ensures k in r'.links.Keys
    {
      if k !in r'.links {
        ObserveEvicts(b, r, link, at, k);
      }
    }
  }

  function LinkSet(ls: seq<LinkId>): set<LinkId> { set k | k in ls }

  lemma LinkSetNext(front: seq<LinkId>, l: LinkId)
    ensures LinkSet(front + [l]) == LinkSet(front) + {l}
  {
  }

  lemma KeysNext(b: Bounds, r: Registry, ls: seq<LinkId>, atOf: LinkId -> Stamp)
    requires ValidBounds(b) && LinkGenerations.Inv(b, r) && ls != [] && SomeLinks(r, ls)
    requires ReplayLinks(b, ls, atOf).evicted == []
    ensures
      var front, l := ls[..|ls| - 1], ls[|ls| - 1];
      && SomeLinks(r, front) && ReplayLinks(b, front, atOf).evicted == []
      && ReplayLinks(b, ls, atOf).links.Keys == ReplayLinks(b, front, atOf).links.Keys + {l}
  {
    var q, l := ReplayLinks(b, ls[..|ls| - 1], atOf), ls[|ls| - 1];
    ReplayReady(b, r, ls, atOf);
    ObserveSame(b, q, q, l, atOf(l), atOf(l));
    ObserveKeepsAll(b, q, l, atOf(l));
  }

  /** Without evictions the links registered are those listed. */
  lemma {:induction false} KeysReplayed(b: Bounds, r: Registry, ls: seq<LinkId>, atOf: LinkId -> Stamp)
    requires ValidBounds(b) && LinkGenerations.Inv(b, r) && SomeLinks(r, ls) && ReplayLinks(b, ls, atOf).evicted == []
    ensures ReplayLinks(b, ls, atOf).links.Keys == LinkSet(ls)
  {
    if ls != [] {
      var front, l := ls[..|ls| - 1], ls[|ls| - 1];
      KeysNext(b, r, ls, atOf);
      KeysReplayed(b, r, front, atOf);
      LinkSetNext(front, l);
      assert ls == front + [l];
    }
  }

  lemma TablesReplayed(b: Bounds, r: Registry, ls: seq<LinkId>, atOf: LinkId -> Stamp)
    requires ValidBounds(b) && Tidy(b, r) && ListsLinks(r, ls)
    ensures var q := ReplayLinks(b, ls, atOf); r.current == q.current && r.generations == q.generations
  {
    ReplayKeeps(b, ls, atOf);
    forall id
      ensures ListOf(ReplayLinks(b, ls, atOf), id) == ListOf(r, id)
    {
      ListsReplayed(b, r, ls, atOf, LinkId(id, 0));
    }
    SameTables(b, r, ReplayLinks(b, ls, atOf));
  }

  lemma ListedSet(r: Registry, ls: seq<LinkId>)
    requires ListsLinks(r, ls)
    ensures LinkSet(ls) == r.links.Keys
  {
  }

  /** Registering the listed links again gives the registry back. */
  lemma RegistryReplayed(b: Bounds, r: Registry, ls: seq<LinkId>, atOf: LinkId -> Stamp)
    requires ValidBounds(b) && Tidy(b, r) && ListsLinks(r, ls)
    ensures SameLinks(r, ReplayLinks(b, ls, atOf)) && ReplayLinks(b, ls, atOf).evicted == []
    ensures LinkGenerations.Inv(b, ReplayLinks(b, ls, atOf))
  {
    NothingEvicted(b, r, ls, atOf);
    ReplayKeeps(b, ls, atOf);
    TablesReplayed(b, r, ls, atOf);
    KeysReplayed(b, r, ls, atOf);
    ListedSet(r, ls);
  }

  // Replayed records of registered links change nothing about links.
  lemma RecordSame(b: Bounds, limits: Limits, s: System, e: Evidence, cfg: Counter.Config)
    requires ValidBounds(b) && LinkGenerations.Inv(b, s.registry) && s.registry.evicted == []
    requires e.observation.key.link in s.registry.links
    ensures
      var r := ReplayRecord(b, limits, s, e, cfg).registry;
      SameLinks(s.registry, r) && r.evicted == [] && LinkGenerations.Inv(b, r)
  {
    ObserveRegistered(b, s.registry, e.observation.key.link, e.received);
    LinkGenerations.StepKeeps(b, s.registry, Observed(e.observation.key.link, e.received));
  }

  ghost predicate LinksIn(links: set<LinkId>, records: seq<Evidence>) {
    forall e :: e in records ==> e.observation.key.link in links
  }

  lemma {:induction false} RecordsSame(b: Bounds, limits: Limits, s: System, records: seq<Evidence>,
                                       cfgOf: Key -> Counter.Config)
    requires ValidBounds(b) && LinkGenerations.Inv(b, s.registry) && s.registry.evicted == []
    requires LinksIn(s.registry.links.Keys, records)
    ensures
      var r := ReplayAll(b, limits, s, records, cfgOf).registry;
      SameLinks(s.registry, r) && r.evicted == [] && LinkGenerations.Inv(b, r)
  {
    if records != [] {
      var front, last := records[..|records| - 1], records[|records| - 1];
      assert last in records && LinksIn(s.registry.links.Keys, front);
      RecordsSame(b, limits, s, front, cfgOf);
      RecordSame(b, limits, ReplayAll(b, limits, s, front, cfgOf), last, cfgOf(last.observation.key));
    }
  }

  /** No stream is waiting to be dropped. */
  ghost predicate Calm(s: System) { forall k :: k in s.store.streams ==> k.link !in s.registry.evicted }

  lemma TidySame(b: Bounds, r: Registry, q: Registry)
    requires Tidy(b, r) && LinkGenerations.Inv(b, q) && SameLinks(r, q) && q.evicted == []
    ensures Tidy(b, q)
  {
    forall k | k in q.links
      ensures k.generation in ListOf(q, k.id)
    {
      assert k in r.links.Keys;
    }
    forall id, g | g in ListOf(q, id)
      ensures LinkId(id, g) in q.links
    {
      assert g in ListOf(r, id) && LinkId(id, g) in r.links.Keys;
    }
  }

  lemma RestoredAlike(live: Store, store: Store)
    requires Restored(live, store)
    ensures AllAlike(live.streams, store.streams)
  {
  }

  /** What a restart from a snapshot of a tidy system knows, whatever is pending there. */
  lemma CompactedStore(b: Bounds, limits: Limits, live: System, ls: seq<LinkId>, atOf: LinkId -> Stamp,
                       records: seq<Evidence>, seeds: seq<SeedRecord>, cfgOf: Key -> Counter.Config)
    requires ValidBounds(b) && ValidLimits(limits) && Okay(b, limits, live)
    requires ListsLinks(live.registry, ls) && IsSnapshot(live.store, records, seeds)
    ensures
      var s := Restarted(b, limits, ls, atOf, records, seeds, cfgOf);
      && AllAlike(live.store.streams, s.store.streams) && LiveInv(b, limits, s) && s.registry.evicted == []
  {
    if records != [] {
      ListsReplayed(b, live.registry, ls, atOf, records[0].observation.key.link);
    }
    RestoredExactly(b, limits, live, ls, atOf, records, seeds, cfgOf);
    RestartKeeps(b, limits, live, ls, atOf, records, seeds, cfgOf);
    RestoredAlike(live.store, Restarted(b, limits, ls, atOf, records, seeds, cfgOf).store);
    NothingEvicted(b, live.registry, ls, atOf);
    if records != [] {
      SnapshotKnown(b, limits, live, ls, atOf, records, seeds);
      RestartQuiet(b, limits, ReplayLinks(b, ls, atOf), records, cfgOf);
    }
  }

  lemma CompactedLinks(b: Bounds, limits: Limits, live: System, ls: seq<LinkId>, atOf: LinkId -> Stamp,
                       records: seq<Evidence>, seeds: seq<SeedRecord>, cfgOf: Key -> Counter.Config)
    requires ValidBounds(b) && Okay(b, limits, live) && Calm(live)
    requires ListsLinks(live.registry, ls) && IsSnapshot(live.store, records, seeds)
    ensures
      var s := Restarted(b, limits, ls, atOf, records, seeds, cfgOf);
      SameLinks(live.registry, s.registry) && Tidy(b, s.registry)
  {
    var r := ReplayLinks(b, ls, atOf);
    RegistryReplayed(b, live.registry, ls, atOf);
    forall e | e in records
      ensures e.observation.key.link in r.links.Keys
    {
      assert e.observation.key in Settled(live);
    }
    RecordsSame(b, limits, System(r, EmptyStore), records, cfgOf);
    TidySame(b, live.registry, Restarted(b, limits, ls, atOf, records, seeds, cfgOf).registry);
  }

  /** A compaction keeps in step if and only if no stream is waiting to be dropped: it writes that one too. */
  lemma CompactExactly(b: Bounds, limits: Limits, live: System, ls: seq<LinkId>, atOf: LinkId -> Stamp,
                       records: seq<Evidence>, seeds: seq<SeedRecord>, cfgOf: Key -> Counter.Config)
    requires ValidBounds(b) && ValidLimits(limits) && Okay(b, limits, live)
    requires ListsLinks(live.registry, ls) && IsSnapshot(live.store, records, seeds)
    ensures
      var s := Restarted(b, limits, ls, atOf, records, seeds, cfgOf);
      && (InStep(live, s) <==> Calm(live)) && (Calm(live) ==> Okay(b, limits, s))
  {
    var s := Restarted(b, limits, ls, atOf, records, seeds, cfgOf);
    CompactedStore(b, limits, live, ls, atOf, records, seeds, cfgOf);
    KeptAll(s.store.streams);
    if Calm(live) {
      CompactedLinks(b, limits, live, ls, atOf, records, seeds, cfgOf);
      CalmOkay(b, limits, live, s);
    } else {
      var k :| k in live.store.streams && k.link in live.registry.evicted;
      assert k in live.store.streams.Keys && k !in Settled(live).Keys;
      assert k in Settled(s).Keys;
    }
  }

  lemma CalmOkay(b: Bounds, limits: Limits, live: System, s: System)
    requires Okay(b, limits, live) && Calm(live) && LiveInv(b, limits, s) && s.registry.evicted == []
    requires AllAlike(live.store.streams, s.store.streams)
    requires SameLinks(live.registry, s.registry) && Tidy(b, s.registry)
    ensures InStep(live, s) && Okay(b, limits, s)
  {
    CalmSettled(live);
    KeptAll(s.store.streams);
    CalmRegistered(live, s);
  }

  lemma CalmSettled(s: System)
    requires Calm(s)
    ensures Settled(s) == s.store.streams
  {
  }

  lemma CalmRegistered(live: System, s: System)
    requires live.store.streams.Keys == s.store.streams.Keys && SameLinks(live.registry, s.registry)
    requires forall k :: k in live.store.streams ==> k.link in live.registry.links
    ensures forall k :: k in s.store.streams ==> k.link in s.registry.links
  {
    forall k | k in s.store.streams
      ensures k.link in s.registry.links
    {
      assert k in live.store.streams.Keys && k.link in live.registry.links.Keys;
    }
  }

  // ------------------------------------------------------------------ whole runs

  /** The process, and what a restart from its journal would make of it now. */
  datatype World = World(live: System, rep: System)

  datatype Turn =
    | Happens(event: Event)
    | Compacts(ls: seq<LinkId>, atOf: LinkId -> Stamp, records: seq<Evidence>, seeds: seq<SeedRecord>,
               cfgOf: Key -> Counter.Config)
    | Crashes

  ghost function Next(b: Bounds, limits: Limits, w: World, turn: Turn): World {
    match turn
    case Happens(event) =>
      World(Restart.Live(b, limits, w.live, event), ApplyAll(b, limits, w.rep, Emits(b, limits, w.live, event)))
    case Compacts(ls, atOf, records, seeds, cfgOf) =>
      w.(rep := Restarted(b, limits, ls, atOf, records, seeds, cfgOf))
    case Crashes => World(w.rep, w.rep)
  }

  ghost function WorldRun(b: Bounds, limits: Limits, turns: seq<Turn>): World {
    if turns == [] then World(EmptySystem, EmptySystem)
    else Next(b, limits, WorldRun(b, limits, turns[..|turns| - 1]), turns[|turns| - 1])
  }

  /** No late evidence, and compactions of a system with no stream waiting to be dropped. */
  ghost predicate Fine(b: Bounds, w: World, turn: Turn) {
    match turn
    case Happens(event) => Timely(b, w.live.registry, event)
    case Compacts(ls, _, records, seeds, _) =>
      ListsLinks(w.live.registry, ls) && IsSnapshot(w.live.store, records, seeds) && Calm(w.live)
    case Crashes => true
  }

  ghost predicate AllFine(b: Bounds, limits: Limits, turns: seq<Turn>) {
    forall i :: 0 <= i < |turns| ==> Fine(b, WorldRun(b, limits, turns[..i]), turns[i])
  }

  ghost predicate WorldInv(b: Bounds, limits: Limits, w: World) {
    Okay(b, limits, w.live) && Okay(b, limits, w.rep) && InStep(w.live, w.rep)
  }

  lemma FineFront(b: Bounds, limits: Limits, turns: seq<Turn>)
    requires AllFine(b, limits, turns) && turns != []
    ensures AllFine(b, limits, turns[..|turns| - 1])
  {
    var front := turns[..|turns| - 1];
    assert forall i :: 0 <= i < |front| ==> front[..i] == turns[..i];
  }

  lemma NoneOkay(b: Bounds, limits: Limits)
    requires ValidBounds(b)
    ensures WorldInv(b, limits, World(EmptySystem, EmptySystem))
  {
    NoneLive(b, limits);
  }

  lemma NextFine(b: Bounds, limits: Limits, w: World, turn: Turn)
    requires ValidBounds(b) && ValidLimits(limits) && WorldInv(b, limits, w) && Fine(b, w, turn)
    ensures WorldInv(b, limits, Next(b, limits, w, turn))
  {
    match turn
    case Happens(event) =>
      LiveOkay(b, limits, w.live, event);
      RepOkay(b, limits, w.live, w.rep, event);
      TimelyInStep(b, limits, w.live, w.rep, event);
    case Compacts(ls, atOf, records, seeds, cfgOf) =>
      CompactExactly(b, limits, w.live, ls, atOf, records, seeds, cfgOf);
    case Crashes =>
  }

  /**
   Through any events, compactions and crashes of such a run: at every moment a restart
   knows the same links, with the same current generations and lists, and the same
   streams, each with its window, watermark, fed sequence and latest fed observation.
   */
  lemma {:induction false} RecoveredAlways(b: Bounds, limits: Limits, turns: seq<Turn>)
    requires ValidBounds(b) && ValidLimits(limits) && AllFine(b, limits, turns)
    ensures
      var w := WorldRun(b, limits, turns);
      Okay(b, limits, w.live) && Okay(b, limits, w.rep) && InStep(w.live, w.rep)
  {
    if turns == [] {
      NoneOkay(b, limits);
    } else {
      FineFront(b, limits, turns);
      RecoveredAlways(b, limits, turns[..|turns| - 1]);
      NextFine(b, limits, WorldRun(b, limits, turns[..|turns| - 1]), turns[|turns| - 1]);
    }
  }
}
