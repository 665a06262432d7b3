/**
 Ingesting evidence: the store changes in memory, the journal receives a record of it,
 and a restart replays the journal.

 Main results: `RunReplays` (replay rebuilds every stream exactly, up to the origin of
 its records), `IngestKeepsStep` and `PublishKeepsStep` (exactly when memory gets ahead
 of the journal), and `PolicyLostForGood`.
 */
module Ingest {
  import opened Optional
  import opened Evidence
  import opened EvidenceStream
  import opened EvidenceSnapshot
  import opened StoreModel
  import Counter

  // The counter settings of every metric; `rest` stands for everything else a policy says.
  datatype Policy = Policy(generation: nat, settings: nat -> Counter.Config, rest: nat)

  datatype Entry = LinkObserved(link: LinkId) | EvidenceEntry(evidence: Evidence) | PolicyEntry(policy: Policy)

  // The encoded size of a record, if the codec encodes it at all, and the journal's limit.
  datatype Sizes = Sizes(size: Entry -> Option<nat>, limit: nat)

  predicate Encodes(z: Sizes, entry: Entry) {
    z.size(entry).Some? && z.size(entry).value <= z.limit
  }

  datatype Fabric = Fabric(
    store: Store,
    links: set<LinkId>,
    policy: Policy,
    journal: seq<Entry>,        // every record accepted by the journal
    free: nat,                  // room left in the journal queue
    failed: bool,               // the writer or a flush gave the journal up
    nextOrdinal: nat)

  function Opened(policy: Policy, free: nat): Fabric { Fabric(EmptyStore, {}, policy, [], free, false, 0) }

  predicate CanTake(f: Fabric) { !f.failed && f.free > 0 }

  function JournalAppend(z: Sizes, f: Fabric, entry: Entry): Fabric {
    if CanTake(f) && Encodes(z, entry)
    then f.(journal := f.journal + [entry], free := f.free - 1, nextOrdinal := f.nextOrdinal + 1) else f
  }

  // What writer and flush, which do not take the runtime's lock, do between two of its actions.
  datatype Meanwhile = Meanwhile(drained: nat, fails: bool)

  function Interfere(f: Fabric, m: Meanwhile): Fabric {
    f.(free := f.free + m.drained, failed := f.failed || m.fails)
  }

  function ObserveLink(z: Sizes, f: Fabric, link: LinkId): Fabric {
    if link in f.links then f else JournalAppend(z, f.(links := f.links + {link}), LinkObserved(link))
  }

  predicate LinkRefused(z: Sizes, f: Fabric, link: LinkId) {
    link !in f.links && !(CanTake(f) && Encodes(z, LinkObserved(link)))
  }

  function Arriving(f: Fabric, o: Observation, received: Stamp): Evidence {
    Stored(o, received, f.nextOrdinal, Live)
  }

  function StoreEvidence(limits: Limits, z: Sizes, f: Fabric, e: Evidence): Fabric {
    var o := e.observation;
    match StoreDecide(limits, f.store, o)
    case LimitExceeded => f
    case Decided(Mismatch) => f
    case Decided(Fenced) => f
    case Decided(_) =>
      JournalAppend(z, f.(store := StoreAppend(limits, f.store, e, f.policy.settings(o.key.metric))), EvidenceEntry(e))
  }

  // Everything about one call that does not come from the state.
  datatype Call = Call(o: Observation, received: Stamp, first: Meanwhile, second: Meanwhile)

  // The state in which a call stores its evidence.
  function BeforeStore(z: Sizes, f: Fabric, c: Call): Fabric {
    Interfere(ObserveLink(z, Interfere(f, c.first), c.o.key.link), c.second)
  }

  function EvidenceOf(z: Sizes, f: Fabric, c: Call): Evidence { Arriving(BeforeStore(z, f, c), c.o, c.received) }

  /**
   One validated observation. The journal is probed once, before anything changes. A
   new link takes a record of its own, and a refusal of it ends the call; rejected
   evidence leaves no record, duplicates do.
   */
  function Ingest(limits: Limits, z: Sizes, f: Fabric, c: Call): Fabric {
    if !CanTake(f) then f
    else if LinkRefused(z, Interfere(f, c.first), c.o.key.link) then ObserveLink(z, Interfere(f, c.first), c.o.key.link)
    else StoreEvidence(limits, z, BeforeStore(z, f, c), EvidenceOf(z, f, c))
  }

  // A published policy gets the next generation number.
  function Numbered(f: Fabric, draft: Policy): Policy { draft.(generation := f.policy.generation + 1) }

  function Publish(z: Sizes, f: Fabric, draft: Policy, m: Meanwhile): Fabric {
    if !CanTake(f) then f
    else JournalAppend(z, Interfere(f.(policy := Numbered(f, draft)), m), PolicyEntry(Numbered(f, draft)))
  }

  datatype Step =
    | SIngest(call: Call)
    | SPublish(draft: Policy, meanwhile: Meanwhile)
    | SMeanwhile(meanwhile: Meanwhile)

  function Do(limits: Limits, z: Sizes, f: Fabric, step: Step): Fabric {
    match step
    case SIngest(call) => Ingest(limits, z, f, call)
    case SPublish(draft, m) => Publish(z, f, draft, m)
    case SMeanwhile(m) => Interfere(f, m)
  }

  function Run(limits: Limits, z: Sizes, f: Fabric, steps: seq<Step>): Fabric {
    if steps == [] then f else Do(limits, z, Run(limits, z, f, steps[..|steps| - 1]), steps[|steps| - 1])
  }

  // ------------------------------------------------------------------- replay

  datatype Image = Image(store: Store, links: set<LinkId>, policy: Policy)

  /**
   What a restart makes of one record: it restores and does not decide again. A policy
   that is not the next generation is skipped.
   */
  function Apply(limits: Limits, i: Image, entry: Entry): Image {
    match entry
    case LinkObserved(link) => i.(links := i.links + {link})
    case EvidenceEntry(e) =>
      var o := e.observation;
      Image(StoreAppend(limits, i.store, AsRecovered(e), i.policy.settings(o.key.metric)), i.links + {o.key.link},
            i.policy)
    case PolicyEntry(policy) => if policy.generation == i.policy.generation + 1 then i.(policy := policy) else i
  }

  function Replayed(limits: Limits, policy: Policy, journal: seq<Entry>): Image {
    if journal == [] then Image(EmptyStore, {}, policy)
    else Apply(limits, Replayed(limits, policy, journal[..|journal| - 1]), journal[|journal| - 1])
  }

  lemma ReplayedNext(limits: Limits, policy: Policy, journal: seq<Entry>, entry: Entry)
    ensures Replayed(limits, policy, journal + [entry]) == Apply(limits, Replayed(limits, policy, journal), entry)
  {
    assert (journal + [entry])[..|journal|] == journal;
  }

  // -------------------------------------------------------- states up to origin

  function StripAll(es: seq<Evidence>): (out: seq<Evidence>)
    ensures |out| == |es| && forall i :: 0 <= i < |es| ==> out[i] == AsRecovered(es[i])
  {
    seq(|es|, i requires 0 <= i < |es| => AsRecovered(es[i]))
  }

  function StripStream(s: Stream): Stream {
    s.(recent := StripAll(s.recent),
       latestFed := if s.latestFed.Some? then Some(AsRecovered(s.latestFed.value)) else None)
  }

  function Strip(store: Store): Store {
    Store(map k | k in store.streams :: StripStream(store.streams[k]), StripAll(store.history))
  }

  lemma StripTrim(es: seq<Evidence>, e: Evidence, size: nat)
    ensures StripAll(Trim(es + [e], size)) == Trim(StripAll(es) + [AsRecovered(e)], size)
  {
  }

  lemma StripAppend(limits: Limits, s: Stream, e: Evidence, cfg: Counter.Config)
    ensures StripStream(Append(limits, s, e, cfg)) == Append(limits, StripStream(s), AsRecovered(e), cfg)
  {
    StripTrim(s.recent, e, limits.history);
  }

  lemma StripRoom(limits: Limits, store: Store, key: Key)
    ensures HasRoom(limits, Strip(store), key) == HasRoom(limits, store, key)
  {
    assert KeysOf(Strip(store).streams, key.link) == KeysOf(store.streams, key.link);
  }

  lemma StripStreamOf(store: Store, key: Key)
    ensures StreamOf(Strip(store), key) == StripStream(StreamOf(store, key))
  {
    assert StripAll([]) == [];
  }

  /** Appending does not look at where evidence came from. */
  lemma StripStoreAppend(limits: Limits, store: Store, e: Evidence, cfg: Counter.Config)
    ensures Strip(StoreAppend(limits, store, e, cfg)) == StoreAppend(limits, Strip(store), AsRecovered(e), cfg)
  {
    var key := e.observation.key;
    StripRoom(limits, store, key);
    StripStreamOf(store, key);
    StripAppend(limits, StreamOf(store, key), e, cfg);
    StripTrim(store.history, e, limits.globalHistory);
  }

  // ------------------------------------------------------------- staying in step

  /** A restart now would rebuild the fabric as it is. */
  ghost predicate InStep(limits: Limits, policy: Policy, f: Fabric) {
    Replayed(limits, policy, f.journal) == Image(Strip(f.store), f.links, f.policy)
  }

  ghost predicate OrdinalsBelow(s: Stream, ordinal: nat) {
    forall e :: e in s.recent ==> e.ordinal < ordinal
  }

  /** Streams belong to known links, and their records were journaled under earlier ordinals. */
  ghost predicate Consistent(f: Fabric) {
    forall k :: k in f.store.streams ==> k.link in f.links && OrdinalsBelow(f.store.streams[k], f.nextOrdinal)
  }

  lemma LinkKeepsStep(limits: Limits, z: Sizes, policy: Policy, f: Fabric, link: LinkId)
    requires InStep(limits, policy, f) && !LinkRefused(z, f, link)
    ensures InStep(limits, policy, ObserveLink(z, f, link)) && link in ObserveLink(z, f, link).links
  {
    if link !in f.links {
      ReplayedNext(limits, policy, f.journal, LinkObserved(link));
    }
  }

  /** A link whose record is refused is known in memory only. */
  lemma LinkAhead(limits: Limits, z: Sizes, policy: Policy, f: Fabric, link: LinkId)
    requires InStep(limits, policy, f) && LinkRefused(z, f, link)
    ensures !InStep(limits, policy, ObserveLink(z, f, link))
  {
  }

  lemma EvidenceKeepsStep(limits: Limits, z: Sizes, policy: Policy, f: Fabric, e: Evidence)
    requires InStep(limits, policy, f) && e.observation.key.link in f.links && CanTake(f) &&
        Encodes(z, EvidenceEntry(e))
    ensures InStep(limits, policy, StoreEvidence(limits, z, f, e))
  {
    ReplayedNext(limits, policy, f.journal, EvidenceEntry(e));
    StripStoreAppend(limits, f.store, e, f.policy.settings(e.observation.key.metric));
    assert f.links + {e.observation.key.link} == f.links;
  }

  /** Evidence that is not new changes nothing, whether it is journaled or not. */
  lemma OldEvidenceKeepsStep(limits: Limits, z: Sizes, policy: Policy, f: Fabric, e: Evidence)
    requires InStep(limits, policy, f) && StoreDecide(limits, f.store, e.observation) != Decided(Fresh)
    requires !(CanTake(f) && Encodes(z, EvidenceEntry(e)))
    ensures InStep(limits, policy, StoreEvidence(limits, z, f, e))
  {
    if StoreDecide(limits, f.store, e.observation) == Decided(Duplicate) {
      assert StoreAppend(limits, f.store, e, f.policy.settings(e.observation.key.metric)) == f.store;
    }
  }

  /** New evidence always shows: it is the last record of its ring. */
  lemma FreshShows(limits: Limits, store: Store, e: Evidence, cfg: Counter.Config)
    requires ValidLimits(limits) && StoreDecide(limits, store, e.observation) == Decided(Fresh)
    requires e.observation.key in store.streams ==> OrdinalsBelow(store.streams[e.observation.key], e.ordinal)
    ensures Strip(StoreAppend(limits, store, e, cfg)) != Strip(store)
  {
    var key, after := e.observation.key, StoreAppend(limits, store, e, cfg);
    var ring := after.streams[key].recent;
    assert ring[|ring| - 1] == e;
    assert key in Strip(after).streams;
    if key in store.streams {
      var old', new' := Strip(store).streams[key].recent, Strip(after).streams[key].recent;
      assert new'[|new'| - 1].ordinal == e.ordinal;
      assert forall i :: 0 <= i < |old'| ==> old'[i].ordinal == store.streams[key].recent[i].ordinal < e.ordinal;
    }
  }

  /** New evidence whose record is refused is in the store only. */
  lemma EvidenceAhead(limits: Limits, z: Sizes, policy: Policy, f: Fabric, e: Evidence)
    requires ValidLimits(limits) && Consistent(f) && InStep(limits, policy, f) && e.ordinal == f.nextOrdinal
    requires StoreDecide(limits, f.store, e.observation) == Decided(Fresh) &&
        !(CanTake(f) && Encodes(z, EvidenceEntry(e)))
    ensures !InStep(limits, policy, StoreEvidence(limits, z, f, e))
  {
    FreshShows(limits, f.store, e, f.policy.settings(e.observation.key.metric));
  }

  /**
   When memory gets ahead of the journal: after the probe succeeded, the record of a
   new link is refused, or that of new evidence. A record is refused if it does not
   encode within the limit, if the journal failed since the probe, or, for evidence, if
   the link's own record took the last slot.
   */
  ghost predicate Diverges(limits: Limits, z: Sizes, f: Fabric, c: Call) {
    CanTake(f) &&
    (LinkRefused(z, Interfere(f, c.first), c.o.key.link) ||
     (StoreDecide(limits, f.store, c.o) == Decided(Fresh) &&
      !(CanTake(BeforeStore(z, f, c)) && Encodes(z, EvidenceEntry(EvidenceOf(z, f, c))))))
  }

  lemma StoreStep(limits: Limits, z: Sizes, policy: Policy, f: Fabric, c: Call)
    requires ValidLimits(limits) && Consistent(f) && InStep(limits, policy, f)
    requires CanTake(f) && !LinkRefused(z, Interfere(f, c.first), c.o.key.link)
    ensures InStep(limits, policy, Ingest(limits, z, f, c)) <==> !Diverges(limits, z, f, c)
  {
    LinkKeepsStep(limits, z, policy, Interfere(f, c.first), c.o.key.link);
    var g, e := BeforeStore(z, f, c), EvidenceOf(z, f, c);
    assert g.store == f.store && InStep(limits, policy, g) && Consistent(g);
    if CanTake(g) && Encodes(z, EvidenceEntry(e)) {
      EvidenceKeepsStep(limits, z, policy, g, e);
    } else if StoreDecide(limits, f.store, c.o) == Decided(Fresh) {
      EvidenceAhead(limits, z, policy, g, e);
    } else {
      OldEvidenceKeepsStep(limits, z, policy, g, e);
    }
  }

  /** Ingest leaves memory and journal in step in every other case, and in no such one. */
  lemma {:induction false} IngestKeepsStep(limits: Limits, z: Sizes, policy: Policy, f: Fabric, c: Call)
    requires ValidLimits(limits) && Consistent(f) && InStep(limits, policy, f)
    ensures InStep(limits, policy, Ingest(limits, z, f, c)) <==> !Diverges(limits, z, f, c)
  {
    if CanTake(f) {
      if LinkRefused(z, Interfere(f, c.first), c.o.key.link) {
        LinkAhead(limits, z, policy, Interfere(f, c.first), c.o.key.link);
      } else {
        StoreStep(limits, z, policy, f, c);
      }
    }
  }

  /** The first observation of a link nobody has seen is always accepted. */
  lemma NewLinkAccepted(limits: Limits, f: Fabric, o: Observation)
    requires ValidLimits(limits) && Consistent(f) && o.key.link !in f.links
    ensures o.key !in f.store.streams && StoreDecide(limits, f.store, o) == Decided(Fresh)
  {
    assert KeysOf(f.store.streams, o.key.link) == {};
  }

  /**
   Even if every record encodes and nothing fails: a new link and exactly one free slot
   put the store ahead of the journal, which the admission probe is meant to prevent.
   */
  lemma {:induction false} AheadOfJournal(limits: Limits, z: Sizes, policy: Policy, f: Fabric, c: Call)
    requires ValidLimits(limits) && Consistent(f) && InStep(limits, policy, f) && !f.failed
    requires c.first == c.second == Meanwhile(0, false) && forall entry :: Encodes(z, entry)
    ensures Diverges(limits, z, f, c) <==>
      f.free == 1 && c.o.key.link !in f.links
  {
    if c.o.key.link !in f.links {
      NewLinkAccepted(limits, f, c.o);
    }
  }

  // The record of a policy is refused after the probe.
  predicate PolicyRefused(z: Sizes, f: Fabric, draft: Policy, m: Meanwhile) {
    CanTake(f) && (m.fails || !Encodes(z, PolicyEntry(Numbered(f, draft))))
  }

  /** Publishing a policy has the same weakness. */
  lemma PublishKeepsStep(limits: Limits, z: Sizes, policy: Policy, f: Fabric, draft: Policy, m: Meanwhile)
    requires InStep(limits, policy, f)
    ensures InStep(limits, policy, Publish(z, f, draft, m)) <==> !PolicyRefused(z, f, draft, m)
  {
    if CanTake(f) {
      ReplayedNext(limits, policy, f.journal, PolicyEntry(Numbered(f, draft)));
    }
  }

  // The policy a restart would come back with is older than the current one.
  ghost predicate PolicyBehind(limits: Limits, policy: Policy, f: Fabric) {
    Replayed(limits, policy, f.journal).policy.generation < f.policy.generation
  }

  lemma AppendBehind(limits: Limits, z: Sizes, policy: Policy, f: Fabric, entry: Entry)
    requires PolicyBehind(limits, policy, f)
    requires entry.PolicyEntry? ==>
               Replayed(limits, policy, f.journal).policy.generation + 1 != entry.policy.generation
    ensures PolicyBehind(limits, policy, JournalAppend(z, f, entry))
  {
    ReplayedNext(limits, policy, f.journal, entry);
  }

  lemma StepBehind(limits: Limits, z: Sizes, policy: Policy, f: Fabric, step: Step)
    requires PolicyBehind(limits, policy, f)
    ensures PolicyBehind(limits, policy, Do(limits, z, f, step))
  {
    match step
    case SIngest(c) =>
      if CanTake(f) {
        var g := Interfere(f, c.first);
        AppendBehind(limits, z, policy, g.(links := g.links + {c.o.key.link}), LinkObserved(c.o.key.link));
        var h, e := BeforeStore(z, f, c), EvidenceOf(z, f, c);
        var stored := h.(store := StoreAppend(limits, h.store, e, h.policy.settings(c.o.key.metric)));
        AppendBehind(limits, z, policy, stored, EvidenceEntry(e));
      }
    case SPublish(draft, m) =>
      AppendBehind(limits, z, policy, Interfere(f.(policy := Numbered(f, draft)), m), PolicyEntry(Numbered(f, draft)));
    case SMeanwhile(_) =>
  }

  /**
   Once the record of a policy was refused, no restart ever comes back with the current
   policy again: every later record is out of sequence and skipped.
   */
  lemma {:induction false} PolicyLostForGood(limits: Limits, z: Sizes, policy: Policy, f: Fabric, draft: Policy,
                                             m: Meanwhile, later: seq<Step>)
    requires InStep(limits, policy, f) && PolicyRefused(z, f, draft, m)
    ensures PolicyBehind(limits, policy, Run(limits, z, Publish(z, f, draft, m), later))
    ensures !InStep(limits, policy, Run(limits, z, Publish(z, f, draft, m), later))
  {
    if later != [] {
      var front := later[..|later| - 1];
      PolicyLostForGood(limits, z, policy, f, draft, m, front);
      StepBehind(limits, z, policy, Run(limits, z, Publish(z, f, draft, m), front), later[|later| - 1]);
    }
  }

  // -------------------------------------------------------------- whole runs

  lemma StoreConsistent(limits: Limits, z: Sizes, f: Fabric, e: Evidence)
    requires Consistent(f) && e.observation.key.link in f.links && e.ordinal == f.nextOrdinal
    requires StoreDecide(limits, f.store, e.observation) == Decided(Fresh) ==>
               CanTake(f) && Encodes(z, EvidenceEntry(e))
    ensures Consistent(StoreEvidence(limits, z, f, e))
  {
    var f' := StoreEvidence(limits, z, f, e);
    forall k | k in f'.store.streams
      ensures k.link in f'.links && OrdinalsBelow(f'.store.streams[k], f'.nextOrdinal)
    {
      if k != e.observation.key {
        assert k in f.store.streams;
      } else if k in f.store.streams {
        RingOrdinals(limits, f.store.streams[k], e, f.policy.settings(k.metric));
      } else {
        RingOrdinals(limits, EmptyStream, e, f.policy.settings(k.metric));
      }
    }
  }

  lemma RingOrdinals(limits: Limits, s: Stream, e: Evidence, cfg: Counter.Config)
    requires OrdinalsBelow(s, e.ordinal)
    ensures OrdinalsBelow(Append(limits, s, e, cfg), e.ordinal + 1)
    ensures Decide(limits, s, e.observation) != Fresh ==> OrdinalsBelow(Append(limits, s, e, cfg), e.ordinal)
  {
    var s' := Append(limits, s, e, cfg);
    assert forall x :: x in s'.recent ==> x in s.recent + [e];
  }

  lemma IngestConsistent(limits: Limits, z: Sizes, f: Fabric, c: Call)
    requires Consistent(f) && !Diverges(limits, z, f, c)
    ensures Consistent(Ingest(limits, z, f, c))
  {
    if CanTake(f) {
      var g := BeforeStore(z, f, c);
      assert g.store == f.store && Consistent(g);
      StoreConsistent(limits, z, g, EvidenceOf(z, f, c));
    }
  }

  ghost predicate Stays(limits: Limits, z: Sizes, f: Fabric, step: Step) {
    match step
    case SIngest(call) => !Diverges(limits, z, f, call)
    case SPublish(draft, m) => !PolicyRefused(z, f, draft, m)
    case SMeanwhile(_) => true
  }

  /** No step of the run was one of those. */
  ghost predicate SteadyRun(limits: Limits, z: Sizes, f: Fabric, steps: seq<Step>) {
    forall i :: 0 <= i < |steps| ==> Stays(limits, z, Run(limits, z, f, steps[..i]), steps[i])
  }

  lemma StepKeeps(limits: Limits, z: Sizes, policy: Policy, f: Fabric, step: Step)
    requires ValidLimits(limits) && Consistent(f) && InStep(limits, policy, f) && Stays(limits, z, f, step)
    ensures Consistent(Do(limits, z, f, step)) && InStep(limits, policy, Do(limits, z, f, step))
  {
    match step
    case SIngest(call) =>
      IngestKeepsStep(limits, z, policy, f, call);
      IngestConsistent(limits, z, f, call);
    case SPublish(draft, m) => PublishKeepsStep(limits, z, policy, f, draft, m);
    case SMeanwhile(_) =>
  }

  /**
   After any such run, whatever was rejected, repeated or reordered and however the
   policy changed, replaying the journal rebuilds every stream: window, watermark,
   tracker and ring, equal to the live ones but for the origin of their records.
   */
  lemma {:induction false} RunReplays(limits: Limits, z: Sizes, policy: Policy, free: nat, steps: seq<Step>)
    requires ValidLimits(limits) && SteadyRun(limits, z, Opened(policy, free), steps)
    ensures Consistent(Run(limits, z, Opened(policy, free), steps))
    ensures InStep(limits, policy, Run(limits, z, Opened(policy, free), steps))
  {
    var start := Opened(policy, free);
    if steps == [] {
      assert Strip(EmptyStore) == EmptyStore;
    } else {
      var n := |steps| - 1;
      var front := steps[..n];
      assert forall i :: 0 <= i < n ==> front[..i] == steps[..i];
      RunReplays(limits, z, policy, free, front);
      StepKeeps(limits, z, policy, Run(limits, z, start, front), steps[n]);
    }
  }
}
