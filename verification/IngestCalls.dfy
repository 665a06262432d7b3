/**
 What one ingest call does, whatever the writer thread does meanwhile: what is stored, and
 what the journal is given.

 Main result: `IngestExactly`.
 */
module IngestCalls {
  import opened Optional
  import opened Evidence
  import opened EvidenceStream
  import opened StoreModel
  import opened Ingest
  import Counter

  predicate IsNew(f: Fabric, c: Call) { c.o.key.link !in f.links }

  /** The record of a new link is taken. */
  predicate LinkTaken(z: Sizes, f: Fabric, c: Call) {
    && !f.failed && !c.first.fails && f.free + c.first.drained > 0
    && z.size(LinkObserved(c.o.key.link)).Some? && z.size(LinkObserved(c.o.key.link)).value <= z.limit
  }

  function OrdinalFor(f: Fabric, c: Call): nat { if IsNew(f, c) then f.nextOrdinal + 1 else f.nextOrdinal }

  /** What is stored of the observation. */
  function Record(f: Fabric, c: Call): Evidence { Stored(c.o, c.received, OrdinalFor(f, c), Live) }

  /** The record of the evidence is taken. */
  predicate EvidenceTaken(z: Sizes, f: Fabric, c: Call) {
    && !f.failed && !c.first.fails && !c.second.fails
    && f.free + c.first.drained + c.second.drained > (if IsNew(f, c) then 1 else 0)
    && z.size(EvidenceEntry(Record(f, c))).Some? && z.size(EvidenceEntry(Record(f, c))).value <= z.limit
  }

  lemma LinkStep(z: Sizes, f: Fabric, c: Call)
    requires !IsNew(f, c) || LinkTaken(z, f, c)
    ensures !LinkRefused(z, Interfere(f, c.first), c.o.key.link)
    ensures
      var g := BeforeStore(z, f, c);
      && g.store == f.store && g.policy == f.policy && g.links == f.links + {c.o.key.link}
      && g.journal == f.journal + (if IsNew(f, c) then [LinkObserved(c.o.key.link)] else [])
      && g.failed == (f.failed || c.first.fails || c.second.fails)
      && g.free == f.free + c.first.drained + c.second.drained - (if IsNew(f, c) then 1 else 0)
      && EvidenceOf(z, f, c) == Record(f, c)
  {
  }

  /** A call on a journal that is full or failed changes nothing. */
  lemma UnusableRefuses(limits: Limits, z: Sizes, f: Fabric, c: Call)
    requires f.failed || f.free == 0
    ensures Ingest.Ingest(limits, z, f, c) == f
  {
  }

  lemma StoreKept(limits: Limits, store: Store, e: Evidence, cfg: Counter.Config)
    requires StoreDecide(limits, store, e.observation) == Decided(Duplicate)
    ensures StoreAppend(limits, store, e, cfg) == store
  {
    var key := e.observation.key;
    if key in store.streams {
      assert store.streams[key := store.streams[key]] == store.streams;
    }
  }

  /**
   On a usable journal: a new link is registered and, unless its record is refused,
   journaled. A fresh observation is stored live, with the stamp it came with, under the
   policy in force; nothing else is. The journal is given the record of what was fresh or
   a duplicate, and of nothing else.
   */
  lemma IngestExactly(limits: Limits, z: Sizes, f: Fabric, c: Call)
    requires !f.failed && f.free > 0
    ensures
      var g, decision, e := Ingest.Ingest(limits, z, f, c), StoreDecide(limits, f.store, c.o), Record(f, c);
      && g.links == f.links + {c.o.key.link} && g.policy == f.policy
      && (IsNew(f, c) && !LinkTaken(z, f, c) ==> g.store == f.store && g.journal == f.journal)
      && (!IsNew(f, c) || LinkTaken(z, f, c) ==>
            && g.store == (if decision == Decided(Fresh)
                           then StoreAppend(limits, f.store, e, f.policy.settings(c.o.key.metric)) else f.store)
            && g.journal == f.journal + (if IsNew(f, c) then [LinkObserved(c.o.key.link)] else [])
                 + (if (decision == Decided(Fresh) || decision == Decided(Duplicate)) && EvidenceTaken(z, f, c)
                    then [EvidenceEntry(e)] else []))
  {
    if !IsNew(f, c) || LinkTaken(z, f, c) {
      LinkStep(z, f, c);
      if StoreDecide(limits, f.store, c.o) == Decided(Duplicate) {
        StoreKept(limits, f.store, Record(f, c), f.policy.settings(c.o.key.metric));
      }
    }
  }
}
