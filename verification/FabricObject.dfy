/** The runtime object around store and journal: the ingest path, step by step. */
module FabricObject {
  import opened Evidence
  import opened EvidenceStream
  import opened StoreModel
  import opened StoreObject
  import Model = Ingest

  datatype IngestStatus =
    | Busy                                  // refused before anything changed
    | LinkNotJournaled                      // the link is known, the call ended there
    | Rejected(outcome: Outcome)
    | Journaled(decision: Decision)
    | NotEncoded(decision: Decision)        // an error return, though it is in memory
    | NotDurable(decision: Decision)        // accepted and marked degraded: in memory, without a record

  class Fabric {
    const store: EvidenceStore
    const sizes: Model.Sizes
    var links: set<LinkId>
    var policy: Model.Policy
    var journal: seq<Model.Entry>
    var free: nat
    var failed: bool
    var nextOrdinal: nat

    ghost function State(): Model.Fabric
      reads this, store
    {
      Model.Fabric(store.State(), links, policy, journal, free, failed, nextOrdinal)
    }

    constructor (limits: Limits, sizes: Model.Sizes, policy: Model.Policy, free: nat)
      ensures fresh(store) && store.Valid() && store.limits == limits && this.sizes == sizes
      ensures State() == Model.Opened(policy, free)
    {
      store := new EvidenceStore(limits);
      this.sizes, this.policy := sizes, policy;
      links, journal, this.free, failed, nextOrdinal := {}, [], free, false, 0;
    }

    /** What the writer thread and a flush do on their own. */
    method Interfere(m: Model.Meanwhile)
      modifies this
      ensures State() == Model.Interfere(old(State()), m)
    {
      free, failed := free + m.drained, failed || m.fails;
    }

    method JournalAppend(entry: Model.Entry) returns (ok: bool)
      modifies this
      ensures State() == Model.JournalAppend(sizes, old(State()), entry)
      ensures ok == (Model.CanTake(old(State())) && Model.Encodes(sizes, entry))
    {
      if failed || free == 0 || sizes.size(entry).None? || sizes.size(entry).value > sizes.limit {
        return false;
      }
      journal, free, nextOrdinal := journal + [entry], free - 1, nextOrdinal + 1;
      return true;
    }

    method ObserveLink(link: LinkId) returns (ok: bool)
      modifies this
      ensures State() == Model.ObserveLink(sizes, old(State()), link)
      ensures ok == !Model.LinkRefused(sizes, old(State()), link)
    {
      ok := true;
      if link !in links {
        links := links + {link};
        ok := JournalAppend(Model.LinkObserved(link));
      }
    }

    method StoreEvidence(e: Evidence) returns (status: IngestStatus)
      requires store.Valid()
      modifies this, store
      ensures store.Valid() && State() == Model.StoreEvidence(store.limits, sizes, old(State()), e)
      ensures status == NotEncoded(Fresh) || status == NotDurable(Fresh) <==>
        && StoreDecide(store.limits, old(store.State()), e.observation) == Decided(Fresh)
        && !(Model.CanTake(old(State())) && Model.Encodes(sizes, Model.EvidenceEntry(e)))
      ensures !status.Busy? && !status.LinkNotJournaled?
      ensures status.NotEncoded? ==> sizes.size(Model.EvidenceEntry(e)).None?
      ensures status.NotDurable? || status.Journaled? ==> sizes.size(Model.EvidenceEntry(e)).Some?
    {
      var outcome := store.Append(e, policy.settings(e.observation.key.metric));
      match outcome {
        case LimitExceeded => return Rejected(outcome);
        case Decided(decision) =>
          if decision == Mismatch || decision == Fenced {
            return Rejected(outcome);
          }
          if sizes.size(Model.EvidenceEntry(e)).None? {
            return NotEncoded(decision);
          }
          var ok := JournalAppend(Model.EvidenceEntry(e));
          return if ok then Journaled(decision) else NotDurable(decision);
      }
    }

    /** One validated observation: the caller is told of the loss exactly when a restart would not know of it. */
    method Ingest(c: Model.Call) returns (status: IngestStatus)
      requires store.Valid()
      modifies this, store
      ensures store.Valid() && State() == Model.Ingest(store.limits, sizes, old(State()), c)
      ensures status == LinkNotJournaled || status == NotEncoded(Fresh) || status == NotDurable(Fresh)
        <==> Model.Diverges(store.limits, sizes, old(State()), c)
      ensures status.NotEncoded? ==> sizes.size(Model.EvidenceEntry(Model.EvidenceOf(sizes, old(State()), c))).None?
      ensures status.NotDurable? ==> sizes.size(Model.EvidenceEntry(Model.EvidenceOf(sizes, old(State()), c))).Some?
    {
      if failed || free == 0 {
        return Busy;
      }
      Interfere(c.first);
      var ok := ObserveLink(c.o.key.link);
      if !ok {
        return LinkNotJournaled;
      }
      Interfere(c.second);
      status := StoreEvidence(Stored(c.o, c.received, nextOrdinal, Live));
    }
  }
}
