/**
 The evidence store object: the loops of the source over windows, rings and streams,
 each tied to the functions the results are about.
 */
module StoreObject {
  import opened Optional
  import opened Evidence
  import opened EvidenceStream
  import opened EvidenceSnapshot
  import Model = StoreModel
  import opened StoreModel
  import Counter

  /** Erases the oldest entry for as long as it has left the window. */
  method FenceWindow(dedup: map<nat, nat>, watermark: nat, window: nat) returns (kept: map<nat, nat>)
    ensures kept == Fence(dedup, watermark, window)
  {
    kept := dedup;
    while kept.Keys != {}
      invariant Fence(kept, watermark, window) == Fence(dedup, watermark, window)
      decreases |kept|
    {
      LeastExists(kept.Keys);
      var oldest: nat :| oldest in kept.Keys && forall k :: k in kept.Keys ==> oldest <= k;
      if watermark >= oldest && watermark - oldest >= window {
        ghost var before := kept;
        kept := kept - {oldest};
        assert Fence(kept, watermark, window) == Fence(before, watermark, window);
        assert kept.Keys == before.Keys - {oldest};
      } else {
        assert Fence(kept, watermark, window) == kept;
        return;
      }
    }
    assert Fence(kept, watermark, window) == kept;
  }

  /** Drops records from the front until the rest fits. */
  method TrimFront(es: seq<Evidence>, size: nat) returns (kept: seq<Evidence>)
    ensures kept == Trim(es, size)
  {
    kept := es;
    while |kept| > size
      invariant |kept| <= |es| && kept == es[|es| - |kept|..]
      invariant |kept| >= size || kept == es
    {
      kept := kept[1..];
    }
  }

  /** One observation offered to one stream. */
  method Offer(limits: Limits, s: Stream, e: Evidence, cfg: Counter.Config) returns (s': Stream, decision: Decision)
    ensures decision == Decide(limits, s, e.observation)
    ensures s' == Append(limits, s, e, cfg)
  {
    var o := e.observation;
    var digest := limits.digest(o);
    s' := s;
    if s.watermark.Some? {
      if o.sequence in s.dedup {
        return s, if s.dedup[o.sequence] == digest then Duplicate else Mismatch;
      }
      if o.sequence < s.watermark.value {
        var distance := s.watermark.value - o.sequence;
        if distance > limits.window {
          return s, Fenced;
        }
      }
    }
    decision := Fresh;
    var watermark := if s.watermark.None? || o.sequence > s.watermark.value then Some(o.sequence) else s.watermark;
    var dedup := FenceWindow(s.dedup[o.sequence := digest], watermark.value, limits.window);
    s' := s'.(dedup := dedup, watermark := watermark);
    if s.fed.None? || o.sequence > s.fed.value {
      if o.sample.CounterSample? {
        s' := s'.(tracker := Counter.Observe(s.tracker, CounterReading(o), cfg));
      }
      s' := s'.(latestFed := Some(e), fed := Some(o.sequence));
    }
    var recent := TrimFront(s.recent + [e], limits.history);
    s' := s'.(recent := recent);
  }

  lemma InsertedAt(rs: seq<Evidence>, e: Evidence, i: nat)
    requires Ascending(rs) && i <= |rs|
    requires forall j :: 0 <= j < i ==> Sequence(rs[j]) < Sequence(e)
    requires i < |rs| ==> Sequence(e) < Sequence(rs[i])
    ensures Ascending(rs[..i] + [e] + rs[i..])
  {
    assert forall j :: i < j < |rs| ==> Sequence(rs[i]) < Sequence(rs[j]);
  }

  /** Puts a record where its sequence belongs. */
  method Insert(rs: seq<Evidence>, e: Evidence) returns (out: seq<Evidence>)
    requires Ascending(rs) && !HasSequence(rs, Sequence(e))
    ensures Ascending(out) && forall x :: x in out <==> x in rs || x == e
  {
    var i := 0;
    while i < |rs| && Sequence(rs[i]) < Sequence(e)
      invariant i <= |rs| && forall j :: 0 <= j < i ==> Sequence(rs[j]) < Sequence(e)
    {
      i := i + 1;
    }
    out := rs[..i] + [e] + rs[i..];
    assert i < |rs| ==> rs[i] in rs;
    InsertedAt(rs, e, i);
    assert rs == rs[..i] + rs[i..];
  }

  /** The records a snapshot writes for a stream: the latest fed one, then the ring, no sequence twice. */
  method RetainedRecords(s: Stream) returns (rs: seq<Evidence>)
    ensures IsRetained(s, rs)
  {
    rs := [];
    var emitted: set<nat> := {};
    if s.latestFed.Some? {
      rs, emitted := [s.latestFed.value], {Sequence(s.latestFed.value)};
    }
    for i := 0 to |s.recent|
      invariant Ascending(rs) && (forall q :: q in emitted <==> HasSequence(rs, q))
      invariant forall r :: r in rs ==> r in s.recent || s.latestFed == Some(r)
      invariant s.latestFed.Some? ==> s.latestFed.value in rs
      invariant forall j :: 0 <= j < i ==> HasSequence(rs, Sequence(s.recent[j]))
    {
      var e := s.recent[i];
      if Sequence(e) !in emitted {
        ghost var before := rs;
        rs := Insert(rs, e);
        emitted := emitted + {Sequence(e)};
        forall q
          ensures q in emitted <==> HasSequence(rs, q)
        {
          Inserted(before, rs, e, q);
        }
      }
    }
  }

  lemma Inserted(before: seq<Evidence>, after: seq<Evidence>, e: Evidence, q: nat)
    requires forall x :: x in after <==> x in before || x == e
    ensures HasSequence(after, q) <==> HasSequence(before, q) || q == Sequence(e)
  {
    assert e in after;
  }

  /** The window of a stream, written out. */
  method DedupWindow(dedup: map<nat, nat>) returns (entries: seq<(nat, nat)>)
    ensures Lists(entries, dedup)
  {
    entries := [];
    var left := dedup.Keys;
    while left != {}
      invariant left <= dedup.Keys
      invariant forall i :: 0 <= i < |entries| ==> entries[i].0 in dedup && dedup[entries[i].0] == entries[i].1
      invariant forall k :: k in dedup.Keys - left ==> (k, dedup[k]) in entries
      decreases |left|
    {
      LeastExists(left);
      var k: nat :| k in left && forall n :: n in left ==> k <= n;
      entries := entries + [(k, dedup[k])];
      left := left - {k};
    }
  }

  /** What a snapshot writes for a whole store. */
  method SnapshotRecords(store: Store) returns (records: seq<Evidence>, seeds: seq<SeedRecord>)
    requires forall k :: k in store.streams ==> KeyedBy(k, store.streams[k])
    ensures IsSnapshot(store, records, seeds)
  {
    records, seeds := [], [];
    var left: set<Key> := store.streams.Keys;
    assert store.streams.Keys - left == {};
    while left != {}
      invariant left <= store.streams.Keys && IsPart(store, store.streams.Keys - left, records, seeds)
      decreases |left|
    {
      var key :| key in left;
      var rs := RetainedRecords(store.streams[key]);
      var entries := DedupWindow(store.streams[key].dedup);
      PartNext(store, store.streams.Keys - left, records, seeds, key, rs, entries);
      assert store.streams.Keys - (left - {key}) == store.streams.Keys - left + {key};
      records, seeds, left := records + rs, seeds + [SeedRecord(key, entries)], left - {key};
    }
    assert store.streams.Keys - left == store.streams.Keys;
    PartIsSnapshot(store, records, seeds);
  }

  /** Puts back a saved window, entry by entry, and keeps it within its bound. */
  method SeedStream(limits: Limits, s: Stream, entries: seq<(nat, nat)>) returns (s': Stream)
    ensures s' == Seed(limits, s, entries)
  {
    s' := s;
    for i := 0 to |entries|
      invariant s' == SeedAll(s, entries[..i])
    {
      assert entries[..i + 1][..i] == entries[..i];
      s' := s'.(dedup := s'.dedup[entries[i].0 := entries[i].1]);
      if s'.watermark.None? || entries[i].0 > s'.watermark.value {
        s' := s'.(watermark := Some(entries[i].0));
      }
    }
    assert entries[..|entries|] == entries;
    var dedup := DropEntries(s'.dedup, limits.window);
    s' := s'.(dedup := dedup);
  }

  method DropEntries(dedup: map<nat, nat>, size: nat) returns (kept: map<nat, nat>)
    ensures kept == DropOldest(dedup, size)
  {
    kept := dedup;
    while |kept| > size
      invariant DropOldest(kept, size) == DropOldest(dedup, size)
      decreases |kept|
    {
      LeastExists(kept.Keys);
      var oldest: nat :| oldest in kept.Keys && forall k :: k in kept.Keys ==> oldest <= k;
      assert oldest == Least(kept.Keys);
      assert (kept - {oldest}).Keys == kept.Keys - {oldest};
      kept := kept - {oldest};
    }
  }

  class EvidenceStore {
    const limits: Limits
    var streams: map<Key, Stream>
    var history: seq<Evidence>
    var perLink: map<LinkId, nat>

    ghost function State(): Store
      reads this
    {
      Store(streams, history)
    }

    function Used(link: LinkId): nat
      reads this
    {
      if link in perLink then perLink[link] else 0
    }

    /** The counters kept for each link are the numbers of its streams. */
    ghost predicate Valid()
      reads this
    {
      forall link :: Used(link) == |KeysOf(streams, link)|
    }

    constructor (limits: Limits)
      ensures Valid() && this.limits == limits && State() == EmptyStore
    {
      this.limits := limits;
      streams, history, perLink := map[], [], map[];
      new;
      assert forall link :: KeysOf(streams, link) == {};
    }

    /** Makes room for a new stream, or refuses it. */
    method Admit(key: Key) returns (ok: bool)
      requires Valid() && key !in streams
      modifies this
      ensures Valid() && history == old(history)
      ensures ok == HasRoom(limits, old(State()), key)
      ensures streams == if ok then old(streams)[key := EmptyStream] else old(streams)
    {
      var used := Used(key.link);
      if used >= limits.streamsPerLink {
        return false;
      }
      perLink := perLink[key.link := used + 1];
      streams := streams[key := EmptyStream];
      forall link
        ensures Used(link) == |KeysOf(streams, link)|
      {
        AddedKey(old(State()), State(), key, link);
      }
      return true;
    }

    method Replace(key: Key, s: Stream)
      requires Valid() && key in streams
      modifies this`streams
      ensures Valid() && streams == old(streams)[key := s]
    {
      ghost var before := State();
      streams := streams[key := s];
      forall link
        ensures Used(link) == |KeysOf(streams, link)|
      {
        assert KeysOf(streams, link) == KeysOf(before.streams, link);
      }
    }

    method Append(e: Evidence, cfg: Counter.Config) returns (outcome: Outcome)
      requires Valid()
      modifies this
      ensures Valid()
      ensures outcome == StoreDecide(limits, old(State()), e.observation)
      ensures State() == StoreAppend(limits, old(State()), e, cfg)
    {
      var key := e.observation.key;
      if key !in streams {
        var ok := Admit(key);
        if !ok {
          return LimitExceeded;
        }
      }
      var stream, decision := Offer(limits, streams[key], e, cfg);
      Replace(key, stream);
      if decision == Fresh {
        history := TrimFront(history + [e], limits.globalHistory);
      }
      return Decided(decision);
    }

    /** Puts back a saved window. */
    method SeedDedupWindow(key: Key, entries: seq<(nat, nat)>) returns (ok: bool)
      requires Valid()
      modifies this
      ensures Valid() && ok == HasRoom(limits, old(State()), key)
      ensures State() == StoreSeed(limits, old(State()), key, entries)
    {
      if key !in streams {
        ok := Admit(key);
        if !ok {
          return;
        }
      }
      ok := true;
      var stream := SeedStream(limits, streams[key], entries);
      Replace(key, stream);
    }

    /** Forgets every stream of one link generation. */
    method DropLink(link: LinkId)
      requires Valid()
      modifies this
      ensures Valid() && State() == Model.DropLink(old(State()), link)
    {
      ghost var before := State();
      streams := map k | k in streams && k.link != link :: streams[k];
      perLink := perLink - {link};
      var kept := [];
      for i := 0 to |history|
        invariant kept == Others(history[..i], link)
      {
        assert history[..i + 1][..i] == history[..i];
        if history[i].observation.key.link != link {
          kept := kept + [history[i]];
        }
      }
      assert history[..|history|] == history;
      history := kept;
      forall other
        ensures Used(other) == |KeysOf(streams, other)|
      {
        assert KeysOf(streams, other) == if other == link then {} else KeysOf(before.streams, other);
      }
    }
  }

  lemma AddedKey(before: Store, after: Store, key: Key, link: LinkId)
    requires key !in before.streams && after.streams == before.streams[key := EmptyStream]
    ensures |KeysOf(after.streams, link)| == |KeysOf(before.streams, link)| + (if key.link == link then 1 else 0)
  {
    if key.link == link {
      assert KeysOf(after.streams, link) == KeysOf(before.streams, link) + {key};
    } else {
      assert KeysOf(after.streams, link) == KeysOf(before.streams, link);
    }
  }
}
