/** The link registry object: the loops and table updates of the source. */
module RegistryObject {
  import opened Optional
  import opened Evidence
  import Model = LinkGenerations
  import opened LinkGenerations

  /** Marks every older generation of a link, entry by entry. */
  method MarkSuperseded(links: map<LinkId, LinkState>, id: nat, generation: nat)
    returns (marked: map<LinkId, LinkState>)
    ensures marked == Superseded(links, id, generation)
  {
    marked := links;
    var rest := links.Keys;
    while rest != {}
      invariant rest <= links.Keys && marked.Keys == links.Keys
      invariant forall k :: k in links.Keys - rest ==> marked[k] == Superseded(links, id, generation)[k]
      invariant forall k :: k in rest ==> marked[k] == links[k]
      decreases rest
    {
      var k :| k in rest;
      if k.id == id && k.generation < generation {
        marked := marked[k := marked[k].(supersededBy := Some(generation))];
      }
      rest := rest - {k};
    }
  }

  /** Drops the oldest generations until the list fits, and their links with them. */
  method EvictOldest(b: Bounds, id: nat, gens: seq<nat>, links: map<LinkId, LinkState>)
    returns (kept: seq<nat>, left: map<LinkId, LinkState>, dropped: seq<LinkId>)
    ensures kept == gens[Surplus(b, gens)..] && dropped == Ids(id, gens[..Surplus(b, gens)])
    ensures left == Without(links, dropped)
  {
    kept, left, dropped := gens, links, [];
    ghost var n := 0;
    while |kept| > b.maxGenerations
      invariant n <= Surplus(b, gens) && kept == gens[n..] && dropped == Ids(id, gens[..n])
      invariant left == Without(links, dropped)
      decreases |kept|
    {
      var oldest := LinkId(id, kept[0]);
      kept := kept[1..];
      left := left - {oldest};
      dropped := dropped + [oldest];
      n := n + 1;
    }
  }

  class LinkRegistry {
    const bounds: Bounds
    var links: map<LinkId, LinkState>
    var current: map<nat, nat>
    var generations: map<nat, seq<nat>>
    var evicted: seq<LinkId>

    function State(): Registry
      reads this
    {
      Registry(links, current, generations, evicted)
    }

    constructor (bounds: Bounds)
      ensures this.bounds == bounds && State() == EmptyRegistry
    {
      this.bounds := bounds;
      links, current, generations, evicted := map[], map[], map[], [];
    }

    method NoteEvidence(link: LinkId, at: Stamp)
      modifies this`links
      ensures State() == Model.NoteEvidence(old(State()), link, at)
    {
      if link !in links {
        var newer := None;
        if link.id in current && link.generation < current[link.id] {
          newer := Some(current[link.id]);
        }
        links := links[link := LinkState(at, 1, newer)];
      } else {
        links := links[link := links[link].(evidence := links[link].evidence + 1)];
      }
    }

    method AdvanceGeneration(id: nat, generation: nat, at: Stamp) returns (status: Status)
      modifies this
      ensures status == AdvanceStatus(bounds, old(State()), id, generation)
      ensures State() == Model.Advance(bounds, old(State()), id, generation, at)
    {
      if generation == 0 {
        return Invalid;
      }
      if id in current {
        if generation < current[id] {
          return Fenced;
        }
        if generation == current[id] {
          return Ok;
        }
      } else if |current| >= bounds.maxLinks {
        return LimitExceeded;
      }
      current := current[id := generation];
      var marked := MarkSuperseded(links, id, generation);
      var gens := if id in generations then generations[id] else [];
      if generation !in gens {
        gens := gens + [generation];
      }
      var kept, left, dropped := EvictOldest(bounds, id, gens, marked);
      generations, evicted := generations[id := kept], evicted + dropped;
      var identity := LinkId(id, generation);
      links := if identity in left then left else left[identity := LinkState(at, 0, None)];
      return Ok;
    }

    method Observe(link: LinkId, at: Stamp) returns (status: Status)
      modifies this
      ensures status == ObserveStatus(bounds, old(State()), link)
      ensures State() == Model.Observe(bounds, old(State()), link, at)
    {
      if link.generation == 0 {
        return Invalid;
      }
      if link.id !in current {
        if |current| >= bounds.maxLinks {
          return LimitExceeded;
        }
        current := current[link.id := link.generation];
        var gens := if link.id in generations then generations[link.id] else [];
        generations := generations[link.id := gens + [link.generation]];
      } else if link.generation > current[link.id] {
        var _ := AdvanceGeneration(link.id, link.generation, at);
      }
      NoteEvidence(link, at);
      return Ok;
    }

    method TakeEvicted() returns (taken: seq<LinkId>)
      modifies this`evicted
      ensures taken == old(evicted) && State() == Do(bounds, old(State()), Model.TakeEvicted)
    {
      taken, evicted := evicted, [];
    }
  }
}
