/**
 Link generations: which one of a link is current, which are superseded, and which
 were evicted.

 Main results: `RunKeeps`, `CurrentNeverFalls`, `CurrentIsNewest`, `StatusExactly`,
 `StepListed` and `LinksBounded`, with `LateEvidenceUnbounded` for what they exclude.
 */
module LinkGenerations {
  import opened Optional
  import opened Evidence

  datatype LinkState = LinkState(first: Stamp, evidence: nat, supersededBy: Option<nat>)

  datatype Bounds = Bounds(maxLinks: nat, maxGenerations: nat)

  ghost predicate ValidBounds(b: Bounds) { b.maxLinks >= 1 && b.maxGenerations >= 1 }

  datatype Registry = Registry(
    links: map<LinkId, LinkState>,
    current: map<nat, nat>,
    generations: map<nat, seq<nat>>,    // retained generations, oldest first
    evicted: seq<LinkId>)

  const EmptyRegistry := Registry(map[], map[], map[], [])

  datatype Status = Ok | Invalid | LimitExceeded | Fenced

  // ------------------------------------------------------------------- steps

  function Ids(id: nat, gens: seq<nat>): (out: seq<LinkId>)
    ensures |out| == |gens| && forall i :: 0 <= i < |gens| ==> out[i] == LinkId(id, gens[i])
  {
    seq(|gens|, i requires 0 <= i < |gens| => LinkId(id, gens[i]))
  }

  /** How many of the oldest generations have to go. */
  function Surplus(b: Bounds, gens: seq<nat>): (n: nat)
    ensures n <= |gens|
  {
    if |gens| > b.maxGenerations then |gens| - b.maxGenerations else 0
  }

  function Superseded(links: map<LinkId, LinkState>, id: nat, generation: nat): map<LinkId, LinkState> {
    map k | k in links ::
      if k.id == id && k.generation < generation then links[k].(supersededBy := Some(generation)) else links[k]
  }

  function Without(links: map<LinkId, LinkState>, dropped: seq<LinkId>): map<LinkId, LinkState> {
    map k | k in links && k !in dropped :: links[k]
  }

  /** A new generation becomes current; older ones are marked, and the oldest evicted. */
  function Promote(b: Bounds, r: Registry, id: nat, generation: nat, at: Stamp): Registry {
    var before := ListOf(r, id);
    var gens := if generation in before then before else before + [generation];
    var n := Surplus(b, gens);
    var dropped := Ids(id, gens[..n]);
    var links := Without(Superseded(r.links, id, generation), dropped);
    var identity := LinkId(id, generation);
    Registry(if identity in links then links else links[identity := LinkState(at, 0, None)],
             r.current[id := generation], r.generations[id := gens[n..]], r.evicted + dropped)
  }

  function AdvanceStatus(b: Bounds, r: Registry, id: nat, generation: nat): Status {
    if generation == 0 then Invalid
    else if id in r.current then if generation < r.current[id] then Fenced else Ok
    else if |r.current| >= b.maxLinks then LimitExceeded
    else Ok
  }

  function Advance(b: Bounds, r: Registry, id: nat, generation: nat, at: Stamp): Registry {
    if AdvanceStatus(b, r, id, generation) != Ok || (id in r.current && generation == r.current[id]) then r
    else Promote(b, r, id, generation, at)
  }

  function NoteEvidence(r: Registry, link: LinkId, at: Stamp): Registry {
    if link in r.links then
      r.(links := r.links[link := r.links[link].(evidence := r.links[link].evidence + 1)])
    else
      var older := link.id in r.current && link.generation < r.current[link.id];
      r.(links := r.links[link := LinkState(at, 1, if older then Some(r.current[link.id]) else None)])
  }

  function ObserveStatus(b: Bounds, r: Registry, link: LinkId): Status {
    if link.generation == 0 then Invalid
    else if link.id !in r.current && |r.current| >= b.maxLinks then LimitExceeded
    else Ok
  }

  function Observe(b: Bounds, r: Registry, link: LinkId, at: Stamp): Registry {
    if ObserveStatus(b, r, link) != Ok then r
    else if link.id !in r.current then
      NoteEvidence(r.(current := r.current[link.id := link.generation],
                      generations := r.generations[link.id := ListOf(r, link.id) + [link.generation]]), link, at)
    else if link.generation > r.current[link.id] then
      NoteEvidence(Advance(b, r, link.id, link.generation, at), link, at)
    else NoteEvidence(r, link, at)
  }

  datatype Op = Observed(link: LinkId, at: Stamp) | Advanced(id: nat, generation: nat, at: Stamp) | TakeEvicted

  function Do(b: Bounds, r: Registry, op: Op): Registry {
    match op
    case Observed(link, at) => Observe(b, r, link, at)
    case Advanced(id, generation, at) => Advance(b, r, id, generation, at)
    case TakeEvicted => r.(evicted := [])
  }

  function Run(b: Bounds, ops: seq<Op>): Registry {
    if ops == [] then EmptyRegistry else Do(b, Run(b, ops[..|ops| - 1]), ops[|ops| - 1])
  }

  // --------------------------------------------------------------- invariant

  ghost predicate Increasing(gens: seq<nat>) {
    forall i, j :: 0 <= i < j < |gens| ==> gens[i] < gens[j]
  }

  /** The retained generations of a link: going up, not too many, the current one last. */
  ghost predicate ListInv(b: Bounds, gens: seq<nat>, current: nat) {
    0 < |gens| <= b.maxGenerations && Increasing(gens) && gens[|gens| - 1] == current
  }

  ghost predicate GenerationsInv(b: Bounds, current: map<nat, nat>, generations: map<nat, seq<nat>>) {
    && generations.Keys == current.Keys && |current| <= b.maxLinks
    && forall id :: id in current ==> ListInv(b, generations[id], current[id])
  }

  /** Marked as superseded exactly if older than the current generation, and then by that one. */
  ghost predicate MarkedRight(current: map<nat, nat>, link: LinkId, state: LinkState) {
    && link.id in current && 0 < link.generation <= current[link.id]
    && state.supersededBy == if link.generation < current[link.id] then Some(current[link.id]) else None
  }

  ghost predicate LinksInv(links: map<LinkId, LinkState>, current: map<nat, nat>) {
    && (forall k :: k in links ==> MarkedRight(current, k, links[k]))
    && (forall id :: id in current ==> LinkId(id, current[id]) in links)
  }

  ghost predicate EvictedInv(r: Registry) {
    forall k :: k in r.evicted ==> k.id in r.current && k.generation < r.current[k.id]
  }

  ghost predicate Inv(b: Bounds, r: Registry) {
    GenerationsInv(b, r.current, r.generations) && LinksInv(r.links, r.current) && EvictedInv(r)
  }

  /** One link gets a new current generation and a list that ends in it. */
  lemma GenerationsUpdated(b: Bounds, current: map<nat, nat>, generations: map<nat, seq<nat>>, id: nat, generation: nat,
                           gens: seq<nat>)
    requires GenerationsInv(b, current, generations) && ListInv(b, gens, generation)
    requires id in current || |current| < b.maxLinks
    ensures GenerationsInv(b, current[id := generation], generations[id := gens])
  {
    var after := current[id := generation];
    assert after.Keys == current.Keys + {id} && generations[id := gens].Keys == generations.Keys + {id};
    assert |after.Keys| <= b.maxLinks by {
      if id in current {
        assert after.Keys == current.Keys;
      }
    }
  }

  /** The list after a promotion, and what has to go from it. */
  lemma PromotedList(b: Bounds, before: seq<nat>, generation: nat)
    requires ValidBounds(b) && |before| <= b.maxGenerations && Increasing(before)
    requires forall g :: g in before ==> g < generation
    ensures generation !in before
    ensures var gens := before + [generation]; ListInv(b, gens[Surplus(b, gens)..], generation)
    ensures var gens := before + [generation]; forall g :: g in gens[..Surplus(b, gens)] ==> g < generation
  {
    var gens := before + [generation];
    assert forall i :: 0 <= i < |before| ==> before[i] in before;
    assert Increasing(gens);
    assert forall i :: 0 <= i < Surplus(b, gens) ==> gens[i] < gens[|gens| - 1];
  }

  function ListOf(r: Registry, id: nat): seq<nat> { if id in r.generations then r.generations[id] else [] }

  /** What is known of a list before its link is promoted. */
  lemma ListBelow(b: Bounds, r: Registry, id: nat, generation: nat)
    requires GenerationsInv(b, r.current, r.generations) && (id in r.current ==> r.current[id] < generation)
    ensures |ListOf(r, id)| <= b.maxGenerations && Increasing(ListOf(r, id))
    ensures forall g :: g in ListOf(r, id) ==> g < generation
  {
    if id in r.generations {
      assert id in r.current.Keys;
      var gens := r.generations[id];
      assert ListInv(b, gens, r.current[id]);
      forall g | g in gens
        ensures g < generation
      {
        var i :| 0 <= i < |gens| && gens[i] == g;
        assert i == |gens| - 1 || gens[i] < gens[|gens| - 1];
      }
    }
  }

  lemma PromoteGenerations(b: Bounds, r: Registry, id: nat, generation: nat, at: Stamp)
    requires ValidBounds(b) && GenerationsInv(b, r.current, r.generations)
    requires if id in r.current then r.current[id] < generation else |r.current| < b.maxLinks
    ensures var r' := Promote(b, r, id, generation, at); GenerationsInv(b, r'.current, r'.generations)
  {
    ListBelow(b, r, id, generation);
    PromotedList(b, ListOf(r, id), generation);
    var gens := ListOf(r, id) + [generation];
    GenerationsUpdated(b, r.current, r.generations, id, generation, gens[Surplus(b, gens)..]);
  }

  /** The generations dropped by a promotion are older than the new one. */
  lemma PromoteDrops(b: Bounds, r: Registry, id: nat, generation: nat)
    requires ValidBounds(b) && GenerationsInv(b, r.current, r.generations) &&
        (id in r.current ==> r.current[id] < generation)
    ensures generation !in ListOf(r, id)
    ensures
      var gens := ListOf(r, id) + [generation];
      forall k :: k in Ids(id, gens[..Surplus(b, gens)]) ==> k.id == id && k.generation < generation
  {
    ListBelow(b, r, id, generation);
    PromotedList(b, ListOf(r, id), generation);
  }

  lemma PromoteEvicts(b: Bounds, r: Registry, id: nat, generation: nat, at: Stamp)
    requires ValidBounds(b) && Inv(b, r) && (id in r.current ==> r.current[id] < generation)
    ensures EvictedInv(Promote(b, r, id, generation, at))
  {
    PromoteDrops(b, r, id, generation);
  }

  lemma PromoteLinks(b: Bounds, r: Registry, id: nat, generation: nat, at: Stamp)
    requires ValidBounds(b) && Inv(b, r) && generation > 0 && (id in r.current ==> r.current[id] < generation)
    ensures var r' := Promote(b, r, id, generation, at); LinksInv(r'.links, r'.current)
  {
    PromoteDrops(b, r, id, generation);
    var r' := Promote(b, r, id, generation, at);
    assert LinkId(id, generation) !in r.links;
    forall k | k in r'.links
      ensures MarkedRight(r'.current, k, r'.links[k])
    {
      if k != LinkId(id, generation) {
        assert MarkedRight(r.current, k, r.links[k]);
      }
    }
  }

  lemma AdvanceKeeps(b: Bounds, r: Registry, id: nat, generation: nat, at: Stamp)
    requires ValidBounds(b) && Inv(b, r)
    ensures Inv(b, Advance(b, r, id, generation, at))
  {
    if AdvanceStatus(b, r, id, generation) == Ok && !(id in r.current && generation == r.current[id]) {
      PromoteGenerations(b, r, id, generation, at);
      PromoteLinks(b, r, id, generation, at);
      PromoteEvicts(b, r, id, generation, at);
    }
  }

  lemma NoteKeeps(b: Bounds, r: Registry, link: LinkId, at: Stamp)
    requires Inv(b, r) && link.id in r.current && 0 < link.generation <= r.current[link.id]
    ensures Inv(b, NoteEvidence(r, link, at))
  {
    var r' := NoteEvidence(r, link, at);
    forall k | k in r'.links
      ensures MarkedRight(r'.current, k, r'.links[k])
    {
      if k in r.links {
        assert MarkedRight(r.current, k, r.links[k]);
      }
    }
  }

  /** The first observation of a link puts it in every table at once. */
  lemma FirstKeeps(b: Bounds, r: Registry, link: LinkId, at: Stamp)
    requires ValidBounds(b) && Inv(b, r) && link.id !in r.current && |r.current| < b.maxLinks && link.generation != 0
    ensures Inv(b, Observe(b, r, link, at))
  {
    FirstShape(b, r, link, at);
    FirstInv(b, r, link, LinkState(at, 1, None));
  }

  lemma FirstInv(b: Bounds, r: Registry, link: LinkId, state: LinkState)
    requires ValidBounds(b) && Inv(b, r) && link.id !in r.current && |r.current| < b.maxLinks && link.generation != 0
    requires state.supersededBy == None
    ensures Inv(b, Registry(r.links[link := state], r.current[link.id := link.generation],
                            r.generations[link.id := [link.generation]], r.evicted))
  {
    GenerationsUpdated(b, r.current, r.generations, link.id, link.generation, [link.generation]);
    FirstLinks(r, link, state);
  }

  lemma FirstShape(b: Bounds, r: Registry, link: LinkId, at: Stamp)
    requires Inv(b, r) && link.id !in r.current && ObserveStatus(b, r, link) == Ok
    ensures Observe(b, r, link, at)
         == Registry(r.links[link := LinkState(at, 1, None)], r.current[link.id := link.generation],
                     r.generations[link.id := [link.generation]], r.evicted)
  {
    assert link.id !in r.generations.Keys && link !in r.links;
    assert [] + [link.generation] == [link.generation];
  }

  lemma FirstLinks(r: Registry, link: LinkId, state: LinkState)
    requires LinksInv(r.links, r.current) && link.id !in r.current && state.supersededBy == None && link.generation > 0
    ensures LinksInv(r.links[link := state], r.current[link.id := link.generation])
  {
    var links, current := r.links[link := state], r.current[link.id := link.generation];
    forall k | k in links
      ensures MarkedRight(current, k, links[k])
    {
      if k != link {
        assert MarkedRight(r.current, k, r.links[k]);
      }
    }
  }

  lemma StepKeeps(b: Bounds, r: Registry, op: Op)
    requires ValidBounds(b) && Inv(b, r)
    ensures Inv(b, Do(b, r, op))
  {
    match op
    case Observed(link, at) =>
      if ObserveStatus(b, r, link) == Ok {
        if link.id !in r.current {
          FirstKeeps(b, r, link, at);
        } else {
          AdvanceKeeps(b, r, link.id, link.generation, at);
          if link.generation > r.current[link.id] {
            NoteKeeps(b, Advance(b, r, link.id, link.generation, at), link, at);
          } else {
            NoteKeeps(b, r, link, at);
          }
        }
      }
    case Advanced(id, generation, at) => AdvanceKeeps(b, r, id, generation, at);
    case TakeEvicted =>
  }

  /** Every reachable registry keeps the invariant. */
  lemma {:induction false} RunKeeps(b: Bounds, ops: seq<Op>)
    requires ValidBounds(b)
    ensures Inv(b, Run(b, ops))
  {
    if ops != [] {
      RunKeeps(b, ops[..|ops| - 1]);
      StepKeeps(b, Run(b, ops[..|ops| - 1]), ops[|ops| - 1]);
    }
  }

  lemma CurrentStep(b: Bounds, r: Registry, op: Op, id: nat)
    requires id in r.current
    ensures var r' := Do(b, r, op); id in r'.current && r.current[id] <= r'.current[id]
  {
  }

  lemma CurrentKept(b: Bounds, r: Registry, id: nat)
    requires Inv(b, r) && id in r.current
    ensures LinkId(id, r.current[id]) !in r.evicted && r.current[id] in r.generations[id]
    ensures LinkId(id, r.current[id]) in r.links && r.links[LinkId(id, r.current[id])].supersededBy == None
  {
    assert ListInv(b, r.generations[id], r.current[id]);
    assert MarkedRight(r.current, LinkId(id, r.current[id]), r.links[LinkId(id, r.current[id])]);
  }

  lemma {:induction false} CurrentGrows(b: Bounds, ops: seq<Op>, k: nat, id: nat)
    requires k <= |ops| && id in Run(b, ops[..k]).current
    ensures id in Run(b, ops).current && Run(b, ops[..k]).current[id] <= Run(b, ops).current[id]
  {
    if k == |ops| {
      assert ops[..k] == ops;
    } else {
      var n := |ops| - 1;
      var front := ops[..n];
      assert front[..k] == ops[..k];
      CurrentGrows(b, front, k, id);
      CurrentStep(b, Run(b, front), ops[n], id);
      assert Run(b, ops) == Do(b, Run(b, front), ops[n]);
    }
  }

  /** The current generation of a link never falls, stays registered, and is never among the evicted. */
  lemma {:induction false} CurrentNeverFalls(b: Bounds, ops: seq<Op>, k: nat, id: nat)
    requires ValidBounds(b) && k <= |ops| && id in Run(b, ops[..k]).current
    ensures
      var early, late := Run(b, ops[..k]), Run(b, ops);
      && id in late.current && early.current[id] <= late.current[id]
      && LinkId(id, late.current[id]) in late.links && LinkId(id, late.current[id]) !in late.evicted
  {
    CurrentGrows(b, ops, k, id);
    RunKeeps(b, ops);
    CurrentKept(b, Run(b, ops), id);
  }

  // --------------------------------------------------------- what a run is told

  /** The operation speaks of this generation of the link, as evidence or as an announcement. */
  predicate Names(op: Op, id: nat, generation: nat) {
    (op.Observed? && op.link == LinkId(id, generation)) || (op.Advanced? && op.id == id && op.generation == generation)
  }

  ghost predicate Registered(b: Bounds, ops: seq<Op>, k: nat, id: nat)
    requires k <= |ops|
  {
    id in Run(b, ops[..k]).current
  }

  /** A registered link, and an operation that names a generation of it. */
  ghost predicate HeardAt(b: Bounds, ops: seq<Op>, i: nat, id: nat, generation: nat) {
    i < |ops| && Names(ops[i], id, generation) && Registered(b, ops, i + 1, id)
  }

  lemma HeardLonger(b: Bounds, ops: seq<Op>, op: Op, i: nat, id: nat, generation: nat)
    requires HeardAt(b, ops, i, id, generation)
    ensures HeardAt(b, ops + [op], i, id, generation)
  {
    assert (ops + [op])[..i + 1] == ops[..i + 1];
  }

  lemma StepNames(b: Bounds, r: Registry, op: Op, id: nat)
    requires id in Do(b, r, op).current
    ensures (id in r.current && Do(b, r, op).current[id] == r.current[id]) || Names(op, id, Do(b, r, op).current[id])
  {
  }

  /** The current generation was named. */
  lemma {:induction false} CurrentHeard(b: Bounds, ops: seq<Op>, id: nat) returns (i: nat)
    requires id in Run(b, ops).current
    ensures HeardAt(b, ops, i, id, Run(b, ops).current[id])
  {
    var n := |ops| - 1;
    var front := ops[..n];
    assert ops == front + [ops[n]] && ops[..n + 1] == ops;
    StepNames(b, Run(b, front), ops[n], id);
    if Names(ops[n], id, Run(b, ops).current[id]) {
      i := n;
    } else {
      i := CurrentHeard(b, front, id);
      HeardLonger(b, front, ops[n], i, id, Run(b, ops).current[id]);
    }
  }

  lemma StepRaises(b: Bounds, r: Registry, op: Op, id: nat, generation: nat)
    requires Names(op, id, generation) && generation > 0 && id in Do(b, r, op).current
    ensures Do(b, r, op).current[id] >= generation
  {
  }

  lemma HeardBelow(b: Bounds, ops: seq<Op>, i: nat, id: nat, generation: nat)
    requires HeardAt(b, ops, i, id, generation) && generation > 0
    ensures id in Run(b, ops).current && generation <= Run(b, ops).current[id]
  {
    assert ops[..i + 1][..i] == ops[..i];
    StepRaises(b, Run(b, ops[..i]), ops[i], id, generation);
    CurrentGrows(b, ops, i + 1, id);
  }

  /** The current generation of a link is the newest one named since it was registered. */
  lemma CurrentIsNewest(b: Bounds, ops: seq<Op>, id: nat)
    requires id in Run(b, ops).current
    ensures exists i :: HeardAt(b, ops, i, id, Run(b, ops).current[id])
    ensures forall i, g: nat :: g > 0 && HeardAt(b, ops, i, id, g) ==> g <= Run(b, ops).current[id]
  {
    var k := CurrentHeard(b, ops, id);
    forall i, g: nat | g > 0 && HeardAt(b, ops, i, id, g)
      ensures g <= Run(b, ops).current[id]
    {
      HeardBelow(b, ops, i, id, g);
    }
  }

  ghost predicate NewerHeard(b: Bounds, ops: seq<Op>, id: nat, generation: nat) {
    exists i: nat, g: nat :: HeardAt(b, ops, i, id, g) && g > generation
  }

  ghost predicate NeverRegistered(b: Bounds, ops: seq<Op>, id: nat) {
    forall k: nat :: k <= |ops| ==> !Registered(b, ops, k, id)
  }

  lemma NeverExactly(b: Bounds, ops: seq<Op>, id: nat)
    ensures NeverRegistered(b, ops, id) <==> id !in Run(b, ops).current
  {
    if id in Run(b, ops).current {
      assert ops[..|ops|] == ops && Registered(b, ops, |ops|, id);
    } else {
      forall k: nat | k <= |ops|
        ensures !Registered(b, ops, k, id)
      {
        if Registered(b, ops, k, id) {
          CurrentGrows(b, ops, k, id);
        }
      }
    }
  }

  lemma FencedExactly(b: Bounds, ops: seq<Op>, id: nat, generation: nat)
    requires generation > 0
    ensures AdvanceStatus(b, Run(b, ops), id, generation) == Fenced <==> NewerHeard(b, ops, id, generation)
  {
    if AdvanceStatus(b, Run(b, ops), id, generation) == Fenced {
      var i := CurrentHeard(b, ops, id);
    }
    if NewerHeard(b, ops, id, generation) {
      var i: nat, g: nat :| HeardAt(b, ops, i, id, g) && g > generation;
      HeardBelow(b, ops, i, id, g);
    }
  }

  /**
   After any run an announcement is fenced if and only if a newer generation of the link
   was named, and evidence never is; both are turned away for want of room if and only if
   the link was never registered and the links are as many as there may be.
   */
  lemma StatusExactly(b: Bounds, ops: seq<Op>, id: nat, generation: nat)
    ensures
      var r := Run(b, ops);
      var status, observed := AdvanceStatus(b, r, id, generation), ObserveStatus(b, r, LinkId(id, generation));
      && (status == Invalid <==> generation == 0) && (observed == Invalid <==> generation == 0)
      && (status == Fenced <==> generation > 0 && NewerHeard(b, ops, id, generation)) && observed != Fenced
      && (status == LimitExceeded <==>
            generation > 0 && NeverRegistered(b, ops, id) && |r.current| >= b.maxLinks)
      && (observed == LimitExceeded <==>
            generation > 0 && NeverRegistered(b, ops, id) && |r.current| >= b.maxLinks)
  {
    NeverExactly(b, ops, id);
    if generation > 0 {
      FencedExactly(b, ops, id, generation);
    }
  }

  // ------------------------------------------------- when the links are bounded

  /** Every registered link is in the list of its generations. */
  ghost predicate Listed(r: Registry) {
    forall k :: k in r.links ==> k.generation in ListOf(r, k.id)
  }

  /** Evidence for an older generation that its list does not hold, or not any more. */
  ghost predicate IsLate(b: Bounds, r: Registry, op: Op) {
    && op.Observed? && ObserveStatus(b, r, op.link) == Ok && op.link.id in r.current
    && op.link.generation < r.current[op.link.id] && op.link.generation !in ListOf(r, op.link.id)
  }

  /** What is not dropped from the front of a list is in the rest of it. */
  lemma NotDropped(id: nat, gens: seq<nat>, n: nat, g: nat)
    requires n <= |gens| && g in gens && LinkId(id, g) !in Ids(id, gens[..n])
    ensures g in gens[n..]
  {
    DroppedOrKept(gens, n, g);
    if g in gens[..n] {
      InIdsOf(id, gens[..n], g);
    }
  }

  lemma DroppedOrKept(gens: seq<nat>, n: nat, g: nat)
    requires n <= |gens| && g in gens
    ensures g in gens[..n] || g in gens[n..]
  {
    assert gens == gens[..n] + gens[n..];
  }

  lemma InIdsOf(id: nat, gens: seq<nat>, g: nat)
    requires g in gens
    ensures LinkId(id, g) in Ids(id, gens)
  {
    var i :| 0 <= i < |gens| && gens[i] == g;
    assert Ids(id, gens)[i] == LinkId(id, g);
  }

  /** The lists and links after a promotion. */
  lemma PromoteShape(b: Bounds, r: Registry, id: nat, generation: nat, at: Stamp)
    requires ValidBounds(b) && GenerationsInv(b, r.current, r.generations) &&
        (id in r.current ==> r.current[id] < generation)
    ensures
      var r', gens := Promote(b, r, id, generation, at), ListOf(r, id) + [generation];
      var n := Surplus(b, gens);
      && ListOf(r', id) == gens[n..] && generation in gens[n..]
      && (forall other :: other != id ==> ListOf(r', other) == ListOf(r, other))
      && (forall k :: k in r'.links ==> k == LinkId(id, generation) || (k in r.links && k !in Ids(id, gens[..n])))
  {
    PromoteDrops(b, r, id, generation);
    LastStays(b, ListOf(r, id), generation);
  }

  lemma LastStays(b: Bounds, before: seq<nat>, generation: nat)
    requires ValidBounds(b)
    ensures var gens := before + [generation]; generation in gens[Surplus(b, gens)..]
  {
    var gens := before + [generation];
    var kept := gens[Surplus(b, gens)..];
    assert kept[|kept| - 1] == generation;
  }

  lemma PromoteListed(b: Bounds, r: Registry, id: nat, generation: nat, at: Stamp)
    requires ValidBounds(b) && Inv(b, r) && Listed(r) && (id in r.current ==> r.current[id] < generation)
    ensures Listed(Promote(b, r, id, generation, at))
  {
    PromoteShape(b, r, id, generation, at);
    var r', gens := Promote(b, r, id, generation, at), ListOf(r, id) + [generation];
    forall k | k in r'.links
      ensures k.generation in ListOf(r', k.id)
    {
      if k.id == id && k.generation != generation {
        NotDropped(id, gens, Surplus(b, gens), k.generation);
      }
    }
  }

  lemma AdvanceListed(b: Bounds, r: Registry, id: nat, generation: nat, at: Stamp)
    requires ValidBounds(b) && Inv(b, r) && Listed(r)
    ensures Listed(Advance(b, r, id, generation, at))
  {
    if AdvanceStatus(b, r, id, generation) == Ok && !(id in r.current && generation == r.current[id]) {
      PromoteListed(b, r, id, generation, at);
    }
  }

  /** Noting evidence keeps every link listed if and only if the link is. */
  lemma NoteListed(r: Registry, link: LinkId, at: Stamp)
    requires Listed(r)
    ensures Listed(NoteEvidence(r, link, at)) <==> link.generation in ListOf(r, link.id)
  {
    var r' := NoteEvidence(r, link, at);
    assert link in r'.links && r'.generations == r.generations;
  }

  lemma CurrentListed(b: Bounds, r: Registry, id: nat)
    requires Inv(b, r) && id in r.current
    ensures r.current[id] in ListOf(r, id)
  {
    assert id in r.generations.Keys;
    assert ListInv(b, r.generations[id], r.current[id]);
  }

  lemma ObserveListed(b: Bounds, r: Registry, link: LinkId, at: Stamp)
    requires ValidBounds(b) && Inv(b, r) && Listed(r) && ObserveStatus(b, r, link) == Ok && link.id in r.current
    ensures Listed(Observe(b, r, link, at)) <==> !IsLate(b, r, Observed(link, at))
  {
    if link.generation > r.current[link.id] {
      var r' := Advance(b, r, link.id, link.generation, at);
      AdvanceListed(b, r, link.id, link.generation, at);
      AdvanceKeeps(b, r, link.id, link.generation, at);
      CurrentListed(b, r', link.id);
      NoteListed(r', link, at);
    } else {
      CurrentListed(b, r, link.id);
      NoteListed(r, link, at);
    }
  }

  lemma FirstListed(b: Bounds, r: Registry, link: LinkId, at: Stamp)
    requires ValidBounds(b) && Inv(b, r) && Listed(r) && link.id !in r.current && ObserveStatus(b, r, link) == Ok
    ensures Listed(Observe(b, r, link, at))
  {
    var r' := Observe(b, r, link, at);
    assert forall k :: k in r.links ==> MarkedRight(r.current, k, r.links[k]);
    forall k | k in r'.links
      ensures k.generation in ListOf(r', k.id)
    {
      if k.id != link.id {
        assert k in r.links && ListOf(r', k.id) == ListOf(r, k.id);
      }
    }
  }

  /** A step keeps every registered link listed if and only if it is not such late evidence. */
  lemma StepListed(b: Bounds, r: Registry, op: Op)
    requires ValidBounds(b) && Inv(b, r) && Listed(r)
    ensures Listed(Do(b, r, op)) <==> !IsLate(b, r, op)
  {
    match op
    case Observed(link, at) =>
      if ObserveStatus(b, r, link) == Ok {
        if link.id in r.current {
          ObserveListed(b, r, link, at);
        } else {
          FirstListed(b, r, link, at);
        }
      }
    case Advanced(id, generation, at) => AdvanceListed(b, r, id, generation, at);
    case TakeEvicted =>
  }

  ghost predicate NeverLate(b: Bounds, ops: seq<Op>) {
    forall i :: 0 <= i < |ops| ==> !IsLate(b, Run(b, ops[..i]), ops[i])
  }

  lemma NeverLateFront(b: Bounds, ops: seq<Op>)
    requires NeverLate(b, ops) && ops != []
    ensures NeverLate(b, ops[..|ops| - 1]) && !IsLate(b, Run(b, ops[..|ops| - 1]), ops[|ops| - 1])
  {
    var front := ops[..|ops| - 1];
    forall i | 0 <= i < |front|
      ensures !IsLate(b, Run(b, front[..i]), front[i])
    {
      assert front[..i] == ops[..i];
    }
  }

  lemma {:induction false} RunListed(b: Bounds, ops: seq<Op>)
    requires ValidBounds(b) && NeverLate(b, ops)
    ensures Listed(Run(b, ops))
  {
    if ops != [] {
      NeverLateFront(b, ops);
      RunListed(b, ops[..|ops| - 1]);
      RunKeeps(b, ops[..|ops| - 1]);
      StepListed(b, Run(b, ops[..|ops| - 1]), ops[|ops| - 1]);
    }
  }

  // Links of the given identities whose generations the given lists hold.
  ghost predicate Drawn(keys: set<LinkId>, ids: set<nat>, generations: map<nat, seq<nat>>, size: nat) {
    && (forall id :: id in ids ==> id in generations && |generations[id]| <= size)
    && (forall k :: k in keys ==> k.id in ids && k.id in generations && k.generation in generations[k.id])
  }

  lemma {:induction false} DrawnFromOne(keys: set<LinkId>, id: nat, gens: seq<nat>)
    requires forall k :: k in keys ==> k.id == id && k.generation in gens
    ensures |keys| <= |gens|
    decreases |gens|
  {
    if gens == [] {
      assert keys == {};
    } else {
      var n := |gens| - 1;
      var one := LinkId(id, gens[n]);
      assert gens == gens[..n] + [gens[n]];
      DrawnFromOne(keys - {one}, id, gens[..n]);
      assert keys <= (keys - {one}) + {one};
      assert |keys| <= |keys - {one}| + 1;
    }
  }

  lemma {:induction false} DrawnBound(keys: set<LinkId>, ids: set<nat>, generations: map<nat, seq<nat>>, size: nat)
    requires Drawn(keys, ids, generations, size)
    ensures |keys| <= |ids| * size
    decreases |ids|
  {
    if ids == {} {
      assert keys == {};
    } else {
      var id :| id in ids;
      SplitSize(keys, id);
      DrawnFromOne(OfLink(keys, id), id, generations[id]);
      DrawnBound(keys - OfLink(keys, id), ids - {id}, generations, size);
      OneMore(|ids - {id}|, size);
      assert |ids| == |ids - {id}| + 1;
    }
  }

  function OfLink(keys: set<LinkId>, id: nat): set<LinkId> { set k | k in keys && k.id == id }

  lemma SplitSize(keys: set<LinkId>, id: nat)
    ensures |keys| == |OfLink(keys, id)| + |keys - OfLink(keys, id)|
  {
    assert keys == OfLink(keys, id) + (keys - OfLink(keys, id));
  }

  lemma OneMore(n: nat, size: nat)
    ensures (n + 1) * size == n * size + size
  {
  }

  /** Without such evidence the links are bounded as configured. */
  lemma LinksBounded(b: Bounds, ops: seq<Op>)
    requires ValidBounds(b) && NeverLate(b, ops)
    ensures |Run(b, ops).links| <= b.maxLinks * b.maxGenerations
  {
    var r := Run(b, ops);
    RunListed(b, ops);
    RunKeeps(b, ops);
    RegistryDrawn(b, r);
    DrawnBound(r.links.Keys, r.current.Keys, r.generations, b.maxGenerations);
    MoreTimes(|r.current.Keys|, b.maxLinks, b.maxGenerations);
  }

  lemma RegistryDrawn(b: Bounds, r: Registry)
    requires Inv(b, r) && Listed(r)
    ensures Drawn(r.links.Keys, r.current.Keys, r.generations, b.maxGenerations) && |r.current.Keys| <= b.maxLinks
  {
    forall id | id in r.current.Keys
      ensures id in r.generations && |r.generations[id]| <= b.maxGenerations
    {
      assert id in r.generations.Keys;
      assert ListInv(b, r.generations[id], r.current[id]);
    }
    forall k | k in r.links.Keys
      ensures k.id in r.current.Keys && k.id in r.generations && k.generation in r.generations[k.id]
    {
      assert MarkedRight(r.current, k, r.links[k]);
      assert k.id in r.generations.Keys;
    }
  }

  lemma MoreTimes(a: nat, b: nat, c: nat)
    requires a <= b
    ensures a * c <= b * c
  {
  }

  // ------------------------------------------------- what the bound does not cover

  /** Late evidence in order of generation, after one that is newer than all of it. */
  function Late(n: nat, top: nat, at: Stamp): (ops: seq<Op>) {
    if n == 0 then [Observed(LinkId(0, top), at)] else Late(n - 1, top, at) + [Observed(LinkId(0, n), at)]
  }

  lemma LateStep(b: Bounds, r: Registry, top: nat, n: nat, at: Stamp)
    requires r.current == map[0 := top] && 0 < n < top && LinkId(0, n) !in r.links
    ensures
      var r' := Observe(b, r, LinkId(0, n), at);
      r'.current == r.current && r'.links.Keys == r.links.Keys + {LinkId(0, n)} && |r'.links| == |r.links| + 1
  {
    var r' := Observe(b, r, LinkId(0, n), at);
    assert r'.links.Keys == r.links.Keys + {LinkId(0, n)};
  }

  lemma RunNext(b: Bounds, ops: seq<Op>, op: Op)
    ensures Run(b, ops + [op]) == Do(b, Run(b, ops), op)
  {
    assert (ops + [op])[..|ops|] == ops;
  }

  lemma LateFirst(b: Bounds, top: nat, at: Stamp)
    requires ValidBounds(b) && 0 < top
    ensures
      var r := Observe(b, EmptyRegistry, LinkId(0, top), at);
      r.current == map[0 := top] && r.links.Keys == {LinkId(0, top)} && |r.links| == 1
  {
    var r := Observe(b, EmptyRegistry, LinkId(0, top), at);
    assert r.links == map[LinkId(0, top) := LinkState(at, 1, None)];
    assert r.links.Keys == {LinkId(0, top)};
  }

  /** One link at generation top, and n older generations registered. */
  ghost predicate LateShape(r: Registry, n: nat, top: nat) {
    && r.current == map[0 := top] && |r.links| == n + 1
    && forall k :: k in r.links.Keys ==> k == LinkId(0, top) || (k.id == 0 && k.generation <= n)
  }

  lemma LateNext(b: Bounds, r: Registry, n: nat, top: nat, at: Stamp)
    requires LateShape(r, n, top) && n + 1 < top
    ensures LateShape(Observe(b, r, LinkId(0, n + 1), at), n + 1, top)
  {
    assert LinkId(0, n + 1) !in r.links.Keys;
    LateStep(b, r, top, n + 1, at);
  }

  lemma {:induction false} LateRun(b: Bounds, n: nat, top: nat, at: Stamp)
    requires ValidBounds(b) && n < top
    ensures LateShape(Run(b, Late(n, top, at)), n, top)
  {
    if n == 0 {
      LateFirst(b, top, at);
      assert [] + [Observed(LinkId(0, top), at)] == Late(0, top, at);
      RunNext(b, [], Observed(LinkId(0, top), at));
    } else {
      LateRun(b, n - 1, top, at);
      LateNext(b, Run(b, Late(n - 1, top, at)), n - 1, top, at);
      RunNext(b, Late(n - 1, top, at), Observed(LinkId(0, n), at));
    }
  }

  /**
   Only the lists of generations are bounded. Late evidence for generations no list
   holds any more is registered again, so the links themselves grow without bound.
   */
  lemma LateEvidenceUnbounded(b: Bounds, size: nat, at: Stamp)
    requires ValidBounds(b)
    ensures exists ops :: |Run(b, ops).links| > size && |Run(b, ops).current| == 1
  {
    LateRun(b, size, size + 1, at);
    assert |Run(b, Late(size, size + 1, at)).current| == 1;
  }
}
