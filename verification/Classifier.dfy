/**
 What the evidence for a link supports: fresh candidates of one lane, agreement among
 the most authoritative of them, the band their value falls in.

 Main results: `ConflictExactly` and `OnlyTopMatters`.
 */
module Classifier {
  import opened Optional
  import opened Evidence
  import opened Severity
  import opened Bands

  // ------------------------------------------------------------- authority

  datatype Candidate = Candidate(value: real, authority: nat, source: Source, sequence: nat)

  function MaxAuthority(cs: seq<Candidate>): (best: nat)
    ensures forall c :: c in cs ==> c.authority <= best
    ensures cs != [] ==> exists c :: c in cs && c.authority == best
  {
    if cs == [] then 0
    else
      var front, last := MaxAuthority(cs[..|cs| - 1]), cs[|cs| - 1];
      assert cs == cs[..|cs| - 1] + [last];
      if last.authority > front then assert last in cs; last.authority else front
  }

  function WithAuthority(cs: seq<Candidate>, best: nat): (winners: seq<Candidate>)
    ensures forall c :: c in winners <==> c in cs && c.authority == best
  {
    if cs == [] then []
    else
      var front, last := WithAuthority(cs[..|cs| - 1], best), cs[|cs| - 1];
      assert cs == cs[..|cs| - 1] + [last];
      if last.authority == best then front + [last] else front
  }

  function Winners(cs: seq<Candidate>): seq<Candidate> { WithAuthority(cs, MaxAuthority(cs)) }

  predicate Precedes(a: Candidate, b: Candidate) {
    a.source.id < b.source.id ||
    (a.source.id == b.source.id && a.source.incarnation < b.source.incarnation) ||
    (a.source == b.source && a.sequence < b.sequence)
  }

  /** The first of the winners by source. */
  function First(ws: seq<Candidate>): (c: Candidate)
    requires ws != []
    ensures c in ws && forall w :: w in ws ==> !Precedes(w, c)
  {
    if |ws| == 1 then ws[0]
    else
      var front, last := First(ws[..|ws| - 1]), ws[|ws| - 1];
      assert ws == ws[..|ws| - 1] + [last];
      if Precedes(last, front) then last else front
  }

  function Lowest(ws: seq<Candidate>): (x: real)
    requires ws != []
    ensures (forall w :: w in ws ==> x <= w.value) && exists w :: w in ws && w.value == x
  {
    var last := ws[|ws| - 1];
    assert ws == ws[..|ws| - 1] + [last] && last in ws;
    if |ws| == 1 then last.value
    else
      var front := Lowest(ws[..|ws| - 1]);
      if last.value < front then last.value else front
  }

  function Highest(ws: seq<Candidate>): (x: real)
    requires ws != []
    ensures (forall w :: w in ws ==> w.value <= x) && exists w :: w in ws && w.value == x
  {
    var last := ws[|ws| - 1];
    assert ws == ws[..|ws| - 1] + [last] && last in ws;
    if |ws| == 1 then last.value
    else
      var front := Highest(ws[..|ws| - 1]);
      if last.value > front then last.value else front
  }

  datatype Rule = Rule(bands: seq<Band>, tolerance: real)

  function Tolerance(rule: Option<Rule>): real { if rule.Some? then rule.value.tolerance else 0.0 }

  datatype Verdict = Disagreement | NoRule | NoBand | Banded(value: real, state: Quality)

  function Judge(cs: seq<Candidate>, rule: Option<Rule>): Verdict
    requires cs != []
  {
    JudgeWinners(Winners(cs), rule)
  }

  function JudgeWinners(ws: seq<Candidate>, rule: Option<Rule>): Verdict
    requires ws != []
  {
    Conclude(|ws| >= 2 && Highest(ws) - Lowest(ws) > Tolerance(rule), First(ws).value, rule)
  }

  function Conclude(conflict: bool, value: real, rule: Option<Rule>): Verdict {
    if conflict then Disagreement
    else if rule.None? then NoRule
    else
      match FirstFrom(rule.value.bands, Fin(value), 0)
      case None => NoBand
      case Some(i) => Banded(value, rule.value.bands[i].state)
  }

  // ------------------------------------------------------------ the loops

  method BestAuthority(cs: seq<Candidate>) returns (best: nat)
    ensures best == MaxAuthority(cs)
  {
    best := 0;
    for i := 0 to |cs|
      invariant best == MaxAuthority(cs[..i])
    {
      assert cs[..i + 1][..i] == cs[..i];
      if cs[i].authority > best {
        best := cs[i].authority;
      }
    }
    assert cs[..|cs|] == cs;
  }

  method KeepAuthority(cs: seq<Candidate>, best: nat) returns (winners: seq<Candidate>)
    ensures winners == WithAuthority(cs, best)
  {
    winners := [];
    for i := 0 to |cs|
      invariant winners == WithAuthority(cs[..i], best)
    {
      assert cs[..i + 1][..i] == cs[..i];
      if cs[i].authority == best {
        winners := winners + [cs[i]];
      }
    }
    assert cs[..|cs|] == cs;
  }

  method Judged(cs: seq<Candidate>, rule: Option<Rule>) returns (verdict: Verdict)
    requires cs != []
    ensures verdict == Judge(cs, rule)
  {
    var best := BestAuthority(cs);
    var winners := KeepAuthority(cs, best);
    var first := FirstBySource(winners);
    var lowest, highest := Spread(winners);
    if |winners| >= 2 && !(highest - lowest <= Tolerance(rule)) {
      return Disagreement;
    }
    if rule.None? {
      return NoRule;
    }
    var band := Classify(rule.value.bands, Fin(first.value));
    if band.None? {
      return NoBand;
    }
    return Banded(first.value, rule.value.bands[band.value].state);
  }

  method FirstBySource(ws: seq<Candidate>) returns (first: Candidate)
    requires ws != []
    ensures first == First(ws)
  {
    first := ws[0];
    for i := 1 to |ws|
      invariant first == First(ws[..i])
    {
      assert ws[..i + 1][..i] == ws[..i];
      if Precedes(ws[i], first) {
        first := ws[i];
      }
    }
    assert ws[..|ws|] == ws;
  }

  lemma SpreadNext(ws: seq<Candidate>, c: Candidate)
    requires ws != []
    ensures Lowest(ws + [c]) == if c.value < Lowest(ws) then c.value else Lowest(ws)
    ensures Highest(ws + [c]) == if c.value > Highest(ws) then c.value else Highest(ws)
  {
    assert (ws + [c])[..|ws|] == ws;
  }

  method Spread(ws: seq<Candidate>) returns (lowest: real, highest: real)
    requires ws != []
    ensures lowest == Lowest(ws) && highest == Highest(ws)
  {
    lowest, highest := ws[0].value, ws[0].value;
    for i := 1 to |ws|
      invariant lowest == Lowest(ws[..i]) && highest == Highest(ws[..i])
    {
      assert ws[..i + 1] == ws[..i] + [ws[i]];
      SpreadNext(ws[..i], ws[i]);
      if ws[i].value < lowest {
        lowest := ws[i].value;
      }
      if ws[i].value > highest {
        highest := ws[i].value;
      }
    }
    assert ws[..|ws|] == ws;
  }

  // ------------------------------------------------- what a verdict depends on

  /** Among the most authoritative candidates. */
  ghost predicate Top(cs: seq<Candidate>, c: Candidate) {
    c in cs && forall d :: d in cs ==> d.authority <= c.authority
  }

  ghost predicate Disagree(cs: seq<Candidate>, tolerance: real) {
    exists a, b :: Top(cs, a) && Top(cs, b) && a.value - b.value > tolerance
  }

  lemma WinnersAreTop(cs: seq<Candidate>)
    requires cs != []
    ensures Winners(cs) != [] && forall c :: c in Winners(cs) <==> Top(cs, c)
  {
    var best := MaxAuthority(cs);
    var c :| c in cs && c.authority == best;
    assert c in Winners(cs);
  }

  /** Two different values need two candidates. */
  lemma SpreadNeedsTwo(ws: seq<Candidate>)
    requires ws != [] && Highest(ws) > Lowest(ws)
    ensures |ws| >= 2
  {
  }

  /**
   A lane conflicts exactly when two of the most authoritative candidates differ by
   more than the tolerance; otherwise the value taken is within it of each of them.
   */
  lemma {:induction false} ConflictExactly(cs: seq<Candidate>, rule: Option<Rule>)
    requires cs != [] && Tolerance(rule) >= 0.0
    ensures Judge(cs, rule) == Disagreement <==> Disagree(cs, Tolerance(rule))
    ensures Judge(cs, rule).Banded? ==>
      forall c :: Top(cs, c) ==> -Tolerance(rule) <= Judge(cs, rule).value - c.value <= Tolerance(rule)
  {
    WinnersAreTop(cs);
    var ws, tolerance := Winners(cs), Tolerance(rule);
    if Highest(ws) - Lowest(ws) > tolerance {
      SpreadNeedsTwo(ws);
      var a :| a in ws && a.value == Highest(ws);
      var b :| b in ws && b.value == Lowest(ws);
      assert Top(cs, a) && Top(cs, b);
    } else {
      forall a, b | Top(cs, a) && Top(cs, b)
        ensures a.value - b.value <= tolerance
      {
        assert a in ws && b in ws;
      }
    }
  }

  ghost predicate DistinctSources(cs: seq<Candidate>) {
    forall a, b :: a in cs && b in cs && a.source == b.source ==> a == b
  }

  lemma FirstUnique(ws: seq<Candidate>, vs: seq<Candidate>)
    requires ws != [] && vs != [] && (forall c :: c in ws <==> c in vs) && DistinctSources(ws)
    ensures First(ws) == First(vs)
  {
    var a, b := First(ws), First(vs);
    assert a in ws && b in ws && a in vs && b in vs;
    assert !Precedes(a, b) && !Precedes(b, a);
  }

  /** The spread, too, depends only on which candidates there are. */
  lemma SameSpread(ws: seq<Candidate>, vs: seq<Candidate>)
    requires ws != [] && vs != [] && forall c :: c in ws <==> c in vs
    ensures Highest(ws) == Highest(vs) && Lowest(ws) == Lowest(vs)
  {
    var high, low, high', low' := Highest(ws), Lowest(ws), Highest(vs), Lowest(vs);
    var a :| a in ws && a.value == high;
    var b :| b in vs && b.value == high';
    var c :| c in ws && c.value == low;
    var d :| d in vs && d.value == low';
    assert a in vs && b in ws && c in vs && d in ws;
  }

  /**
   Only the most authoritative candidates matter: the verdict is the same for any
   other list with the same ones, in any order, whatever less authoritative
   candidates either list holds.
   */
  lemma {:induction false} OnlyTopMatters(cs: seq<Candidate>, ds: seq<Candidate>, rule: Option<Rule>)
    requires cs != [] && ds != [] && Tolerance(rule) >= 0.0 && DistinctSources(cs)
    requires forall c :: Top(cs, c) <==> Top(ds, c)
    ensures Judge(cs, rule) == Judge(ds, rule)
  {
    WinnersAreTop(cs);
    WinnersAreTop(ds);
    SameWinners(Winners(cs), Winners(ds), rule);
  }

  lemma SameWinners(ws: seq<Candidate>, vs: seq<Candidate>, rule: Option<Rule>)
    requires ws != [] && vs != [] && Tolerance(rule) >= 0.0
    requires (forall c :: c in ws <==> c in vs) && DistinctSources(ws)
    ensures JudgeWinners(ws, rule) == JudgeWinners(vs, rule)
  {
    SameSpread(ws, vs);
    FirstUnique(ws, vs);
    if Highest(ws) - Lowest(ws) > Tolerance(rule) {
      SpreadNeedsTwo(ws);
      SpreadNeedsTwo(vs);
    }
  }
}
