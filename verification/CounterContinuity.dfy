/** The tracker object: readings come in one at a time and its fields change branch by branch. */
module CounterContinuity {
  import opened Bytes
  import opened Optional
  import opened Counter

  datatype Step = Step(event: Event, delta: Option<Delta>, continuityIntact: bool)

  class CounterContinuity {
    var hasBaseline: bool
    var last: Reading
    var identityBound: bool
    var event: Event
    var delta: Option<Delta>
    var rateAdmissible: bool
    var tally: Tally

    function State(): Tracker
      reads this
    {
      Tracker(hasBaseline, last, identityBound, event, delta, rateAdmissible, tally)
    }

    constructor ()
      ensures State() == NewTracker
    {
      hasBaseline, last, identityBound := false, NewTracker.last, false;
      event, delta, rateAdmissible, tally := Baseline, None, false, ZeroTally;
    }

    /** An event without a delta. Most make the reading the new baseline. */
    method Break(r: Reading, what: Event, cfg: Config)
      requires !Differences(what)
      modifies this
      ensures State() == Apply(old(State()), r, what, cfg)
    {
      tally := Count(tally, what, false, Missing(last.sequence, r.sequence));
      if what == OutOfRange {
        hasBaseline := false;
      } else if what != SequenceRegressed {
        hasBaseline, last, identityBound := true, r, true;
      }
      event, delta, rateAdmissible := what, None, false;
    }

    /** Takes the reading as the new baseline under an event that differences it. */
    method Accept(r: Reading, what: Event, proven: Option<Delta>, missing: nat)
      modifies this
      ensures State() == Tracker(true, r, true, what, proven, proven.Some? && !proven.value.spansGap,
        Count(old(tally), what, proven.Some? && proven.value.spansGap, missing))
    {
      tally := Count(tally, what, proven.Some? && proven.value.spansGap, missing);
      event, delta, rateAdmissible := what, proven, proven.Some? && !proven.value.spansGap;
      hasBaseline, last, identityBound := true, r, true;
    }

    /** A reading compared with its baseline: a delta, or a decrease that proves nothing. */
    method Difference(r: Reading, cfg: Config)
      modifies this
      ensures State() == Apply(old(State()), r,
        if r.value >= old(last).value then Advance
        else if WrapProven(old(last).value, r.value, r.width, cfg) then Wrap
        else DecreaseUnproven, cfg)
    {
      var missing := 0;
      if r.sequence > (last.sequence + 1) % U64 {
        missing := (r.sequence - last.sequence - 1) % U64;
      }
      assert missing == Missing(last.sequence, r.sequence);
      var elapsed := Elapsed(last.observed, r.observed);
      var gap := SpansGap(elapsed, cfg.maxGap);
      if r.value >= last.value {
        Accept(r, Advance, Some(Delta(r.value - last.value, elapsed, gap, false)), missing);
      } else if WrapProven(last.value, r.value, r.width, cfg) {
        Accept(r, Wrap, Some(Delta(WrapDelta(last.value, r.value, r.width), elapsed, gap, true)), missing);
      } else {
        Accept(r, DecreaseUnproven, None, missing);
      }
    }

    /** One reading: the event and delta reported, and the tracker that results. */
    method Observe(r: Reading, cfg: Config) returns (step: Step)
      modifies this
      ensures State() == Counter.Observe(old(State()), r, cfg)
      ensures step == Step(event, delta, event != OutOfRange && event != DecreaseUnproven)
    {
      if identityBound && r.incarnation != last.incarnation {
        Break(r, SourceReincarnated, cfg);
      } else if identityBound && r.generation != last.generation {
        Break(r, LinkGenerationChanged, cfg);
      } else if !InRange(r.value, r.width) {
        Break(r, OutOfRange, cfg);
      } else if hasBaseline && r.width != last.width {
        Break(r, WidthChanged, cfg);
      } else if hasBaseline && r.sequence < last.sequence {
        Break(r, SequenceRegressed, cfg);
      } else if r.resetDeclared {
        Break(r, Reset, cfg);
      } else if !hasBaseline {
        Break(r, Baseline, cfg);
      } else {
        Difference(r, cfg);
      }
      step := Step(event, delta, event != OutOfRange && event != DecreaseUnproven);
    }
  }
}
