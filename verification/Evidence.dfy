/** What the evidence store holds: observations of one stream each, and how they were received. */
module Evidence {
  import opened Optional
  import Counter

  datatype LinkId = LinkId(id: nat, generation: nat)

  datatype Source = Source(id: nat, incarnation: nat)

  // One link generation, metric, lane (or the link as a whole) and source incarnation.
  datatype Key = Key(link: LinkId, metric: nat, lane: Option<nat>, source: Source)

  datatype Sample =
    | Gauge(value: real, validity: int)
    | CounterSample(count: nat, width: Counter.Width, resetDeclared: bool)

  datatype Observation = Observation(
    key: Key,
    sequence: nat,
    sample: Sample,
    observed: int,
    authority: nat,
    provenance: nat)

  datatype Stamp = Stamp(wall: int, steady: int, epoch: nat)

  datatype Origin = Live | Recovered

  datatype Evidence = Stored(observation: Observation, received: Stamp, ordinal: nat, origin: Origin)

  // The digest of an observation's content is a parameter: nothing depends on how it is computed.
  datatype Limits = Limits(
    digest: Observation -> nat,
    window: nat,
    history: nat,
    streamsPerLink: nat,
    globalHistory: nat)

  predicate ValidLimits(limits: Limits) {
    1 <= limits.history <= limits.window && 1 <= limits.streamsPerLink && 1 <= limits.globalHistory
  }

  function CounterReading(o: Observation): Counter.Reading
    requires o.sample.CounterSample?
  {
    Counter.Reading(o.sample.count, o.sample.width, o.sample.resetDeclared, o.observed, o.sequence,
                    o.key.source.incarnation, o.key.link.generation)
  }
}
