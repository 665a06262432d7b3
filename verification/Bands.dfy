/**
 Threshold bands of a rule over the extended reals.

 Main result: `BandsPartition`: for bands listed in order, validation accepts them if
 and only if every value, both infinities included, lies in exactly one band.
 */
module Bands {
  import opened Optional
  import opened Severity

  // A double, rounding aside.
  datatype Extended = NegInf | Fin(value: real) | PosInf | NaN

  predicate Less(a: Extended, b: Extended) {
    match (a, b)
    case (NaN, _) => false
    case (_, NaN) => false
    case (Fin(x), Fin(y)) => x < y
    case (NegInf, _) => b != NegInf
    case (_, NegInf) => false
    case (_, PosInf) => a != PosInf
    case (PosInf, _) => false
  }

  datatype Band = Band(id: string, lower: Extended, upper: Option<Extended>, state: Quality)

  /** Lower bound included, upper bound excluded, no upper bound for the last. */
  predicate Contains(b: Band, v: Extended) {
    v != NaN && !Less(v, b.lower) && (b.upper.Some? ==> Less(v, b.upper.value))
  }

  /** The first band, from the given one on, that contains the value. */
  function FirstFrom(bands: seq<Band>, v: Extended, from: nat): (found: Option<nat>)
    requires from <= |bands|
    ensures found.Some? ==> from <= found.value < |bands| && Contains(bands[found.value], v)
    ensures found.Some? ==> forall i :: from <= i < found.value ==> !Contains(bands[i], v)
    ensures found.None? ==> forall i :: from <= i < |bands| ==> !Contains(bands[i], v)
    decreases |bands| - from
  {
    if from == |bands| then None else if Contains(bands[from], v) then Some(from) else FirstFrom(bands, v, from + 1)
  }

  method Classify(bands: seq<Band>, v: Extended) returns (found: Option<nat>)
    ensures found == FirstFrom(bands, v, 0)
  {
    if v == NaN {
      return None;
    }
    for i := 0 to |bands|
      invariant FirstFrom(bands, v, 0) == FirstFrom(bands, v, i)
    {
      if Contains(bands[i], v) {
        return Some(i);
      }
    }
    return None;
  }

  /** What a band must satisfy by itself. */
  predicate WellFormed(b: Band) {
    b.id != "" && b.lower != NaN && (b.upper.Some? ==> b.upper.value != NaN && Less(b.lower, b.upper.value))
  }

  ghost predicate DistinctIds(bands: seq<Band>) {
    forall i, j :: 0 <= i < j < |bands| ==> bands[i].id != bands[j].id
  }

  ghost predicate Joined(bands: seq<Band>) {
    forall i, j :: 0 <= i && j == i + 1 && j < |bands| ==> bands[i].upper == Some(bands[j].lower)
  }

  ghost predicate ValidBands(bands: seq<Band>, maxBands: nat) {
    && 0 < |bands| <= maxBands
    && (forall i :: 0 <= i < |bands| ==> WellFormed(bands[i]))
    && DistinctIds(bands)
    && bands[0].lower == NegInf && Joined(bands) && bands[|bands| - 1].upper == None
  }

  method ValidateBands(bands: seq<Band>, maxBands: nat) returns (ok: bool)
    ensures ok <==> ValidBands(bands, maxBands)
  {
    if |bands| == 0 || |bands| > maxBands {
      return false;
    }
    var ids: set<string> := {};
    for index := 0 to |bands|
      invariant forall i :: 0 <= i < index ==> WellFormed(bands[i])
      invariant forall id :: id in ids <==> exists i :: 0 <= i < index && bands[i].id == id
      invariant forall i, j :: 0 <= i < j < index ==> bands[i].id != bands[j].id
      invariant index > 0 ==> bands[0].lower == NegInf
      invariant forall i, j :: 0 <= i && j == i + 1 && j < index ==> bands[i].upper == Some(bands[j].lower)
    {
      var band := bands[index];
      if band.id == "" || band.id in ids {
        return false;
      }
      ids := ids + {band.id};
      if band.lower == NaN {
        return false;
      }
      if band.upper.Some? && (band.upper.value == NaN || !Less(band.lower, band.upper.value)) {
        return false;
      }
      if index == 0 {
        if band.lower != NegInf {
          return false;
        }
      } else {
        var previous := bands[index - 1];
        if previous.upper.None? || previous.upper.value != band.lower {
          return false;
        }
      }
    }
    return bands[|bands| - 1].upper.None?;
  }

  // ------------------------------------------------------------- exactly one band

  ghost predicate InExactlyOne(bands: seq<Band>, v: Extended) {
    exists i :: 0 <= i < |bands| && Contains(bands[i], v) &&
      forall j :: 0 <= j < |bands| && j != i ==> !Contains(bands[j], v)
  }

  ghost predicate Partitions(bands: seq<Band>) {
    forall v: Extended :: v != NaN ==> InExactlyOne(bands, v)
  }

  ghost predicate Sorted(bands: seq<Band>) {
    forall i, j :: 0 <= i < j < |bands| ==> Less(bands[i].lower, bands[j].lower)
  }

  lemma LessTransitive(a: Extended, b: Extended, c: Extended)
    requires Less(a, b) && Less(b, c)
    ensures Less(a, c)
  {
  }

  lemma {:induction false} JoinedSorted(bands: seq<Band>, i: nat, j: nat)
    requires (forall k :: 0 <= k < |bands| ==> WellFormed(bands[k])) && Joined(bands) && i < j < |bands|
    ensures Less(bands[i].lower, bands[j].lower)
    ensures bands[i].upper.Some? && !Less(bands[j].lower, bands[i].upper.value)
    decreases j - i
  {
    if j > i + 1 {
      JoinedSorted(bands, i, j - 1);
      JoinedSorted(bands, j - 1, j);
      LessTransitive(bands[i].lower, bands[j - 1].lower, bands[j].lower);
    }
  }

  /** Some band contains the value: the last one whose lower bound is not above it. */
  lemma {:induction false} FindBand(bands: seq<Band>, maxBands: nat, v: Extended, k: nat) returns (i: nat)
    requires ValidBands(bands, maxBands) && v != NaN && k < |bands|
    requires !Less(v, bands[k].lower)
    ensures i < |bands| && Contains(bands[i], v)
    decreases |bands| - k
  {
    if bands[k].upper.None? || Less(v, bands[k].upper.value) {
      i := k;
    } else {
      i := FindBand(bands, maxBands, v, k + 1);
    }
  }

  lemma OnlyOne(bands: seq<Band>, maxBands: nat, v: Extended, i: nat, j: nat)
    requires ValidBands(bands, maxBands) && i < |bands| && j < |bands| && i != j && Contains(bands[i], v)
    ensures !Contains(bands[j], v)
  {
    if i < j {
      JoinedSorted(bands, i, j);
    } else {
      JoinedSorted(bands, j, i);
    }
  }

  lemma ValidPartitions(bands: seq<Band>, maxBands: nat)
    requires ValidBands(bands, maxBands)
    ensures Partitions(bands) && Sorted(bands)
  {
    forall v: Extended | v != NaN
      ensures InExactlyOne(bands, v)
    {
      var i := FindBand(bands, maxBands, v, 0);
      forall j | 0 <= j < |bands| && j != i
        ensures !Contains(bands[j], v)
      {
        OnlyOne(bands, maxBands, v, i, j);
      }
    }
    forall i, j | 0 <= i < j < |bands|
      ensures Less(bands[i].lower, bands[j].lower)
    {
      JoinedSorted(bands, i, j);
    }
  }

  // -------------------------------------------------------------- the other way

  /** A band contains its own lower bound, so no earlier band may reach it. */
  lemma EarlierEnds(bands: seq<Band>, i: nat, j: nat)
    requires (forall k :: 0 <= k < |bands| ==> WellFormed(bands[k])) && Sorted(bands) && Partitions(bands)
    requires i < j < |bands|
    ensures bands[i].upper.Some? && !Less(bands[j].lower, bands[i].upper.value)
  {
    var v := bands[j].lower;
    assert Contains(bands[j], v);
    assert InExactlyOne(bands, v);
    assert Less(bands[i].lower, v);
    assert !Contains(bands[i], v);
  }

  lemma PartitionJoined(bands: seq<Band>, i: nat)
    requires (forall k :: 0 <= k < |bands| ==> WellFormed(bands[k])) && Sorted(bands) && Partitions(bands)
    requires i + 1 < |bands|
    ensures bands[i].upper == Some(bands[i + 1].lower)
  {
    EarlierEnds(bands, i, i + 1);
    var v := bands[i].upper.value;
    assert InExactlyOne(bands, v);
    var k :| 0 <= k < |bands| && Contains(bands[k], v);
    if k < i {
      EarlierEnds(bands, k, i);
      LessTransitive(bands[i].lower, v, bands[k].upper.value);
      assert false;
    }
    assert k > i;
    assert k == i + 1 || Less(bands[i + 1].lower, bands[k].lower);
    NotLess(v, bands[i + 1].lower, bands[k].lower);
  }

  lemma NotLess(v: Extended, a: Extended, b: Extended)
    requires v != NaN && a != NaN && b != NaN && !Less(v, b) && (a == b || Less(a, b)) && !Less(a, v)
    ensures v == a
  {
  }

  lemma PartitionEnds(bands: seq<Band>)
    requires (forall k :: 0 <= k < |bands| ==> WellFormed(bands[k])) && Sorted(bands) && Partitions(bands)
    ensures |bands| > 0 && bands[0].lower == NegInf && bands[|bands| - 1].upper == None
  {
    assert forall k :: 0 < k < |bands| ==> Less(bands[0].lower, bands[k].lower);
    assert InExactlyOne(bands, NegInf) && InExactlyOne(bands, PosInf);
    var i :| 0 <= i < |bands| && Contains(bands[i], NegInf);
    assert i == 0;
    var j :| 0 <= j < |bands| && Contains(bands[j], PosInf);
    if j < |bands| - 1 {
      EarlierEnds(bands, j, |bands| - 1);
      assert false;
    }
  }

  /**
   Bands that are well formed, within the limit, named apart and listed in order are
   accepted if and only if they partition the values.
   */
  lemma BandsPartition(bands: seq<Band>, maxBands: nat)
    requires (forall k :: 0 <= k < |bands| ==> WellFormed(bands[k])) && DistinctIds(bands) && |bands| <= maxBands
    ensures ValidBands(bands, maxBands) <==> Sorted(bands) && Partitions(bands)
  {
    if ValidBands(bands, maxBands) {
      ValidPartitions(bands, maxBands);
    }
    if Sorted(bands) && Partitions(bands) {
      PartitionEnds(bands);
      forall i, j | 0 <= i && j == i + 1 && j < |bands|
        ensures bands[i].upper == Some(bands[j].lower)
      {
        PartitionJoined(bands, i);
      }
    }
  }

  /** Classification under an accepted rule finds the one band of every value. */
  lemma ClassifiedOnce(bands: seq<Band>, maxBands: nat, v: Extended)
    requires ValidBands(bands, maxBands) && v != NaN
    ensures
      var found := FirstFrom(bands, v, 0);
      found.Some? && forall i :: 0 <= i < |bands| ==> (Contains(bands[i], v) <==> i == found.value)
  {
    ValidPartitions(bands, maxBands);
    assert InExactlyOne(bands, v);
  }
}
