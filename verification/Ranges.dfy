/** Ranges of 64-bit locations: the checks against a length, the counting loop, and combining.
    All arithmetic wraps around; the lemmas say what that means in unbounded integers. */
module Ranges {
  import opened Words

  datatype Range = Range(location: Word, length: Word)

  /** The length that stands for "up to the end". */
  const FULL: Word := TWO64 - 1

  datatype Checked = Accepted(range: Range) | Thrown(range: Range)

  function GetMax(r: Range): Word {
    Wrap(r.location + r.length)
  }

  /** The end of the range, in unbounded integers. */
  function End(r: Range): nat {
    r.location + r.length
  }

  function Spelled(r: Range, length: Word): Range {
    if r.length == FULL then Range(r.location, Wrap(length - r.location)) else r
  }

  predicate Rejected(r: Range, length: Word) {
    GetMax(r) > length || GetMax(r) < r.location
  }

  /** The condition the checks are there for, without any wrap-around. */
  predicate Fits(r: Range, length: Word) {
    if r.length == FULL then r.location <= length else End(r) <= length
  }

  /** Accepts a range exactly if it lies within the length, and leaves it as it is, or, if
      it is the full one, makes it end at the length. */
  function ValidateAgainstLength(r: Range, length: Word): (c: Checked)
    ensures c.Accepted? <==> Fits(r, length)
    ensures Fits(r, length) ==>
      && c.range.location == r.location && End(c.range) <= length
      && if r.length == FULL then End(c.range) == length else c.range.length == r.length
  {
    var range := Spelled(r, length);
    if Rejected(range, length) then Thrown(range) else Accepted(range)
  }

  /** Keeps what the check accepts, and empties what it does not, at the same place. */
  function AdjustForLength(r: Range, length: Word): (adjusted: Range)
    ensures adjusted.location == r.location
    ensures if !Fits(r, length) then adjusted.length == 0
            else if r.length == FULL then End(adjusted) == length else adjusted.length == r.length
  {
    var range := Spelled(r, length);
    if Rejected(range, length) then range.(length := 0) else range
  }

  /** An adjusted range passes the check exactly if the range began within the length. */
  lemma AdjustedIsValidIff(r: Range, length: Word)
    ensures ValidateAgainstLength(AdjustForLength(r, length), length).Accepted? <==> r.location <= length
    ensures AdjustForLength(AdjustForLength(r, length), length) == AdjustForLength(r, length)
  {
  }

  /** The smallest failure: a range behind the end of nothing stays there when adjusted. */
  lemma AdjustedMayBeInvalid()
    ensures AdjustForLength(Range(1, 0), 0) == Range(1, 0) && ValidateAgainstLength(Range(1, 0), 0).Thrown?
  {
  }

  // ----- the counting loop -----

  /** The locations from `from` up to `end`. */
  function Upto(from: nat, end: nat): (s: seq<nat>)
    decreases if from < end then end - from else 0
    ensures |s| == if from <= end then end - from else 0
    ensures forall i :: 0 <= i < |s| ==> s[i] == from + i
  {
    if from < end then [from] + Upto(from + 1, end) else []
  }

  /** What the loop visits, in order. */
  function Visited(r: Range): seq<nat> {
    if End(r) < TWO64 then Upto(r.location, End(r)) else []
  }

  lemma UptoStep(from: nat, end: nat, visited: seq<nat>)
    requires from < end
    ensures visited + Upto(from, end) == (visited + [from]) + Upto(from + 1, end)
  {
  }

  /** Where the loop ends: a range that wraps around ends before it begins. */
  lemma LoopEnds(r: Range)
    ensures if End(r) < TWO64 then GetMax(r) == End(r) else GetMax(r) < r.location
    ensures [] + Upto(r.location, End(r)) == Upto(r.location, End(r))
    ensures Upto(End(r), End(r)) == []
  {
  }

  method ForEach(r: Range) returns (visited: seq<nat>)
    ensures visited == Visited(r)
  {
    hide Wrap, Upto;
    visited := [];
    var name, end := r.location, Wrap(r.location + r.length);
    LoopEnds(r);
    while name < end
      invariant r.location <= name
      invariant if End(r) < TWO64 then name <= end && visited + Upto(name, end) == Visited(r)
                else name == r.location && visited == []
    {
      UptoStep(name, end, visited);
      visited := visited + [name];
      WrapFits(name + 1);
      name := Wrap(name + 1);
    }
  }

  /** The loop visits as many locations as the range is long exactly if the range does not wrap
      around, or is empty anyway. */
  lemma VisitsAllIff(r: Range)
    ensures |Visited(r)| == r.length <==> End(r) < TWO64 || r.length == 0
  {
  }

  /** Looping over a range that has passed the check visits exactly its locations, all of them
      below the length. */
  lemma AcceptedRangesAreVisited(r: Range, length: Word)
    requires ValidateAgainstLength(r, length).Accepted?
    ensures var range := ValidateAgainstLength(r, length).range;
      && |Visited(range)| == range.length
      && forall i :: 0 <= i < range.length ==> Visited(range)[i] == range.location + i < length
  {
  }

  // ----- combining -----

  /** A range whose end is a location. */
  predicate Bounded(r: Range) {
    End(r) < TWO64
  }

  predicate Has(r: Range, i: int) {
    r.location <= i < End(r)
  }

  function Combine(aRange: Range, bRange: Range, notFound: Word): Range {
    var a, b := if aRange.location > bRange.location then bRange else aRange,
                if aRange.location > bRange.location then aRange else bRange;
    var aEnd := GetMax(a);
    if aEnd < b.location then Range(notFound, 0)
    else
      var bEnd := GetMax(b);
      Range(a.location, Wrap((if bEnd > aEnd then bEnd else aEnd) - a.location))
  }

  predicate IsCombinableRange(a: Range, b: Range, notFound: Word) {
    Combine(a, b, notFound).length != 0
  }

  /** There is a location between the ranges. */
  predicate Gap(a: Range, b: Range) {
    End(a) < b.location || End(b) < a.location
  }

  function Min(a: int, b: int): int {
    if a < b then a else b
  }

  function Max(a: int, b: int): int {
    if a < b then b else a
  }

  /** Combining ranges without a gap gives the smallest range around both. */
  lemma CombineIsHull(a: Range, b: Range, notFound: Word)
    requires Bounded(a) && Bounded(b) && !Gap(a, b)
    ensures var c := Combine(a, b, notFound);
      Bounded(c) && c.location == Min(a.location, b.location) && End(c) == Max(End(a), End(b))
  {
    hide Wrap;
    WrapFits(End(a));
    WrapFits(End(b));
    WrapFits(Max(End(a), End(b)) - Min(a.location, b.location));
  }

  lemma GapIsNotFound(a: Range, b: Range, notFound: Word)
    requires Bounded(a) && Bounded(b) && Gap(a, b)
    ensures Combine(a, b, notFound) == Range(notFound, 0)
  {
    hide Wrap;
    WrapFits(End(a));
    WrapFits(End(b));
  }

  lemma CombineIsCommutative(a: Range, b: Range, notFound: Word)
    requires Bounded(a) && Bounded(b)
    ensures Combine(a, b, notFound) == Combine(b, a, notFound)
  {
    hide Combine;
    if Gap(a, b) {
      GapIsNotFound(a, b, notFound);
      GapIsNotFound(b, a, notFound);
    } else {
      CombineIsHull(a, b, notFound);
      CombineIsHull(b, a, notFound);
    }
  }

  /** Combining covers exactly the locations of both ranges, and reports not-found exactly for
      a gap, unless both ranges are the empty one that stands for not-found. */
  lemma CombineIsUnion(a: Range, b: Range, notFound: Word)
    requires Bounded(a) && Bounded(b)
    ensures !Gap(a, b) ==> forall i :: Has(Combine(a, b, notFound), i) <==> Has(a, i) || Has(b, i)
    ensures Combine(a, b, notFound) == Range(notFound, 0)
       <==> Gap(a, b) || (a == Range(notFound, 0) && b == Range(notFound, 0))
  {
    hide Combine;
    if Gap(a, b) {
      GapIsNotFound(a, b, notFound);
    } else {
      CombineIsHull(a, b, notFound);
    }
  }

  lemma CombinableIff(a: Range, b: Range, notFound: Word)
    requires Bounded(a) && Bounded(b)
    ensures IsCombinableRange(a, b, notFound) <==> !Gap(a, b) && (a.length > 0 || b.length > 0)
  {
    hide Combine;
    if Gap(a, b) {
      GapIsNotFound(a, b, notFound);
    } else {
      CombineIsHull(a, b, notFound);
    }
  }

  /** As long as neighbours touch, it does not matter which are combined first. */
  lemma CombineIsAssociative(a: Range, b: Range, c: Range, notFound: Word)
    requires Bounded(a) && Bounded(b) && Bounded(c) && !Gap(a, b) && !Gap(b, c)
    ensures var ab, bc := Combine(a, b, notFound), Combine(b, c, notFound);
      && !Gap(ab, c) && !Gap(a, bc)
      && Combine(ab, c, notFound) == Combine(a, bc, notFound)
  {
    CombineIsHull(a, b, notFound);
    CombineIsHull(b, c, notFound);
    hide Combine;
    CombineIsHull(Combine(a, b, notFound), c, notFound);
    CombineIsHull(a, Combine(b, c, notFound), notFound);
  }
}
