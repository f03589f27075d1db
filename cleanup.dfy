/** Camp cleanup: pairs of elves, each assigned an inclusive range of section IDs,
    written one pair per line as `a-b,c-d`. */
module Cleanup {
  import opened Wrappers
  import opened Strings

  /** An inclusive range of section IDs, both ends `u32` in the source. */
  datatype Region = Region(lower: nat, upper: nat)

  /** A region whose lower end does not exceed its upper end. */
  predicate WellFormed(r: Region) {
    r.lower <= r.upper
  }

  /** Section `x` belongs to region `r`: the reference meaning of a region. */
  predicate Covers(r: Region, x: nat) {
    r.lower <= x <= r.upper
  }

  /** `Region::contains`: `r` reaches at least as far as `other` at both ends. */
  predicate Contains(r: Region, other: Region) {
    r.lower <= other.lower && r.upper >= other.upper
  }

  /** `Region::overlaps`: the lower end of `r` lies inside `other`. */
  predicate StartsInside(r: Region, other: Region) {
    r.lower <= other.upper && r.lower >= other.lower
  }

  /** The free function `contains`: one of the two regions holds the other. */
  predicate PairContains(r1: Region, r2: Region) {
    Contains(r1, r2) || Contains(r2, r1)
  }

  /** The free function `overlaps`: one of the two regions starts inside the other. */
  predicate PairOverlaps(r1: Region, r2: Region) {
    StartsInside(r1, r2) || StartsInside(r2, r1)
  }

  /** `Region::contains` is inclusion of section sets, whenever the inner region is well formed. */
  lemma ContainsIsInclusion(r: Region, other: Region)
    requires WellFormed(other)
    ensures Contains(r, other) <==> forall x: nat :: Covers(other, x) ==> Covers(r, x)
  {
    if forall x: nat :: Covers(other, x) ==> Covers(r, x) {
      assert Covers(other, other.lower);
      assert Covers(other, other.upper);
    }
  }

  /** `Region::overlaps` asks whether the first section of `r` belongs to `other`. */
  lemma StartsInsideIsFirstSection(r: Region, other: Region)
    ensures StartsInside(r, other) <==> Covers(other, r.lower)
  {
  }

  /** Neither free function cares about the order of the pair. */
  lemma PairSymmetric(r1: Region, r2: Region)
    ensures PairContains(r1, r2) == PairContains(r2, r1)
    ensures PairOverlaps(r1, r2) == PairOverlaps(r2, r1)
  {
  }

  /** For well-formed regions `overlaps` holds exactly when some section belongs to both,
      that is, when the larger lower end does not exceed the smaller upper end. */
  lemma OverlapsIsIntersection(r1: Region, r2: Region)
    requires WellFormed(r1) && WellFormed(r2)
    ensures PairOverlaps(r1, r2) <==> exists x: nat :: Covers(r1, x) && Covers(r2, x)
    ensures PairOverlaps(r1, r2) <==> Max(r1.lower, r2.lower) <= Min(r1.upper, r2.upper)
  {
    var lo := Max(r1.lower, r2.lower);
    if PairOverlaps(r1, r2) {
      assert Covers(r1, lo) && Covers(r2, lo);
    }
    if exists x: nat :: Covers(r1, x) && Covers(r2, x) {
      var x: nat :| Covers(r1, x) && Covers(r2, x);
      assert lo <= x <= Min(r1.upper, r2.upper);
    }
  }

  function Max(a: nat, b: nat): nat {
    if a < b then b else a
  }

  function Min(a: nat, b: nat): nat {
    if a < b then a else b
  }

  /** A pair in which one region holds a well-formed other also overlaps. */
  lemma ContainsImpliesOverlaps(r1: Region, r2: Region)
    requires WellFormed(r1) && WellFormed(r2)
    ensures PairContains(r1, r2) ==> PairOverlaps(r1, r2)
  {
    if Contains(r1, r2) {
      assert StartsInside(r2, r1);
    } else if Contains(r2, r1) {
      assert StartsInside(r1, r2);
    }
  }

  /** The cases of the unit test: 4-6 holds 6-6, 4-6 and 5-8 hold neither, 5-8 holds 6-6. */
  lemma ContainsExamples()
    ensures PairContains(Region(4, 6), Region(6, 6))
    ensures !PairContains(Region(4, 6), Region(5, 8))
    ensures PairContains(Region(5, 8), Region(6, 6))
  {
  }

  /** One `a-b` range: the first two `-`-separated pieces, each a `u32`; `None` where the
      source aborts (fewer than two pieces, or a piece that is not a `u32`). Later pieces
      are ignored. */
  function ParseRegion(s: string): (r: Option<Region>)
    ensures r.Some? <==> |Split(s, '-')| >= 2 && ParseBelow(Split(s, '-')[0], U32Limit).Some?
                         && ParseBelow(Split(s, '-')[1], U32Limit).Some?
    ensures r.Some? ==> r.value.lower < U32Limit && r.value.upper < U32Limit
  {
    var pieces := Split(s, '-');
    if |pieces| < 2 then None
    else
      match (ParseBelow(pieces[0], U32Limit), ParseBelow(pieces[1], U32Limit))
      case (Some(lower), Some(upper)) => Some(Region(lower, upper))
      case _ => None
  }

  /** Every `,`-separated range of a line, all of which must read as regions. */
  function ParseRegions(ranges: seq<string>): (r: Option<seq<Region>>)
    ensures r.Some? <==> forall i :: 0 <= i < |ranges| ==> ParseRegion(ranges[i]).Some?
    ensures r.Some? ==> |r.value| == |ranges|
    ensures r.Some? ==> forall i :: 0 <= i < |ranges| ==> r.value[i] == ParseRegion(ranges[i]).value
  {
    if ranges == [] then Some([])
    else
      match (ParseRegion(ranges[0]), ParseRegions(ranges[1..]))
      case (Some(first), Some(rest)) => Some([first] + rest)
      case _ => None
  }

  /** `parse_line`: the first two regions of a line. `None` where the source aborts: a
      range that does not read as a region, or fewer than two ranges. */
  function ParseLine(line: string): (r: Option<(Region, Region)>)
    ensures r.Some? <==> |Split(line, ',')| >= 2
                         && forall i :: 0 <= i < |Split(line, ',')| ==> ParseRegion(Split(line, ',')[i]).Some?
    ensures r.Some? ==> Some(r.value.0) == ParseRegion(Split(line, ',')[0])
                        && Some(r.value.1) == ParseRegion(Split(line, ',')[1])
  {
    var ranges := Split(line, ',');
    match ParseRegions(ranges)
    case None => None
    case Some(regions) => if |regions| < 2 then None else Some((regions[0], regions[1]))
  }

  /** A line without a comma holds one range at most, on which `parse_line` aborts. */
  lemma ParseLineNeedsComma(line: string)
    requires ',' !in line
    ensures ParseLine(line) == None
  {
    SplitJoin([line], ',');
  }

  function ShowRegion(r: Region): string {
    Join([ShowNat(r.lower), ShowNat(r.upper)], '-')
  }

  /** The puzzle's way of writing a pair of regions. */
  function ShowLine(r1: Region, r2: Region): string {
    Join([ShowRegion(r1), ShowRegion(r2)], ',')
  }

  lemma NoSeparatorInDigits(s: string, sep: char)
    requires AllDigits(s) && !IsDigit(sep)
    ensures sep !in s
  {
  }

  /** Reading back a region that was written out gives the region again. */
  lemma ParseShowRegion(r: Region)
    requires r.lower < U32Limit && r.upper < U32Limit
    ensures ParseRegion(ShowRegion(r)) == Some(r)
    ensures ',' !in ShowRegion(r)
  {
    NoSeparatorInDigits(ShowNat(r.lower), '-');
    NoSeparatorInDigits(ShowNat(r.upper), '-');
    SplitJoin([ShowNat(r.lower), ShowNat(r.upper)], '-');
    ParseShowNat(r.lower);
    ParseShowNat(r.upper);
    NoSeparatorInDigits(ShowNat(r.lower), ',');
    NoSeparatorInDigits(ShowNat(r.upper), ',');
  }

  /** `parse_line` inverts the puzzle's notation for every pair of `u32` regions. */
  lemma ParseShowLine(r1: Region, r2: Region)
    requires r1.lower < U32Limit && r1.upper < U32Limit
    requires r2.lower < U32Limit && r2.upper < U32Limit
    ensures ParseLine(ShowLine(r1, r2)) == Some((r1, r2))
  {
    ParseShowRegion(r1);
    ParseShowRegion(r2);
    SplitJoin([ShowRegion(r1), ShowRegion(r2)], ',');
    var regions := ParseRegions([ShowRegion(r1), ShowRegion(r2)]);
    assert regions.Some?;
  }

  /** The unit test's line `3-5,7-10`. */
  lemma ParseLineExample()
    ensures ParseLine("3-5,7-10") == Some((Region(3, 5), Region(7, 10)))
  {
    assert ShowNat(10) == "10";
    assert ShowLine(Region(3, 5), Region(7, 10)) == "3-5,7-10";
    ParseShowLine(Region(3, 5), Region(7, 10));
  }
}
