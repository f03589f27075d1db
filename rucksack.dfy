/** Rucksack reorganisation: each line lists the items of one rucksack, one letter per
    item, the first half in one compartment and the second half in the other. */
module Rucksack {

  /** `parse_line`: the two compartments, the first holding the first half (rounded down). */
  function Compartments(s: string): (halves: (string, string))
    ensures |halves.0| == |s| / 2
    ensures halves.0 + halves.1 == s
  {
    (s[..|s| / 2], s[|s| / 2..])
  }

  /** A line of even length splits into two compartments of the same size. */
  lemma CompartmentsEqualOnEvenLines(s: string)
    requires |s| % 2 == 0
    ensures |Compartments(s).0| == |Compartments(s).1|
  {
  }

  predicate IsUpper(c: char) {
    'A' <= c <= 'Z'
  }

  predicate IsLower(c: char) {
    'a' <= c <= 'z'
  }

  /** `get_priority`: code point minus 38 for `A`-`Z`, code point minus 96 otherwise. The
      source's unsigned subtraction aborts below the code point of `` ` ``, which the
      precondition excludes. */
  function Priority(c: char): (p: nat)
    requires IsUpper(c) || c as int >= 96
  {
    if IsUpper(c) then c as int - 38 else c as int - 96
  }

  /** The item type of a priority between 1 and 52: the inverse of `Priority` on letters. */
  function ItemOfPriority(p: nat): (c: char)
    requires 1 <= p <= 52
    ensures IsLower(c) || IsUpper(c)
  {
    if p <= 26 then ('a' as int + p - 1) as char else ('A' as int + p - 27) as char
  }

  /** Lower-case letters have priorities 1 to 26 and upper-case letters 27 to 52; every
      letter is the item type of its priority, so no two letters share a priority. */
  lemma PriorityOfLetters(c: char)
    requires IsLower(c) || IsUpper(c)
    ensures IsLower(c) ==> 1 <= Priority(c) <= 26
    ensures IsUpper(c) ==> 27 <= Priority(c) <= 52
    ensures ItemOfPriority(Priority(c)) == c
  {
  }

  /** Every priority from 1 to 52 is the priority of its item type. */
  lemma PriorityOfItem(p: nat)
    requires 1 <= p <= 52
    ensures Priority(ItemOfPriority(p)) == p
  {
  }

  /** The unit test: `a b c z A B C Y Z` have priorities 1 2 3 26 27 28 29 51 52. */
  lemma PriorityExamples()
    ensures Priority('a') == 1 && Priority('b') == 2 && Priority('c') == 3 && Priority('z') == 26
    ensures Priority('A') == 27 && Priority('B') == 28 && Priority('C') == 29
    ensures Priority('Y') == 51 && Priority('Z') == 52
  {
  }

  /** The item types found in both strings. */
  function CommonItems(first: string, second: string): set<char> {
    set c | c in first && c in second
  }

  predicate Distinct(s: seq<char>) {
    forall i, j :: 0 <= i < j < |s| ==> s[i] != s[j]
  }

  /** The keys of a `HashMap` that records each item of `s` as present. */
  method ItemsOf(s: string) returns (items: map<char, bool>)
    ensures items.Keys == set c | c in s
  {
    items := map[];
    for i := 0 to |s|
      invariant items.Keys == set c | c in s[..i]
    {
      assert s[..i + 1] == s[..i] + [s[i]];
      items := items[s[i] := true];
    }
    assert s[..|s|] == s;
  }

  /** `get_common_chars`: every item type present in both strings, each exactly once. The
      source visits the keys of a hash map, so the order is not specified; here it is any
      order. */
  method GetCommonChars(first: string, second: string) returns (common: seq<char>)
    ensures Distinct(common)
    ensures forall c :: c in common <==> c in CommonItems(first, second)
  {
    var firstChars := ItemsOf(first);
    var secondChars := ItemsOf(second);
    common := [];
    var keys := firstChars.Keys;
    while keys != {}
      invariant keys <= firstChars.Keys
      invariant Distinct(common)
      invariant forall c :: c in common ==> c !in keys
      invariant forall c :: c in common <==> c in firstChars.Keys - keys && c in secondChars
      decreases keys
    {
      var key :| key in keys;
      if key in secondChars {
        common := common + [key];
      }
      keys := keys - {key};
    }
  }

  /** `get_badge`: an item type carried in all three rucksacks, or `'\0'` when there is
      none. Which one, when there are several, depends on hash order and is not specified. */
  method GetBadge(first: string, second: string, third: string) returns (badge: char)
    ensures CommonItems(first, second) * CommonItems(second, third) == {} ==> badge == '\0'
    ensures CommonItems(first, second) * CommonItems(second, third) != {} ==>
      badge in first && badge in second && badge in third
  {
    var common12List := GetCommonChars(first, second);
    var common12: map<char, bool> := map[];
    for i := 0 to |common12List|
      invariant common12.Keys == set c | c in common12List[..i]
    {
      assert common12List[..i + 1] == common12List[..i] + [common12List[i]];
      common12 := common12[common12List[i] := true];
    }
    assert common12List[..|common12List|] == common12List;
    var common23 := GetCommonChars(second, third);
    for i := 0 to |common23|
      invariant forall k :: 0 <= k < i ==> common23[k] !in common12
    {
      if common23[i] in common12 {
        assert common23[i] in common12List;
        assert common23[i] in CommonItems(first, second) * CommonItems(second, third);
        return common23[i];
      }
    }
    badge := '\0';
  }

  /** The item types carried in all three rucksacks are those `get_badge` chooses from. */
  lemma BadgeCandidates(first: string, second: string, third: string)
    ensures CommonItems(first, second) * CommonItems(second, third) == (set c | c in first && c in second && c in third)
  {
  }

  /** The unit test's line splits into `vJrwpWtwJgWr` and `hcsFMMfFFhFp`. */
  lemma CompartmentsExample()
    ensures Compartments("vJrwpWtwJgWrhcsFMMfFFhFp") == ("vJrwpWtwJgWr", "hcsFMMfFFhFp")
  {
    var s := "vJrwpWtwJgWrhcsFMMfFFhFp";
    assert |s| / 2 == 12;
    assert s[..12] == "vJrwpWtwJgWr";
    assert s[12..] == "hcsFMMfFFhFp";
  }

  /** The unit test's two compartments share only `L`, so `L` is the first (and only) common
      item `get_common_chars` can return. */
  lemma CommonItemsExample()
    ensures CommonItems("jqHRNqRjqzjGDLGL", "rsFMfFZSrLrFZsSL") == {'L'}
  {
    var first := "jqHRNqRjqzjGDLGL";
    var second := "rsFMfFZSrLrFZsSL";
    assert 'L' == first[13] && 'L' == second[9];
    forall c | c in first && c in second
      ensures c == 'L'
    {
      var i :| 0 <= i < |first| && first[i] == c;
    }
  }

  /** Whatever the order, the first common item of the unit test's compartments is `L`. */
  method GetCommonCharsExample() returns (common: seq<char>)
    ensures |common| >= 1 && common[0] == 'L'
  {
    common := GetCommonChars("jqHRNqRjqzjGDLGL", "rsFMfFZSrLrFZsSL");
    CommonItemsExample();
    assert 'L' in common;
    assert common[0] in common;
  }
}
