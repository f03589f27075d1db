/** Calorie counting: one number per line, the elves' inventories separated by blank
    lines; the answer is the total carried by the elves that carry the most. */
module Calories {
  import opened Wrappers
  import opened Strings
  import opened Numbers

  /** One line of the list: its number once the spaces around it are removed, or 0 when
      what is left is not a `u64` (a blank line in particular). */
  function ParseCalories(line: string): (n: nat)
    ensures n < U64Limit
    ensures ParseBelow(TrimSpaces(line), U64Limit).Some? ==> Some(n) == ParseBelow(TrimSpaces(line), U64Limit)
    ensures ParseBelow(TrimSpaces(line), U64Limit).None? ==> n == 0
  {
    match ParseBelow(TrimSpaces(line), U64Limit)
    case Some(n) => n
    case None => 0
  }

  /** A line holding only spaces separates two inventories. */
  lemma BlankLineIsZero(line: string)
    requires forall k :: 0 <= k < |line| ==> line[k] == ' '
    ensures ParseCalories(line) == 0
  {
  }

  /** `parse_input`: one entry per `\n`-separated line, in order. */
  function ParseInput(s: string): seq<nat> {
    var lines := Split(s, '\n');
    seq(|lines|, i requires 0 <= i < |lines| => ParseCalories(lines[i]))
  }

  /** One entry per line, entry `i` being line `i`'s number. */
  lemma ParseInputLineByLine(s: string)
    ensures |ParseInput(s)| == |Split(s, '\n')|
    ensures forall i :: 0 <= i < |ParseInput(s)| ==> ParseInput(s)[i] == ParseCalories(Split(s, '\n')[i])
  {
  }

  /** A number written with spaces in front of it reads back as that number. */
  lemma ParsePadded(pad: string, n: nat)
    requires n < U64Limit
    requires forall k :: 0 <= k < |pad| ==> pad[k] == ' '
    ensures ParseCalories(pad + ShowNat(n)) == n
  {
    var digits := ShowNat(n);
    TrimByLeadingPad(pad, digits, IsSpace);
    ParseShowNat(n);
  }

  /** Numbers written one per line, each after its own run of spaces, read back as those
      numbers; an empty line between them reads as 0. */
  lemma ParseInputOfLines(lines: seq<string>, numbers: seq<nat>)
    requires |lines| == |numbers| >= 1
    requires forall i :: 0 <= i < |lines| ==> '\n' !in lines[i]
    requires forall i :: 0 <= i < |lines| ==> ParseCalories(lines[i]) == numbers[i]
    ensures ParseInput(Join(lines, '\n')) == numbers
  {
    SplitJoin(lines, '\n');
    ParseInputLineByLine(Join(lines, '\n'));
  }

  /** A number after a run of spaces is one line of the list, read back as that number. */
  lemma PaddedLine(pad: string, n: nat)
    requires n < U64Limit
    requires forall k :: 0 <= k < |pad| ==> pad[k] == ' '
    ensures '\n' !in pad + ShowNat(n)
    ensures ParseCalories(pad + ShowNat(n)) == n
  {
    ParsePadded(pad, n);
    assert '\n' !in ShowNat(n);
  }

  /** A nonzero digit after a run of spaces. */
  lemma PaddedDigit(pad: string, d: char)
    requires '1' <= d <= '9'
    requires forall k :: 0 <= k < |pad| ==> pad[k] == ' '
    ensures '\n' !in pad + [d]
    ensures ParseCalories(pad + [d]) == d as int - '0' as int
  {
    var n := d as int - '0' as int;
    assert ShowNat(n) == [d];
    PaddedLine(pad, n);
  }

  /** A nonzero digit alone on its line. */
  lemma Digit(d: char)
    requires '1' <= d <= '9'
    ensures '\n' !in [d]
    ensures ParseCalories([d]) == d as int - '0' as int
  {
    PaddedDigit([], d);
    assert [] + [d] == [d];
  }

  lemma FirstExampleJoin(pad: string)
    ensures Join(["1", pad + "2", pad + "3", pad + "4"], '\n') == "1\n" + pad + "2\n" + pad + "3\n" + pad + "4"
  {
    var lines := ["1", pad + "2", pad + "3", pad + "4"];
    JoinCons(pad + "3", [pad + "4"], '\n');
    assert lines[2..] == [pad + "3"] + [pad + "4"];
    JoinCons(pad + "2", lines[2..], '\n');
    assert lines[1..] == [pad + "2"] + lines[2..];
    JoinCons("1", lines[1..], '\n');
    assert lines == ["1"] + lines[1..];
  }

  lemma FirstExampleLines(pad: string)
    requires forall k :: 0 <= k < |pad| ==> pad[k] == ' '
    ensures forall i :: 0 <= i < 4 ==> '\n' !in ["1", pad + "2", pad + "3", pad + "4"][i]
    ensures forall i :: 0 <= i < 4 ==> ParseCalories(["1", pad + "2", pad + "3", pad + "4"][i]) == [1, 2, 3, 4][i]
  {
    Digit('1');
    PaddedDigit(pad, '2');
    PaddedDigit(pad, '3');
    PaddedDigit(pad, '4');
  }

  /** The first unit test, where each line after the first is indented (by 32 spaces there,
      by any run of spaces here): the four numbers come back in order. */
  lemma ParseInputFirstExample(pad: string)
    requires forall k :: 0 <= k < |pad| ==> pad[k] == ' '
    ensures ParseInput("1\n" + pad + "2\n" + pad + "3\n" + pad + "4") == [1, 2, 3, 4]
  {
    FirstExampleLines(pad);
    FirstExampleJoin(pad);
    ParseInputOfLines(["1", pad + "2", pad + "3", pad + "4"], [1, 2, 3, 4]);
  }

  /** A string without a line break is one line. */
  lemma ParseInputOneLine(line: string)
    requires '\n' !in line
    ensures ParseInput(line) == [ParseCalories(line)]
  {
    SplitJoin([line], '\n');
    ParseInputLineByLine(line);
  }

  /** `parse_input` reads line by line: one more line adds one more number at the end. */
  lemma ParseInputAddLine(s: string, line: string)
    requires '\n' !in line
    ensures ParseInput(s + "\n" + line) == ParseInput(s) + [ParseCalories(line)]
  {
    SplitAppend(s, line, '\n');
    ParseInputOneLine(line);
    SplitJoin([line], '\n');
    ParseInputLineByLine(s);
    ParseInputLineByLine(s + "\n" + line);
  }

  lemma ParseInputAddTwoLines(s: string, line1: string, line2: string)
    requires '\n' !in line1 && '\n' !in line2
    ensures ParseInput(s + "\n" + line1 + "\n" + line2) == ParseInput(s) + [ParseCalories(line1), ParseCalories(line2)]
  {
    ParseInputAddLine(s, line1);
    ParseInputAddLine(s + "\n" + line1, line2);
  }

  lemma SecondExampleHead(l1: string, l2: string, l3: string, b: string, l4: string)
    requires '\n' !in l1 && '\n' !in l2 && '\n' !in l3 && '\n' !in b && '\n' !in l4
    ensures ParseInput(l1 + "\n" + l2 + "\n" + l3 + "\n" + b + "\n" + l4)
      == [ParseCalories(l1), ParseCalories(l2), ParseCalories(l3), ParseCalories(b), ParseCalories(l4)]
  {
    var x3 := l1 + "\n" + l2 + "\n" + l3;
    ParseInputOneLine(l1);
    ParseInputAddTwoLines(l1, l2, l3);
    assert ParseInput(x3) == [ParseCalories(l1), ParseCalories(l2), ParseCalories(l3)];
    ParseInputAddTwoLines(x3, b, l4);
  }

  lemma SecondExampleMiddle(l1: string, l2: string, l3: string, b: string, l4: string, l5: string)
    requires '\n' !in l1 && '\n' !in l2 && '\n' !in l3 && '\n' !in b && '\n' !in l4 && '\n' !in l5
    ensures ParseInput(l1 + "\n" + l2 + "\n" + l3 + "\n" + b + "\n" + l4 + "\n" + b + "\n" + l5)
      == [ParseCalories(l1), ParseCalories(l2), ParseCalories(l3), ParseCalories(b),
          ParseCalories(l4), ParseCalories(b), ParseCalories(l5)]
  {
    var x5 := l1 + "\n" + l2 + "\n" + l3 + "\n" + b + "\n" + l4;
    SecondExampleHead(l1, l2, l3, b, l4);
    ParseInputAddTwoLines(x5, b, l5);
  }

  lemma SecondExampleChain(l1: string, l2: string, l3: string, b: string, l4: string, l5: string, l6: string)
    requires '\n' !in l1 && '\n' !in l2 && '\n' !in l3 && '\n' !in b
    requires '\n' !in l4 && '\n' !in l5 && '\n' !in l6
    ensures ParseInput(l1 + "\n" + l2 + "\n" + l3 + "\n" + b + "\n" + l4 + "\n" + b + "\n" + l5 + "\n" + b + "\n" + l6)
      == [ParseCalories(l1), ParseCalories(l2), ParseCalories(l3), ParseCalories(b),
          ParseCalories(l4), ParseCalories(b), ParseCalories(l5), ParseCalories(b), ParseCalories(l6)]
  {
    var x7 := l1 + "\n" + l2 + "\n" + l3 + "\n" + b + "\n" + l4 + "\n" + b + "\n" + l5;
    SecondExampleMiddle(l1, l2, l3, b, l4, l5);
    ParseInputAddTwoLines(x7, b, l6);
  }

  /** The second unit test, indented by 8 spaces there and by any run of spaces here, with
      empty lines between inventories: each empty line reads as 0. */
  lemma ParseInputSecondExample(pad: string)
    requires forall k :: 0 <= k < |pad| ==> pad[k] == ' '
    ensures ParseInput("1" + "\n" + (pad + "2") + "\n" + (pad + "3") + "\n" + "" + "\n" + (pad + "4")
                       + "\n" + "" + "\n" + (pad + "5") + "\n" + "" + "\n" + (pad + "6"))
      == [1, 2, 3, 0, 4, 0, 5, 0, 6]
  {
    Digit('1');
    PaddedDigit(pad, '2');
    PaddedDigit(pad, '3');
    PaddedDigit(pad, '4');
    PaddedDigit(pad, '5');
    PaddedDigit(pad, '6');
    BlankLineIsZero("");
    SecondExampleChain("1", pad + "2", pad + "3", "", pad + "4", pad + "5", pad + "6");
  }

  /** Sum of a list of numbers. */
  function Sum(s: seq<nat>): nat {
    if s == [] then 0 else s[0] + Sum(s[1..])
  }

  lemma {:induction false} SumAppend(a: seq<nat>, b: seq<nat>)
    ensures Sum(a + b) == Sum(a) + Sum(b)
    decreases |a|
  {
    if a != [] {
      assert (a + b)[1..] == a[1..] + b;
      SumAppend(a[1..], b);
    } else {
      assert a + b == b;
    }
  }

  /** The state of the grouping loop in `run` after reading `numbers`: the totals of the
      inventories closed so far by a 0 entry, and the running total of the open one. */
  function Grouping(numbers: seq<nat>): (state: (seq<nat>, nat))
    decreases |numbers|
  {
    if numbers == [] then ([], 0)
    else
      var (sums, running) := Grouping(numbers[..|numbers| - 1]);
      var n := numbers[|numbers| - 1];
      if n == 0 then (sums + [running], 0) else (sums, running + n)
  }

  /** Number of 0 entries, that is, of separators. */
  function Zeros(numbers: seq<nat>): nat
    decreases |numbers|
  {
    if numbers == [] then 0
    else Zeros(numbers[..|numbers| - 1]) + (if numbers[|numbers| - 1] == 0 then 1 else 0)
  }

  /** Every 0 entry closes one inventory, and nothing is lost on the way: the closed totals
      and the open one add up to the sum of all entries. */
  lemma {:induction false} GroupingConserves(numbers: seq<nat>)
    ensures |Grouping(numbers).0| == Zeros(numbers)
    ensures Sum(Grouping(numbers).0) + Grouping(numbers).1 == Sum(numbers)
    decreases |numbers|
  {
    if numbers != [] {
      var front := numbers[..|numbers| - 1];
      var n := numbers[|numbers| - 1];
      GroupingConserves(front);
      SumAppend(front, [n]);
      assert front + [n] == numbers;
      var (sums, running) := Grouping(front);
      SumAppend(sums, [running]);
    }
  }

  /** The grouping loop of `run`. */
  method GroupCalories(numbers: seq<nat>) returns (sums: seq<nat>, sum: nat)
    ensures (sums, sum) == Grouping(numbers)
  {
    sums := [];
    sum := 0;
    for i := 0 to |numbers|
      invariant (sums, sum) == Grouping(numbers[..i])
    {
      assert numbers[..i + 1][..i] == numbers[..i];
      if numbers[i] == 0 {
        sums := sums + [sum];
        sum := 0;
      } else {
        sum := sum + numbers[i];
      }
    }
    assert numbers[..|numbers|] == numbers;
  }

  /** Sum of the `n` largest totals: the last `n` once sorted. */
  function TopSum(sums: seq<nat>, n: nat): nat
    requires n <= |sums|
  {
    Sum(Sort(sums)[|sums| - n..])
  }

  /** The last `n` entries of the sorted totals are the `n` largest: together with the rest
      they are the totals again, and none of the rest exceeds any of them. */
  lemma TopAreLargest(sums: seq<nat>, n: nat)
    requires n <= |sums|
    ensures multiset(Sort(sums)[|sums| - n..]) + multiset(Sort(sums)[..|sums| - n]) == multiset(sums)
    ensures forall i, j :: 0 <= j < |sums| - n <= i < |sums| ==> Sort(sums)[j] <= Sort(sums)[i]
  {
    SortedSplit(Sort(sums), |sums| - n);
  }

  lemma SumFrom(s: seq<nat>, i: nat)
    requires i < |s|
    ensures Sum(s[i..]) == s[i] + Sum(s[i + 1..])
  {
    assert s[i..][1..] == s[i + 1..];
  }

  /** `run` as written: the `n` largest closed totals added onto the running total left
      open after the last 0 entry. The source aborts when there are fewer than `n` closed
      totals. */
  method MostCalories(numbers: seq<nat>, n: nat) returns (total: nat)
    requires n <= |Grouping(numbers).0|
    ensures total == Grouping(numbers).1 + TopSum(Grouping(numbers).0, n)
  {
    var sums, sum := GroupCalories(numbers);
    var sorted := Sort(sums);
    total := sum;
    for diff := 0 to n
      invariant total == sum + Sum(sorted[|sorted| - diff..])
    {
      var index := (|sorted| - 1) - diff;
      SumFrom(sorted, index);
      total := total + sorted[index];
    }
    assert TopSum(sums, n) == Sum(sorted[|sorted| - n..]);
  }

  /** Every inventory's total, the one left open at the end included. */
  function AllInventories(numbers: seq<nat>): (totals: seq<nat>)
    ensures |totals| == Zeros(numbers) + 1
    ensures Sum(totals) == Sum(numbers)
  {
    GroupingConserves(numbers);
    SumAppend(Grouping(numbers).0, [Grouping(numbers).1]);
    Grouping(numbers).0 + [Grouping(numbers).1]
  }

  lemma GroupingExample()
    ensures Grouping([1, 0, 5]) == ([1], 5)
  {
    assert [1][..0] == [];
    assert Grouping([1]) == ([], 1);
    assert [1, 0][..1] == [1];
    assert [] + [1] == [1];
    assert Grouping([1, 0]) == ([1], 0);
    assert [1, 0, 5][..2] == [1, 0];
  }

  lemma SortExample()
    ensures Sort([1]) == [1] && Sort([1, 5]) == [1, 5]
  {
    assert [1][1..] == [];
    assert [5][1..] == [];
    assert [1, 5][1..] == [5];
  }

  /** The input `1`, blank, `5` without a final newline: the last inventory is never
      closed, so `run` with `n == 1` reports 5 + 1 where the largest inventory holds 5. */
  lemma MostCaloriesCountsOpenInventory()
    ensures Grouping([1, 0, 5]) == ([1], 5)
    ensures Grouping([1, 0, 5]).1 + TopSum(Grouping([1, 0, 5]).0, 1) == 6
    ensures TopSum(AllInventories([1, 0, 5]), 1) == 5
  {
    GroupingExample();
    SortExample();
    assert AllInventories([1, 0, 5]) == [1, 5];
    assert [1, 5][1..] == [5];
    assert [1][0..] == [1];
  }

  /** The total carried by the `n` elves carrying the most, the last inventory counted
      whether or not a blank line follows it. */
  method MostCaloriesOfAll(numbers: seq<nat>, n: nat) returns (total: nat)
    requires n <= Zeros(numbers) + 1
    ensures total == TopSum(AllInventories(numbers), n)
  {
    var sums, sum := GroupCalories(numbers);
    var all := sums + [sum];
    assert all == AllInventories(numbers);
    var sorted := Sort(all);
    total := 0;
    for diff := 0 to n
      invariant total == Sum(sorted[|sorted| - diff..])
    {
      var index := (|sorted| - 1) - diff;
      SumFrom(sorted, index);
      total := total + sorted[index];
    }
    assert TopSum(all, n) == Sum(sorted[|sorted| - n..]);
  }

  /** A 0 total is never among the `n` largest when there are `n` others. */
  lemma {:induction false} TopSumWithZero(sums: seq<nat>, n: nat)
    requires n <= |sums|
    ensures TopSum(sums + [0], n) == TopSum(sums, n)
  {
    var k := |sums| - n;
    assert |sums + [0]| - n == k + 1;
    calc {
      TopSum(sums + [0], n);
      Sum(Sort(sums + [0])[k + 1..]);
      { SortWithZero(sums); DropAfterCons(Sort(sums + [0]), Sort(sums), k); }
      Sum(Sort(sums)[k..]);
    }
  }

  /** When the list ends with a blank line the last inventory is closed and nothing is left
      open, so `run` as written adds exactly the `n` largest totals. */
  lemma ClosedListLeavesNothingOpen(numbers: seq<nat>, n: nat)
    requires numbers != [] && numbers[|numbers| - 1] == 0
    requires n <= |Grouping(numbers).0|
    ensures Grouping(numbers).1 == 0
    ensures Grouping(numbers).1 + TopSum(Grouping(numbers).0, n) == TopSum(AllInventories(numbers), n)
  {
    var closed := Grouping(numbers).0;
    assert Grouping(numbers).1 == 0;
    assert AllInventories(numbers) == closed + [0];
    TopSumWithZero(closed, n);
  }
}
