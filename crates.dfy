/** Day 5 (src/q5.rs): stacks of crates read from a drawing, and the two cranes that move
    them (one crate at a time, or a whole block at once). */
module Crates {
  import opened Wrappers
  import opened Strings

  /** One stack per column, each listed bottom to top. */
  type Stacks = seq<seq<char>>

  function Reverse<T>(s: seq<T>): (r: seq<T>)
    ensures |r| == |s|
    ensures forall k :: 0 <= k < |s| ==> r[k] == s[|s| - 1 - k]
  {
    seq(|s|, k requires 0 <= k < |s| => s[|s| - 1 - k])
  }

  lemma ReverseReverse<T>(s: seq<T>)
    ensures Reverse(Reverse(s)) == s
  {
  }

  // ---------------------------------------------------------------- trimming a stack

  /** A stack without the spaces piled on its top: the longest prefix that is empty or ends
      in something other than a space, leaving only spaces behind. */
  function TrimTop(stack: seq<char>): (r: seq<char>)
    ensures |r| <= |stack| && r == stack[..|r|]
    ensures forall k :: |r| <= k < |stack| ==> stack[k] == ' '
    ensures r == [] || r[|r| - 1] != ' '
    decreases |stack|
  {
    if stack != [] && stack[|stack| - 1] == ' ' then TrimTop(stack[..|stack| - 1]) else stack
  }

  /** Trimming removes exactly the spaces above the top crate. */
  lemma TrimTopRemovesPadding(stack: seq<char>, n: nat)
    requires n <= |stack| && (n == 0 || stack[n - 1] != ' ')
    requires forall k :: n <= k < |stack| ==> stack[k] == ' '
    ensures TrimTop(stack) == stack[..n]
  {
  }

  /** `trim_top_of_stack`: pop while the top is a space. */
  method TrimTopOfStack(stack: seq<char>) returns (r: seq<char>)
    ensures r == TrimTop(stack)
  {
    r := stack;
    while r != [] && r[|r| - 1] == ' '
      invariant TrimTop(r) == TrimTop(stack)
    {
      r := r[..|r| - 1];
    }
  }

  /** A stack whose top is a crate is left alone, and trimming twice trims no more. */
  lemma TrimTopKeepsCrates(stack: seq<char>)
    ensures stack != [] && stack[|stack| - 1] != ' ' ==> TrimTop(stack) == stack
    ensures TrimTop(TrimTop(stack)) == TrimTop(stack)
  {
  }

  // ---------------------------------------------------------------- reading the drawing

  /** The drawing is cut into chunks of four characters; chunk `k` starts at `4 * k` and its
      character at index 1 (`4 * k + 1`) is the crate letter, a space, or a stack label. A
      label digit is skipped. Stack `k` is created when it is one past the last stack;
      `None` stands for the two ways the source aborts: a chunk of one character (no
      index 1) and a chunk two or more stacks past the last one. */
  function PushChunks(stacks: Stacks, line: string, k: nat): (r: Option<Stacks>)
    ensures r.Some? ==> |stacks| <= |r.value|
    decreases |line| - 4 * k
  {
    if 4 * k >= |line| then Some(stacks)
    else if 4 * k + 1 >= |line| then None
    else if IsDigit(line[4 * k + 1]) then PushChunks(stacks, line, k + 1)
    else if k > |stacks| then None
    else
      var grown := if k == |stacks| then stacks + [[]] else stacks;
      PushChunks(grown[k := grown[k] + [line[4 * k + 1]]], line, k + 1)
  }

  /** The stacks after reading `lines` from the top of the drawing down, each still listed
      top to bottom. */
  function CollectStacks(lines: seq<string>): Option<Stacks>
    decreases |lines|
  {
    if lines == [] then Some([])
    else
      match CollectStacks(lines[..|lines| - 1])
      case None => None
      case Some(stacks) => PushChunks(stacks, lines[|lines| - 1], 0)
  }

  /** `parse_boxes` as a function: every stack turned bottom side first, with the spaces
      that stood above its top crate removed. */
  function ParseBoxesSpec(lines: seq<string>): Option<Stacks> {
    match CollectStacks(lines)
    case None => None
    case Some(raw) => Some(seq(|raw|, i requires 0 <= i < |raw| => TrimTop(Reverse(raw[i]))))
  }

  lemma {:induction false} CollectStaysFailed(lines: seq<string>, n: nat)
    requires n <= |lines| && CollectStacks(lines[..n]).None?
    ensures CollectStacks(lines).None?
    decreases |lines| - n
  {
    if n < |lines| {
      assert lines[..n + 1][..n] == lines[..n];
      CollectStaysFailed(lines, n + 1);
    } else {
      assert lines[..n] == lines;
    }
  }

  /** `parse_boxes`, the chunk loop of one line. */
  method PushLineChunks(stacks: Stacks, line: string) returns (r: Option<Stacks>)
    ensures r == PushChunks(stacks, line, 0)
  {
    var boxStacks := stacks;
    var stackNumber := 0;
    while 4 * stackNumber < |line|
      invariant PushChunks(boxStacks, line, stackNumber) == PushChunks(stacks, line, 0)
      decreases |line| - 4 * stackNumber
    {
      if 4 * stackNumber + 1 >= |line| {
        return None;
      }
      var letter := line[4 * stackNumber + 1];
      if IsDigit(letter) {
        stackNumber := stackNumber + 1;
        continue;
      }
      if |boxStacks| == 0 || |boxStacks| - 1 < stackNumber {
        boxStacks := boxStacks + [[]];
      }
      if stackNumber >= |boxStacks| {
        return None;
      }
      boxStacks := boxStacks[stackNumber := boxStacks[stackNumber] + [letter]];
      stackNumber := stackNumber + 1;
    }
    r := Some(boxStacks);
  }

  /** `parse_boxes`: read each line's chunks, then reverse and trim every stack. */
  method ParseBoxes(lines: seq<string>) returns (r: Option<Stacks>)
    ensures r == ParseBoxesSpec(lines)
  {
    var boxStacks: Stacks := [];
    for i := 0 to |lines|
      invariant CollectStacks(lines[..i]) == Some(boxStacks)
    {
      assert lines[..i + 1][..i] == lines[..i];
      var next := PushLineChunks(boxStacks, lines[i]);
      if next.None? {
        CollectStaysFailed(lines, i + 1);
        return None;
      }
      boxStacks := next.value;
    }
    assert lines[..|lines|] == lines;
    var result: Stacks := [];
    for i := 0 to |boxStacks|
      invariant |result| == i
      invariant forall j :: 0 <= j < i ==> result[j] == TrimTop(Reverse(boxStacks[j]))
    {
      var stack := TrimTopOfStack(Reverse(boxStacks[i]));
      result := result + [stack];
    }
    assert result == seq(|boxStacks|, i requires 0 <= i < |boxStacks| => TrimTop(Reverse(boxStacks[i])));
    r := Some(result);
  }

  /** A line whose every chunk carries a digit at index 1, like the label row
      ` 1   2   3 `, adds no crate and no stack. */
  lemma {:induction false} LabelRowAddsNothing(stacks: Stacks, line: string, k: nat)
    requires forall j: nat :: k <= j && 4 * j < |line| ==> 4 * j + 1 < |line| && IsDigit(line[4 * j + 1])
    ensures PushChunks(stacks, line, k) == Some(stacks)
    decreases |line| - 4 * k
  {
    if 4 * k < |line| {
      LabelRowAddsNothing(stacks, line, k + 1);
    }
  }

  lemma CollectAppend(lines: seq<string>, line: string)
    ensures CollectStacks(lines + [line]) ==
      (match CollectStacks(lines) case None => None case Some(stacks) => PushChunks(stacks, line, 0))
  {
    assert (lines + [line])[..|lines|] == lines;
  }

  /** Reading chunk `k` of a line: a letter that is not a digit goes onto stack `k`. */
  lemma PushChunkStep(stacks: Stacks, line: string, k: nat, next: Stacks)
    requires 4 * k + 1 < |line| && !IsDigit(line[4 * k + 1]) && k <= |stacks|
    requires |next| == (if k == |stacks| then k + 1 else |stacks|)
    requires next[k] == (if k == |stacks| then [] else stacks[k]) + [line[4 * k + 1]]
    requires forall i :: 0 <= i < |stacks| && i != k ==> next[i] == stacks[i]
    ensures PushChunks(stacks, line, k) == PushChunks(next, line, k + 1)
  {
    if k == |stacks| {
      assert (stacks + [[]])[k := [] + [line[4 * k + 1]]] == next;
    } else {
      assert stacks[k := stacks[k] + [line[4 * k + 1]]] == next;
    }
  }

  /** The number of four-character chunks a line is cut into. */
  function ChunkCount(line: string): nat {
    (|line| + 3) / 4
  }

  /** A row of the drawing with a crate letter or a space, never a label digit, at index 1 of
      each of its chunks. */
  predicate CrateRow(line: string) {
    forall j :: 0 <= j < ChunkCount(line) ==> 4 * j + 1 < |line| && !IsDigit(line[4 * j + 1])
  }

  /** Reading a crate row from chunk `k` on never panics: stack `i` (for `k <= i`) receives
      the character at index `4 * i + 1`, missing stacks are created, and no other stack
      changes. */
  lemma {:induction false} PushCrateRow(stacks: Stacks, line: string, k: nat)
    requires CrateRow(line) && k <= |stacks|
    ensures PushChunks(stacks, line, k).Some?
    ensures var r := PushChunks(stacks, line, k).value;
      |r| == (if ChunkCount(line) > |stacks| then ChunkCount(line) else |stacks|)
      && forall i :: 0 <= i < |r| ==>
        r[i] == (if i < |stacks| then stacks[i] else [])
          + (if k <= i < ChunkCount(line) then [line[4 * i + 1]] else [])
    decreases |line| - 4 * k
  {
    var m := ChunkCount(line);
    if k < m {
      var c := line[4 * k + 1];
      var next := (if k == |stacks| then stacks + [[]] else stacks)[k := (if k == |stacks| then [] else stacks[k]) + [c]];
      PushChunkStep(stacks, line, k, next);
      PushCrateRow(next, line, k + 1);
      var r := PushChunks(stacks, line, k).value;
      forall i | 0 <= i < |r|
        ensures r[i] == (if i < |stacks| then stacks[i] else [])
          + (if k <= i < m then [line[4 * i + 1]] else [])
      {
        if i == k {
          assert r[i] == next[k];
        } else if i < |next| {
          assert next[i] == stacks[i];
        }
      }
    }
  }

  /** Crate rows of `m` chunks each: the part of the drawing above its label row. */
  predicate CrateRows(rows: seq<string>, m: nat) {
    forall j :: 0 <= j < |rows| ==> CrateRow(rows[j]) && ChunkCount(rows[j]) == m
  }

  /** Stack `k` after reading `rows`: their letters at index `4 * k + 1`, top row first. */
  function Column(rows: seq<string>, m: nat, k: nat): (col: seq<char>)
    requires CrateRows(rows, m) && k < m
    ensures |col| == |rows|
  {
    seq(|rows|, j requires 0 <= j < |rows| => assert CrateRow(rows[j]); rows[j][4 * k + 1])
  }

  /** The stacks read from crate rows of `m` chunks each: stack `k` is column `k`. */
  function Columns(rows: seq<string>, m: nat): (r: Stacks)
    requires CrateRows(rows, m)
    ensures |r| == m
  {
    seq(m, k requires 0 <= k < m => Column(rows, m, k))
  }

  lemma CrateRowsInit(rows: seq<string>, m: nat)
    requires rows != [] && CrateRows(rows, m)
    ensures CrateRows(rows[..|rows| - 1], m)
    ensures CrateRow(rows[|rows| - 1]) && ChunkCount(rows[|rows| - 1]) == m
  {
    var init := rows[..|rows| - 1];
    forall j | 0 <= j < |init| ensures CrateRow(init[j]) && ChunkCount(init[j]) == m {
      assert init[j] == rows[j];
    }
  }

  /** Reading the last crate row onto the columns of the rows above it adds its letters to
      the bottom of each column. */
  lemma PushOntoColumns(rows: seq<string>, m: nat, stacks: Stacks)
    requires rows != [] && CrateRows(rows, m)
    requires CrateRows(rows[..|rows| - 1], m)
    requires stacks == if |rows| == 1 then [] else Columns(rows[..|rows| - 1], m)
    ensures PushChunks(stacks, rows[|rows| - 1], 0) == Some(Columns(rows, m))
  {
    var init := rows[..|rows| - 1];
    var last := rows[|rows| - 1];
    assert CrateRow(last) && ChunkCount(last) == m;
    PushCrateRow(stacks, last, 0);
    var r := PushChunks(stacks, last, 0).value;
    assert |r| == m;
    forall k | 0 <= k < m
      ensures r[k] == Column(rows, m, k)
    {
      assert r[k] == (if k < |stacks| then stacks[k] else []) + [last[4 * k + 1]];
      ColumnSnoc(rows, m, k);
    }
    assert r == Columns(rows, m);
  }

  lemma ColumnSnoc(rows: seq<string>, m: nat, k: nat)
    requires rows != [] && CrateRows(rows, m) && CrateRows(rows[..|rows| - 1], m) && k < m
    ensures CrateRow(rows[|rows| - 1])
    ensures Column(rows, m, k) ==
      (if |rows| == 1 then [] else Column(rows[..|rows| - 1], m, k)) + [rows[|rows| - 1][4 * k + 1]]
  {
    assert CrateRow(rows[|rows| - 1]);
  }

  /** Crate rows of `m` chunks each give `m` stacks, stack `k` holding column `k` of the
      drawing from the top row down. */
  lemma {:induction false} CollectCrateRows(rows: seq<string>, m: nat)
    requires rows != [] && CrateRows(rows, m)
    ensures CollectStacks(rows) == Some(Columns(rows, m))
    decreases |rows|
  {
    var init := rows[..|rows| - 1];
    var last := rows[|rows| - 1];
    CrateRowsInit(rows, m);
    assert rows == init + [last];
    CollectAppend(init, last);
    if init == [] {
      PushOntoColumns(rows, m, []);
    } else {
      CollectCrateRows(init, m);
      PushOntoColumns(rows, m, Columns(init, m));
    }
  }

  /** `parse_boxes` on crate rows of `m` chunks each followed by a label row: stack `k`
      holds column `k` of the drawing, bottom row first, without the spaces above its top
      crate. */
  lemma ParseBoxesColumns(rows: seq<string>, labels: string, m: nat)
    requires rows != [] && CrateRows(rows, m)
    requires forall j: nat :: 4 * j < |labels| ==> 4 * j + 1 < |labels| && IsDigit(labels[4 * j + 1])
    ensures ParseBoxesSpec(rows + [labels]) ==
      Some(seq(m, k requires 0 <= k < m => TrimTop(Reverse(Column(rows, m, k)))))
  {
    CollectCrateRows(rows, m);
    CollectAppend(rows, labels);
    var raw := Columns(rows, m);
    LabelRowAddsNothing(raw, labels, 0);
    assert CollectStacks(rows + [labels]) == Some(raw);
    var parsed := seq(|raw|, i requires 0 <= i < |raw| => TrimTop(Reverse(raw[i])));
    assert ParseBoxesSpec(rows + [labels]) == Some(parsed);
    assert parsed == seq(m, k requires 0 <= k < m => TrimTop(Reverse(Column(rows, m, k))));
  }

  /** The crate rows of the unit test's drawing, indented so that every letter sits at
      index 1 of its chunk; the two spaces above crate C are read as crates for now. */
  lemma ExampleUpperRows()
    ensures PushChunks([], "    [Z]", 0) == Some([[' '], ['Z']])
    ensures PushChunks([[' '], ['Z']], "    [N]", 0) == Some([[' ', ' '], ['Z', 'N']])
  {
    PushChunkStep([], "    [Z]", 0, [[' ']]);
    PushChunkStep([[' ']], "    [Z]", 1, [[' '], ['Z']]);
    PushChunkStep([[' '], ['Z']], "    [N]", 0, [[' ', ' '], ['Z']]);
    PushChunkStep([[' ', ' '], ['Z']], "    [N]", 1, [[' ', ' '], ['Z', 'N']]);
  }

  lemma ExampleLowerRows()
    ensures PushChunks([[' ', ' '], ['Z', 'N']], "[C] [D]", 0) ==
      Some([[' ', ' ', 'C'], ['Z', 'N', 'D']])
    ensures PushChunks([[' ', ' ', 'C'], ['Z', 'N', 'D']], "[M] [P] [A]", 0) ==
      Some([[' ', ' ', 'C', 'M'], ['Z', 'N', 'D', 'P'], ['A']])
  {
    PushChunkStep([[' ', ' '], ['Z', 'N']], "[C] [D]", 0, [[' ', ' ', 'C'], ['Z', 'N']]);
    PushChunkStep([[' ', ' ', 'C'], ['Z', 'N']], "[C] [D]", 1, [[' ', ' ', 'C'], ['Z', 'N', 'D']]);
    PushChunkStep([[' ', ' ', 'C'], ['Z', 'N', 'D']], "[M] [P] [A]", 0,
      [[' ', ' ', 'C', 'M'], ['Z', 'N', 'D']]);
    PushChunkStep([[' ', ' ', 'C', 'M'], ['Z', 'N', 'D']], "[M] [P] [A]", 1,
      [[' ', ' ', 'C', 'M'], ['Z', 'N', 'D', 'P']]);
    PushChunkStep([[' ', ' ', 'C', 'M'], ['Z', 'N', 'D', 'P']], "[M] [P] [A]", 2,
      [[' ', ' ', 'C', 'M'], ['Z', 'N', 'D', 'P'], ['A']]);
  }

  lemma ExampleDrawingUpper()
    ensures CollectStacks(["", "    [Z]", "    [N]"]) == Some([[' ', ' '], ['Z', 'N']])
  {
    ExampleUpperRows();
    CollectAppend([], "");
    assert CollectStacks([""]) == Some([]);
    CollectAppend([""], "    [Z]");
    assert [""] + ["    [Z]"] == ["", "    [Z]"];
    assert CollectStacks(["", "    [Z]"]) == Some([[' '], ['Z']]);
    CollectAppend(["", "    [Z]"], "    [N]");
    assert ["", "    [Z]"] + ["    [N]"] == ["", "    [Z]", "    [N]"];
  }

  lemma ExampleDrawingStacks()
    ensures CollectStacks(["", "    [Z]", "    [N]", "[C] [D]", "[M] [P] [A]", " 1   2   3"]) ==
      Some([[' ', ' ', 'C', 'M'], ['Z', 'N', 'D', 'P'], ['A']])
  {
    ExampleDrawingUpper();
    ExampleLowerRows();
    LabelRowAddsNothing([[' ', ' ', 'C', 'M'], ['Z', 'N', 'D', 'P'], ['A']], " 1   2   3", 0);
    CollectAppend(["", "    [Z]", "    [N]"], "[C] [D]");
    assert ["", "    [Z]", "    [N]"] + ["[C] [D]"] == ["", "    [Z]", "    [N]", "[C] [D]"];
    assert CollectStacks(["", "    [Z]", "    [N]", "[C] [D]"]) ==
      Some([[' ', ' ', 'C'], ['Z', 'N', 'D']]);
    CollectAppend(["", "    [Z]", "    [N]", "[C] [D]"], "[M] [P] [A]");
    assert ["", "    [Z]", "    [N]", "[C] [D]"] + ["[M] [P] [A]"] ==
      ["", "    [Z]", "    [N]", "[C] [D]", "[M] [P] [A]"];
    assert CollectStacks(["", "    [Z]", "    [N]", "[C] [D]", "[M] [P] [A]"]) ==
      Some([[' ', ' ', 'C', 'M'], ['Z', 'N', 'D', 'P'], ['A']]);
    CollectAppend(["", "    [Z]", "    [N]", "[C] [D]", "[M] [P] [A]"], " 1   2   3");
    assert ["", "    [Z]", "    [N]", "[C] [D]", "[M] [P] [A]"] + [" 1   2   3"] ==
      ["", "    [Z]", "    [N]", "[C] [D]", "[M] [P] [A]", " 1   2   3"];
  }

  /** The drawing of the unit test, with the indentation that puts every crate letter and
      every label at index 1 of its chunk, reads as the stacks the test expects: the two
      spaces above crate C are trimmed away. */
  lemma ParseBoxesExample()
    ensures ParseBoxesSpec(["", "    [Z]", "    [N]", "[C] [D]", "[M] [P] [A]", " 1   2   3"]) ==
      Some([['M', 'C'], ['P', 'D', 'N', 'Z'], ['A']])
  {
    ExampleDrawingStacks();
    ExampleStacksTurned();
    var raw: Stacks := [[' ', ' ', 'C', 'M'], ['Z', 'N', 'D', 'P'], ['A']];
    var r := seq(|raw|, i requires 0 <= i < |raw| => TrimTop(Reverse(raw[i])));
    assert r == [['M', 'C'], ['P', 'D', 'N', 'Z'], ['A']];
  }

  lemma ExampleStacksTurned()
    ensures TrimTop(Reverse([' ', ' ', 'C', 'M'])) == ['M', 'C']
    ensures TrimTop(Reverse(['Z', 'N', 'D', 'P'])) == ['P', 'D', 'N', 'Z']
    ensures TrimTop(Reverse(['A'])) == ['A']
  {
    assert Reverse([' ', ' ', 'C', 'M']) == ['M', 'C', ' ', ' '];
    TrimTopRemovesPadding(['M', 'C', ' ', ' '], 2);
    assert Reverse(['Z', 'N', 'D', 'P']) == ['P', 'D', 'N', 'Z'];
    TrimTopRemovesPadding(['P', 'D', 'N', 'Z'], 4);
    assert Reverse(['A']) == ['A'];
    TrimTopRemovesPadding(['A'], 1);
  }

  lemma AsWrittenCrateRows()
    ensures PushChunks([['Z']], "[N]", 0) == Some([['Z', 'N']])
    ensures PushChunks([['Z', 'N']], "[C] [D]", 0) == Some([['Z', 'N', 'C'], ['D']])
    ensures PushChunks([['Z', 'N', 'C'], ['D']], "[M] [P] [A]", 0) ==
      Some([['Z', 'N', 'C', 'M'], ['D', 'P'], ['A']])
  {
    PushChunkStep([['Z']], "[N]", 0, [['Z', 'N']]);
    PushChunkStep([['Z', 'N']], "[C] [D]", 0, [['Z', 'N', 'C']]);
    PushChunkStep([['Z', 'N', 'C']], "[C] [D]", 1, [['Z', 'N', 'C'], ['D']]);
    PushChunkStep([['Z', 'N', 'C'], ['D']], "[M] [P] [A]", 0, [['Z', 'N', 'C', 'M'], ['D']]);
    PushChunkStep([['Z', 'N', 'C', 'M'], ['D']], "[M] [P] [A]", 1, [['Z', 'N', 'C', 'M'], ['D', 'P']]);
    PushChunkStep([['Z', 'N', 'C', 'M'], ['D', 'P']], "[M] [P] [A]", 2,
      [['Z', 'N', 'C', 'M'], ['D', 'P'], ['A']]);
  }

  /** The label row as written: the spaces at index 1 of its first two chunks are read as
      crates, and its last chunk `3` has no index 1, on which the source aborts. */
  lemma AsWrittenLabelRow()
    ensures PushChunks([['Z', 'N', 'C', 'M'], ['D', 'P'], ['A']], "1   2   3", 0) == None
  {
    PushChunkStep([['Z', 'N', 'C', 'M'], ['D', 'P'], ['A']], "1   2   3", 0,
      [['Z', 'N', 'C', 'M', ' '], ['D', 'P'], ['A']]);
    PushChunkStep([['Z', 'N', 'C', 'M', ' '], ['D', 'P'], ['A']], "1   2   3", 1,
      [['Z', 'N', 'C', 'M', ' '], ['D', 'P', ' '], ['A']]);
  }

  /** The same test as written, without that indentation, makes the source abort. */
  lemma ParseBoxesTestAsWritten()
    ensures ParseBoxesSpec(["", "[Z]", "[N]", "[C] [D]", "[M] [P] [A]", "1   2   3"]) == None
  {
    PushChunkStep([], "[Z]", 0, [['Z']]);
    AsWrittenCrateRows();
    AsWrittenLabelRow();
    CollectAppend([], "");
    CollectAppend([""], "[Z]");
    CollectAppend(["", "[Z]"], "[N]");
    CollectAppend(["", "[Z]", "[N]"], "[C] [D]");
    CollectAppend(["", "[Z]", "[N]", "[C] [D]"], "[M] [P] [A]");
    CollectAppend(["", "[Z]", "[N]", "[C] [D]", "[M] [P] [A]"], "1   2   3");
  }

  /** Every stack `parse_boxes` returns is empty or has a crate, not a space, on top. */
  lemma ParsedStacksEndInCrates(lines: seq<string>)
    requires ParseBoxesSpec(lines).Some?
    ensures forall i :: 0 <= i < |ParseBoxesSpec(lines).value| ==>
      var s := ParseBoxesSpec(lines).value[i]; s == [] || s[|s| - 1] != ' '
  {
  }

  // ---------------------------------------------------------------- instructions

  /** A move of `count` crates from stack `from` to stack `to`, both counted from 0. */
  datatype Instruction = Instruction(count: nat, from: nat, to: nat)

  /** `Instruction::from_line`: words 1, 3 and 5 of "move N from A to B", with A and B
      turned into 0-based stack indices. `None` where the source aborts: fewer than six
      words, a word that is not a number in range, or a stack number 0. */
  function FromLine(line: string): (r: Option<Instruction>)
    ensures r.Some? ==> |Split(line, ' ')| >= 6
  {
    var parts := Split(line, ' ');
    if |parts| < 6 then None
    else
      match (ParseBelow(parts[1], U32Limit), ParseBelow(parts[3], UsizeLimit), ParseBelow(parts[5], UsizeLimit))
      case (Some(n), Some(a), Some(b)) => if a == 0 || b == 0 then None else Some(Instruction(n, a - 1, b - 1))
      case _ => None
  }

  /** The words of an instruction line. */
  function ShowInstruction(count: nat, from: nat, to: nat): string {
    Join(["move", ShowNat(count), "from", ShowNat(from), "to", ShowNat(to)], ' ')
  }

  lemma ShowNatHasNoSpace(n: nat)
    ensures ' ' !in ShowNat(n)
  {
    assert forall k :: 0 <= k < |ShowNat(n)| ==> IsDigit(ShowNat(n)[k]);
  }

  lemma InstructionWords(count: nat, from: nat, to: nat)
    ensures Split(ShowInstruction(count, from, to), ' ') ==
      ["move", ShowNat(count), "from", ShowNat(from), "to", ShowNat(to)]
  {
    ShowNatHasNoSpace(count);
    ShowNatHasNoSpace(from);
    ShowNatHasNoSpace(to);
    SplitJoin(["move", ShowNat(count), "from", ShowNat(from), "to", ShowNat(to)], ' ');
  }

  lemma FromLineOfWords(line: string, count: nat, from: nat, to: nat)
    requires |Split(line, ' ')| >= 6
    requires ParseBelow(Split(line, ' ')[1], U32Limit) == Some(count)
    requires ParseBelow(Split(line, ' ')[3], UsizeLimit) == Some(from)
    requires ParseBelow(Split(line, ' ')[5], UsizeLimit) == Some(to)
    requires from >= 1 && to >= 1
    ensures FromLine(line) == Some(Instruction(count, from - 1, to - 1))
  {
  }

  /** Reading back a written instruction gives its numbers, the stack numbers made 0-based. */
  lemma FromLineRoundTrip(count: nat, from: nat, to: nat)
    requires count < U32Limit && 1 <= from < UsizeLimit && 1 <= to < UsizeLimit
    ensures FromLine(ShowInstruction(count, from, to)) == Some(Instruction(count, from - 1, to - 1))
  {
    var line := ShowInstruction(count, from, to);
    InstructionWords(count, from, to);
    var parts := Split(line, ' ');
    ParseShowNat(count);
    ParseShowNat(from);
    ParseShowNat(to);
    assert parts[1] == ShowNat(count) && parts[3] == ShowNat(from) && parts[5] == ShowNat(to);
    FromLineOfWords(line, count, from, to);
  }

  // ---------------------------------------------------------------- moving crates

  /** The number of crates on all stacks. */
  function TotalCrates(stacks: Stacks): nat {
    if stacks == [] then 0 else TotalCrates(stacks[..|stacks| - 1]) + |stacks[|stacks| - 1]|
  }

  /** What both cranes demand: nothing when nothing moves, otherwise both stacks exist and
      the source holds enough crates (one-at-a-time onto itself only needs one crate). */
  predicate CanMoveOneAtATime(stacks: Stacks, ins: Instruction) {
    ins.count == 0 ||
    (ins.from < |stacks| && ins.to < |stacks| &&
     (if ins.from == ins.to then |stacks[ins.from]| >= 1 else |stacks[ins.from]| >= ins.count))
  }

  predicate CanMoveBlock(stacks: Stacks, ins: Instruction) {
    ins.count == 0 || (ins.from < |stacks| && ins.to < |stacks| && |stacks[ins.from]| >= ins.count)
  }

  /** The crane of `run`: `count` times, pop the source and push onto the destination. The
      moved crates arrive in reversed order. */
  function MoveOneAtATime(stacks: Stacks, ins: Instruction): (r: Stacks)
    requires CanMoveOneAtATime(stacks, ins)
    ensures |r| == |stacks|
  {
    if ins.count == 0 || ins.from == ins.to then stacks
    else
      var src := stacks[ins.from];
      var keep := |src| - ins.count;
      stacks[ins.from := src[..keep]][ins.to := stacks[ins.to] + Reverse(src[keep..])]
  }

  /** The crane of `run2`: pop `count` crates onto a temporary stack, then pop that onto the
      destination. The moved block keeps its order. */
  function MoveBlock(stacks: Stacks, ins: Instruction): (r: Stacks)
    requires CanMoveBlock(stacks, ins)
    ensures |r| == |stacks|
  {
    if ins.count == 0 || ins.from == ins.to then stacks
    else
      var src := stacks[ins.from];
      var keep := |src| - ins.count;
      stacks[ins.from := src[..keep]][ins.to := stacks[ins.to] + src[keep..]]
  }

  /** The inner loop of `run`. */
  method ApplyOneAtATime(stacks: Stacks, ins: Instruction) returns (r: Stacks)
    requires CanMoveOneAtATime(stacks, ins)
    ensures r == MoveOneAtATime(stacks, ins)
  {
    r := stacks;
    if ins.count == 0 {
      return;
    }
    var from, to := ins.from, ins.to;
    ghost var src := stacks[from];
    if from == to {
      for _ := 0 to ins.count
        invariant r == stacks
      {
        var b := r[from][|r[from]| - 1];
        r := r[from := r[from][..|r[from]| - 1]];
        r := r[to := r[to] + [b]];
        assert stacks[from][..|src| - 1] + [b] == stacks[from];
      }
      return;
    }
    assert src[..|src|] == src && src[|src|..] == [];
    for moved := 0 to ins.count
      invariant |r| == |stacks|
      invariant r[from] == src[..|src| - moved]
      invariant r[to] == stacks[to] + Reverse(src[|src| - moved..])
      invariant forall i :: 0 <= i < |stacks| && i != from && i != to ==> r[i] == stacks[i]
    {
      var b := r[from][|r[from]| - 1];
      assert b == src[|src| - moved - 1];
      assert src[..|src| - moved][..|src| - moved - 1] == src[..|src| - (moved + 1)];
      r := r[from := r[from][..|r[from]| - 1]];
      r := r[to := r[to] + [b]];
      assert Reverse(src[|src| - (moved + 1)..]) == Reverse(src[|src| - moved..]) + [b];
    }
  }

  /** The first inner loop of `run2`: pop `count` crates of stack `from` onto a temporary
      stack, which holds them top first. */
  method PopBlock(stacks: Stacks, from: nat, count: nat) returns (r: Stacks, stack: seq<char>)
    requires from < |stacks| && |stacks[from]| >= count
    ensures r == stacks[from := stacks[from][..|stacks[from]| - count]]
    ensures stack == Reverse(stacks[from][|stacks[from]| - count..])
  {
    r := stacks;
    stack := [];
    ghost var src := stacks[from];
    assert src[..|src|] == src && src[|src|..] == [];
    for moved := 0 to count
      invariant r == stacks[from := src[..|src| - moved]]
      invariant stack == Reverse(src[|src| - moved..])
    {
      var b := r[from][|r[from]| - 1];
      assert b == src[|src| - moved - 1];
      assert src[..|src| - moved][..|src| - moved - 1] == src[..|src| - (moved + 1)];
      r := r[from := r[from][..|r[from]| - 1]];
      stack := stack + [b];
      assert Reverse(src[|src| - (moved + 1)..]) == Reverse(src[|src| - moved..]) + [b];
    }
  }

  /** The second inner loop of `run2`: pop the temporary stack onto stack `to`. */
  method PushBack(stacks: Stacks, to: nat, stack: seq<char>) returns (r: Stacks)
    requires to < |stacks|
    ensures r == stacks[to := stacks[to] + Reverse(stack)]
  {
    r := stacks;
    var rest := stack;
    ghost var block := Reverse(stack);
    ghost var n := |stack|;
    assert stacks[to] + block[..0] == stacks[to];
    while rest != []
      invariant |rest| <= n && rest == stack[..|rest|]
      invariant r == stacks[to := stacks[to] + block[..n - |rest|]]
      decreases |rest|
    {
      var b := rest[|rest| - 1];
      ghost var m := n - |rest|;
      assert b == block[m];
      assert block[..m + 1] == block[..m] + [b];
      assert r[to] + [b] == stacks[to] + block[..m + 1];
      rest := rest[..|rest| - 1];
      r := r[to := r[to] + [b]];
    }
    assert block[..n] == block;
  }

  /** The inner loops of `run2`: fill the temporary stack, then empty it. */
  method ApplyBlock(stacks: Stacks, ins: Instruction) returns (r: Stacks)
    requires CanMoveBlock(stacks, ins)
    ensures r == MoveBlock(stacks, ins)
  {
    if ins.count == 0 {
      return stacks;
    }
    var stack;
    r, stack := PopBlock(stacks, ins.from, ins.count);
    r := PushBack(r, ins.to, stack);
    ghost var src := stacks[ins.from];
    ReverseReverse(src[|src| - ins.count..]);
    assert src[..|src| - ins.count] + src[|src| - ins.count..] == src;
  }

  /** `run` and `run2` apply their crane to every instruction in turn; the list stops at the
      first instruction whose crates are not there (where the source aborts). */
  function RearrangeOneAtATime(stacks: Stacks, instructions: seq<Instruction>): Option<Stacks>
    decreases |instructions|
  {
    if instructions == [] then Some(stacks)
    else if !CanMoveOneAtATime(stacks, instructions[0]) then None
    else RearrangeOneAtATime(MoveOneAtATime(stacks, instructions[0]), instructions[1..])
  }

  function RearrangeBlocks(stacks: Stacks, instructions: seq<Instruction>): Option<Stacks>
    decreases |instructions|
  {
    if instructions == [] then Some(stacks)
    else if !CanMoveBlock(stacks, instructions[0]) then None
    else RearrangeBlocks(MoveBlock(stacks, instructions[0]), instructions[1..])
  }

  /** The move loop of `run`. */
  method RunOneAtATime(stacks: Stacks, instructions: seq<Instruction>) returns (r: Option<Stacks>)
    ensures r == RearrangeOneAtATime(stacks, instructions)
  {
    var boxStacks := stacks;
    for i := 0 to |instructions|
      invariant RearrangeOneAtATime(boxStacks, instructions[i..]) == RearrangeOneAtATime(stacks, instructions)
    {
      assert instructions[i..][1..] == instructions[i + 1..];
      if !CanMoveOneAtATime(boxStacks, instructions[i]) {
        return None;
      }
      boxStacks := ApplyOneAtATime(boxStacks, instructions[i]);
    }
    r := Some(boxStacks);
  }

  /** The move loop of `run2`. */
  method RunBlocks(stacks: Stacks, instructions: seq<Instruction>) returns (r: Option<Stacks>)
    ensures r == RearrangeBlocks(stacks, instructions)
  {
    var boxStacks := stacks;
    for i := 0 to |instructions|
      invariant RearrangeBlocks(boxStacks, instructions[i..]) == RearrangeBlocks(stacks, instructions)
    {
      assert instructions[i..][1..] == instructions[i + 1..];
      if !CanMoveBlock(boxStacks, instructions[i]) {
        return None;
      }
      boxStacks := ApplyBlock(boxStacks, instructions[i]);
    }
    r := Some(boxStacks);
  }

  /** The answer both runs print: the top crate of every stack. */
  function TopCrates(stacks: Stacks): (r: string)
    requires forall i :: 0 <= i < |stacks| ==> stacks[i] != []
    ensures |r| == |stacks|
    ensures forall i :: 0 <= i < |stacks| ==> r[i] == stacks[i][|stacks[i]| - 1]
  {
    seq(|stacks|, i requires 0 <= i < |stacks| => stacks[i][|stacks[i]| - 1])
  }

  // ---------------------------------------------------------------- what the cranes keep

  lemma {:induction false} TotalCratesUpdate(stacks: Stacks, i: nat, s: seq<char>)
    requires i < |stacks|
    ensures TotalCrates(stacks[i := s]) + |stacks[i]| == TotalCrates(stacks) + |s|
    decreases |stacks|
  {
    var n := |stacks|;
    if i < n - 1 {
      assert stacks[i := s][..n - 1] == stacks[..n - 1][i := s];
      TotalCratesUpdate(stacks[..n - 1], i, s);
    } else {
      assert stacks[i := s][..n - 1] == stacks[..n - 1];
    }
  }

  /** Taking crates off one stack and putting as many on another keeps the total. */
  lemma TotalAfterTransfer(stacks: Stacks, f: nat, t: nat, a: seq<char>, b: seq<char>)
    requires f < |stacks| && t < |stacks| && f != t
    requires |a| + |b| == |stacks[f]| + |stacks[t]|
    ensures TotalCrates(stacks[f := a][t := b]) == TotalCrates(stacks)
  {
    TotalCratesUpdate(stacks, f, a);
    TotalCratesUpdate(stacks[f := a], t, b);
  }

  /** Either crane: the source loses its top `count` crates, the destination gains them on
      top, every other stack stays as it was and no crate is lost or made. */
  lemma OneAtATimeMovesTheTop(stacks: Stacks, ins: Instruction)
    requires CanMoveOneAtATime(stacks, ins) && ins.from != ins.to && ins.count > 0
    ensures var r := MoveOneAtATime(stacks, ins); var src := stacks[ins.from];
      r[ins.from] == src[..|src| - ins.count] &&
      r[ins.to][..|stacks[ins.to]|] == stacks[ins.to] &&
      |r[ins.to]| == |stacks[ins.to]| + ins.count &&
      r[ins.to][|stacks[ins.to]|] == src[|src| - 1] &&
      (forall i :: 0 <= i < |stacks| && i != ins.from && i != ins.to ==> r[i] == stacks[i]) &&
      TotalCrates(r) == TotalCrates(stacks)
  {
    var src := stacks[ins.from];
    var keep := |src| - ins.count;
    TotalAfterTransfer(stacks, ins.from, ins.to, src[..keep], stacks[ins.to] + Reverse(src[keep..]));
  }

  lemma BlockMovesTheTop(stacks: Stacks, ins: Instruction)
    requires CanMoveBlock(stacks, ins) && ins.from != ins.to && ins.count > 0
    ensures var r := MoveBlock(stacks, ins); var src := stacks[ins.from];
      r[ins.from] == src[..|src| - ins.count] &&
      r[ins.to] == stacks[ins.to] + src[|src| - ins.count..] &&
      (forall i :: 0 <= i < |stacks| && i != ins.from && i != ins.to ==> r[i] == stacks[i]) &&
      TotalCrates(r) == TotalCrates(stacks)
  {
    var src := stacks[ins.from];
    var keep := |src| - ins.count;
    TotalAfterTransfer(stacks, ins.from, ins.to, src[..keep], stacks[ins.to] + src[keep..]);
  }

  /** The two cranes differ only in the order of the block: one crate at a time is the
      block move of the reversed block, and for a single crate they agree. */
  lemma CranesDifferByOrder(stacks: Stacks, ins: Instruction)
    requires CanMoveBlock(stacks, ins) && ins.from != ins.to && ins.count > 0
    ensures CanMoveOneAtATime(stacks, ins)
    ensures var src := stacks[ins.from]; var keep := |src| - ins.count;
      MoveOneAtATime(stacks, ins) == MoveBlock(stacks[ins.from := src[..keep] + Reverse(src[keep..])], ins)
    ensures ins.count == 1 ==> MoveOneAtATime(stacks, ins) == MoveBlock(stacks, ins)
  {
    var src := stacks[ins.from];
    var keep := |src| - ins.count;
    var flipped := src[..keep] + Reverse(src[keep..]);
    assert flipped[..keep] == src[..keep];
    assert flipped[keep..] == Reverse(src[keep..]);
    if ins.count == 1 {
      assert Reverse(src[keep..]) == src[keep..];
    }
  }

  /** Moving the same number of crates back undoes a move, with either crane. */
  lemma BlockMoveUndone(stacks: Stacks, ins: Instruction)
    requires CanMoveBlock(stacks, ins)
    ensures CanMoveBlock(MoveBlock(stacks, ins), Instruction(ins.count, ins.to, ins.from))
    ensures MoveBlock(MoveBlock(stacks, ins), Instruction(ins.count, ins.to, ins.from)) == stacks
  {
    if ins.count > 0 && ins.from != ins.to {
      var src := stacks[ins.from];
      var keep := |src| - ins.count;
      var r := MoveBlock(stacks, ins);
      var dst := r[ins.to];
      assert dst[..|dst| - ins.count] == stacks[ins.to];
      assert dst[|dst| - ins.count..] == src[keep..];
      assert src[..keep] + src[keep..] == src;
    }
  }

  lemma OneAtATimeMoveUndone(stacks: Stacks, ins: Instruction)
    requires CanMoveBlock(stacks, ins) && ins.from != ins.to
    ensures CanMoveOneAtATime(MoveOneAtATime(stacks, ins), Instruction(ins.count, ins.to, ins.from))
    ensures MoveOneAtATime(MoveOneAtATime(stacks, ins), Instruction(ins.count, ins.to, ins.from)) == stacks
  {
    if ins.count > 0 {
      var src := stacks[ins.from];
      var keep := |src| - ins.count;
      var r := MoveOneAtATime(stacks, ins);
      var dst := r[ins.to];
      assert dst[..|dst| - ins.count] == stacks[ins.to];
      assert dst[|dst| - ins.count..] == Reverse(src[keep..]);
      ReverseReverse(src[keep..]);
      assert src[..keep] + src[keep..] == src;
    }
  }
}
