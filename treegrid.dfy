/** Day 8 (src/q8.rs): a grid of tree heights, which trees can be seen from outside the
    grid, and each tree's scenic score. */
module TreeGrid {
  import opened Wrappers
  import Common
  import Strings

  /** Tree heights, one inner sequence per row. */
  type Grid = seq<seq<nat>>

  /** Every row as long as the first one, and at least one row. */
  predicate Rectangular(g: Grid) {
    |g| >= 1 && forall i :: 0 <= i < |g| ==> |g[i]| == |g[0]|
  }

  predicate InGrid(g: Grid, i: int, j: int) {
    Rectangular(g) && 0 <= i < |g| && 0 <= j < |g[0]|
  }

  // ---------------------------------------------------------------- parsing

  /** One line as tree heights: each character minus '0'. `None` when a character sorts
      below '0', where the byte subtraction overflows and the program aborts. */
  function HeightsOf(line: string): (r: Option<seq<nat>>)
    ensures r.Some? <==> forall k :: 0 <= k < |line| ==> '0' <= line[k]
    ensures r.Some? ==> |r.value| == |line|
    ensures r.Some? ==> forall k :: 0 <= k < |line| ==> r.value[k] == line[k] as int - '0' as int
    decreases |line|
  {
    if line == [] then Some([])
    else
      var front := HeightsOf(line[..|line| - 1]);
      var last := line[|line| - 1];
      if front.None? || last < '0' then None
      else Some(front.value + [last as int - '0' as int])
  }

  /** The digit characters that stand for single-digit heights. */
  function ShowHeights(row: seq<nat>): (s: string)
    requires forall k :: 0 <= k < |row| ==> row[k] <= 9
  {
    seq(|row|, k requires 0 <= k < |row| => ('0' as int + row[k]) as char)
  }

  /** A row of single-digit heights written as digits reads back as the same row, and
      every digit line reads as heights 0 to 9. */
  lemma HeightsRoundTrip(row: seq<nat>)
    requires forall k :: 0 <= k < |row| ==> row[k] <= 9
    ensures HeightsOf(ShowHeights(row)) == Some(row)
    ensures forall k :: 0 <= k < |row| ==> Strings.IsDigit(ShowHeights(row)[k])
  {
    var s := ShowHeights(row);
    var r := HeightsOf(s);
    assert r.Some?;
    assert r.value == row;
  }

  lemma DigitLineHeights(line: string)
    requires Strings.AllDigits(line)
    ensures HeightsOf(line).Some?
    ensures forall k :: 0 <= k < |line| ==> HeightsOf(line).value[k] <= 9
  {
  }

  /** One row per line, in order; `None` as soon as a line does not parse. */
  function GridOf(lines: seq<string>): (r: Option<Grid>)
    ensures r.Some? <==> forall i :: 0 <= i < |lines| ==> HeightsOf(lines[i]).Some?
    ensures r.Some? ==> |r.value| == |lines|
    ensures r.Some? ==> forall i :: 0 <= i < |lines| ==> r.value[i] == HeightsOf(lines[i]).value
    decreases |lines|
  {
    if lines == [] then Some([])
    else
      var front := GridOf(lines[..|lines| - 1]);
      var last := HeightsOf(lines[|lines| - 1]);
      if front.None? || last.None? then None
      else Some(front.value + [last.value])
  }

  /** `parse_puzzle_input_to_tree_grid` as a function of the input text. */
  function ParseTreeGrid(input: string): Option<Grid> {
    GridOf(Common.ParseLines(input))
  }

  /** The inner loop of `parse_puzzle_input_to_tree_grid`: one height per character. */
  method ParseTreeRow(line: string) returns (r: Option<seq<nat>>)
    ensures r == HeightsOf(line)
  {
    var treeRow: seq<nat> := [];
    for j := 0 to |line|
      invariant HeightsOf(line[..j]) == Some(treeRow)
    {
      if line[j] < '0' {
        return None;
      }
      assert line[..j + 1][..j] == line[..j];
      treeRow := treeRow + [line[j] as int - '0' as int];
    }
    assert line[..|line|] == line;
    r := Some(treeRow);
  }

  /** `parse_puzzle_input_to_tree_grid`: one row per non-blank line. */
  method ParsePuzzleInputToTreeGrid(input: string) returns (r: Option<Grid>)
    ensures r == ParseTreeGrid(input)
  {
    var lines := Common.ParseLines(input);
    var treeGrid: Grid := [];
    for i := 0 to |lines|
      invariant GridOf(lines[..i]) == Some(treeGrid)
    {
      var treeRow := ParseTreeRow(lines[i]);
      if treeRow.None? {
        return None;
      }
      assert lines[..i + 1][..i] == lines[..i];
      treeGrid := treeGrid + [treeRow.value];
    }
    assert lines[..|lines|] == lines;
    r := Some(treeGrid);
  }

  // ---------------------------------------------------------------- visibility

  predicate OnBorder(g: Grid, i: int, j: int)
    requires InGrid(g, i, j)
  {
    i == 0 || i == |g| - 1 || j == 0 || j == |g[0]| - 1
  }

  /** Every tree between (i, j) and the left edge is shorter than it. */
  predicate ClearLeft(g: Grid, i: int, j: int)
    requires InGrid(g, i, j)
  {
    forall k :: 0 <= k < j ==> g[i][k] < g[i][j]
  }

  predicate ClearRight(g: Grid, i: int, j: int)
    requires InGrid(g, i, j)
  {
    forall k :: j < k < |g[0]| ==> g[i][k] < g[i][j]
  }

  predicate ClearUp(g: Grid, i: int, j: int)
    requires InGrid(g, i, j)
  {
    forall k :: 0 <= k < i ==> g[k][j] < g[i][j]
  }

  predicate ClearDown(g: Grid, i: int, j: int)
    requires InGrid(g, i, j)
  {
    forall k :: i < k < |g| ==> g[k][j] < g[i][j]
  }

  /** A tree is visible when it stands on the border or is strictly taller than every tree
      between it and the edge in at least one of the four directions. */
  predicate Visible(g: Grid, i: int, j: int)
    requires InGrid(g, i, j)
  {
    OnBorder(g, i, j) || ClearLeft(g, i, j) || ClearRight(g, i, j) || ClearUp(g, i, j) || ClearDown(g, i, j)
  }

  /** A running-maximum scan that starts from height 0 marks a tree when it is taller than
      0 and than everything the scan has passed. */
  predicate MarkedLeft(g: Grid, i: int, j: int)
    requires InGrid(g, i, j)
  {
    g[i][j] > 0 && ClearLeft(g, i, j)
  }

  predicate MarkedRight(g: Grid, i: int, j: int)
    requires InGrid(g, i, j)
  {
    g[i][j] > 0 && ClearRight(g, i, j)
  }

  predicate MarkedUp(g: Grid, i: int, j: int)
    requires InGrid(g, i, j)
  {
    g[i][j] > 0 && ClearUp(g, i, j)
  }

  predicate MarkedDown(g: Grid, i: int, j: int)
    requires InGrid(g, i, j)
  {
    g[i][j] > 0 && ClearDown(g, i, j)
  }

  /** The scans' "taller than 0" never loses a tree: the border is marked beforehand, and an
      interior tree that is taller than its neighbour on one side is taller than 0. */
  lemma MarksAreVisibility(g: Grid, i: int, j: int)
    requires InGrid(g, i, j)
    ensures Visible(g, i, j) <==>
      OnBorder(g, i, j) || MarkedLeft(g, i, j) || MarkedRight(g, i, j) || MarkedUp(g, i, j) || MarkedDown(g, i, j)
  {
    if !OnBorder(g, i, j) {
      if ClearLeft(g, i, j) {
        assert g[i][j - 1] < g[i][j];
      }
      if ClearRight(g, i, j) {
        assert g[i][j + 1] < g[i][j];
      }
      if ClearUp(g, i, j) {
        assert g[i - 1][j] < g[i][j];
      }
      if ClearDown(g, i, j) {
        assert g[i + 1][j] < g[i][j];
      }
    }
  }

  /** A visibility map laid out like the grid. */
  predicate SameShape(g: Grid, vis: seq<seq<bool>>)
    requires Rectangular(g)
  {
    |vis| == |g| && forall i :: 0 <= i < |vis| ==> |vis[i]| == |g[0]|
  }

  function VisibilityMap(g: Grid): (m: seq<seq<bool>>)
    requires Rectangular(g)
    ensures SameShape(g, m)
  {
    seq(|g|, i requires 0 <= i < |g| =>
      seq(|g[0]|, j requires 0 <= j < |g[0]| => Visible(g, i, j)))
  }

  function BorderMap(g: Grid): (m: seq<seq<bool>>)
    requires Rectangular(g)
    ensures SameShape(g, m)
  {
    seq(|g|, i requires 0 <= i < |g| =>
      seq(|g[0]|, j requires 0 <= j < |g[0]| => OnBorder(g, i, j)))
  }

  /** The number of `true` cells in a row, and in a map. */
  function CountRow(row: seq<bool>): (n: nat)
    ensures n <= |row|
  {
    if row == [] then 0
    else CountRow(row[..|row| - 1]) + Bit(row[|row| - 1])
  }

  function CountTrue(m: seq<seq<bool>>): nat {
    if m == [] then 0
    else CountTrue(m[..|m| - 1]) + CountRow(m[|m| - 1])
  }

  /** The number of visible trees. */
  function VisibleCount(g: Grid): nat
    requires Rectangular(g)
  {
    CountTrue(VisibilityMap(g))
  }

  lemma {:induction false} CountRowMono(a: seq<bool>, b: seq<bool>)
    requires |a| == |b|
    requires forall k :: 0 <= k < |a| && a[k] ==> b[k]
    ensures CountRow(a) <= CountRow(b)
    decreases |a|
  {
    if a != [] {
      CountRowMono(a[..|a| - 1], b[..|b| - 1]);
    }
  }

  lemma {:induction false} CountTrueMono(a: seq<seq<bool>>, b: seq<seq<bool>>)
    requires |a| == |b|
    requires forall i :: 0 <= i < |a| ==> |a[i]| == |b[i]|
    requires forall i, k :: 0 <= i < |a| && 0 <= k < |a[i]| && a[i][k] ==> b[i][k]
    ensures CountTrue(a) <= CountTrue(b)
    decreases |a|
  {
    if a != [] {
      CountTrueMono(a[..|a| - 1], b[..|b| - 1]);
      CountRowMono(a[|a| - 1], b[|b| - 1]);
    }
  }

  lemma {:induction false} CountTrueAtMost(m: seq<seq<bool>>, width: nat)
    requires forall i :: 0 <= i < |m| ==> |m[i]| == width
    ensures CountTrue(m) <= |m| * width
    decreases |m|
  {
    if m != [] {
      CountTrueAtMost(m[..|m| - 1], width);
      assert |m| * width == (|m| - 1) * width + width;
    }
  }

  /** At least every border tree and at most every tree is counted. */
  lemma VisibleCountBounds(g: Grid)
    requires Rectangular(g)
    ensures CountTrue(BorderMap(g)) <= VisibleCount(g) <= |g| * |g[0]|
  {
    CountTrueMono(BorderMap(g), VisibilityMap(g));
    CountTrueAtMost(VisibilityMap(g), |g[0]|);
  }

  /** The first scan: each row from its left end, marking each tree taller than the
      running maximum (which starts at 0). */
  method MarkFromLeft(g: Grid, vis: seq<seq<bool>>) returns (out: seq<seq<bool>>)
    requires Rectangular(g) && SameShape(g, vis)
    ensures SameShape(g, out)
    ensures forall a, b :: 0 <= a < |g| && 0 <= b < |g[0]| ==>
      out[a][b] == (vis[a][b] || MarkedLeft(g, a, b))
  {
    out := vis;
    for r := 0 to |g|
      invariant SameShape(g, out)
      invariant forall a, b :: 0 <= a < |g| && 0 <= b < |g[0]| ==>
        out[a][b] == (vis[a][b] || (a < r && MarkedLeft(g, a, b)))
    {
      var row := out[r];
      var maxHeight: nat := 0;
      for c := 0 to |g[r]|
        invariant |row| == |g[0]|
        invariant forall b :: 0 <= b < |g[0]| ==> row[b] == (vis[r][b] || (b < c && MarkedLeft(g, r, b)))
        invariant forall k :: 0 <= k < c ==> g[r][k] <= maxHeight
        invariant maxHeight == 0 || exists k :: 0 <= k < c && g[r][k] == maxHeight
      {
        if g[r][c] > maxHeight {
          maxHeight := g[r][c];
          row := row[c := true];
        } else {
          assert !MarkedLeft(g, r, c);
        }
      }
      out := out[r := row];
    }
  }

  /** The second scan: each row from its right end. */
  method MarkFromRight(g: Grid, vis: seq<seq<bool>>) returns (out: seq<seq<bool>>)
    requires Rectangular(g) && SameShape(g, vis)
    ensures SameShape(g, out)
    ensures forall a, b :: 0 <= a < |g| && 0 <= b < |g[0]| ==>
      out[a][b] == (vis[a][b] || MarkedRight(g, a, b))
  {
    out := vis;
    for r := 0 to |g|
      invariant SameShape(g, out)
      invariant forall a, b :: 0 <= a < |g| && 0 <= b < |g[0]| ==>
        out[a][b] == (vis[a][b] || (a < r && MarkedRight(g, a, b)))
    {
      var row := out[r];
      var maxHeight: nat := 0;
      for c := |g[r]| downto 0
        invariant |row| == |g[0]|
        invariant forall b :: 0 <= b < |g[0]| ==> row[b] == (vis[r][b] || (c <= b && MarkedRight(g, r, b)))
        invariant forall k :: c <= k < |g[0]| ==> g[r][k] <= maxHeight
        invariant maxHeight == 0 || exists k :: c <= k < |g[0]| && g[r][k] == maxHeight
      {
        if g[r][c] > maxHeight {
          maxHeight := g[r][c];
          row := row[c := true];
        } else {
          assert !MarkedRight(g, r, c);
        }
      }
      out := out[r := row];
    }
  }

  /** The third scan: each column from the top. */
  method MarkFromTop(g: Grid, vis: seq<seq<bool>>) returns (out: seq<seq<bool>>)
    requires Rectangular(g) && SameShape(g, vis)
    ensures SameShape(g, out)
    ensures forall a, b :: 0 <= a < |g| && 0 <= b < |g[0]| ==>
      out[a][b] == (vis[a][b] || MarkedUp(g, a, b))
  {
    out := vis;
    for c := 0 to |g[0]|
      invariant SameShape(g, out)
      invariant forall a, b :: 0 <= a < |g| && 0 <= b < |g[0]| ==>
        out[a][b] == (vis[a][b] || (b < c && MarkedUp(g, a, b)))
    {
      var maxHeight: nat := 0;
      for r := 0 to |g|
        invariant SameShape(g, out)
        invariant forall a, b :: 0 <= a < |g| && 0 <= b < |g[0]| ==>
          out[a][b] == (vis[a][b] || ((b < c || (b == c && a < r)) && MarkedUp(g, a, b)))
        invariant forall k :: 0 <= k < r ==> g[k][c] <= maxHeight
        invariant maxHeight == 0 || exists k :: 0 <= k < r && g[k][c] == maxHeight
      {
        if g[r][c] > maxHeight {
          maxHeight := g[r][c];
          out := out[r := out[r][c := true]];
        } else {
          assert !MarkedUp(g, r, c);
        }
      }
    }
  }

  /** The fourth scan: each column from the bottom. */
  method MarkFromBottom(g: Grid, vis: seq<seq<bool>>) returns (out: seq<seq<bool>>)
    requires Rectangular(g) && SameShape(g, vis)
    ensures SameShape(g, out)
    ensures forall a, b :: 0 <= a < |g| && 0 <= b < |g[0]| ==>
      out[a][b] == (vis[a][b] || MarkedDown(g, a, b))
  {
    out := vis;
    for c := 0 to |g[0]|
      invariant SameShape(g, out)
      invariant forall a, b :: 0 <= a < |g| && 0 <= b < |g[0]| ==>
        out[a][b] == (vis[a][b] || (b < c && MarkedDown(g, a, b)))
    {
      var maxHeight: nat := 0;
      for r := |g| downto 0
        invariant SameShape(g, out)
        invariant forall a, b :: 0 <= a < |g| && 0 <= b < |g[0]| ==>
          out[a][b] == (vis[a][b] || ((b < c || (b == c && r <= a)) && MarkedDown(g, a, b)))
        invariant forall k :: r <= k < |g| ==> g[k][c] <= maxHeight
        invariant maxHeight == 0 || exists k :: r <= k < |g| && g[k][c] == maxHeight
      {
        if g[r][c] > maxHeight {
          maxHeight := g[r][c];
          out := out[r := out[r][c := true]];
        } else {
          assert !MarkedDown(g, r, c);
        }
      }
    }
  }

  /** `get_visible_trees`: the border is marked first, then four running-maximum scans mark
      the rest; the result is the number of marked trees. */
  method GetVisibleTrees(g: Grid) returns (count: nat)
    requires Rectangular(g)
    ensures count == VisibleCount(g)
  {
    var vis: seq<seq<bool>> := [];
    for i := 0 to |g|
      invariant |vis| == i
      invariant forall a :: 0 <= a < i ==> vis[a] == BorderMap(g)[a]
    {
      var row: seq<bool> := [];
      for j := 0 to |g[0]|
        invariant |row| == j
        invariant forall b :: 0 <= b < j ==> row[b] == OnBorder(g, i, b)
      {
        row := row + [i == 0 || i == |g| - 1 || j == 0 || j == |g[0]| - 1];
      }
      vis := vis + [row];
    }
    assert vis == BorderMap(g);
    var left := MarkFromLeft(g, vis);
    var right := MarkFromRight(g, left);
    var top := MarkFromTop(g, right);
    var bottom := MarkFromBottom(g, top);
    forall a, b | 0 <= a < |g| && 0 <= b < |g[0]|
      ensures bottom[a][b] == VisibilityMap(g)[a][b]
    {
      MarksAreVisibility(g, a, b);
    }
    forall a | 0 <= a < |g|
      ensures bottom[a] == VisibilityMap(g)[a]
    {
    }
    assert bottom == VisibilityMap(g);
    count := CountTrue(bottom);
  }

  // ---------------------------------------------------------------- scenic score

  /** How many trees one sees along `line` (the heights going outward from a tree of
      height `h`): up to and including the first one at least as tall, or to the edge. */
  function ViewDistance(line: seq<nat>, h: nat): (d: nat)
    ensures d <= |line| && (line != [] ==> 1 <= d)
    ensures forall k :: 0 <= k < d - 1 ==> line[k] < h
    ensures d < |line| ==> line[d - 1] >= h
  {
    if line == [] then 0
    else if line[0] >= h then 1
    else 1 + ViewDistance(line[1..], h)
  }

  /** The three facts above pin the distance down: any count that satisfies them is it. */
  lemma {:induction false} ViewDistanceUnique(line: seq<nat>, h: nat, d: nat)
    requires d <= |line| && (line != [] ==> 1 <= d)
    requires forall k :: 0 <= k < d - 1 ==> line[k] < h
    requires d < |line| ==> line[d - 1] >= h
    ensures d == ViewDistance(line, h)
    decreases |line|
  {
    if line != [] && line[0] < h && d >= 2 {
      ViewDistanceUnique(line[1..], h, d - 1);
    }
  }

  /** The heights seen from (i, j) looking up, down, right and left, nearest first. */
  function LineUp(g: Grid, i: int, j: int): (line: seq<nat>)
    requires InGrid(g, i, j)
    ensures |line| == i
  {
    seq(i, k requires 0 <= k < i => g[i - 1 - k][j])
  }

  function LineDown(g: Grid, i: int, j: int): (line: seq<nat>)
    requires InGrid(g, i, j)
    ensures |line| == |g| - 1 - i
  {
    seq(|g| - 1 - i, k requires 0 <= k < |g| - 1 - i => g[i + 1 + k][j])
  }

  function LineRight(g: Grid, i: int, j: int): (line: seq<nat>)
    requires InGrid(g, i, j)
    ensures |line| == |g[0]| - 1 - j
  {
    seq(|g[0]| - 1 - j, k requires 0 <= k < |g[0]| - 1 - j => g[i][j + 1 + k])
  }

  function LineLeft(g: Grid, i: int, j: int): (line: seq<nat>)
    requires InGrid(g, i, j)
    ensures |line| == j
  {
    seq(j, k requires 0 <= k < j => g[i][j - 1 - k])
  }

  /** The product of two distances: 0 exactly when one of them is. */
  function Times(a: nat, b: nat): (p: nat)
    ensures p == 0 <==> a == 0 || b == 0
  {
    a * b
  }

  /** The product of the four viewing distances. */
  function ScenicScore(g: Grid, i: int, j: int): nat
    requires InGrid(g, i, j)
  {
    var h := g[i][j];
    Times(Times(ViewDistance(LineUp(g, i, j), h), ViewDistance(LineDown(g, i, j), h)),
          Times(ViewDistance(LineRight(g, i, j), h), ViewDistance(LineLeft(g, i, j), h)))
  }

  /** A tree on the border sees nothing in one direction, so its score is 0; an interior
      tree sees at least its four neighbours, so its score is at least 1. */
  lemma ScenicScoreZeroOnBorder(g: Grid, i: int, j: int)
    requires InGrid(g, i, j)
    ensures ScenicScore(g, i, j) == 0 <==> OnBorder(g, i, j)
  {
  }

  /** The upward scan of `get_scenic_score`: count rows above, nearest first, and stop
      after the first tree at least as tall. */
  method CountUp(g: Grid, row: nat, col: nat) returns (counter: nat)
    requires InGrid(g, row, col)
    ensures counter == ViewDistance(LineUp(g, row, col), g[row][col])
  {
    var h := g[row][col];
    ghost var line := LineUp(g, row, col);
    counter := 0;
    for i := row downto 0
      invariant counter == row - i
      invariant forall k :: 0 <= k < counter ==> line[k] < h
    {
      assert line[row - 1 - i] == g[i][col];
      counter := counter + 1;
      if g[i][col] >= h {
        break;
      }
    }
    ViewDistanceUnique(line, h, counter);
  }

  /** The downward scan. */
  method CountDown(g: Grid, row: nat, col: nat) returns (counter: nat)
    requires InGrid(g, row, col)
    ensures counter == ViewDistance(LineDown(g, row, col), g[row][col])
  {
    var h := g[row][col];
    ghost var line := LineDown(g, row, col);
    counter := 0;
    for i := row + 1 to |g|
      invariant counter == i - row - 1
      invariant forall k :: 0 <= k < counter ==> line[k] < h
    {
      assert line[i - row - 1] == g[i][col];
      counter := counter + 1;
      if g[i][col] >= h {
        break;
      }
    }
    ViewDistanceUnique(line, h, counter);
  }

  /** The rightward scan, run to the end of the row; `RightScanAsWritten` models the
      bound the source uses. */
  method CountRight(g: Grid, row: nat, col: nat) returns (counter: nat)
    requires InGrid(g, row, col)
    ensures counter == ViewDistance(LineRight(g, row, col), g[row][col])
  {
    var h := g[row][col];
    ghost var line := LineRight(g, row, col);
    counter := 0;
    for i := col + 1 to |g[0]|
      invariant counter == i - col - 1
      invariant forall k :: 0 <= k < counter ==> line[k] < h
    {
      assert line[i - col - 1] == g[row][i];
      counter := counter + 1;
      if g[row][i] >= h {
        break;
      }
    }
    ViewDistanceUnique(line, h, counter);
  }

  /** The leftward scan. */
  method CountLeft(g: Grid, row: nat, col: nat) returns (counter: nat)
    requires InGrid(g, row, col)
    ensures counter == ViewDistance(LineLeft(g, row, col), g[row][col])
  {
    var h := g[row][col];
    ghost var line := LineLeft(g, row, col);
    counter := 0;
    for i := col downto 0
      invariant counter == col - i
      invariant forall k :: 0 <= k < counter ==> line[k] < h
    {
      assert line[col - 1 - i] == g[row][i];
      counter := counter + 1;
      if g[row][i] >= h {
        break;
      }
    }
    ViewDistanceUnique(line, h, counter);
  }

  /** `get_scenic_score`: the product of the four counting scans. */
  method GetScenicScore(g: Grid, row: nat, col: nat) returns (score: nat)
    requires InGrid(g, row, col)
    ensures score == ScenicScore(g, row, col)
  {
    var up := CountUp(g, row, col);
    var down := CountDown(g, row, col);
    var right := CountRight(g, row, col);
    var left := CountLeft(g, row, col);
    score := Times(Times(up, down), Times(right, left));
  }

  predicate Interior(g: Grid, i: int, j: int)
    requires Rectangular(g)
  {
    1 <= i < |g| - 1 && 1 <= j < |g[0]| - 1
  }

  /** The inner loop of `get_most_scenic_tree`: raise `best` to the best score among the
      interior trees of one row. */
  method BestInRow(g: Grid, r: nat, best: nat) returns (newBest: nat, ghost col: int)
    requires Rectangular(g) && 1 <= r < |g| - 1
    ensures best <= newBest
    ensures forall j :: InGrid(g, r, j) && Interior(g, r, j) ==> ScenicScore(g, r, j) <= newBest
    ensures newBest == best || (InGrid(g, r, col) && Interior(g, r, col) && ScenicScore(g, r, col) == newBest)
  {
    newBest, col := best, 0;
    var c := 1;
    while c < |g[0]| - 1
      invariant 1 <= c && best <= newBest
      invariant forall j :: InGrid(g, r, j) && Interior(g, r, j) && j < c ==> ScenicScore(g, r, j) <= newBest
      invariant newBest == best || (InGrid(g, r, col) && Interior(g, r, col) && ScenicScore(g, r, col) == newBest)
    {
      var score := GetScenicScore(g, r, c);
      if score > newBest {
        newBest, col := score, c;
      }
      c := c + 1;
    }
  }

  /** `get_most_scenic_tree`: the best score over the interior trees, which is the best
      over all trees since border trees score 0. The source computes `len() - 1` on the
      row count, and on the row length once there is an interior row, so both must be
      at least 1 there. */
  method GetMostScenicTree(g: Grid) returns (best: nat)
    requires Rectangular(g) && (|g| >= 3 ==> |g[0]| >= 1)
    ensures forall i, j :: InGrid(g, i, j) ==> ScenicScore(g, i, j) <= best
    ensures best == 0 || exists i, j :: InGrid(g, i, j) && Interior(g, i, j) && ScenicScore(g, i, j) == best
  {
    best := 0;
    ghost var bestRow, bestCol := 0, 0;
    var r := 1;
    while r < |g| - 1
      invariant 1 <= r
      invariant forall i, j :: InGrid(g, i, j) && Interior(g, i, j) && i < r ==> ScenicScore(g, i, j) <= best
      invariant best == 0 || (InGrid(g, bestRow, bestCol) && Interior(g, bestRow, bestCol) &&
        ScenicScore(g, bestRow, bestCol) == best)
    {
      var rowBest, col := BestInRow(g, r, best);
      if rowBest != best {
        bestRow, bestCol := r, col;
      }
      best := rowBest;
      r := r + 1;
    }
    forall i, j | InGrid(g, i, j)
      ensures ScenicScore(g, i, j) <= best
    {
      ScenicScoreZeroOnBorder(g, i, j);
    }
  }

  // ---------------------------------------------------------------- the rightward scan as written

  /** The rightward scan of `get_scenic_score` as written: it counts columns `i` from
      `start` while `i < end`, stopping after a tree at least `h` tall. The source passes
      the number of rows as `end`; `None` stands for an index past the row's end, where it
      aborts. */
  function ScanAsWritten(rowHeights: seq<nat>, h: nat, start: nat, end: nat): (r: Option<nat>)
    decreases end - start
  {
    if start >= end then Some(0)
    else if start >= |rowHeights| then None
    else if rowHeights[start] >= h then Some(1)
    else
      match ScanAsWritten(rowHeights, h, start + 1, end)
      case None => None
      case Some(n) => Some(n + 1)
  }

  function RightScanAsWritten(g: Grid, i: int, j: int): Option<nat>
    requires InGrid(g, i, j)
  {
    ScanAsWritten(g[i], g[i][j], j + 1, |g|)
  }

  /** Bounded by the row length, the scan is the rightward viewing distance. */
  lemma {:induction false} ScanToRowEnd(rowHeights: seq<nat>, h: nat, start: nat)
    requires start <= |rowHeights|
    ensures ScanAsWritten(rowHeights, h, start, |rowHeights|) == Some(ViewDistance(rowHeights[start..], h))
    decreases |rowHeights| - start
  {
    if start < |rowHeights| && rowHeights[start] < h {
      ScanToRowEnd(rowHeights, h, start + 1);
      assert rowHeights[start..][1..] == rowHeights[start + 1..];
    }
  }

  /** On a square grid the scan as written is the rightward viewing distance. */
  lemma RightScanOnSquareGrid(g: Grid, i: int, j: int)
    requires InGrid(g, i, j) && |g| == |g[0]|
    ensures RightScanAsWritten(g, i, j) == Some(ViewDistance(LineRight(g, i, j), g[i][j]))
  {
    ScanToRowEnd(g[i], g[i][j], j + 1);
    assert g[i][j + 1..] == LineRight(g, i, j);
  }

  /** On a grid wider than it is tall the scan as written stops early: in 3 rows of 5, the
      tree of height 5 at (1, 1) sees the three shorter trees to its right, but the scan
      counts only one of them. */
  lemma RightScanMissesTrees()
    ensures var g: Grid := [[0, 0, 0, 0, 0], [0, 5, 1, 1, 1], [0, 0, 0, 0, 0]];
      InGrid(g, 1, 1) && RightScanAsWritten(g, 1, 1) == Some(1) && ViewDistance(LineRight(g, 1, 1), 5) == 3
  {
    var g: Grid := [[0, 0, 0, 0, 0], [0, 5, 1, 1, 1], [0, 0, 0, 0, 0]];
    assert ScanAsWritten(g[1], 5, 3, 3) == Some(0);
    assert ScanAsWritten(g[1], 5, 2, 3) == Some(1);
    assert LineRight(g, 1, 1) == [1, 1, 1];
    assert ViewDistance([1], 5) == 1;
    assert ViewDistance([1, 1], 5) == 2;
  }

  // ---------------------------------------------------------------- the puzzle's example

  function ExampleGrid(): Grid {
    [[3, 0, 3, 7, 3],
     [2, 5, 5, 1, 2],
     [6, 5, 3, 3, 2],
     [3, 3, 5, 4, 9],
     [3, 5, 3, 9, 0]]
  }

  /** A line reads as a row when each character is that row's height past '0'. */
  lemma {:induction false} HeightsOfRow(line: string, row: seq<nat>)
    requires |line| == |row|
    requires forall k :: 0 <= k < |line| ==> line[k] as int - '0' as int == row[k]
    ensures HeightsOf(line) == Some(row)
    decreases |line|
  {
    if line != [] {
      HeightsOfRow(line[..|line| - 1], row[..|row| - 1]);
      assert row == row[..|row| - 1] + [row[|row| - 1]];
    }
  }

  /** Lines read as a grid when each line reads as that grid's row. */
  lemma {:induction false} GridOfRows(lines: seq<string>, rows: Grid)
    requires |lines| == |rows|
    requires forall i :: 0 <= i < |lines| ==> HeightsOf(lines[i]) == Some(rows[i])
    ensures GridOf(lines) == Some(rows)
    decreases |lines|
  {
    if lines != [] {
      GridOfRows(lines[..|lines| - 1], rows[..|rows| - 1]);
      assert rows == rows[..|rows| - 1] + [rows[|rows| - 1]];
    }
  }

  /** The example's five lines of digits read as the example grid. */
  lemma ExampleParse()
    ensures GridOf(["30373", "25512", "65332", "33549", "35390"]) == Some(ExampleGrid())
  {
    var g := ExampleGrid();
    HeightsOfRow("30373", g[0]);
    HeightsOfRow("25512", g[1]);
    HeightsOfRow("65332", g[2]);
    HeightsOfRow("33549", g[3]);
    HeightsOfRow("35390", g[4]);
    GridOfRows(["30373", "25512", "65332", "33549", "35390"], g);
  }

  /** The score is the product of the four distances, whatever they are. */
  lemma ScenicScoreOf(g: Grid, i: int, j: int, up: nat, down: nat, right: nat, left: nat)
    requires InGrid(g, i, j)
    requires ViewDistance(LineUp(g, i, j), g[i][j]) == up && ViewDistance(LineDown(g, i, j), g[i][j]) == down
    requires ViewDistance(LineRight(g, i, j), g[i][j]) == right && ViewDistance(LineLeft(g, i, j), g[i][j]) == left
    ensures ScenicScore(g, i, j) == up * down * (right * left)
  {
  }

  lemma ExampleViewsUpDown()
    ensures InGrid(ExampleGrid(), 3, 2) && InGrid(ExampleGrid(), 1, 2)
    ensures ViewDistance(LineUp(ExampleGrid(), 3, 2), 5) == 2 && ViewDistance(LineDown(ExampleGrid(), 3, 2), 5) == 1
    ensures ViewDistance(LineUp(ExampleGrid(), 1, 2), 5) == 1 && ViewDistance(LineDown(ExampleGrid(), 1, 2), 5) == 2
  {
    var g := ExampleGrid();
    assert LineUp(g, 3, 2) == [3, 5, 3];
    assert ViewDistance([5, 3], 5) == 1;
    assert LineDown(g, 3, 2) == [3];
    assert LineUp(g, 1, 2) == [3];
    assert LineDown(g, 1, 2) == [3, 5, 3];
  }

  lemma ExampleViewsRightLeft()
    ensures InGrid(ExampleGrid(), 3, 2) && InGrid(ExampleGrid(), 1, 2)
    ensures ViewDistance(LineRight(ExampleGrid(), 3, 2), 5) == 2 && ViewDistance(LineLeft(ExampleGrid(), 3, 2), 5) == 2
    ensures ViewDistance(LineRight(ExampleGrid(), 1, 2), 5) == 2 && ViewDistance(LineLeft(ExampleGrid(), 1, 2), 5) == 1
  {
    var g := ExampleGrid();
    assert LineRight(g, 3, 2) == [4, 9];
    assert ViewDistance([9], 5) == 1;
    assert LineLeft(g, 3, 2) == [3, 3];
    assert ViewDistance([3], 5) == 1;
    assert LineRight(g, 1, 2) == [1, 2];
    assert ViewDistance([2], 5) == 1;
    assert LineLeft(g, 1, 2) == [5, 2];
  }

  /** The tree of height 5 in the middle of the fourth row scores 2 * 1 * 2 * 2 = 8, and the
      one in the middle of the second row 1 * 2 * 2 * 1 = 4. */
  lemma ExampleScenicScores()
    ensures InGrid(ExampleGrid(), 3, 2) && ScenicScore(ExampleGrid(), 3, 2) == 8
    ensures InGrid(ExampleGrid(), 1, 2) && ScenicScore(ExampleGrid(), 1, 2) == 4
  {
    ExampleViewsUpDown();
    ExampleViewsRightLeft();
    ScenicScoreOf(ExampleGrid(), 3, 2, 2, 1, 2, 2);
    ScenicScoreOf(ExampleGrid(), 1, 2, 1, 2, 2, 1);
  }

  /** The four interior trees nobody sees in the example: each has a tree at least as tall
      somewhere in every direction. */
  lemma ExampleHiddenTrees()
    ensures Rectangular(ExampleGrid())
    ensures !Visible(ExampleGrid(), 1, 3) && !Visible(ExampleGrid(), 2, 2)
    ensures !Visible(ExampleGrid(), 3, 1) && !Visible(ExampleGrid(), 3, 3)
  {
    var g := ExampleGrid();
    assert g[1][2] >= g[1][3] && g[1][4] >= g[1][3] && g[0][3] >= g[1][3] && g[2][3] >= g[1][3];
    assert g[2][1] >= g[2][2] && g[2][3] >= g[2][2] && g[1][2] >= g[2][2] && g[3][2] >= g[2][2];
    assert g[3][0] >= g[3][1] && g[3][2] >= g[3][1] && g[2][1] >= g[3][1] && g[4][1] >= g[3][1];
    assert g[3][2] >= g[3][3] && g[3][4] >= g[3][3] && g[0][3] >= g[3][3] && g[4][3] >= g[3][3];
  }

  /** The other five interior trees are seen from at least one side. */
  lemma ExampleSeenTrees()
    ensures Rectangular(ExampleGrid())
    ensures Visible(ExampleGrid(), 1, 1) && Visible(ExampleGrid(), 1, 2) && Visible(ExampleGrid(), 2, 1)
    ensures Visible(ExampleGrid(), 2, 3) && Visible(ExampleGrid(), 3, 2)
  {
    var g := ExampleGrid();
    assert ClearLeft(g, 1, 1) && ClearUp(g, 1, 2) && ClearRight(g, 2, 1);
    assert ClearRight(g, 2, 3) && ClearDown(g, 3, 2);
  }

  function ExampleMap(): seq<seq<bool>> {
    [[true, true, true, true, true],
     [true, true, true, false, true],
     [true, true, false, true, true],
     [true, false, true, false, true],
     [true, true, true, true, true]]
  }

  lemma ExampleMapIsVisibility()
    ensures Rectangular(ExampleGrid()) && VisibilityMap(ExampleGrid()) == ExampleMap()
  {
    var g := ExampleGrid();
    ExampleHiddenTrees();
    ExampleSeenTrees();
    forall i | 0 <= i < 5
      ensures VisibilityMap(g)[i] == ExampleMap()[i]
    {
    }
  }

  lemma CountRowStep(row: seq<bool>, k: nat)
    requires k < |row|
    ensures CountRow(row[..k + 1]) == CountRow(row[..k]) + Bit(row[k])
  {
    assert row[..k + 1][..k] == row[..k];
  }

  lemma CountTrueStep(m: seq<seq<bool>>, k: nat)
    requires k < |m|
    ensures CountTrue(m[..k + 1]) == CountTrue(m[..k]) + CountRow(m[k])
  {
    assert m[..k + 1][..k] == m[..k];
  }

  function Bit(b: bool): nat {
    if b then 1 else 0
  }

  lemma CountRowOfFive(row: seq<bool>)
    requires |row| == 5
    ensures CountRow(row) == Bit(row[0]) + Bit(row[1]) + Bit(row[2]) + Bit(row[3]) + Bit(row[4])
  {
    assert row[..0] == [];
    CountRowStep(row, 0);
    CountRowStep(row, 1);
    CountRowStep(row, 2);
    CountRowStep(row, 3);
    CountRowStep(row, 4);
    assert row[..5] == row;
  }

  lemma ExampleMapCount()
    ensures CountTrue(ExampleMap()) == 21
  {
    var m := ExampleMap();
    assert CountRow(m[0]) == 5 by { CountRowOfFive(m[0]); }
    assert CountRow(m[1]) == 4 by { CountRowOfFive(m[1]); }
    assert CountRow(m[2]) == 4 by { CountRowOfFive(m[2]); }
    assert CountRow(m[3]) == 3 by { CountRowOfFive(m[3]); }
    assert CountRow(m[4]) == 5 by { CountRowOfFive(m[4]); }
    assert m[..0] == [];
    CountTrueStep(m, 0);
    CountTrueStep(m, 1);
    CountTrueStep(m, 2);
    CountTrueStep(m, 3);
    CountTrueStep(m, 4);
    assert m[..5] == m;
  }

  /** 16 border trees and 5 interior ones: 21 visible trees. */
  lemma ExampleVisibleCount()
    ensures Rectangular(ExampleGrid()) && VisibleCount(ExampleGrid()) == 21
  {
    ExampleMapIsVisibility();
    ExampleMapCount();
  }
}
