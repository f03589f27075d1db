/** The rope simulator (src/q9.rs): a chain of knots on the integer grid, head
    first. Moving the head one unit pulls each following knot toward the knot in
    front of it, and the grid records every position the last knot reaches.

    The source keeps the chain as a knot owning its successor; here the chain is
    an array of positions indexed from the head (0) to the last knot, and the
    recursive walks down the chain and over the step count are loops. */
module Rope {
  import opened Wrappers
  import opened Strings
  import opened Numbers

  datatype Position = Position(x: int, y: int)

  const Origin := Position(0, 0)

  /** A parsed command: a direction and a signed step count. */
  datatype Direction = Up(steps: int) | Down(steps: int) | Left(steps: int) | Right(steps: int)

  function Sign(n: int): int { if n > 0 then 1 else if n < 0 then -1 else 0 }

  /** Two knots touch when they are at Chebyshev distance at most 1. */
  predicate Touching(a: Position, b: Position) {
    Abs(a.x - b.x) <= 1 && Abs(a.y - b.y) <= 1
  }

  /** Every knot touches the knot in front of it. */
  predicate Taut(knots: seq<Position>) {
    forall i :: 0 <= i < |knots| - 1 ==> Touching(knots[i], knots[i + 1])
  }

  /** The head's position after one unit step in the direction of `d`. */
  function MoveOne(p: Position, d: Direction): Position {
    match d
    case Up(_) => Position(p.x, p.y + 1)
    case Down(_) => Position(p.x, p.y - 1)
    case Left(_) => Position(p.x - 1, p.y)
    case Right(_) => Position(p.x + 1, p.y)
  }

  /** One correction of `follower` toward `leader` (the body of `move_tail`):
      `None` when the follower stays put. */
  function Pull(leader: Position, follower: Position): Option<Position> {
    var dx, dy := leader.x - follower.x, leader.y - follower.y;
    if dx > 1 then Some(Position(follower.x + 1, follower.y + Sign(dy)))
    else if dx < -1 then Some(Position(follower.x - 1, follower.y + Sign(dy)))
    else if dy > 1 then Some(Position(follower.x + Sign(dx), follower.y + 1))
    else if dy < -1 then Some(Position(follower.x + Sign(dx), follower.y - 1))
    else None
  }

  /** The follower moves exactly when it does not touch its leader, it then moves at
      most one unit on each axis, and from distance at most 2 it ends up touching. */
  lemma PullSpec(leader: Position, follower: Position)
    ensures Pull(leader, follower).None? <==> Touching(leader, follower)
    ensures Pull(leader, follower).Some? ==>
      var p := Pull(leader, follower).value;
      p != follower && Abs(p.x - follower.x) <= 1 && Abs(p.y - follower.y) <= 1
      && (Abs(leader.x - follower.x) <= 2 && Abs(leader.y - follower.y) <= 2 ==> Touching(leader, p))
  {
  }

  /** What is left of a pull after knot `i` has moved: the new chain, and the last
      knot's position if the movement reached it (`None` once a knot stays put). */
  datatype Settled = Settled(knots: seq<Position>, tail: Option<Position>)

  function Settle(knots: seq<Position>, i: nat): Settled
    requires i < |knots|
    decreases |knots| - i
  {
    if i == |knots| - 1 then Settled(knots, Some(knots[i]))
    else match Pull(knots[i], knots[i + 1])
      case None => Settled(knots, None)
      case Some(p) => Settle(knots[i + 1 := p], i + 1)
  }

  /** One unit step of the head followed by the pull down the chain (`Knot::apply_*`). */
  function Step(knots: seq<Position>, d: Direction): Settled
    requires |knots| >= 1
  {
    Settle(knots[0 := MoveOne(knots[0], d)], 0)
  }

  /** Settling from knot `i` keeps the length and the knots up to `i`; a knot after `i`
      moves only if the knot in front of it moved (so the pull stops at the first knot
      that stays put), it moves at most one unit on each axis, and the last knot is
      reported exactly when the pull reached it. */
  lemma {:induction false} SettleShape(knots: seq<Position>, i: nat)
    requires i < |knots|
    ensures var r := Settle(knots, i);
      && |r.knots| == |knots|
      && (forall k :: 0 <= k <= i ==> r.knots[k] == knots[k])
      && (forall k :: i + 1 < k < |knots| && r.knots[k] != knots[k] ==> r.knots[k - 1] != knots[k - 1])
      && (forall k :: i < k < |knots| ==> Abs(r.knots[k].x - knots[k].x) <= 1 && Abs(r.knots[k].y - knots[k].y) <= 1)
      && (r.tail.Some? <==> i == |knots| - 1 || r.knots[|knots| - 1] != knots[|knots| - 1])
      && (r.tail.Some? ==> r.tail.value == r.knots[|knots| - 1])
    decreases |knots| - i
  {
    if i < |knots| - 1 {
      match Pull(knots[i], knots[i + 1])
      case None =>
      case Some(p) =>
        PullSpec(knots[i], knots[i + 1]);
        var next := knots[i + 1 := p];
        SettleShape(next, i + 1);
        var r := Settle(knots, i);
        assert r == Settle(next, i + 1);
        assert r.knots[i + 1] == p;
    }
  }

  /** Settling keeps the rope taut: if the knots before `i` touch their successors, the
      knots after `i` do too, and knot `i` is within 2 on each axis of its successor,
      then afterwards every knot touches its successor. */
  lemma {:induction false} SettleKeepsTaut(knots: seq<Position>, i: nat)
    requires i < |knots|
    requires forall k :: 0 <= k < i ==> Touching(knots[k], knots[k + 1])
    requires forall k :: i < k < |knots| - 1 ==> Touching(knots[k], knots[k + 1])
    requires i < |knots| - 1 ==> Abs(knots[i].x - knots[i + 1].x) <= 2 && Abs(knots[i].y - knots[i + 1].y) <= 2
    ensures Taut(Settle(knots, i).knots)
    decreases |knots| - i
  {
    if i < |knots| - 1 {
      PullSpec(knots[i], knots[i + 1]);
      match Pull(knots[i], knots[i + 1])
      case None =>
      case Some(p) =>
        var next := knots[i + 1 := p];
        assert Touching(next[i], next[i + 1]);
        SettleKeepsTaut(next, i + 1);
    }
  }

  /** A head step on a taut rope leaves the rope taut. */
  lemma StepKeepsTaut(knots: seq<Position>, d: Direction)
    requires |knots| >= 1 && Taut(knots)
    ensures Taut(Step(knots, d).knots)
  {
    var moved := knots[0 := MoveOne(knots[0], d)];
    SettleKeepsTaut(moved, 0);
  }

  /** A head step moves the head exactly one unit along exactly one axis, keeps the
      chain's length, and moves every other knot by at most one unit per axis. */
  lemma StepMovesHeadOneUnit(knots: seq<Position>, d: Direction)
    requires |knots| >= 1
    ensures var r := Step(knots, d).knots;
      |r| == |knots|
      && Abs(r[0].x - knots[0].x) + Abs(r[0].y - knots[0].y) == 1
      && (d.Up? || d.Down? ==> r[0].x == knots[0].x)
      && (d.Left? || d.Right? ==> r[0].y == knots[0].y)
      && forall k :: 0 < k < |knots| ==> Abs(r[k].x - knots[k].x) <= 1 && Abs(r[k].y - knots[k].y) <= 1
  {
    var moved := knots[0 := MoveOne(knots[0], d)];
    SettleShape(moved, 0);
  }

  /** The state the grid tracks: the chain and the set of positions the last knot occupied. */
  datatype RopeState = RopeState(knots: seq<Position>, visited: set<Position>)

  predicate ValidState(s: RopeState) {
    |s.knots| >= 1 && Taut(s.knots) && s.knots[|s.knots| - 1] in s.visited && Origin in s.visited
  }

  /** One step as the grid applies it: the last knot's position is recorded when the
      step reports one. */
  function StepState(s: RopeState, d: Direction): RopeState
    requires |s.knots| >= 1
  {
    var r := Step(s.knots, d);
    RopeState(r.knots, if r.tail.Some? then s.visited + {r.tail.value} else s.visited)
  }

  /** `n` unit steps in the direction of `d`, one after the other. */
  function StepN(s: RopeState, d: Direction, n: nat): (r: RopeState)
    requires |s.knots| >= 1
    ensures |r.knots| == |s.knots|
    decreases n
  {
    if n == 0 then s
    else
      SettleShape(s.knots[0 := MoveOne(s.knots[0], d)], 0);
      StepN(StepState(s, d), d, n - 1)
  }

  /** A step keeps the grid's invariant: the rope stays taut, the last knot's position
      is recorded and the set of positions only grows. */
  lemma StepStateValid(s: RopeState, d: Direction)
    requires ValidState(s)
    ensures ValidState(StepState(s, d)) && s.visited <= StepState(s, d).visited
  {
    StepKeepsTaut(s.knots, d);
    var moved := s.knots[0 := MoveOne(s.knots[0], d)];
    SettleShape(moved, 0);
    if |s.knots| > 1 {
      assert moved[|s.knots| - 1] == s.knots[|s.knots| - 1];
    }
  }

  lemma {:induction false} StepNValid(s: RopeState, d: Direction, n: nat)
    requires ValidState(s)
    ensures ValidState(StepN(s, d, n)) && s.visited <= StepN(s, d, n).visited
    decreases n
  {
    if n > 0 {
      StepStateValid(s, d);
      StepNValid(StepState(s, d), d, n - 1);
    }
  }

  /** With a single knot every head position is recorded. */
  lemma SingleKnotRecordsHead(s: RopeState, d: Direction)
    requires |s.knots| == 1
    ensures StepState(s, d).visited == s.visited + {MoveOne(s.knots[0], d)}
    ensures StepState(s, d).knots == [MoveOne(s.knots[0], d)]
  {
  }

  /** `Direction::from`: a letter `R`, `L`, `U` or `D`, a space and an `i32` step count;
      `None` where the source panics (a missing count, a bad number or one outside `i32`,
      another letter). */
  function ParseDirection(line: string): Option<Direction> {
    var parts := Split(line, ' ');
    if |parts| < 2 then None
    else match ParseIntIn(parts[1], I32Min, I32Limit)
      case None => None
      case Some(n) =>
        if parts[0] == "R" then Some(Right(n))
        else if parts[0] == "L" then Some(Left(n))
        else if parts[0] == "U" then Some(Up(n))
        else if parts[0] == "D" then Some(Down(n))
        else None
  }

  /** The command text for a direction with a non-negative step count. */
  function ShowDirection(d: Direction): string
    requires d.steps >= 0
  {
    var letter := match d
      case Right(_) => "R"
      case Left(_) => "L"
      case Up(_) => "U"
      case Down(_) => "D";
    letter + " " + ShowNat(d.steps)
  }

  /** Parsing a command written out in the input format gives the command back when its
      step count fits in an `i32`, and panics (`None`) when it does not. */
  lemma ParseShowDirection(d: Direction)
    requires d.steps >= 0
    ensures ParseDirection(ShowDirection(d)) == (if d.steps < I32Limit then Some(d) else None)
  {
    var letter := ShowDirection(d)[..1];
    var digits := ShowNat(d.steps);
    assert ShowDirection(d) == Join([letter, digits], ' ');
    assert ' ' !in digits by {
      forall k | 0 <= k < |digits| ensures digits[k] != ' ' { assert IsDigit(digits[k]); }
    }
    SplitJoin([letter, digits], ' ');
    ParseShowNat(d.steps);
    assert ParseIntIn(digits, I32Min, I32Limit) == (if d.steps < I32Limit then Some(d.steps) else None);
  }

  /** The grid (`Grid` in the source): the knot chain and the set of positions the last
      knot has occupied. */
  class Grid {
    var knots: array<Position>
    var tailPositions: set<Position>

    ghost function State(): RopeState
      reads this, knots
    {
      RopeState(knots[..], tailPositions)
    }

    ghost predicate Valid()
      reads this, knots
    {
      ValidState(State())
    }

    /** `Grid::with_n_knots` (with `Knot::add_children`): `n` knots at the origin and the
        origin recorded; `n - 1` underflows for `n == 0`. */
    constructor WithNKnots(n: nat)
      requires n >= 1
      ensures Valid() && fresh(knots)
      ensures knots[..] == seq(n, _ => Origin) && tailPositions == {Origin}
    {
      knots := new Position[n](_ => Origin);
      tailPositions := {Origin};
    }

    /** `Knot::apply_*` on the head followed by the recursive `move_tail`: moves the head
        one unit, then pulls each knot toward its leader until one stays put, and
        reports the last knot's position if the pull reached it. */
    method MoveHead(d: Direction) returns (tail: Option<Position>)
      requires knots.Length >= 1
      modifies knots
      ensures knots[..] == Step(old(knots[..]), d).knots
      ensures tail == Step(old(knots[..]), d).tail
    {
      knots[0] := MoveOne(knots[0], d);
      var i := 0;
      while i < knots.Length - 1
        invariant 0 <= i < knots.Length
        invariant Settle(knots[..], i) == Step(old(knots[..]), d)
      {
        var before := knots[..];
        match Pull(knots[i], knots[i + 1]) {
          case None =>
            return None;
          case Some(p) =>
            knots[i + 1] := p;
            assert knots[..] == before[i + 1 := p];
            i := i + 1;
        }
      }
      return Some(knots[i]);
    }

    /** `Grid::apply_direction` with `Grid::apply_*`: `steps` unit steps, recording the last
        knot's position whenever a step reports it. A negative count never reaches 0 in
        the source's recursion, so it is excluded. */
    method ApplyDirection(d: Direction)
      requires Valid() && d.steps >= 0
      modifies this, knots
      ensures knots == old(knots)
      ensures Valid()
      ensures State() == StepN(old(State()), d, d.steps)
      ensures old(tailPositions) <= tailPositions
    {
      StepNValid(State(), d, d.steps);
      var remaining: nat := d.steps;
      while remaining != 0
        invariant knots == old(knots)
        invariant Valid()
        invariant StepN(State(), d, remaining) == StepN(old(State()), d, d.steps)
      {
        ghost var before := State();
        var tail := MoveHead(d);
        if tail.Some? {
          tailPositions := tailPositions + {tail.value};
        }
        assert State() == StepState(before, d);
        StepStateValid(before, d);
        remaining := remaining - 1;
      }
      StepNValid(old(State()), d, d.steps);
    }

    /** `Grid::get_num_positions`: how many distinct positions the last knot has occupied;
        at least one, since the origin is always recorded. */
    function NumPositions(): (n: nat)
      reads this, knots
      requires Valid()
      ensures n >= 1 && n == |tailPositions|
    {
      |tailPositions|
    }
  }
}
