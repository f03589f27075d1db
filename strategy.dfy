/** Rock paper scissors: the encrypted strategy guide, one round per line, the opponent's
    shape first and then the column whose meaning the two halves of the puzzle read
    differently (my own shape, or the outcome I must reach). */
module Strategy {
  import opened Wrappers
  import opened Strings

  datatype Action = Rock | Paper | Scissors

  datatype Outcome = Win | Loss | Draw

  /** One round, scored from my side. */
  datatype Round = Round(my: Action, op: Action)

  /** `Action::to_score`. */
  function ActionScore(a: Action): (score: nat)
    ensures 1 <= score <= 3
  {
    match a
    case Rock => 1
    case Paper => 2
    case Scissors => 3
  }

  /** `Action::from_str`: `A`/`X` Rock, `B`/`Y` Paper, `C`/`Z` Scissors; anything else
      makes the source abort (`None`). */
  function ActionFromStr(s: string): (r: Option<Action>)
    ensures r.Some? <==> s in {"A", "B", "C", "X", "Y", "Z"}
  {
    if s == "A" || s == "X" then Some(Rock)
    else if s == "B" || s == "Y" then Some(Paper)
    else if s == "C" || s == "Z" then Some(Scissors)
    else None
  }

  /** `Action::move_that_beats`. */
  function Beats(a: Action): (b: Action)
    ensures b != a
  {
    match a
    case Paper => Scissors
    case Rock => Paper
    case Scissors => Rock
  }

  /** `Action::move_that_draws`. */
  function Draws(a: Action): Action {
    a
  }

  /** `Action::move_that_losses`: the move beaten by `a`, found by going twice round. */
  function Loses(a: Action): Action {
    Beats(Beats(a))
  }

  /** Beating is a cycle of length three: three steps round come back to the start, and the
      move that loses to `a` is the one `a` beats. */
  lemma BeatsIsThreeCycle(a: Action)
    ensures Beats(Beats(Beats(a))) == a
    ensures Beats(Loses(a)) == a && Loses(Beats(a)) == a
    ensures Loses(a) != a && Loses(a) != Beats(a)
  {
  }

  /** `Outcome::to_score`. */
  function OutcomeScore(o: Outcome): (score: nat)
    ensures score % 3 == 0 && score <= 6
  {
    match o
    case Win => 6
    case Draw => 3
    case Loss => 0
  }

  /** `Outcome::from_str`: `X` Loss, `Y` Draw, `Z` Win; anything else aborts. */
  function OutcomeFromStr(s: string): (r: Option<Outcome>)
    ensures r.Some? <==> s in {"X", "Y", "Z"}
  {
    if s == "X" then Some(Loss)
    else if s == "Y" then Some(Draw)
    else if s == "Z" then Some(Win)
    else None
  }

  /** `Outcome::from_actions`: the outcome of my move against the opponent's. */
  function FromActions(my: Action, op: Action): Outcome {
    match my
    case Rock => (match op case Rock => Draw case Paper => Loss case Scissors => Win)
    case Paper => (match op case Paper => Draw case Rock => Win case Scissors => Loss)
    case Scissors => (match op case Scissors => Draw case Paper => Win case Rock => Loss)
  }

  /** The outcome table agrees with the beating cycle: I win exactly with the move that
      beats the opponent's, lose exactly with the move it beats, and draw with the same move. */
  lemma FromActionsFollowsBeats(my: Action, op: Action)
    ensures FromActions(my, op) == Win <==> my == Beats(op)
    ensures FromActions(my, op) == Loss <==> op == Beats(my)
    ensures FromActions(my, op) == Draw <==> my == op
  {
  }

  /** Swapping the two players swaps winning and losing. */
  lemma FromActionsAntisymmetric(x: Action, y: Action)
    ensures FromActions(x, x) == Draw
    ensures FromActions(x, y) == Win <==> FromActions(y, x) == Loss
  {
  }

  /** `Action::from_input`: the move I play to reach `result` against `op`. */
  function FromInput(op: Action, result: Outcome): (my: Action)
    ensures FromActions(my, op) == result
  {
    match result
    case Draw => Draws(op)
    case Win => Beats(op)
    case Loss => Loses(op)
  }

  /** No other move reaches the requested outcome. */
  lemma FromInputUnique(op: Action, result: Outcome, my: Action)
    requires FromActions(my, op) == result
    ensures my == FromInput(op, result)
  {
  }

  /** `Round::to_score`: my shape's score plus the outcome's score. */
  function RoundScore(r: Round): (score: nat)
    ensures 1 <= score <= 9
  {
    ActionScore(r.my) + OutcomeScore(FromActions(r.my, r.op))
  }

  /** A round's score tells my shape and the outcome apart: no two rounds that differ in
      either have the same score. */
  lemma RoundScoreDecodes(r1: Round, r2: Round)
    requires RoundScore(r1) == RoundScore(r2)
    ensures r1.my == r2.my
    ensures FromActions(r1.my, r1.op) == FromActions(r2.my, r2.op)
  {
    assert ActionScore(r1.my) == (RoundScore(r1) - 1) % 3 + 1;
    assert ActionScore(r2.my) == (RoundScore(r2) - 1) % 3 + 1;
  }

  /** The total the puzzle reports: the sum of the round scores. */
  function TotalScore(rounds: seq<Round>): (total: nat)
    ensures |rounds| <= total <= 9 * |rounds|
  {
    if rounds == [] then 0 else RoundScore(rounds[0]) + TotalScore(rounds[1..])
  }

  /** The lines of the guide that describe rounds: every `\n`-separated line, trimmed of
      whitespace, that is exactly three characters long; in their order. */
  function RoundLines(lines: seq<string>): (r: seq<string>)
    ensures |r| <= |lines|
    ensures forall i :: 0 <= i < |r| ==> |r[i]| == 3 && !IsWhitespace(r[i][0]) && !IsWhitespace(r[i][2])
  {
    if lines == [] then []
    else
      var t := Trim(lines[0]);
      (if |t| == 3 then [t] else []) + RoundLines(lines[1..])
  }

  /** Lines made only of three-character lines that trimming leaves alone are all kept. */
  lemma {:induction false} RoundLinesKeepsRounds(lines: seq<string>)
    requires forall i :: 0 <= i < |lines| ==> |lines[i]| == 3 && Trim(lines[i]) == lines[i]
    ensures RoundLines(lines) == lines
  {
    if lines != [] {
      RoundLinesKeepsRounds(lines[1..]);
      assert [lines[0]] + lines[1..] == lines;
    }
  }

  /** Blank lines are all dropped. */
  lemma {:induction false} RoundLinesDropsBlank(lines: seq<string>)
    requires forall i :: 0 <= i < |lines| ==> IsBlank(lines[i])
    ensures RoundLines(lines) == []
  {
    if lines != [] {
      RoundLinesDropsBlank(lines[1..]);
    }
  }

  /** The guide can be read piece by piece. */
  lemma {:induction false} RoundLinesAppend(a: seq<string>, b: seq<string>)
    ensures RoundLines(a + b) == RoundLines(a) + RoundLines(b)
  {
    if a != [] {
      assert (a + b)[1..] == a[1..] + b;
      RoundLinesAppend(a[1..], b);
    } else {
      assert a + b == b;
    }
  }

  /** A single line is kept, trimmed, exactly when its trim is three characters long. With
      `RoundLinesAppend` this determines the filter on every list of lines. */
  lemma RoundLinesOne(line: string)
    ensures RoundLines([line]) == (if |Trim(line)| == 3 then [Trim(line)] else [])
  {
    assert [line][1..] == [];
  }

  /** The kept strings are exactly the three-character trims of input lines. */
  lemma {:induction false} RoundLinesMembers(lines: seq<string>)
    ensures forall t :: t in RoundLines(lines) <==>
      exists j :: 0 <= j < |lines| && |Trim(lines[j])| == 3 && t == Trim(lines[j])
  {
    if lines != [] {
      RoundLinesMembers(lines[1..]);
      forall t | t in RoundLines(lines)
        ensures exists j :: 0 <= j < |lines| && |Trim(lines[j])| == 3 && t == Trim(lines[j])
      {
        if t !in RoundLines(lines[1..]) {
          assert |Trim(lines[0])| == 3 && t == Trim(lines[0]);
        } else {
          var j :| 0 <= j < |lines[1..]| && |Trim(lines[1..][j])| == 3 && t == Trim(lines[1..][j]);
          assert lines[j + 1] == lines[1..][j];
        }
      }
      forall t, j | 0 <= j < |lines| && |Trim(lines[j])| == 3 && t == Trim(lines[j])
        ensures t in RoundLines(lines)
      {
        if j > 0 {
          assert lines[1..][j - 1] == lines[j];
        }
      }
    }
  }

  /** A round padded with whitespace on either side is kept without the padding. */
  lemma RoundLinesPadded(pre: string, round: string, post: string)
    requires IsBlank(pre) && IsBlank(post)
    requires |round| == 3 && !IsWhitespace(round[0]) && !IsWhitespace(round[2])
    ensures RoundLines([pre + round + post]) == [round]
  {
    TrimByPadded(pre, round, post, IsWhitespace);
    RoundLinesOne(pre + round + post);
  }

  lemma RoundLinesPaddedExample()
    ensures RoundLines([" A X "]) == ["A X"]
  {
    assert " A X " == " " + "A X" + " ";
    RoundLinesPadded(" ", "A X", " ");
  }

  /** One round of `parse_input`: the first two ` `-separated pieces are the opponent's shape
      and mine. `None` where the source aborts: a missing second piece or an unknown letter. */
  function ParseRoundLine(line: string): (r: Option<Round>)
    ensures r.Some? ==> Some(r.value.op) == ActionFromStr(Split(line, ' ')[0])
    ensures r.Some? ==> |Split(line, ' ')| >= 2
    ensures r.Some? ==> Some(r.value.my) == ActionFromStr(Split(line, ' ')[1])
  {
    var pieces := Split(line, ' ');
    var op :- ActionFromStr(pieces[0]);
    if |pieces| < 2 then None
    else
      var my :- ActionFromStr(pieces[1]);
      Some(Round(my, op))
  }

  /** One round of `parse_input_modified`: the second piece is the outcome I must reach, and
      my shape is the one that reaches it. */
  function ParseModifiedLine(line: string): (r: Option<Round>)
    ensures r.Some? ==> Some(r.value.op) == ActionFromStr(Split(line, ' ')[0])
    ensures r.Some? ==> |Split(line, ' ')| >= 2
    ensures r.Some? ==> Some(FromActions(r.value.my, r.value.op)) == OutcomeFromStr(Split(line, ' ')[1])
  {
    var pieces := Split(line, ' ');
    var op :- ActionFromStr(pieces[0]);
    if |pieces| < 2 then None
    else
      var result :- OutcomeFromStr(pieces[1]);
      Some(Round(FromInput(op, result), op))
  }

  /** One round line, read as `parse_input` does or, when `modified`, as
      `parse_input_modified` does. */
  function ParseLineAs(line: string, modified: bool): Option<Round> {
    if modified then ParseModifiedLine(line) else ParseRoundLine(line)
  }

  /** Every line read the same way, all of which must succeed, in order. */
  function ParseEach(lines: seq<string>, modified: bool): (r: Option<seq<Round>>)
    ensures r.Some? <==> forall i :: 0 <= i < |lines| ==> ParseLineAs(lines[i], modified).Some?
    ensures r.Some? ==> |r.value| == |lines|
    ensures r.Some? ==> forall i :: 0 <= i < |lines| ==> r.value[i] == ParseLineAs(lines[i], modified).value
  {
    if lines == [] then Some([])
    else
      match (ParseLineAs(lines[0], modified), ParseEach(lines[1..], modified))
      case (Some(first), Some(rest)) => Some([first] + rest)
      case _ => None
  }

  /** `parse_input`. */
  function ParseInput(s: string): Option<seq<Round>> {
    ParseEach(RoundLines(Split(s, '\n')), false)
  }

  /** `parse_input_modified`. */
  function ParseInputModified(s: string): Option<seq<Round>> {
    ParseEach(RoundLines(Split(s, '\n')), true)
  }

  /** Under the second reading every parsed round reaches the outcome its line asks for. */
  lemma ModifiedRoundsReachTheirOutcomes(s: string)
    requires ParseInputModified(s).Some?
    ensures forall i :: 0 <= i < |ParseInputModified(s).value| ==>
      var line := RoundLines(Split(s, '\n'))[i];
      var round := ParseInputModified(s).value[i];
      Some(FromActions(round.my, round.op)) == OutcomeFromStr(Split(line, ' ')[1])
  {
  }

  function OpLetter(a: Action): char {
    match a
    case Rock => 'A'
    case Paper => 'B'
    case Scissors => 'C'
  }

  function MyLetter(a: Action): char {
    match a
    case Rock => 'X'
    case Paper => 'Y'
    case Scissors => 'Z'
  }

  function OutcomeLetter(o: Outcome): char {
    match o
    case Loss => 'X'
    case Draw => 'Y'
    case Win => 'Z'
  }

  lemma SplitTwoLetters(a: char, b: char)
    requires a != ' ' && b != ' '
    ensures Split([a, ' ', b], ' ') == [[a], [b]]
  {
    assert Join([[a], [b]], ' ') == [a, ' ', b];
    SplitJoin([[a], [b]], ' ');
  }

  /** Writing a round the way the guide does and reading it back gives the round again. */
  lemma ParseShowRound(r: Round)
    ensures ParseRoundLine([OpLetter(r.op), ' ', MyLetter(r.my)]) == Some(r)
  {
    SplitTwoLetters(OpLetter(r.op), MyLetter(r.my));
  }

  /** Under the second reading, the line `op outcome` is the round in which I reach that
      outcome against `op`. */
  lemma ParseShowStrategy(op: Action, result: Outcome)
    ensures ParseModifiedLine([OpLetter(op), ' ', OutcomeLetter(result)]) ==
      Some(Round(FromInput(op, result), op))
  {
    SplitTwoLetters(OpLetter(op), OutcomeLetter(result));
  }

  /** The guide of the unit test: three rounds and two empty lines. */
  const ExampleGuide: string := "A X\nB Y\nC Z\n\n"

  const ExampleRounds: seq<string> := ["A X", "B Y", "C Z"]

  lemma ExampleJoin()
    ensures Join(ExampleRounds + ["", ""], '\n') == ExampleGuide
  {
    assert ExampleRounds + ["", ""] == ["A X", "B Y", "C Z", "", ""];
    assert Join(["A X", "B Y", "C Z", "", ""], '\n') == ExampleGuide;
  }

  lemma ExampleLinesLackNewline()
    ensures forall i :: 0 <= i < |ExampleRounds + ["", ""]| ==> '\n' !in (ExampleRounds + ["", ""])[i]
  {
    assert ExampleRounds + ["", ""] == ["A X", "B Y", "C Z", "", ""];
  }

  lemma ExampleSplit()
    ensures Split(ExampleGuide, '\n') == ExampleRounds + ["", ""]
  {
    ExampleJoin();
    ExampleLinesLackNewline();
    SplitJoin(ExampleRounds + ["", ""], '\n');
  }

  lemma ExampleRoundsKept()
    ensures RoundLines(ExampleRounds) == ExampleRounds
  {
    TrimByUnpadded("A X", IsWhitespace);
    TrimByUnpadded("B Y", IsWhitespace);
    TrimByUnpadded("C Z", IsWhitespace);
    RoundLinesKeepsRounds(ExampleRounds);
  }

  lemma ExampleBlanksDropped()
    ensures RoundLines(["", ""]) == []
  {
    RoundLinesDropsBlank(["", ""]);
  }

  /** The unit test's guide holds three round lines. */
  lemma ExampleRoundLines()
    ensures RoundLines(Split(ExampleGuide, '\n')) == ExampleRounds
  {
    ExampleSplit();
    ExampleRoundsKept();
    ExampleBlanksDropped();
    RoundLinesAppend(ExampleRounds, ["", ""]);
  }

  /** Three lines that each read as the expected round read together as those rounds. */
  lemma ParseThree(a: string, b: string, c: string, modified: bool, ra: Round, rb: Round, rc: Round)
    requires ParseLineAs(a, modified) == Some(ra)
    requires ParseLineAs(b, modified) == Some(rb)
    requires ParseLineAs(c, modified) == Some(rc)
    ensures ParseEach([a, b, c], modified) == Some([ra, rb, rc])
  {
    var empty: seq<string> := [];
    assert ParseEach(empty, modified) == Some([]);
    assert [c][1..] == empty;
    assert [rc] + [] == [rc];
    assert ParseEach([c], modified) == Some([rc]);
    assert [b, c][1..] == [c];
    assert [rb] + [rc] == [rb, rc];
    assert ParseEach([b, c], modified) == Some([rb, rc]);
    assert [a, b, c][1..] == [b, c];
    assert [ra] + [rb, rc] == [ra, rb, rc];
  }

  lemma ExampleRoundsRead()
    ensures ParseRoundLine("A X") == Some(Round(Rock, Rock))
    ensures ParseRoundLine("B Y") == Some(Round(Paper, Paper))
    ensures ParseRoundLine("C Z") == Some(Round(Scissors, Scissors))
  {
    ParseShowRound(Round(Rock, Rock));
    ParseShowRound(Round(Paper, Paper));
    ParseShowRound(Round(Scissors, Scissors));
  }

  /** The unit test: `A X`, `B Y`, `C Z` and two empty lines are three drawn rounds. */
  lemma ParseInputExample()
    ensures ParseInput(ExampleGuide) ==
      Some([Round(Rock, Rock), Round(Paper, Paper), Round(Scissors, Scissors)])
  {
    ExampleRoundLines();
    ExampleRoundsRead();
    ParseThree("A X", "B Y", "C Z", false,
      Round(Rock, Rock), Round(Paper, Paper), Round(Scissors, Scissors));
  }
}
