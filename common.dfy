/** The line splitter every puzzle uses on its input text (src/common.rs). */
module Common {
  import opened Strings

  /** The lines of `lines` that are not blank, in their original order and untrimmed. */
  function KeepNonBlank(lines: seq<string>): (r: seq<string>)
    ensures |r| <= |lines|
    ensures forall i :: 0 <= i < |r| ==> !IsBlank(r[i]) && r[i] in lines
    ensures forall i :: 0 <= i < |lines| && !IsBlank(lines[i]) ==> lines[i] in r
  {
    if lines == [] then []
    else if IsBlank(lines[0]) then KeepNonBlank(lines[1..])
    else [lines[0]] + KeepNonBlank(lines[1..])
  }

  /** `parse_lines`: split on newlines and drop every piece that trims to nothing. */
  function ParseLines(s: string): (r: seq<string>)
    ensures |r| <= |Split(s, '\n')|
    ensures forall i :: 0 <= i < |r| ==> !IsBlank(r[i]) && '\n' !in r[i]
  {
    SplitPiecesLackSep(s, '\n');
    KeepNonBlank(Split(s, '\n'))
  }

  lemma {:induction false} KeepNonBlankAppend(a: seq<string>, b: seq<string>)
    ensures KeepNonBlank(a + b) == KeepNonBlank(a) + KeepNonBlank(b)
    decreases |a|
  {
    if a != [] {
      assert (a + b)[1..] == a[1..] + b;
      KeepNonBlankAppend(a[1..], b);
    } else {
      assert a + b == b;
    }
  }

  /** The lines of a text are the lines before a newline followed by the lines after
      it: filtering keeps the input order. */
  lemma ParseLinesAppend(a: string, b: string)
    ensures ParseLines(a + "\n" + b) == ParseLines(a) + ParseLines(b)
  {
    SplitAppend(a, b, '\n');
    KeepNonBlankAppend(Split(a, '\n'), Split(b, '\n'));
  }

  /** A text with no blank piece loses nothing: its lines are exactly its pieces. */
  lemma {:induction false} ParseLinesKeepsNonBlank(s: string)
    requires forall i :: 0 <= i < |Split(s, '\n')| ==> !IsBlank(Split(s, '\n')[i])
    ensures ParseLines(s) == Split(s, '\n')
  {
    KeepAll(Split(s, '\n'));
  }

  lemma {:induction false} KeepAll(lines: seq<string>)
    requires forall i :: 0 <= i < |lines| ==> !IsBlank(lines[i])
    ensures KeepNonBlank(lines) == lines
    decreases |lines|
  {
    if lines != [] {
      KeepAll(lines[1..]);
    }
  }
}
