/** Text helpers shared by the puzzles: splitting on a separator character,
    trimming whitespace and reading unsigned and signed decimal numbers the way
    the standard library's `split`, `trim` and `parse` do. */
module Strings {
  import opened Wrappers

  /** Index of the first `c` in `s`, or `|s|` when there is none. */
  function IndexOf(s: string, c: char): (i: nat)
    ensures i <= |s|
    ensures forall k :: 0 <= k < i ==> s[k] != c
    ensures i < |s| ==> s[i] == c
  {
    if s == [] then 0
    else if s[0] == c then 0
    else 1 + IndexOf(s[1..], c)
  }

  /** The pieces of `s` between occurrences of `sep`; like `str::split`, the
      empty string gives one empty piece and every separator starts a new piece. */
  function Split(s: string, sep: char): (r: seq<string>)
    ensures |r| >= 1
    decreases |s|
  {
    var i := IndexOf(s, sep);
    if i == |s| then [s] else [s[..i]] + Split(s[i + 1..], sep)
  }

  /** No piece holds the separator. */
  lemma {:induction false} SplitPiecesLackSep(s: string, sep: char)
    ensures forall i :: 0 <= i < |Split(s, sep)| ==> sep !in Split(s, sep)[i]
    decreases |s|
  {
    var i := IndexOf(s, sep);
    if i < |s| {
      SplitPiecesLackSep(s[i + 1..], sep);
      SplitAtFirst(s, sep, i);
    }
  }

  /** Glues pieces together with `sep` in between: the inverse of `Split`. */
  function Join(parts: seq<string>, sep: char): string
    requires |parts| >= 1
  {
    if |parts| == 1 then parts[0] else parts[0] + [sep] + Join(parts[1..], sep)
  }

  lemma {:induction false} JoinSplit(s: string, sep: char)
    ensures Join(Split(s, sep), sep) == s
    decreases |s|
  {
    var i := IndexOf(s, sep);
    if i < |s| {
      var rest := s[i + 1..];
      calc {
        Join(Split(s, sep), sep);
        { SplitAtFirst(s, sep, i); }
        Join([s[..i]] + Split(rest, sep), sep);
        { JoinCons(s[..i], Split(rest, sep), sep); }
        s[..i] + [sep] + Join(Split(rest, sep), sep);
        { JoinSplit(rest, sep); }
        s[..i] + [sep] + rest;
        { SplitAround(s, i); }
        s;
      }
    }
  }

  lemma SplitAtFirst(s: string, sep: char, i: nat)
    requires i == IndexOf(s, sep) < |s|
    ensures Split(s, sep) == [s[..i]] + Split(s[i + 1..], sep)
  {
  }

  lemma SplitAround(s: string, i: nat)
    requires i < |s|
    ensures s[..i] + [s[i]] + s[i + 1..] == s
  {
  }

  lemma JoinCons(a: string, rest: seq<string>, sep: char)
    requires |rest| >= 1
    ensures Join([a] + rest, sep) == a + [sep] + Join(rest, sep)
  {
    assert ([a] + rest)[1..] == rest;
  }

  lemma {:induction false} SplitJoin(parts: seq<string>, sep: char)
    requires |parts| >= 1
    requires forall i :: 0 <= i < |parts| ==> sep !in parts[i]
    ensures Split(Join(parts, sep), sep) == parts
    decreases |parts|
  {
    if |parts| > 1 {
      var s := Join(parts, sep);
      var rest := Join(parts[1..], sep);
      IndexOfPrefix(parts[0], rest, sep);
      assert s[..|parts[0]|] == parts[0];
      assert s[|parts[0]| + 1..] == rest;
      SplitJoin(parts[1..], sep);
    } else {
      IndexOfPrefix(parts[0], [], sep);
    }
  }

  lemma {:induction false} IndexOfPrefix(a: string, b: string, sep: char)
    requires sep !in a
    ensures IndexOf(a + [sep] + b, sep) == |a| && IndexOf(a, sep) == |a|
    decreases |a|
  {
    if a != [] {
      assert (a + [sep] + b)[1..] == a[1..] + [sep] + b;
      IndexOfPrefix(a[1..], b, sep);
    }
  }

  /** Splitting at a separator that is already there splits the two sides independently. */
  lemma {:induction false} SplitAppend(a: string, b: string, sep: char)
    ensures Split(a + [sep] + b, sep) == Split(a, sep) + Split(b, sep)
    decreases |a|
  {
    var s := a + [sep] + b;
    var i := IndexOf(a, sep);
    if i == |a| {
      IndexOfPrefix(a, b, sep);
      assert s[..|a|] == a && s[|a| + 1..] == b;
      SplitAtFirst(s, sep, |a|);
    } else {
      assert IndexOf(s, sep) == i by { IndexOfExtends(a, [sep] + b, sep); assert s == a + ([sep] + b); }
      assert s[..i] == a[..i];
      assert s[i + 1..] == a[i + 1..] + [sep] + b;
      SplitAtFirst(s, sep, i);
      SplitAtFirst(a, sep, i);
      SplitAppend(a[i + 1..], b, sep);
      AppendAssoc([a[..i]], Split(a[i + 1..], sep), Split(b, sep));
    }
  }

  lemma AppendAssoc<T>(x: seq<T>, y: seq<T>, z: seq<T>)
    ensures x + (y + z) == (x + y) + z
  {
  }

  lemma {:induction false} IndexOfExtends(a: string, b: string, c: char)
    requires IndexOf(a, c) < |a|
    ensures IndexOf(a + b, c) == IndexOf(a, c)
    decreases |a|
  {
    if a[0] != c {
      assert (a + b)[1..] == a[1..] + b;
      IndexOfExtends(a[1..], b, c);
    }
  }

  /** Unicode `White_Space`, the set `char::is_whitespace` accepts. */
  predicate IsWhitespace(c: char) {
    ('\t' <= c <= '\r') || c == ' ' || c == '\U{85}' || c == '\U{A0}' || c == '\U{1680}'
    || ('\U{2000}' <= c <= '\U{200A}') || c == '\U{2028}' || c == '\U{2029}' || c == '\U{202F}'
    || c == '\U{205F}' || c == '\U{3000}'
  }

  /** A string that `trim` reduces to the empty string. */
  predicate IsBlank(s: string) {
    forall i :: 0 <= i < |s| ==> IsWhitespace(s[i])
  }

  /** Number of leading characters of `s` that satisfy `strip`. */
  function LeadingCount(s: string, strip: char -> bool): (a: nat)
    ensures a <= |s|
    ensures forall k :: 0 <= k < a ==> strip(s[k])
    ensures a < |s| ==> !strip(s[a])
    decreases |s|
  {
    if s == [] || !strip(s[0]) then 0
    else
      var a := 1 + LeadingCount(s[1..], strip);
      assert forall k :: 1 <= k < a ==> s[k] == s[1..][k - 1];
      a
  }

  /** Length of `s` once its trailing characters that satisfy `strip` are dropped. */
  function TrailingEnd(s: string, strip: char -> bool): (b: nat)
    ensures b <= |s|
    ensures forall k :: b <= k < |s| ==> strip(s[k])
    ensures b > 0 ==> !strip(s[b - 1])
    decreases |s|
  {
    if s == [] || !strip(s[|s| - 1]) then |s|
    else TrailingEnd(s[..|s| - 1], strip)
  }

  /** `s` without leading and trailing characters satisfying `strip`. */
  function TrimBy(s: string, strip: char -> bool): (r: string)
    ensures r == [] <==> forall k :: 0 <= k < |s| ==> strip(s[k])
    ensures r != [] ==> !strip(r[0]) && !strip(r[|r| - 1])
    ensures r != [] ==> r == s[LeadingCount(s, strip)..TrailingEnd(s, strip)]
  {
    var a := LeadingCount(s, strip);
    if a == |s| then [] else s[a..TrailingEnd(s, strip)]
  }

  /** A string that neither starts nor ends with a character to strip is left as it is. */
  lemma TrimByUnpadded(s: string, strip: char -> bool)
    requires s != [] && !strip(s[0]) && !strip(s[|s| - 1])
    ensures TrimBy(s, strip) == s
  {
    assert LeadingCount(s, strip) == 0;
    assert TrailingEnd(s, strip) == |s|;
  }

  /** Characters to strip in front of an unpadded string are all removed. */
  lemma TrimByLeadingPad(pad: string, s: string, strip: char -> bool)
    requires forall k :: 0 <= k < |pad| ==> strip(pad[k])
    requires s != [] && !strip(s[0]) && !strip(s[|s| - 1])
    ensures TrimBy(pad + s, strip) == s
  {
    var t := pad + s;
    var a := LeadingCount(t, strip);
    assert t[|pad|] == s[0];
    assert forall k :: 0 <= k < |pad| ==> t[k] == pad[k];
    assert a == |pad|;
    assert TrailingEnd(t, strip) == |t|;
    assert t[|pad|..|t|] == s;
  }

  /** Characters to strip on both sides of an unpadded string are all removed. */
  lemma TrimByPadded(pre: string, s: string, post: string, strip: char -> bool)
    requires forall k :: 0 <= k < |pre| ==> strip(pre[k])
    requires forall k :: 0 <= k < |post| ==> strip(post[k])
    requires s != [] && !strip(s[0]) && !strip(s[|s| - 1])
    ensures TrimBy(pre + s + post, strip) == s
  {
    var t := pre + s + post;
    var a := LeadingCount(t, strip);
    var b := TrailingEnd(t, strip);
    assert t[|pre|] == s[0];
    assert t[|pre| + |s| - 1] == s[|s| - 1];
    assert forall k :: 0 <= k < |pre| ==> t[k] == pre[k];
    assert forall k :: |pre| + |s| <= k < |t| ==> t[k] == post[k - |pre| - |s|];
    assert a == |pre| && b == |pre| + |s|;
    assert t[a..b] == s;
  }

  /** `str::trim`: removes leading and trailing whitespace. */
  function Trim(s: string): (r: string)
    ensures r == [] <==> IsBlank(s)
  {
    TrimBy(s, IsWhitespace)
  }

  function IsSpace(c: char): bool { c == ' ' }

  /** `str::trim_matches(' ')`: removes leading and trailing spaces only. */
  function TrimSpaces(s: string): (r: string)
    ensures r == [] <==> forall k :: 0 <= k < |s| ==> s[k] == ' '
  {
    TrimBy(s, IsSpace)
  }

  predicate IsDigit(c: char) {
    '0' <= c <= '9'
  }

  predicate AllDigits(s: string) {
    forall i :: 0 <= i < |s| ==> IsDigit(s[i])
  }

  /** The value of a string of decimal digits, most significant first. */
  function DigitsValue(s: string): (n: nat)
    requires AllDigits(s)
    decreases |s|
  {
    if s == [] then 0
    else 10 * DigitsValue(s[..|s| - 1]) + (s[|s| - 1] as int - '0' as int)
  }

  /** Unsigned `parse`: an optional `+` followed by at least one ASCII digit and nothing else. */
  function ParseNat(s: string): (r: Option<nat>)
    ensures r.Some? <==> (|s| >= 1 && AllDigits(s)) || (|s| >= 2 && s[0] == '+' && AllDigits(s[1..]))
  {
    if |s| >= 1 && AllDigits(s) then Some(DigitsValue(s))
    else if |s| >= 2 && s[0] == '+' && AllDigits(s[1..]) then Some(DigitsValue(s[1..]))
    else None
  }

  /** Signed `parse`: an optional `+` or `-` followed by at least one ASCII digit and nothing else. */
  function ParseInt(s: string): (r: Option<int>)
    ensures r.Some? <==> ParseNat(s).Some? || (|s| >= 2 && s[0] == '-' && AllDigits(s[1..]))
    ensures ParseNat(s).Some? ==> r == Some(ParseNat(s).value as int)
  {
    if |s| >= 2 && s[0] == '-' && AllDigits(s[1..]) then
      var v: int := 0 - DigitsValue(s[1..]) as int;
      Some(v)
    else match ParseNat(s)
      case Some(n) => Some(n)
      case None => None
  }

  /** Decimal digits of `n`, without leading zeros. */
  function ShowNat(n: nat): (s: string)
    ensures |s| >= 1 && AllDigits(s)
    ensures n > 0 ==> s[0] != '0'
    decreases n
  {
    var d := ['0' + (n % 10) as char];
    if n < 10 then d else ShowNat(n / 10) + d
  }

  /** Reading back the digits that `ShowNat` writes gives the number again. */
  lemma {:induction false} ParseShowNat(n: nat)
    ensures ParseNat(ShowNat(n)) == Some(n)
    ensures ParseInt(ShowNat(n)) == Some(n as int)
  {
    DigitsShowNat(n);
  }

  lemma {:induction false} DigitsShowNat(n: nat)
    ensures DigitsValue(ShowNat(n)) == n
    decreases n
  {
    var s := ShowNat(n);
    if n >= 10 {
      DigitsShowNat(n / 10);
      assert s[..|s| - 1] == ShowNat(n / 10);
    }
  }

  /** Decimal text of `n`, with a leading `-` when it is negative. */
  function ShowInt(n: int): string {
    if n < 0 then "-" + ShowNat(-n) else ShowNat(n)
  }

  lemma ParseShowInt(n: int)
    ensures ParseInt(ShowInt(n)) == Some(n)
  {
    if n < 0 {
      var s := ShowInt(n);
      assert s[1..] == ShowNat(-n);
      DigitsShowNat(-n);
    } else {
      ParseShowNat(n);
    }
  }

  /** The exclusive upper bounds of Rust's `u32`, `u64` and (on a 64-bit target) `usize`. */
  const U32Limit: nat := 0x1_0000_0000
  const U64Limit: nat := 0x1_0000_0000_0000_0000
  const UsizeLimit: nat := U64Limit

  /** A number below `limit` as `str::parse` reads it. */
  function ParseBelow(s: string, limit: nat): (r: Option<nat>)
    ensures r.Some? <==> ParseNat(s).Some? && ParseNat(s).value < limit
    ensures r.Some? ==> r == ParseNat(s)
  {
    match ParseNat(s)
    case Some(n) => if n < limit then Some(n) else None
    case None => None
  }

  /** The inclusive lower and exclusive upper bounds of Rust's `i32` and `i64`. */
  const I32Min: int := -0x8000_0000
  const I32Limit: int := 0x8000_0000
  const I64Min: int := -0x8000_0000_0000_0000
  const I64Limit: int := 0x8000_0000_0000_0000

  /** A number in `[lo, limit)` as `str::parse` reads it into a signed fixed-width type:
      the signed parse, failing where the value does not fit. */
  function ParseIntIn(s: string, lo: int, limit: int): (r: Option<int>)
    ensures r.Some? <==> ParseInt(s).Some? && lo <= ParseInt(s).value < limit
    ensures r.Some? ==> r == ParseInt(s)
  {
    match ParseInt(s)
    case Some(n) => if lo <= n < limit then Some(n) else None
    case None => None
  }

  /** A number written out in decimal parses back into a signed type exactly when it fits. */
  lemma ParseShowIntIn(n: int, lo: int, limit: int)
    ensures ParseIntIn(ShowInt(n), lo, limit) == (if lo <= n < limit then Some(n) else None)
  {
    ParseShowInt(n);
  }
}
