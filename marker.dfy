/** The start-of-packet detector of src/q6.rs: a fixed-capacity ring buffer that
    overwrites its oldest slot, and a scan for the first position at which the last
    `k` characters received are pairwise distinct. */
module Marker {

  /** No character occurs twice. */
  predicate Distinct(s: seq<char>) {
    forall i, j :: 0 <= i < j < |s| ==> s[i] != s[j]
  }

  function Elements(s: seq<char>): set<char> {
    set i | 0 <= i < |s| :: s[i]
  }

  /** A sequence has as many different characters as positions exactly when no
      character repeats. */
  lemma {:induction false} DistinctIffCard(s: seq<char>)
    ensures |Elements(s)| <= |s|
    ensures |Elements(s)| == |s| <==> Distinct(s)
    decreases |s|
  {
    if s != [] {
      var t := s[..|s| - 1];
      var c := s[|s| - 1];
      DistinctIffCard(t);
      assert Elements(s) == Elements(t) + {c} by {
        forall x | x in Elements(s) ensures x in Elements(t) + {c} {
          var i :| 0 <= i < |s| && s[i] == x;
          if i < |s| - 1 { assert t[i] == x; }
        }
      }
      if c in Elements(t) {
        var i :| 0 <= i < |t| && t[i] == c;
        assert s[i] == s[|s| - 1];
        assert Elements(s) == Elements(t);
      } else {
        assert Distinct(s) <==> Distinct(t) by {
          if Distinct(t) {
            forall i, j | 0 <= i < j < |s| ensures s[i] != s[j] {
              if j == |s| - 1 { assert s[i] == t[i]; } else { assert s[i] == t[i] && s[j] == t[j]; }
            }
          }
        }
      }
    }
  }

  /** A slot index past the end wraps around once. */
  function Wrap(x: nat, m: nat): nat {
    if x < m then x else x - m
  }

  /** Below twice the capacity, the remainder the source takes is a single wrap-around. */
  lemma ModWrap(x: nat, m: nat)
    requires 0 < m && x < 2 * m
    ensures x % m == Wrap(x, m)
  {
    if x >= m {
      assert x == 1 * m + (x - m);
    } else {
      assert x == 0 * m + x;
    }
  }

  /** The head after a push: it moves on by one slot once the length would pass the
      capacity `m`. */
  function NextHead(head: nat, len: nat, m: nat): nat {
    if len + 1 > m then Wrap(head + 1, m) else head
  }

  /** The length after a push: one more, capped at the capacity. */
  function NextLen(len: nat, m: nat): nat {
    if len + 1 > m then m else len + 1
  }

  /** The characters held after a push: the new one last, and the oldest dropped when
      the buffer was full. */
  function NextContents(contents: seq<char>, m: nat, c: char): (r: seq<char>)
    ensures 0 < m && |contents| <= m ==> |r| == NextLen(|contents|, m)
  {
    if 0 < |contents| == m then contents[1..] + [c] else contents + [c]
  }

  /** What slot `i` of a buffer of capacity `m` holds: until the buffer is full the
      `j`-th oldest character sits in slot `j + 1` and every other slot is blank; once
      full it sits `j + 1` slots after `head`, wrapping around. */
  function SlotAt(contents: seq<char>, head: nat, m: nat, i: nat): char
    requires |contents| <= m && head < m && i < m
  {
    if |contents| < m then (if 1 <= i <= |contents| then contents[i - 1] else ' ')
    else contents[if i > head then i - head - 1 else i + m - head - 1]
  }

  /** A push writes the new character into slot `head + len` (after the head and length
      moved on) and every other slot keeps what it held. */
  lemma SlotAfterPush(contents: seq<char>, head: nat, m: nat, c: char, i: nat)
    requires 0 < m && |contents| <= m && head < m && i < m && (|contents| < m ==> head == 0)
    ensures var head', len' := NextHead(head, |contents|, m), NextLen(|contents|, m);
      SlotAt(NextContents(contents, m, c), head', m, i) ==
        if i == Wrap(head' + len', m) then c else SlotAt(contents, head, m, i)
  {
  }

  /** Every slot holds what `SlotAt` says. */
  ghost predicate SlotsHold(slots: seq<char>, contents: seq<char>, head: nat, m: nat)
    requires |slots| == m && |contents| <= m && (m > 0 ==> head < m)
  {
    forall i :: 0 <= i < m ==> slots[i] == SlotAt(contents, head, m, i)
  }

  /** Writing the pushed character into its slot keeps every slot in step with the
      contents: `slots'`, `contents'` and `head'` are the state after the push. */
  lemma SlotsHoldAfterPush(slots: seq<char>, contents: seq<char>, head: nat, m: nat, c: char,
                           slots': seq<char>, contents': seq<char>, head': nat)
    requires 0 < m && |slots| == m && |contents| <= m && head < m && (|contents| < m ==> head == 0)
    requires SlotsHold(slots, contents, head, m)
    requires head' == NextHead(head, |contents|, m) && contents' == NextContents(contents, m, c)
    requires slots' == slots[Wrap(head' + NextLen(|contents|, m), m) := c]
    ensures |slots'| == m && |contents'| <= m && head' < m
    ensures SlotsHold(slots', contents', head', m)
  {
    forall i | 0 <= i < m ensures slots'[i] == SlotAt(contents', head', m, i) {
      SlotAfterPush(contents, head, m, c, i);
    }
  }

  /** When the buffer is full its slots hold exactly its contents. */
  lemma FullSlotsAreContents(slots: seq<char>, contents: seq<char>, head: nat, m: nat)
    requires |slots| == |contents| == m && (m > 0 ==> head < m)
    requires SlotsHold(slots, contents, head, m)
    ensures Elements(slots) == Elements(contents)
  {
    forall x | x in Elements(slots) ensures x in Elements(contents) {
      var i :| 0 <= i < m && slots[i] == x;
      var j := if i > head then i - head - 1 else i + m - head - 1;
      assert contents[j] == x;
    }
    forall x | x in Elements(contents) ensures x in Elements(slots) {
      var j :| 0 <= j < m && contents[j] == x;
      var i := Wrap(head + 1 + j, m);
      assert slots[i] == x;
    }
  }

  /** Pushing the next character of `s` onto a buffer holding the last `n` characters
      before `index` leaves it holding the last `n` or `n + 1` up to and including it. */
  lemma WindowAfterPush(s: seq<char>, index: nat, n: nat, m: nat)
    requires 0 < m && index < |s| && n == (if index < m then index else m)
    ensures NextLen(n, m) == if index + 1 < m then index + 1 else m
    ensures NextContents(s[index - n..index], m, s[index]) == s[index + 1 - NextLen(n, m)..index + 1]
  {
    if 0 < n == m {
      assert s[index - n..index][1..] + [s[index]] == s[index + 1 - n..index + 1];
    } else {
      assert s[index - n..index] + [s[index]] == s[index - n..index + 1];
    }
  }

  /** `m` blank slots. */
  function Blanks(m: nat): (r: seq<char>)
    ensures |r| == m && forall i :: 0 <= i < m ==> r[i] == ' '
  {
    if m == 0 then [] else Blanks(m - 1) + [' ']
  }

  /** The fixed-size buffer (`Buffer`): `len` characters held, the most recent
      `maxLen` at most, and `head` the slot before the oldest one. */
  class Buffer {
    var len: int
    var maxLen: int
    var vec: seq<char>
    var head: int
    /** The characters held, oldest first. */
    ghost var contents: seq<char>

    /** Every slot holds what `SlotAt` says. */
    ghost predicate Valid()
      reads this
    {
      && 0 <= head
      && |vec| == maxLen
      && len == |contents| <= maxLen
      && (maxLen > 0 ==> head < maxLen)
      && (len < maxLen ==> head == 0)
      && SlotsHold(vec, contents, head, maxLen)
    }

    /** `Buffer::new`: empty, with `maxLength` blank slots. */
    constructor New(maxLength: nat)
      ensures Valid() && maxLen == maxLength && contents == []
      ensures len == 0 && head == 0 && vec == Blanks(maxLength)
    {
      len := 0;
      maxLen := maxLength;
      vec := Blanks(maxLength);
      head := 0;
      contents := [];
    }

    /** `Buffer::push`. A zero capacity divides by zero in the source. The slot index
        `(head + len) % maxLen` is written `Wrap(head + len, maxLen)`, which `ModWrap`
        shows equal. */
    method Push(c: char)
      requires Valid() && maxLen > 0
      modifies this
      ensures Valid() && maxLen == old(maxLen)
      ensures contents == NextContents(old(contents), maxLen, c)
      ensures len == NextLen(old(len), maxLen) && head == NextHead(old(head), old(len), maxLen)
      ensures vec == old(vec)[Wrap(head + len, maxLen) := c]
    {
      ghost var vec0, contents0, head0, len0 := vec, contents, head, len;
      len := len + 1;
      if len > maxLen {
        len := maxLen;
        head := Wrap(head + 1, maxLen);
      }
      vec := vec[Wrap(head + len, maxLen) := c];
      contents := NextContents(contents, maxLen, c);
      assert head == NextHead(head0, len0, maxLen) && len == NextLen(len0, maxLen);
      SlotsHoldAfterPush(vec0, contents0, head0, maxLen, c, vec, contents, head);
    }

    /** `Buffer::is_unique`: false unless the buffer is full; when full, whether its
        slots hold pairwise different characters. */
    function IsUnique(): (b: bool)
      reads this
      requires Valid()
      ensures b <==> len == maxLen && Distinct(contents)
    {
      if maxLen != len then false
      else
        FullSlotsAreContents(vec, contents, head, maxLen);
        DistinctIffCard(contents);
        |Elements(vec)| == len
    }
  }

  /** The last `k` characters up to and including position `i` are pairwise distinct. */
  predicate MarkerAt(s: seq<char>, k: nat, i: nat)
    requires i < |s|
  {
    i + 1 >= k && forall p, q :: i + 1 - k <= p < q <= i ==> s[p] != s[q]
  }

  /** `r` is what `process_data_stream` promises: one past the first marker position,
      or 0 when there is none. */
  predicate IsFirstMarker(s: seq<char>, k: nat, r: nat) {
    r <= |s|
    && (r > 0 ==> MarkerAt(s, k, r - 1))
    && (forall i :: 0 <= i < |s| && (r == 0 || i < r - 1) ==> !MarkerAt(s, k, i))
  }

  /** The characters a buffer of capacity `k` holds after the first `n` characters of
      `s` were pushed onto it. */
  function Window(s: seq<char>, n: nat, k: nat): seq<char>
    requires n <= |s|
  {
    if n == 0 then [] else NextContents(Window(s, n - 1, k), k, s[n - 1])
  }

  /** The buffer holds the last `k` characters received, or all of them while fewer
      have arrived. */
  lemma {:induction false} WindowIsSuffix(s: seq<char>, n: nat, k: nat)
    requires 0 < k && n <= |s|
    ensures Window(s, n, k) == s[n - (if n < k then n else k)..n]
  {
    if n > 0 {
      WindowIsSuffix(s, n - 1, k);
      WindowAfterPush(s, n - 1, if n - 1 < k then n - 1 else k, k);
    }
  }

  /** A marker ends at `i` exactly when the buffer is full of distinct characters
      right after `s[i]` was pushed. */
  lemma MarkerIffWindow(s: seq<char>, k: nat, i: nat)
    requires 0 < k && i < |s|
    ensures MarkerAt(s, k, i) <==> |Window(s, i + 1, k)| == k && Distinct(Window(s, i + 1, k))
  {
    WindowIsSuffix(s, i + 1, k);
    if i + 1 >= k {
      var w := s[i + 1 - k..i + 1];
      assert Distinct(w) ==> MarkerAt(s, k, i) by {
        if Distinct(w) {
          forall p, q | i + 1 - k <= p < q <= i ensures s[p] != s[q] {
            assert s[p] == w[p - (i + 1 - k)] && s[q] == w[q - (i + 1 - k)];
          }
        }
      }
    }
  }

  /** `process_data_stream`: push the characters one by one and stop after the first
      push that leaves the buffer full of distinct characters. A zero window divides by
      zero in the source as soon as one character is pushed. */
  method ProcessDataStream(input: string, k: nat) returns (r: nat)
    requires k > 0 || input == []
    ensures IsFirstMarker(input, k, r)
  {
    var buf := new Buffer.New(k);
    var index := 0;
    while index < |input|
      invariant 0 <= index <= |input|
      invariant buf.Valid() && buf.maxLen == k
      invariant buf.contents == Window(input, index, k)
      invariant forall i :: 0 <= i < index ==> !MarkerAt(input, k, i)
    {
      buf.Push(input[index]);
      MarkerIffWindow(input, k, index);
      if buf.IsUnique() {
        return index + 1;
      }
      index := index + 1;
    }
    return 0;
  }

  /** No marker ends at any `i < |w|` when the window ending there holds the same
      character at the two positions `w[i]`. */
  lemma RepeatsRuleOutMarkers(s: seq<char>, k: nat, w: seq<(nat, nat)>)
    requires |w| <= |s|
    requires forall i :: 0 <= i < |w| && i + 1 >= k ==>
      i + 1 - k <= w[i].0 < w[i].1 <= i && s[w[i].0] == s[w[i].1]
    ensures forall i :: 0 <= i < |w| ==> !MarkerAt(s, k, i)
  {
    forall i | 0 <= i < |w| ensures !MarkerAt(s, k, i) {
      if i + 1 >= k {
        var (a, b) := w[i];
        assert s[a] == s[b];
      }
    }
  }

  /** A window of four different characters is a marker. */
  lemma FourDifferent(s: seq<char>, i: nat)
    requires 3 <= i < |s|
    requires s[i - 3] != s[i - 2] && s[i - 3] != s[i - 1] && s[i - 3] != s[i]
    requires s[i - 2] != s[i - 1] && s[i - 2] != s[i] && s[i - 1] != s[i]
    ensures MarkerAt(s, 4, i)
  {
  }

  /** Whether `r` is the first marker only depends on the first `r` characters. */
  lemma FirstMarkerOfPrefix(p: seq<char>, s: seq<char>, k: nat, r: nat)
    requires 0 < r == |p| <= |s| && s[..r] == p && IsFirstMarker(p, k, r)
    ensures IsFirstMarker(s, k, r)
  {
    forall i | 0 <= i < r ensures MarkerAt(s, k, i) == MarkerAt(p, k, i) {
      forall j | 0 <= j <= i ensures s[j] == p[j] {
        assert s[..r][j] == s[j];
      }
    }
  }

  /** The detector's examples: markers after 5, 6, 10 and 11 characters with a window of
      4. Each `w` names, for every earlier window, two positions holding the same
      character. */
  lemma MarkerExample1()
    ensures IsFirstMarker("bvwbjplbgvbhsrlpgdmjqwftvncz", 4, 5)
  {
    var p := "bvwbj";
    FourDifferent(p, 4);
    RepeatsRuleOutMarkers(p, 4, [(0, 0), (0, 0), (0, 0), (0, 3)]);
    FirstMarkerOfPrefix(p, "bvwbjplbgvbhsrlpgdmjqwftvncz", 4, 5);
  }

  lemma MarkerExample2()
    ensures IsFirstMarker("nppdvjthqldpwncqszvftbrmjlhg", 4, 6)
  {
    var p := "nppdvj";
    FourDifferent(p, 5);
    RepeatsRuleOutMarkers(p, 4, [(0, 0), (0, 0), (0, 0), (1, 2), (1, 2)]);
    FirstMarkerOfPrefix(p, "nppdvjthqldpwncqszvftbrmjlhg", 4, 6);
  }

  lemma MarkerExample3()
    ensures IsFirstMarker("nznrnfrfntjfmvfwmzdfjlvtqnbhcprsg", 4, 10)
  {
    var p := "nznrnfrfnt";
    FourDifferent(p, 9);
    RepeatsRuleOutMarkers(p, 4, [(0, 0), (0, 0), (0, 0), (0, 2), (2, 4), (2, 4), (3, 6), (5, 7), (5, 7)]);
    FirstMarkerOfPrefix(p, "nznrnfrfntjfmvfwmzdfjlvtqnbhcprsg", 4, 10);
  }

  lemma MarkerExample4()
    ensures IsFirstMarker("zcfzfwzzqfrljwzlrfnpqdbhtmscgvjw", 4, 11)
  {
    var p := "zcfzfwzzqfr";
    FourDifferent(p, 10);
    RepeatsRuleOutMarkers(p, 4, [(0, 0), (0, 0), (0, 0), (0, 3), (2, 4), (2, 4), (3, 6), (6, 7), (6, 7), (6, 7)]);
    FirstMarkerOfPrefix(p, "zcfzfwzzqfrljwzlrfnpqdbhtmscgvjw", 4, 11);
  }

  /** The slot layout the buffer's own test observes after pushing A to E into four slots. */
  method PushLayoutExample() returns (layouts: seq<seq<char>>)
    ensures layouts == [
      [' ', ' ', ' ', ' '], [' ', 'A', ' ', ' '], [' ', 'A', 'B', ' '],
      [' ', 'A', 'B', 'C'], ['D', 'A', 'B', 'C'], ['D', 'E', 'B', 'C']]
  {
    var buf := new Buffer.New(4);
    assert Blanks(4) == [' ', ' ', ' ', ' '];
    layouts := [buf.vec];
    buf.Push('A');
    assert buf.head == 0 && buf.len == 1;
    assert buf.vec == [' ', 'A', ' ', ' '];
    layouts := layouts + [buf.vec];
    buf.Push('B');
    assert buf.head == 0 && buf.len == 2;
    assert buf.vec == [' ', 'A', 'B', ' '];
    layouts := layouts + [buf.vec];
    buf.Push('C');
    assert buf.head == 0 && buf.len == 3;
    assert buf.vec == [' ', 'A', 'B', 'C'];
    layouts := layouts + [buf.vec];
    buf.Push('D');
    assert buf.head == 0 && buf.len == 4;
    assert buf.vec == ['D', 'A', 'B', 'C'];
    layouts := layouts + [buf.vec];
    buf.Push('E');
    assert buf.head == 1 && buf.len == 4;
    assert buf.vec == ['D', 'E', 'B', 'C'];
    layouts := layouts + [buf.vec];
  }
}
