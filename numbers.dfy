/** Helpers on numbers and lists of numbers that several solvers share: the absolute value
    and `sort_unstable` on a list of counts. */
module Numbers {
  function Abs(n: int): nat { if n < 0 then -n else n }

  predicate Sorted(s: seq<nat>) {
    forall i, j :: 0 <= i < j < |s| ==> s[i] <= s[j]
  }

  /** A number no larger than the head of a sorted list keeps it sorted in front. */
  lemma SortedCons(x: nat, s: seq<nat>)
    requires Sorted(s)
    requires s == [] || x <= s[0]
    ensures Sorted([x] + s)
  {
    var r := [x] + s;
    forall i, j | 0 <= i < j < |r|
      ensures r[i] <= r[j]
    {
      if i > 0 {
        assert r[i] == s[i - 1] && r[j] == s[j - 1];
      } else {
        assert r[j] == s[j - 1];
      }
    }
  }

  lemma SortedTail(s: seq<nat>)
    requires Sorted(s) && s != []
    ensures Sorted(s[1..])
  {
    forall i, j | 0 <= i < j < |s| - 1 ensures s[1..][i] <= s[1..][j] {
      assert s[1..][i] == s[i + 1] && s[1..][j] == s[j + 1];
    }
  }

  function Insert(x: nat, s: seq<nat>): (r: seq<nat>)
    requires Sorted(s)
    ensures |r| == |s| + 1
    ensures r[0] == x || (s != [] && r[0] == s[0])
    ensures multiset(r) == multiset(s) + multiset{x}
    ensures Sorted(r)
  {
    if s == [] || x <= s[0] then
      SortedCons(x, s);
      [x] + s
    else
      SortedTail(s);
      var rest := Insert(x, s[1..]);
      assert s == [s[0]] + s[1..];
      SortedCons(s[0], rest);
      [s[0]] + rest
  }

  /** `sort_unstable` on numbers: the ascending rearrangement of the list. */
  function Sort(s: seq<nat>): (r: seq<nat>)
    ensures |r| == |s|
    ensures multiset(r) == multiset(s)
    ensures Sorted(r)
  {
    if s == [] then []
    else
      assert s == [s[0]] + s[1..];
      Insert(s[0], Sort(s[1..]))
  }

  /** Cutting a sorted list in two: the parts make up the whole, and nothing in the front
      part exceeds anything in the back part. */
  lemma SortedSplit(t: seq<nat>, k: nat)
    requires Sorted(t) && k <= |t|
    ensures multiset(t[k..]) + multiset(t[..k]) == multiset(t)
    ensures forall i, j :: 0 <= j < k <= i < |t| ==> t[j] <= t[i]
  {
    assert t == t[..k] + t[k..];
  }

  /** Inserting a number in front of a 0 heading a sorted list keeps the 0 in front. */
  lemma InsertAfterZero(x: nat, s: seq<nat>)
    requires Sorted(s) && Sorted([0] + s)
    ensures Insert(x, [0] + s) == [0] + Insert(x, s)
  {
    assert ([0] + s)[1..] == s;
  }

  /** A 0 appended to a list sorts to the front: nothing is smaller. */
  lemma {:induction false} SortWithZero(s: seq<nat>)
    ensures Sort(s + [0]) == [0] + Sort(s)
  {
    if s == [] {
      assert [0][1..] == [];
    } else {
      assert (s + [0])[1..] == s[1..] + [0];
      assert (s + [0])[0] == s[0];
      SortWithZero(s[1..]);
      var t := Sort(s[1..]);
      assert Sorted([0] + t) by {
        SortedCons(0, t);
      }
      InsertAfterZero(s[0], t);
    }
  }

  /** Dropping `k + 1` elements of a list headed by 0 drops the 0 and `k` more. */
  lemma DropAfterCons(u: seq<nat>, t: seq<nat>, k: nat)
    requires u == [0] + t && k <= |t|
    ensures u[k + 1..] == t[k..]
  {
  }
}
