/** The monkey-passing simulation of src/q11.rs. Each monkey in turn inspects the
    items it holds, last first: the worry level is updated by the monkey's operation
    and reduced modulo the "rollover", the product of every monkey's test divisor;
    the item is then thrown to one of two monkeys depending on whether the new worry
    level is divisible by the monkey's divisor. The answer is the product of the two
    largest inspection counts.

    The monkeys are values in a sequence field of the manager, which its methods
    reassign; the worry levels are unbounded naturals. */
module Monkeys {
  import Strings
  import Numbers

  /* ---------- Remainders ---------- */

  /** A quotient and remainder that fit `x == q * d + r` with `0 <= r < d` are the
      ones `/` and `%` give. */
  lemma ModUnique(x: int, d: int, q: int, r: int)
    requires d > 0 && 0 <= r < d && x == q * d + r
    ensures x % d == r && x / d == q
  {
    var q0, r0 := x / d, x % d;
    assert (q - q0) * d == r0 - r by {
      assert x == q0 * d + r0;
      assert (q - q0) * d == q * d - q0 * d;
    }
    if q - q0 >= 1 {
      MulAtLeast(q - q0, d);
    } else if q0 - q >= 1 {
      MulAtLeast(q0 - q, d);
    }
  }

  lemma MulAtLeast(k: int, d: int)
    requires k >= 1 && d > 0
    ensures k * d >= d
  {
    assert k * d == (k - 1) * d + d;
    assert (k - 1) * d >= 0;
  }

  /** Adding a multiple of `d` does not change the remainder by `d`. */
  lemma ModAddMultiple(q: int, y: int, d: int)
    requires d > 0
    ensures (q * d + y) % d == y % d
  {
    var y0, r := y / d, y % d;
    assert q * d + y == (q + y0) * d + r;
    ModUnique(q * d + y, d, q + y0, r);
  }

  /** Reducing modulo a multiple of `d` keeps the remainder by `d`. */
  lemma ModOfMultiple(x: nat, p: nat, d: nat)
    requires d > 0 && p > 0 && p % d == 0
    ensures (x % p) % d == x % d
  {
    var k := p / d;
    assert p == k * d;
    var q := x / p;
    assert x == q * p + x % p;
    assert q * p == (q * k) * d;
    ModAddMultiple(q * k, x % p, d);
  }

  /* ---------- Items ---------- */

  /** How a monkey changes the worry level of an item it inspects. */
  datatype Operation = Add(increment: nat) | Multiply(factor: nat) | SquareOld

  /** The worry level after the operation and before the reduction. */
  function Apply(op: Operation, worry: nat): nat {
    match op
    case Add(increment) => worry + increment
    case Multiply(factor) => worry * factor
    case SquareOld => worry * worry
  }

  /** `Item::inspect`: apply the operation, then take the remainder by the rollover
      (a zero rollover divides by zero in the source). */
  function Inspect(worry: nat, op: Operation, rollover: nat): (r: nat)
    requires rollover > 0
    ensures r < rollover
  {
    Apply(op, worry) % rollover
  }

  /** `Item::divisibility_test` (a zero divisor divides by zero in the source). */
  predicate Divisible(worry: nat, test: nat)
    requires test > 0
  {
    worry % test == 0
  }

  /** Every operation respects remainders: worry levels that agree modulo `d` still
      agree after it. */
  lemma ApplyCongruent(op: Operation, a: nat, b: nat, d: nat)
    requires d > 0 && a % d == b % d
    ensures Apply(op, a) % d == Apply(op, b) % d
  {
    match op
    case Add(c) =>
      SumRemainder(a, c, d);
      SumRemainder(b, c, d);
    case Multiply(c) =>
      ProductRemainder(a, c, d);
      ProductRemainder(b, c, d);
    case SquareOld =>
      SquareRemainder(a, d);
      SquareRemainder(b, d);
  }

  lemma SumRemainder(a: nat, c: nat, d: nat)
    requires d > 0
    ensures (a + c) % d == ((a % d) + c) % d
  {
    var q, r := a / d, a % d;
    assert a + c == q * d + (r + c);
    ModAddMultiple(q, r + c, d);
  }

  lemma ProductRemainder(a: nat, c: nat, d: nat)
    requires d > 0
    ensures (a * c) % d == ((a % d) * c) % d
  {
    var q, r := a / d, a % d;
    calc {
      a * c;
      (q * d + r) * c;
      (q * c) * d + r * c;
    }
    ModAddMultiple(q * c, r * c, d);
  }

  lemma SquareRemainder(a: nat, d: nat)
    requires d > 0
    ensures (a * a) % d == ((a % d) * (a % d)) % d
  {
    var q, r := a / d, a % d;
    calc {
      a * a;
      (q * d + r) * (q * d + r);
      (q * q * d + 2 * q * r) * d + r * r;
    }
    ModAddMultiple(q * q * d + 2 * q * r, r * r, d);
  }

  /** The point of the rollover: when it is a multiple of a monkey's divisor, an
      inspected item passes that monkey's test exactly when the unreduced worry level
      would have. */
  lemma InspectKeepsTest(worry: nat, op: Operation, rollover: nat, test: nat)
    requires test > 0 && rollover > 0 && rollover % test == 0
    ensures Divisible(Inspect(worry, op, rollover), test) <==> Divisible(Apply(op, worry), test)
  {
    ModOfMultiple(Apply(op, worry), rollover, test);
  }

  /** Reduced and unreduced worry levels keep agreeing modulo every divisor of the
      rollover through any number of later inspections. */
  lemma InspectCongruent(reduced: nat, full: nat, op: Operation, rollover: nat, test: nat)
    requires test > 0 && rollover > 0 && rollover % test == 0 && reduced % test == full % test
    ensures Inspect(reduced, op, rollover) % test == Apply(op, full) % test
  {
    ModOfMultiple(Apply(op, reduced), rollover, test);
    ApplyCongruent(op, reduced, full, test);
  }

  /* ---------- One monkey ---------- */

  /** A monkey: the worry levels of the items it holds (thrown last first), its
      operation, its divisor, the monkeys it throws to when the test passes and when
      it fails, and how many items it has inspected. */
  datatype Monkey = Monkey(
    id: nat,
    items: seq<nat>,
    operation: Operation,
    test: nat,
    onTrue: nat,
    onFalse: nat,
    inspections: nat)

  /** `MonkeyTurnResult`: an inspected item and the monkey it goes to. */
  datatype Throw = Throw(worry: nat, newOwner: nat)

  /** What `m` does with one item: inspect it, then pick the receiver by the test. */
  function ThrowOf(m: Monkey, worry: nat, rollover: nat): Throw
    requires rollover > 0 && m.test > 0
  {
    var w := Inspect(worry, m.operation, rollover);
    Throw(w, if Divisible(w, m.test) then m.onTrue else m.onFalse)
  }

  /** The throws of a turn over `items`, the last item first. */
  function Throws(m: Monkey, items: seq<nat>, rollover: nat): (r: seq<Throw>)
    requires items == [] || (rollover > 0 && m.test > 0)
    ensures |r| == |items|
  {
    if items == [] then []
    else [ThrowOf(m, items[|items| - 1], rollover)] + Throws(m, items[..|items| - 1], rollover)
  }

  /** The `i`-th throw of a turn is the `i`-th item counted from the end. */
  lemma {:induction false} ThrowsFromTheEnd(m: Monkey, items: seq<nat>, rollover: nat, i: nat)
    requires rollover > 0 && m.test > 0 && i < |items|
    ensures Throws(m, items, rollover)[i] == ThrowOf(m, items[|items| - 1 - i], rollover)
    decreases |items|
  {
    if i > 0 {
      ThrowsFromTheEnd(m, items[..|items| - 1], rollover, i - 1);
    }
  }

  /** A throw goes to `onTrue` exactly when the inspected item passes the test, which,
      with the rollover a multiple of the divisor, is exactly when the unreduced worry
      level passes it; the reduced level stays below the rollover. */
  lemma ThrowSpec(m: Monkey, worry: nat, rollover: nat)
    requires rollover > 0 && m.test > 0 && rollover % m.test == 0
    ensures var t := ThrowOf(m, worry, rollover);
      t.worry < rollover
      && t.worry % m.test == Apply(m.operation, worry) % m.test
      && t.newOwner == if Apply(m.operation, worry) % m.test == 0 then m.onTrue else m.onFalse
  {
    ModOfMultiple(Apply(m.operation, worry), rollover, m.test);
  }

  /** Every throw of a turn goes to one of the monkey's two receivers. */
  lemma {:induction false} ThrowsGoToReceivers(m: Monkey, items: seq<nat>, rollover: nat)
    requires rollover > 0 && m.test > 0
    ensures forall k :: 0 <= k < |items| ==>
      Throws(m, items, rollover)[k].newOwner in {m.onTrue, m.onFalse}
    decreases |items|
  {
    if items != [] {
      ThrowsGoToReceivers(m, items[..|items| - 1], rollover);
    }
  }

  /** `Monkey::take_a_turn`: pop the items from the end one by one, inspect each,
      count it and record where it goes. Only an inspection divides, so a monkey
      without items needs no positive rollover or divisor. */
  method TakeATurn(m: Monkey, rollover: nat) returns (m': Monkey, results: seq<Throw>)
    requires m.items == [] || (rollover > 0 && m.test > 0)
    ensures m' == m.(items := [], inspections := m.inspections + |m.items|)
    ensures results == Throws(m, m.items, rollover)
  {
    m' := m;
    results := [];
    while m'.items != []
      invariant |m'.items| <= |m.items|
      invariant m' == m.(items := m.items[..|m'.items|],
                         inspections := m.inspections + (|m.items| - |m'.items|))
      invariant results + Throws(m, m'.items, rollover) == Throws(m, m.items, rollover)
      decreases |m'.items|
    {
      var n := |m'.items|;
      var worry := m'.items[n - 1];
      ghost var rest := m'.items[..n - 1];
      m' := m'.(items := m'.items[..n - 1]);
      var w := Inspect(worry, m.operation, rollover);
      m' := m'.(inspections := m'.inspections + 1);
      var t;
      if Divisible(w, m.test) {
        t := Throw(w, m.onTrue);
      } else {
        t := Throw(w, m.onFalse);
      }
      Strings.AppendAssoc(results, [t], Throws(m, rest, rollover));
      results := results + [t];
      assert m.items[..n][..n - 1] == m.items[..n - 1];
    }
  }

  /** `Monkey::give_item`: the item goes to the end of the receiver's list. */
  function GiveItem(m: Monkey, worry: nat): Monkey {
    m.(items := m.items + [worry])
  }

  /* ---------- The troop ---------- */

  /** What a monkey does with items, as opposed to the items it holds and its count. */
  datatype Rule = Rule(id: nat, operation: Operation, test: nat, onTrue: nat, onFalse: nat)

  function RuleOf(m: Monkey): Rule {
    Rule(m.id, m.operation, m.test, m.onTrue, m.onFalse)
  }

  function Rules(ms: seq<Monkey>): (r: seq<Rule>)
    ensures |r| == |ms|
  {
    if ms == [] then [] else [RuleOf(ms[0])] + Rules(ms[1..])
  }

  function Counts(ms: seq<Monkey>): (r: seq<nat>)
    ensures |r| == |ms|
  {
    if ms == [] then [] else [ms[0].inspections] + Counts(ms[1..])
  }

  /** The number of items all monkeys hold together. */
  function TotalItems(ms: seq<Monkey>): nat {
    if ms == [] then 0 else |ms[0].items| + TotalItems(ms[1..])
  }

  lemma {:induction false} RulesAt(ms: seq<Monkey>, i: nat)
    requires i < |ms|
    ensures Rules(ms)[i] == RuleOf(ms[i]) && Counts(ms)[i] == ms[i].inspections
    decreases |ms|
  {
    if i > 0 {
      RulesAt(ms[1..], i - 1);
    }
  }

  /** Replacing one monkey changes the rules, counts and item total only at its place. */
  lemma {:induction false} Replace(ms: seq<Monkey>, i: nat, m: Monkey)
    requires i < |ms|
    ensures Rules(ms[i := m]) == Rules(ms)[i := RuleOf(m)]
    ensures Counts(ms[i := m]) == Counts(ms)[i := m.inspections]
    ensures TotalItems(ms[i := m]) + |ms[i].items| == TotalItems(ms) + |m.items|
    decreases |ms|
  {
    if i == 0 {
      assert ms[i := m][1..] == ms[1..];
    } else {
      assert ms[i := m][1..] == ms[1..][i - 1 := m];
      Replace(ms[1..], i - 1, m);
    }
  }

  /** Every divisor is positive and divides the rollover, and every receiver is a
      monkey of the troop. */
  predicate ValidRules(rs: seq<Rule>, rollover: nat) {
    rollover > 0
    && forall i :: 0 <= i < |rs| ==>
      rs[i].test > 0 && rollover % rs[i].test == 0 && rs[i].onTrue < |rs| && rs[i].onFalse < |rs|
  }

  predicate ValidTroop(ms: seq<Monkey>, rollover: nat) {
    ValidRules(Rules(ms), rollover)
  }

  /** Hand the thrown items out in order; every receiver must be a monkey. */
  function Deliver(ms: seq<Monkey>, throws: seq<Throw>): (r: seq<Monkey>)
    requires forall k :: 0 <= k < |throws| ==> throws[k].newOwner < |ms|
    ensures |r| == |ms|
    decreases |throws|
  {
    if throws == [] then ms
    else
      var t := throws[0];
      Deliver(ms[t.newOwner := GiveItem(ms[t.newOwner], t.worry)], throws[1..])
  }

  /** Handing items out leaves rules and counts alone and adds one item per throw. */
  lemma {:induction false} DeliverSpec(ms: seq<Monkey>, throws: seq<Throw>)
    requires forall k :: 0 <= k < |throws| ==> throws[k].newOwner < |ms|
    ensures Rules(Deliver(ms, throws)) == Rules(ms)
    ensures Counts(Deliver(ms, throws)) == Counts(ms)
    ensures TotalItems(Deliver(ms, throws)) == TotalItems(ms) + |throws|
    decreases |throws|
  {
    if throws != [] {
      var t := throws[0];
      var ms' := ms[t.newOwner := GiveItem(ms[t.newOwner], t.worry)];
      Replace(ms, t.newOwner, GiveItem(ms[t.newOwner], t.worry));
      RulesAt(ms, t.newOwner);
      DeliverSpec(ms', throws[1..]);
    }
  }

  /** The monkey after its turn: no items left, each of them counted. */
  function AfterTurn(m: Monkey): Monkey {
    m.(items := [], inspections := m.inspections + |m.items|)
  }

  /** Monkey `id` takes its turn and its throws are handed out. */
  function TurnOf(ms: seq<Monkey>, id: nat, rollover: nat): seq<Monkey>
    requires id < |ms| && ValidTroop(ms, rollover)
  {
    var m := ms[id];
    RulesAt(ms, id);
    ThrowsGoToReceivers(m, m.items, rollover);
    Deliver(ms[id := AfterTurn(m)], Throws(m, m.items, rollover))
  }

  /** A turn keeps the rules and the item total, and raises the count of the monkey
      whose turn it is by the number of items it held. */
  lemma TurnSpec(ms: seq<Monkey>, id: nat, rollover: nat)
    requires id < |ms| && ValidTroop(ms, rollover)
    ensures Rules(TurnOf(ms, id, rollover)) == Rules(ms)
    ensures TotalItems(TurnOf(ms, id, rollover)) == TotalItems(ms)
    ensures Counts(TurnOf(ms, id, rollover)) == Counts(ms)[id := ms[id].inspections + |ms[id].items|]
  {
    var m := ms[id];
    RulesAt(ms, id);
    Replace(ms, id, AfterTurn(m));
    ThrowsGoToReceivers(m, m.items, rollover);
    DeliverSpec(ms[id := AfterTurn(m)], Throws(m, m.items, rollover));
  }

  /** The turns of monkeys `id`, `id + 1`, ... in index order. */
  function RoundFrom(ms: seq<Monkey>, id: nat, rollover: nat): seq<Monkey>
    requires id <= |ms| && ValidTroop(ms, rollover)
    decreases |ms| - id
  {
    if id == |ms| then ms
    else
      TurnSpec(ms, id, rollover);
      RoundFrom(TurnOf(ms, id, rollover), id + 1, rollover)
  }

  /** All the turns of a round, in index order. */
  function Round(ms: seq<Monkey>, rollover: nat): seq<Monkey>
    requires ValidTroop(ms, rollover)
  {
    RoundFrom(ms, 0, rollover)
  }

  /** The turns from `id` on keep the rules and the number of items in play. */
  lemma {:induction false} RoundFromSpec(ms: seq<Monkey>, id: nat, rollover: nat)
    requires id <= |ms| && ValidTroop(ms, rollover)
    ensures Rules(RoundFrom(ms, id, rollover)) == Rules(ms)
    ensures TotalItems(RoundFrom(ms, id, rollover)) == TotalItems(ms)
    decreases |ms| - id
  {
    if id < |ms| {
      TurnSpec(ms, id, rollover);
      RoundFromSpec(TurnOf(ms, id, rollover), id + 1, rollover);
    }
  }

  /** One turn of a round: the remaining turns start from the troop after it. */
  lemma TurnStep(ms: seq<Monkey>, id: nat, rollover: nat)
    requires id < |ms| && ValidTroop(ms, rollover)
    ensures ValidTroop(TurnOf(ms, id, rollover), rollover)
    ensures RoundFrom(TurnOf(ms, id, rollover), id + 1, rollover) == RoundFrom(ms, id, rollover)
  {
    TurnSpec(ms, id, rollover);
  }

  /** A round changes no monkey's rules and neither creates nor loses items. */
  lemma RoundSpec(ms: seq<Monkey>, rollover: nat)
    requires ValidTroop(ms, rollover)
    ensures ValidTroop(Round(ms, rollover), rollover)
    ensures Rules(Round(ms, rollover)) == Rules(ms)
    ensures TotalItems(Round(ms, rollover)) == TotalItems(ms)
  {
    RoundFromSpec(ms, 0, rollover);
  }

  /** The product of all divisors. */
  function ProductOfTests(ms: seq<Monkey>): nat {
    if ms == [] then 1 else ms[0].test * ProductOfTests(ms[1..])
  }

  /** A multiple of `d` times anything is a multiple of `d`. */
  lemma MultipleTimes(t: nat, p: nat, d: nat)
    requires d > 0 && p % d == 0
    ensures (t * p) % d == 0
  {
    var k := p / d;
    assert p == k * d;
    assert t * p == (t * k) * d;
    ModUnique(t * p, d, t * k, 0);
  }

  /** With positive divisors the product is positive and a multiple of each of them. */
  lemma {:induction false} ProductOfTestsSpec(ms: seq<Monkey>)
    requires forall i :: 0 <= i < |ms| ==> ms[i].test > 0
    ensures ProductOfTests(ms) > 0
    ensures forall i :: 0 <= i < |ms| ==> ProductOfTests(ms) % ms[i].test == 0
    decreases |ms|
  {
    if ms != [] {
      var t, p := ms[0].test, ProductOfTests(ms[1..]);
      assert ProductOfTests(ms) == t * p;
      ProductOfTestsSpec(ms[1..]);
      MulAtLeast(p, t);
      forall i | 0 <= i < |ms| ensures (t * p) % ms[i].test == 0 {
        if i == 0 {
          ModUnique(t * p, t, p, 0);
        } else {
          assert ms[i].test == ms[1..][i - 1].test;
          MultipleTimes(t, p, ms[i].test);
        }
      }
    }
  }

  /** A troop whose divisors are positive and whose receivers are all members is
      valid with the product of its divisors as rollover. */
  lemma ProductRolloverValid(ms: seq<Monkey>)
    requires forall i :: 0 <= i < |ms| ==> ms[i].test > 0 && ms[i].onTrue < |ms| && ms[i].onFalse < |ms|
    ensures ValidTroop(ms, ProductOfTests(ms))
  {
    ProductOfTestsSpec(ms);
    forall i | 0 <= i < |ms| ensures Rules(ms)[i] == RuleOf(ms[i]) {
      RulesAt(ms, i);
    }
  }

  /* ---------- Monkey business ---------- */

  lemma MulMono(a: nat, b: nat, c: nat, d: nat)
    requires a <= b && c <= d
    ensures a * c <= b * d
  {
    assert a * c <= b * c;
    assert b * c <= b * d;
  }

  /** Taking element `i` out of `xs` leaves a sequence holding every other element. */
  lemma RemoveAt(xs: seq<nat>, i: nat)
    requires i < |xs|
    ensures multiset(xs) == multiset(xs[..i] + xs[i+1..]) + multiset{xs[i]}
  {
    assert xs == xs[..i] + [xs[i]] + xs[i+1..];
  }

  /** The product of the two largest counts: the last two after an ascending sort. */
  function MonkeyBusiness(counts: seq<nat>): nat
    requires |counts| >= 2
  {
    var s := Numbers.Sort(counts);
    var largest, second: nat := s[|s| - 1], s[|s| - 2];
    largest * second
  }

  /** Every element of an ascending sequence is at most its last one. */
  lemma SortedBelowLast(s: seq<nat>, x: nat)
    requires Numbers.Sorted(s) && x in multiset(s)
    ensures x <= s[|s| - 1]
  {
    var k :| 0 <= k < |s| && s[k] == x;
  }

  /** No two different elements multiply to more than the last two of an ascending
      arrangement of them. */
  lemma PairBelowTopTwo(counts: seq<nat>, s: seq<nat>, i: nat, j: nat)
    requires |s| >= 2 && Numbers.Sorted(s) && multiset(s) == multiset(counts)
    requires i < j < |counts|
    ensures counts[i] * counts[j] <= s[|s| - 1] * s[|s| - 2]
  {
    var n := |s|;
    var a, b := s[n - 1], s[n - 2];
    var rest := s[..n - 1];
    assert s == rest + [a];
    RemoveAt(counts, i);
    assert counts[j] == (counts[..i] + counts[i+1..])[j - 1];
    assert counts[j] in multiset(counts) - multiset{counts[i]};
    SortedBelowLast(s, counts[i]);
    SortedBelowLast(s, counts[j]);
    if counts[i] == a {
      SortedBelowLast(rest, counts[j]);
      MulMono(counts[i], a, counts[j], b);
    } else {
      SortedBelowLast(rest, counts[i]);
      MulMono(counts[i], b, counts[j], a);
    }
  }

  /** A value that occurs in `xs` besides at place `p` occurs at another place. */
  lemma OtherPlace(xs: seq<nat>, p: nat, x: nat) returns (q: nat)
    requires p < |xs| && x in multiset(xs) - multiset{xs[p]}
    ensures q < |xs| && q != p && xs[q] == x
  {
    RemoveAt(xs, p);
    var others := xs[..p] + xs[p+1..];
    assert x in multiset(others);
    var k :| 0 <= k < |others| && others[k] == x;
    q := if k < p then k else k + 1;
  }

  /** The last two of an arrangement of `counts` sit at two different places of it. */
  lemma TopTwoArePair(counts: seq<nat>, s: seq<nat>) returns (i: nat, j: nat)
    requires |s| >= 2 && multiset(s) == multiset(counts)
    ensures i < j < |counts| && counts[i] * counts[j] == s[|s| - 1] * s[|s| - 2]
  {
    var n := |s|;
    var a, b := s[n - 1], s[n - 2];
    RemoveAt(s, n - 1);
    assert s[..n - 1] + s[n..] == s[..n - 1];
    assert b == s[..n - 1][n - 2];
    assert a in multiset(counts);
    var p :| 0 <= p < |counts| && counts[p] == a;
    var q := OtherPlace(counts, p, b);
    if p < q {
      i, j := p, q;
    } else {
      i, j := q, p;
    }
  }

  /** The monkey business is the largest product of the counts of two different monkeys. */
  lemma MonkeyBusinessIsMaxPair(counts: seq<nat>)
    requires |counts| >= 2
    ensures forall i, j :: 0 <= i < j < |counts| ==> counts[i] * counts[j] <= MonkeyBusiness(counts)
    ensures exists i, j :: 0 <= i < j < |counts| && MonkeyBusiness(counts) == counts[i] as int * counts[j]
  {
    var s := Numbers.Sort(counts);
    var mb := MonkeyBusiness(counts);
    assert mb == s[|s| - 1] * s[|s| - 2];
    forall i, j | 0 <= i < j < |counts| ensures counts[i] * counts[j] <= mb {
      PairBelowTopTwo(counts, s, i, j);
    }
    var i, j := TopTwoArePair(counts, s);
    assert counts[i] * counts[j] == mb;
  }

  /* ---------- The manager ---------- */

  /** The troop and the worry level at which worries roll over. */
  class MonkeyManager {
    var monkeys: seq<Monkey>
    var rollover: nat

    /** Takes parsed monkeys; the rollover is the product of their divisors. */
    constructor (ms: seq<Monkey>)
      ensures monkeys == ms && rollover == ProductOfTests(ms)
    {
      monkeys := ms;
      rollover := ProductOfTests(ms);
    }

    /** Each monkey in index order takes its turn and hands its throws out at once. */
    method PlayRound()
      requires ValidTroop(monkeys, rollover)
      modifies this
      ensures rollover == old(rollover)
      ensures monkeys == Round(old(monkeys), rollover)
    {
      for id := 0 to |monkeys|
        invariant rollover == old(rollover) && |monkeys| == |old(monkeys)|
        invariant ValidTroop(monkeys, rollover)
        invariant RoundFrom(monkeys, id, rollover) == Round(old(monkeys), rollover)
      {
        ghost var before := monkeys;
        RulesAt(monkeys, id);
        var m, results := TakeATurn(monkeys[id], rollover);
        ThrowsGoToReceivers(before[id], before[id].items, rollover);
        monkeys := monkeys[id := m];
        HandOut(results);
        assert monkeys == TurnOf(before, id, rollover);
        TurnStep(before, id, rollover);
      }
    }

    /** The receivers of a turn's throws get their items, in throwing order. */
    method HandOut(results: seq<Throw>)
      requires forall k :: 0 <= k < |results| ==> results[k].newOwner < |monkeys|
      modifies this
      ensures rollover == old(rollover)
      ensures monkeys == Deliver(old(monkeys), results)
    {
      for j := 0 to |results|
        invariant rollover == old(rollover) && |monkeys| == |old(monkeys)|
        invariant Deliver(monkeys, results[j..]) == Deliver(old(monkeys), results)
      {
        var t := results[j];
        assert results[j..][1..] == results[j + 1..];
        monkeys := monkeys[t.newOwner := GiveItem(monkeys[t.newOwner], t.worry)];
      }
    }

    /** The product of the two largest inspection counts. */
    function CalculateMonkeyBusiness(): (r: nat)
      reads this
      requires |monkeys| >= 2
      ensures forall i, j :: 0 <= i < j < |monkeys| ==> monkeys[i].inspections * monkeys[j].inspections <= r
      ensures exists i, j :: 0 <= i < j < |monkeys| && r == monkeys[i].inspections as int * monkeys[j].inspections
    {
      var counts := Counts(monkeys);
      MonkeyBusinessIsMaxPair(counts);
      forall i | 0 <= i < |monkeys| ensures counts[i] == monkeys[i].inspections {
        RulesAt(monkeys, i);
      }
      MonkeyBusiness(counts)
    }
  }
}
