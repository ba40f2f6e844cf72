/** What it means to keep some elements of a list. */
module Sublists {

  /** `part` is `whole` with some elements left out. */
  ghost predicate InOrder<T(!new)>(part: seq<T>, whole: seq<T>) {
    exists at: seq<nat> :: PickedBy(part, whole, at)
  }

  ghost predicate PickedBy<T(!new)>(part: seq<T>, whole: seq<T>, at: seq<nat>) {
    && |at| == |part|
    && (forall i, j | 0 <= i < j < |at| :: at[i] < at[j])
    && (forall i | 0 <= i < |at| :: at[i] < |whole| && part[i] == whole[at[i]])
  }

  /** Exactly the elements that satisfy `keep` remain, each as often and in the same order. */
  ghost predicate Keeps<T(!new)>(before: seq<T>, after: seq<T>, keep: T -> bool) {
    && InOrder(after, before)
    && forall x :: multiset(after)[x] == if keep(x) then multiset(before)[x] else 0
  }

  lemma KeepsNothing<T(!new)>(keep: T -> bool)
    ensures Keeps([], [], keep)
  {
    var none: seq<T> := [];
    assert PickedBy(none, none, []);
  }

  lemma KeepsSnoc<T(!new)>(before: seq<T>, after: seq<T>, keep: T -> bool, x: T)
    requires Keeps(before, after, keep)
    ensures Keeps(before + [x], after + if keep(x) then [x] else [], keep)
  {
    var at: seq<nat> :| PickedBy(after, before, at);
    if keep(x) {
      assert PickedBy(after + [x], before + [x], at + [|before|]);
    } else {
      assert after + [] == after;
      assert PickedBy(after, before + [x], at);
    }
  }

  lemma KeptMembers<T(!new)>(before: seq<T>, after: seq<T>, keep: T -> bool)
    requires Keeps(before, after, keep)
    ensures forall x :: x in after <==> x in before && keep(x)
  {
    forall x ensures x in after <==> x in before && keep(x) {
      assert x in after <==> multiset(after)[x] > 0;
      assert x in before <==> multiset(before)[x] > 0;
    }
  }

  /** A sub-list holds nothing more often than the list. */
  lemma {:induction false} PickedCount<T(!new)>(part: seq<T>, whole: seq<T>, at: seq<nat>, x: T)
    requires PickedBy(part, whole, at)
    ensures multiset(part)[x] <= multiset(whole)[x]
    decreases |whole|
  {
    if part != [] {
      assert at[0] < |whole|;
      var front, last := whole[..|whole| - 1], whole[|whole| - 1];
      assert whole == front + [last];
      if at[|at| - 1] == |whole| - 1 {
        var less := part[..|part| - 1];
        assert part == less + [last];
        assert PickedBy(less, front, at[..|at| - 1]);
        PickedCount(less, front, at[..|at| - 1], x);
      } else {
        assert forall i | 0 <= i < |at| :: at[i] <= at[|at| - 1];
        assert PickedBy(part, front, at);
        PickedCount(part, front, at, x);
      }
    }
  }

  lemma CountSnoc<T(!new)>(front: seq<T>, x: T)
    ensures forall y :: multiset(front + [x])[y] == multiset(front)[y] + if y == x then 1 else 0
  {
  }

  /** An element at the end that is not kept can be taken off. */
  lemma KeepsWithout<T(!new)>(front: seq<T>, x: T, after: seq<T>, keep: T -> bool, at: seq<nat>)
    requires Keeps(front + [x], after, keep) && PickedBy(after, front, at)
    ensures !keep(x) && Keeps(front, after, keep)
  {
    CountSnoc(front, x);
    PickedCount(after, front, at, x);
  }

  /** One that is kept stands at the end of both lists. */
  lemma KeepsWith<T(!new)>(front: seq<T>, x: T, less: seq<T>, keep: T -> bool, at: seq<nat>)
    requires Keeps(front + [x], less + [x], keep) && PickedBy(less, front, at)
    ensures keep(x) && Keeps(front, less, keep)
  {
    CountSnoc(front, x);
    CountSnoc(less, x);
  }

  /** What is kept of a list with one more element at the end. */
  lemma KeepsFront<T(!new)>(front: seq<T>, x: T, after: seq<T>, keep: T -> bool)
    requires Keeps(front + [x], after, keep)
    ensures if keep(x) then after != [] && after[|after| - 1] == x && Keeps(front, after[..|after| - 1], keep)
            else Keeps(front, after, keep)
  {
    var at: seq<nat> :| PickedBy(after, front + [x], at);
    hide Keeps;
    if after == [] || at[|at| - 1] < |front| {
      assert forall i | 0 <= i < |at| :: at[i] <= at[|at| - 1];
      assert PickedBy(after, front, at);
      KeepsWithout(front, x, after, keep, at);
    } else {
      var less := after[..|after| - 1];
      assert after == less + [x];
      assert PickedBy(less, front, at[..|at| - 1]);
      KeepsWith(front, x, less, keep, at[..|at| - 1]);
    }
  }

  lemma NothingToKeep<T(!new)>(before: seq<T>, after: seq<T>, keep: T -> bool)
    requires Keeps(before, after, keep)
    ensures before == [] ==> after == []
  {
    var at: seq<nat> :| PickedBy(after, before, at);
    if after != [] { PickedCount(after, before, at, after[0]); }
  }

  /** There is only one list that keeps exactly these elements of another. */
  lemma {:induction false} KeepsOnlyOne<T(!new)>(before: seq<T>, a: seq<T>, b: seq<T>, keep: T -> bool)
    requires Keeps(before, a, keep) && Keeps(before, b, keep)
    ensures a == b
    decreases |before|
  {
    hide Keeps;
    if before == [] {
      NothingToKeep(before, a, keep);
      NothingToKeep(before, b, keep);
    } else {
      var front, x := before[..|before| - 1], before[|before| - 1];
      assert before == front + [x];
      KeepsFront(front, x, a, keep);
      KeepsFront(front, x, b, keep);
      if keep(x) {
        KeepsOnlyOne(front, a[..|a| - 1], b[..|b| - 1], keep);
        assert a == a[..|a| - 1] + [x] && b == b[..|b| - 1] + [x];
      } else {
        KeepsOnlyOne(front, a, b, keep);
      }
    }
  }

  /** The element comes last, behind what was kept of the others. */
  ghost predicate Replaces<T(!new)>(before: seq<T>, after: seq<T>, keep: T -> bool, x: T) {
    after != [] && after[|after| - 1] == x && Keeps(before, after[..|after| - 1], keep)
  }

  lemma AppendReplaces<T(!new)>(before: seq<T>, kept: seq<T>, keep: T -> bool, x: T)
    requires Keeps(before, kept, keep)
    ensures Replaces(before, kept + [x], keep, x)
  {
    assert (kept + [x])[..|kept|] == kept;
  }

  lemma ReplacesOnlyOne<T(!new)>(before: seq<T>, a: seq<T>, b: seq<T>, keep: T -> bool, x: T)
    requires Replaces(before, a, keep, x) && Replaces(before, b, keep, x)
    ensures a == b && a != [] && a[|a| - 1] == x
  {
    hide Keeps;
    KeepsOnlyOne(before, a[..|a| - 1], b[..|b| - 1], keep);
    assert a == a[..|a| - 1] + [x] && b == b[..|b| - 1] + [x];
  }

  /** No repetition, and every element comes first where it is compared with a later one. */
  ghost predicate InTurn<T(!new)>(s: seq<T>, first: (T, T) -> bool) {
    forall i, j | 0 <= i < j < |s| :: s[i] != s[j] && first(s[i], s[j])
  }

  lemma NeitherOrBoth<T(!new)>(a: seq<T>, b: seq<T>)
    requires forall x :: x in a <==> x in b
    ensures a == [] <==> b == []
  {
    if a != [] { assert a[0] in b; }
    if b != [] { assert b[0] in a; }
  }

  /** The same elements in turn are the same list. */
  lemma {:induction false} InTurnOnlyOne<T(!new)>(a: seq<T>, b: seq<T>, first: (T, T) -> bool)
    requires InTurn(a, first) && InTurn(b, first) && forall x :: x in a <==> x in b
    requires forall x, y :: !(first(x, y) && first(y, x))
    ensures a == b
    decreases |a|
  {
    NeitherOrBoth(a, b);
    if a != [] {
      assert a[0] in b;
      assert b[0] in a;
      assert a[0] == b[0];
      forall x ensures x in a[1..] <==> x in b[1..] {
        assert x in a <==> x == a[0] || x in a[1..];
        assert x in b <==> x == b[0] || x in b[1..];
      }
      InTurnOnlyOne(a[1..], b[1..], first);
      assert a == [a[0]] + a[1..] && b == [b[0]] + b[1..];
    }
  }
}
