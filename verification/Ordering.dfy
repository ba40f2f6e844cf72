/** Strings in code-point order, and the one sorted list of a set of strings. */
module Ordering {

  predicate Leq(a: string, b: string) {
    a == "" || (b != "" && (a[0] < b[0] || (a[0] == b[0] && Leq(a[1..], b[1..]))))
  }

  lemma {:induction false} LeqTotal(a: string, b: string)
    ensures Leq(a, b) || Leq(b, a)
    ensures Leq(a, b) && Leq(b, a) ==> a == b
    decreases |a|
  {
    if a != "" && b != "" && a[0] == b[0] {
      LeqTotal(a[1..], b[1..]);
      assert a == [a[0]] + a[1..] && b == [b[0]] + b[1..];
    }
  }

  lemma {:induction false} LeqTransitive(a: string, b: string, c: string)
    requires Leq(a, b) && Leq(b, c)
    ensures Leq(a, c)
    decreases |a|
  {
    if a != "" && a[0] == b[0] && b[0] == c[0] { LeqTransitive(a[1..], b[1..], c[1..]); }
  }

  predicate Least(x: string, s: set<string>) {
    x in s && forall y | y in s :: Leq(x, y)
  }

  lemma {:induction false} LeastExists(s: set<string>) returns (x: string)
    requires s != {}
    ensures Least(x, s)
    decreases |s|
  {
    x :| x in s;
    if s != {x} {
      var rest := s - {x};
      assert s == rest + {x};
      var y := LeastExists(rest);
      LeqTotal(x, y);
      if !Leq(x, y) { x := y; } else {
        forall z | z in s ensures Leq(x, z) {
          if z == x { LeqTotal(x, x); } else { LeqTransitive(x, y, z); }
        }
      }
      LeqTotal(x, x);
    } else {
      LeqTotal(x, x);
    }
  }

  lemma LeastIsUnique(s: set<string>)
    ensures forall x, y | Least(x, s) && Least(y, s) :: x == y
  {
    forall x, y | Least(x, s) && Least(y, s) ensures x == y { LeqTotal(x, y); }
  }

  /** `sorted(s)`. */
  function Sorted(s: set<string>): seq<string>
    decreases |s|
  {
    if s == {} then []
    else
      assert exists x :: Least(x, s) by { var x := LeastExists(s); }
      LeastIsUnique(s);
      var x :| x in s && Least(x, s);
      [x] + Sorted(s - {x})
  }

  /** In strictly ascending order, hence without duplicates. */
  ghost predicate Ascending(s: seq<string>) {
    forall i, j | 0 <= i < j < |s| :: Leq(s[i], s[j]) && s[i] != s[j]
  }

  function Elements(s: seq<string>): set<string> {
    set x | x in s
  }

  lemma SortedStartsWithLeast(s: set<string>) returns (x: string)
    requires s != {}
    ensures Least(x, s) && Sorted(s) == [x] + Sorted(s - {x})
  {
    LeastIsUnique(s);
    x := LeastExists(s);
  }

  lemma AscendingCons(x: string, rest: seq<string>)
    requires Ascending(rest) && forall y | y in rest :: Leq(x, y) && x != y
    ensures Ascending([x] + rest)
  {
    hide Leq;
    var s := [x] + rest;
    forall i, j | 0 <= i < j < |s| ensures Leq(s[i], s[j]) && s[i] != s[j] {
      assert s[j] == rest[j - 1] && (i > 0 ==> s[i] == rest[i - 1]);
    }
  }

  lemma ElementsCons(x: string, rest: seq<string>)
    ensures Elements([x] + rest) == {x} + Elements(rest)
  {
  }

  /** Sorting lists every element once, in ascending order. */
  lemma {:induction false} SortedIsAscending(s: set<string>)
    ensures Ascending(Sorted(s)) && Elements(Sorted(s)) == s
    decreases |s|
  {
    if s != {} {
      hide Sorted, Leq;
      var x := SortedStartsWithLeast(s);
      var rest := Sorted(s - {x});
      SortedIsAscending(s - {x});
      forall y | y in rest ensures Leq(x, y) && x != y { assert y in Elements(rest); }
      AscendingCons(x, rest);
      ElementsCons(x, rest);
    }
  }

  /** There is only one ascending list of a set. */
  lemma {:induction false} AscendingIsUnique(a: seq<string>, b: seq<string>)
    requires Ascending(a) && Ascending(b) && Elements(a) == Elements(b)
    ensures a == b
    decreases |a|
  {
    assert (a != [] ==> a[0] in Elements(a)) && (b != [] ==> b[0] in Elements(b));
    if a != [] {
      assert a[0] in Elements(b) && b[0] in Elements(a);
      LeqTotal(a[0], b[0]);
      assert a[0] == b[0];
      forall x ensures x in a[1..] <==> x in b[1..] {
        assert x in a <==> x in Elements(a);
        assert x in b <==> x in Elements(b);
        assert x in a <==> x == a[0] || x in a[1..];
        assert x in b <==> x == b[0] || x in b[1..];
      }
      AscendingIsUnique(a[1..], b[1..]);
      assert a == [a[0]] + a[1..] && b == [b[0]] + b[1..];
    }
  }
}
