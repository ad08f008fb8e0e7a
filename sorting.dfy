/**
 * Orderings and sorting. The source sorts with `Array.prototype.sort` (a
 * stable sort) and asks the database for sorted results; both are modelled
 * by one stable insertion sort over a total preorder. Strings are compared
 * as JavaScript's `<` compares them: character by character.
 */
module Sorting {
  import opened Common

  /** JavaScript `a < b` on strings. */
  predicate StrLt(a: string, b: string) {
    b != [] && (a == [] || a[0] < b[0] || (a[0] == b[0] && StrLt(a[1..], b[1..])))
  }

  /** `a <= b` on strings. */
  predicate StrLe(a: string, b: string) {
    a == b || StrLt(a, b)
  }

  lemma {:induction false} StrLtIrreflexive(a: string)
    ensures !StrLt(a, a)
  {
    if a != [] {
      StrLtIrreflexive(a[1..]);
    }
  }

  lemma {:induction false} StrLtTransitive(a: string, b: string, c: string)
    requires StrLt(a, b) && StrLt(b, c)
    ensures StrLt(a, c)
  {
    if a != [] && a[0] == b[0] && b[0] == c[0] {
      StrLtTransitive(a[1..], b[1..], c[1..]);
    }
  }

  lemma {:induction false} StrLtTrichotomy(a: string, b: string)
    ensures a == b || StrLt(a, b) || StrLt(b, a)
  {
    if a != [] && b != [] && a[0] == b[0] {
      StrLtTrichotomy(a[1..], b[1..]);
      if a[1..] == b[1..] {
        assert a == [a[0]] + a[1..] && b == [b[0]] + b[1..];
      }
    }
  }

  lemma StrLtAsymmetric(a: string, b: string)
    requires StrLt(a, b)
    ensures !StrLt(b, a)
  {
    if StrLt(b, a) {
      StrLtTransitive(a, b, a);
      StrLtIrreflexive(a);
    }
  }

  /** Comparing two concatenations whose first parts have the same length:
      the first parts decide unless they are equal. */
  lemma {:induction false} StrLtConcat(p: string, q: string, x: string, y: string)
    requires |p| == |q|
    ensures StrLt(p + x, q + y) <==> StrLt(p, q) || (p == q && StrLt(x, y))
  {
    if p == [] {
      assert p + x == x && q + y == y;
    } else {
      assert (p + x)[0] == p[0] && (q + y)[0] == q[0];
      assert (p + x)[1..] == p[1..] + x && (q + y)[1..] == q[1..] + y;
      StrLtConcat(p[1..], q[1..], x, y);
      assert p == q <==> p[0] == q[0] && p[1..] == q[1..] by {
        assert p == [p[0]] + p[1..] && q == [q[0]] + q[1..];
      }
    }
  }

  /** A relation that can order any two values, transitively. */
  ghost predicate TotalPreorder<T(!new)>(le: (T, T) -> bool) {
    && (forall a, b :: le(a, b) || le(b, a))
    && (forall a, b, c :: le(a, b) && le(b, c) ==> le(a, c))
  }

  predicate SortedBy<T>(s: seq<T>, le: (T, T) -> bool) {
    forall i, j :: 0 <= i < j < |s| ==> le(s[i], s[j])
  }

  /** String order is a total preorder. */
  lemma StrLeTotalPreorder()
    ensures TotalPreorder(StrLe)
  {
    forall a, b ensures StrLe(a, b) || StrLe(b, a) {
      StrLtTrichotomy(a, b);
    }
    forall a, b, c | StrLe(a, b) && StrLe(b, c) ensures StrLe(a, c) {
      if a != b && b != c {
        StrLtTransitive(a, b, c);
      }
    }
  }

  /** Inserts x into the sorted s after every element not greater than x,
      so that of two equal elements the one inserted earlier comes first. */
  function InsertSorted<T(!new)>(s: seq<T>, x: T, le: (T, T) -> bool): (r: seq<T>)
    requires TotalPreorder(le)
    ensures multiset(r) == multiset(s) + multiset{x}
    ensures |r| == |s| + 1
    ensures SortedBy(s, le) ==> SortedBy(r, le)
  {
    if s == [] then [x]
    else if le(s[0], x) then
      var rest := InsertSorted(s[1..], x, le);
      assert s == [s[0]] + s[1..];
      assert SortedBy(s, le) ==> SortedBy([s[0]] + rest, le) by {
        if SortedBy(s, le) {
          ConsSorted(s, x, rest, le);
        }
      }
      [s[0]] + rest
    else
      assert SortedBy(s, le) ==> SortedBy([x] + s, le) by {
        if SortedBy(s, le) {
          PrependSorted(s, x, le);
        }
      }
      [x] + s
  }

  /** Putting the head of a sorted sequence in front of its tail with x
      inserted keeps it sorted, when the head is not greater than x. */
  lemma ConsSorted<T(!new)>(s: seq<T>, x: T, rest: seq<T>, le: (T, T) -> bool)
    requires s != [] && SortedBy(s, le) && le(s[0], x)
    requires multiset(rest) == multiset(s[1..]) + multiset{x} && SortedBy(rest, le)
    ensures SortedBy([s[0]] + rest, le)
  {
    forall k | 0 <= k < |rest| ensures le(s[0], rest[k]) {
      assert rest[k] in multiset(rest);
      if rest[k] != x {
        assert rest[k] in multiset(s[1..]);
        var m :| 1 <= m < |s| && s[m] == rest[k];
      }
    }
  }

  /** An element smaller than the head of a sorted sequence can go in front. */
  lemma PrependSorted<T(!new)>(s: seq<T>, x: T, le: (T, T) -> bool)
    requires TotalPreorder(le)
    requires s != [] && SortedBy(s, le) && !le(s[0], x)
    ensures SortedBy([x] + s, le)
  {
    assert le(x, s[0]);
    forall k | 0 <= k < |s| ensures le(x, s[k]) {
      if k > 0 {
        assert le(s[0], s[k]);
      }
    }
  }

  /** Stable insertion sort. */
  function SortBy<T(!new)>(s: seq<T>, le: (T, T) -> bool): (r: seq<T>)
    requires TotalPreorder(le)
    ensures multiset(r) == multiset(s)
    ensures |r| == |s|
    ensures SortedBy(r, le)
  {
    if s == [] then []
    else
      assert s == s[..|s| - 1] + [s[|s| - 1]];
      InsertSorted(SortBy(s[..|s| - 1], le), s[|s| - 1], le)
  }

  /** The elements the preorder cannot tell apart from x. */
  function Ties<T>(le: (T, T) -> bool, x: T): T -> bool {
    (y: T) => le(x, y) && le(y, x)
  }

  /** Inserting x puts it after every element tied with it, so among the
      elements of one tie class the order is the order of insertion. */
  lemma {:induction false} InsertSortedStable<T(!new)>(t: seq<T>, x: T, le: (T, T) -> bool, c: T)
    requires TotalPreorder(le) && SortedBy(t, le)
    ensures Filter(InsertSorted(t, x, le), Ties(le, c)) == Filter(t, Ties(le, c)) + Filter([x], Ties(le, c))
  {
    var f := Ties(le, c);
    if t == [] {
      assert InsertSorted(t, x, le) == [x];
      assert Filter(t, f) == [];
    } else if le(t[0], x) {
      InsertSortedStable(t[1..], x, le, c);
      InsertPastHead(t, x, le, c);
    } else {
      assert InsertSorted(t, x, le) == [x] + t;
      FilterConcat([x], t, f);
      if f(x) {
        NoTiesAbove(t, x, le, c);
      } else {
        assert Filter([x], f) == [] by {
          assert [x][..0] == [];
        }
      }
    }
  }

  /** The step of `InsertSortedStable` where x goes past the head. */
  lemma InsertPastHead<T(!new)>(t: seq<T>, x: T, le: (T, T) -> bool, c: T)
    requires TotalPreorder(le) && t != [] && le(t[0], x)
    requires Filter(InsertSorted(t[1..], x, le), Ties(le, c)) == Filter(t[1..], Ties(le, c)) + Filter([x], Ties(le, c))
    ensures Filter(InsertSorted(t, x, le), Ties(le, c)) == Filter(t, Ties(le, c)) + Filter([x], Ties(le, c))
  {
    var f := Ties(le, c);
    var rest := InsertSorted(t[1..], x, le);
    var head, tail, added := Filter([t[0]], f), Filter(t[1..], f), Filter([x], f);
    calc {
      Filter(InsertSorted(t, x, le), f);
      Filter([t[0]] + rest, f);
      { FilterConcat([t[0]], rest, f); }
      head + (tail + added);
      { assert head + (tail + added) == (head + tail) + added; }
      (head + tail) + added;
      { FilterConcat([t[0]], t[1..], f); assert t == [t[0]] + t[1..]; }
      Filter(t, f) + added;
    }
  }

  /** No element of a sorted sequence whose head is above x is tied with x. */
  lemma NoTiesAbove<T(!new)>(t: seq<T>, x: T, le: (T, T) -> bool, c: T)
    requires TotalPreorder(le) && SortedBy(t, le)
    requires t != [] && !le(t[0], x) && Ties(le, c)(x)
    ensures Filter(t, Ties(le, c)) == []
  {
    var f := Ties(le, c);
    forall y | y in t ensures !f(y) {
      var k :| 0 <= k < |t| && t[k] == y;
      assert le(t[0], y) by {
        if k == 0 {
          assert le(y, y) || le(y, y);
        }
      }
      assert !le(y, x);
      assert !le(y, c);
    }
  }

  /** The sort is stable: the elements of each tie class come out in the
      order they went in. */
  lemma {:induction false} SortByStable<T(!new)>(s: seq<T>, le: (T, T) -> bool, c: T)
    requires TotalPreorder(le)
    ensures Filter(SortBy(s, le), Ties(le, c)) == Filter(s, Ties(le, c))
  {
    if s != [] {
      var f := Ties(le, c);
      var pre, last := s[..|s| - 1], s[|s| - 1];
      assert s == pre + [last];
      assert SortBy(s, le) == InsertSorted(SortBy(pre, le), last, le);
      SortByStable(pre, le, c);
      InsertSortedStable(SortBy(pre, le), last, le, c);
      FilterConcat(pre, [last], f);
    }
  }

  /** Sorting keeps exactly the elements it was given. */
  lemma SortByMembers<T(!new)>(s: seq<T>, le: (T, T) -> bool, x: T)
    requires TotalPreorder(le)
    ensures x in SortBy(s, le) <==> x in s
  {
    var r := SortBy(s, le);
    assert x in r <==> x in multiset(r);
    assert x in s <==> x in multiset(s);
  }

  /** Sorts strings ascending by `StrLe`. */
  function SortStrings(s: seq<string>): (r: seq<string>)
    ensures multiset(r) == multiset(s) && SortedBy(r, StrLe)
    ensures forall x :: x in r <==> x in s
  {
    StrLeTotalPreorder();
    var r := SortBy(s, StrLe);
    assert forall x :: x in r <==> x in s by {
      forall x ensures x in r <==> x in s {
        SortByMembers(s, StrLe, x);
      }
    }
    r
  }
}
