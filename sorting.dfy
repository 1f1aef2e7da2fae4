/** A stable sort, the reference for Python's `sorted` and `list.sort`
    (both are stable), as insertion sort over a total preorder `le`, and
    the lexicographic order Python uses on strings. */
module Sorting {

  /** `le` is a total preorder: any two elements compare, and it is transitive. */
  ghost predicate TotalPreorder<T(!new)>(le: (T, T) -> bool) {
    (forall a, b :: le(a, b) || le(b, a))
    && (forall a, b, c :: le(a, b) && le(b, c) ==> le(a, c))
  }

  predicate Sorted<T>(xs: seq<T>, le: (T, T) -> bool) {
    forall i, j :: 0 <= i < j < |xs| ==> le(xs[i], xs[j])
  }

  /** `x` inserted into `s` after every element that is not greater than it. */
  function Insert<T>(x: T, s: seq<T>, le: (T, T) -> bool): (r: seq<T>)
    ensures |r| == |s| + 1
    ensures multiset(r) == multiset(s) + multiset{x}
  {
    if s == [] || le(s[|s| - 1], x) then s + [x]
    else
      assert s == s[..|s| - 1] + [s[|s| - 1]];
      Insert(x, s[..|s| - 1], le) + [s[|s| - 1]]
  }

  /** Insertion sort: each element in turn is inserted into the sorted prefix. */
  function SortBy<T>(xs: seq<T>, le: (T, T) -> bool): (r: seq<T>)
    ensures |r| == |xs|
    ensures multiset(r) == multiset(xs)
  {
    if xs == [] then []
    else
      assert xs == xs[..|xs| - 1] + [xs[|xs| - 1]];
      Insert(xs[|xs| - 1], SortBy(xs[..|xs| - 1], le), le)
  }

  lemma {:induction false} InsertSorted<T(!new)>(x: T, s: seq<T>, le: (T, T) -> bool)
    requires TotalPreorder(le) && Sorted(s, le)
    ensures Sorted(Insert(x, s, le), le)
  {
    if s != [] && !le(s[|s| - 1], x) {
      var init, last := s[..|s| - 1], s[|s| - 1];
      assert Sorted(init, le) by {
        forall i, j | 0 <= i < j < |init| ensures le(init[i], init[j]) {
          assert init[i] == s[i] && init[j] == s[j];
        }
      }
      InsertSorted(x, init, le);
      var r := Insert(x, init, le);
      assert Insert(x, s, le) == r + [last];
      forall e | e in multiset(r)
        ensures le(e, last)
      {
        assert e in multiset(init) + multiset{x};
        if e != x {
          var k :| 0 <= k < |init| && init[k] == e;
          assert s[k] == e;
        }
      }
      var r' := r + [last];
      forall i, j | 0 <= i < j < |r'|
        ensures le(r'[i], r'[j])
      {
        assert r'[i] == r[i];
        if j == |r| {
          assert r[i] in multiset(r);
        } else {
          assert r'[j] == r[j];
        }
      }
    }
  }

  /** The result is ordered by `le`. */
  lemma {:induction false} SortBySorted<T(!new)>(xs: seq<T>, le: (T, T) -> bool)
    requires TotalPreorder(le)
    ensures Sorted(SortBy(xs, le), le)
  {
    if xs != [] {
      SortBySorted(xs[..|xs| - 1], le);
      InsertSorted(xs[|xs| - 1], SortBy(xs[..|xs| - 1], le), le);
    }
  }

  predicate Equivalent<T>(le: (T, T) -> bool, a: T, b: T) {
    le(a, b) && le(b, a)
  }

  function Tie<T>(le: (T, T) -> bool, a: T, e: T): seq<T> {
    if Equivalent(le, e, a) then [e] else []
  }

  /** The elements of `xs` that `le` cannot tell apart from `a`, in order. */
  function Ties<T>(xs: seq<T>, le: (T, T) -> bool, a: T): (r: seq<T>)
    ensures |r| <= |xs|
  {
    if xs == [] then []
    else Ties(xs[..|xs| - 1], le, a) + Tie(le, a, xs[|xs| - 1])
  }

  lemma TiesSnoc<T>(xs: seq<T>, e: T, le: (T, T) -> bool, a: T)
    ensures Ties(xs + [e], le, a) == Ties(xs, le, a) + Tie(le, a, e)
  {
    assert (xs + [e])[..|xs|] == xs;
  }

  lemma {:induction false} InsertStable<T(!new)>(x: T, s: seq<T>, le: (T, T) -> bool, a: T)
    requires TotalPreorder(le) && Sorted(s, le)
    ensures Ties(Insert(x, s, le), le, a) == Ties(s + [x], le, a)
  {
    if s != [] && !le(s[|s| - 1], x) {
      var init, last := s[..|s| - 1], s[|s| - 1];
      assert s == init + [last];
      assert Sorted(init, le) by {
        forall i, j | 0 <= i < j < |init| ensures le(init[i], init[j]) {
          assert init[i] == s[i] && init[j] == s[j];
        }
      }
      assert Insert(x, s, le) == Insert(x, init, le) + [last];
      var tx, tl := Tie(le, a, x), Tie(le, a, last);
      assert tx + tl == tl + tx by {
        assert !(Equivalent(le, x, a) && Equivalent(le, last, a)) by {
          assert le(last, a) && le(a, x) ==> le(last, x);
        }
      }
      calc {
        Ties(Insert(x, s, le), le, a);
        { TiesSnoc(Insert(x, init, le), last, le, a); }
        Ties(Insert(x, init, le), le, a) + tl;
        { InsertStable(x, init, le, a); TiesSnoc(init, x, le, a); }
        Ties(init, le, a) + tx + tl;
        Ties(init, le, a) + (tl + tx);
        { TiesSnoc(init, last, le, a); }
        Ties(s, le, a) + tx;
        { TiesSnoc(s, x, le, a); }
        Ties(s + [x], le, a);
      }
    }
  }

  /** Stability: elements that compare equal keep their relative order. */
  lemma {:induction false} SortByStable<T(!new)>(xs: seq<T>, le: (T, T) -> bool, a: T)
    requires TotalPreorder(le)
    ensures Ties(SortBy(xs, le), le, a) == Ties(xs, le, a)
  {
    if xs != [] {
      var init, last := xs[..|xs| - 1], xs[|xs| - 1];
      SortByStable(init, le, a);
      SortBySorted(init, le);
      InsertStable(last, SortBy(init, le), le, a);
      TiesSnoc(SortBy(init, le), last, le, a);
    }
  }

  /** Sorting an already sorted list leaves it unchanged. */
  lemma {:induction false} SortBySortedNoop<T>(xs: seq<T>, le: (T, T) -> bool)
    requires Sorted(xs, le)
    ensures SortBy(xs, le) == xs
  {
    if xs != [] {
      var init, last := xs[..|xs| - 1], xs[|xs| - 1];
      assert Sorted(init, le) by {
        forall i, j | 0 <= i < j < |init| ensures le(init[i], init[j]) {
          assert init[i] == xs[i] && init[j] == xs[j];
        }
      }
      SortBySortedNoop(init, le);
      assert init == [] || le(init[|init| - 1], last) by {
        if init != [] {
          assert init[|init| - 1] == xs[|xs| - 2];
        }
      }
      assert Insert(last, init, le) == init + [last];
      assert xs == init + [last];
    }
  }

  // ---------------------------------------------------------------- strings

  /** Python's `a <= b` on strings: lexicographic by code point. */
  predicate LexLe(a: string, b: string) {
    a == [] || (b != [] && (a[0] < b[0] || (a[0] == b[0] && LexLe(a[1..], b[1..]))))
  }

  lemma {:induction false} LexLeTotal(a: string, b: string)
    ensures LexLe(a, b) || LexLe(b, a)
  {
    if a != [] && b != [] && a[0] == b[0] {
      LexLeTotal(a[1..], b[1..]);
    }
  }

  lemma {:induction false} LexLeTransitive(a: string, b: string, c: string)
    requires LexLe(a, b) && LexLe(b, c)
    ensures LexLe(a, c)
  {
    if a != [] && b != [] && c != [] && a[0] == b[0] == c[0] {
      LexLeTransitive(a[1..], b[1..], c[1..]);
    }
  }

  lemma {:induction false} LexLeAntisymmetric(a: string, b: string)
    requires LexLe(a, b) && LexLe(b, a)
    ensures a == b
  {
    if a != [] && b != [] {
      LexLeAntisymmetric(a[1..], b[1..]);
      assert a == [a[0]] + a[1..] && b == [b[0]] + b[1..];
    }
  }

  /** Lexicographic order is a total preorder (indeed a total order). */
  lemma LexLeTotalPreorder()
    ensures TotalPreorder(LexLe)
  {
    forall a, b ensures LexLe(a, b) || LexLe(b, a) {
      LexLeTotal(a, b);
    }
    forall a, b, c | LexLe(a, b) && LexLe(b, c) ensures LexLe(a, c) {
      LexLeTransitive(a, b, c);
    }
  }
}
