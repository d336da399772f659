/** Option and Result types, and order-preserving list operations used by every stage. */
module Prelude {
  datatype Option<+T> = None | Some(value: T) {
    function GetOr(default: T): T {
      if Some? then value else default
    }
  }

  datatype Result<+T, +E> = Ok(value: T) | Err(error: E)

  ghost predicate Distinct<T>(s: seq<T>) {
    forall i, j :: 0 <= i < j < |s| ==> s[i] != s[j]
  }

  lemma FirstTime<T>(s: seq<T>, i: nat)
    requires Distinct(s) && i < |s|
    ensures s[i] !in s[..i] && s[..i + 1] == s[..i] + [s[i]]
  {
  }

  /** `a` occurs at some position of `s` strictly before some position of `b`. */
  ghost predicate Before<T>(s: seq<T>, a: T, b: T) {
    exists i, j :: 0 <= i < j < |s| && s[i] == a && s[j] == b
  }

  lemma BeforeIn<T>(s: seq<T>, a: T, b: T)
    requires Before(s, a, b)
    ensures a in s && b in s
  {
  }

  lemma BeforeAcross<T>(s: seq<T>, t: seq<T>, a: T, b: T)
    requires a in s && b in t
    ensures Before(s + t, a, b)
  {
    var i :| 0 <= i < |s| && s[i] == a;
    var j :| 0 <= j < |t| && t[j] == b;
    assert (s + t)[i] == a && (s + t)[|s| + j] == b;
  }

  /** Order is kept in a longer list. */
  lemma BeforeWithin<T>(s: seq<T>, t: seq<T>, u: seq<T>, a: T, b: T)
    requires Before(t, a, b)
    ensures Before(s + t + u, a, b)
  {
    var i, j :| 0 <= i < j < |t| && t[i] == a && t[j] == b;
    assert (s + t + u)[|s| + i] == a && (s + t + u)[|s| + j] == b;
  }

  lemma DistinctCons<T>(x: T, s: seq<T>)
    requires Distinct(s) && x !in s
    ensures Distinct([x] + s)
  {
  }

  lemma DistinctAppend<T(!new)>(s: seq<T>, t: seq<T>)
    requires Distinct(s) && Distinct(t) && forall x :: x in t ==> x !in s
    ensures Distinct(s + t)
  {
    forall i, j | 0 <= i < j < |s + t|
      ensures (s + t)[i] != (s + t)[j]
    {
      if i < |s| <= j {
        assert t[j - |s|] in t;
      }
    }
  }

  lemma SameEmpty<T(!new)>(a: seq<T>, b: seq<T>)
    requires forall x :: x in a <==> x in b
    ensures a == [] <==> b == []
  {
    if a != [] {
      assert a[0] in b;
    }
    if b != [] {
      assert b[0] in a;
    }
  }

  function Filter<T(!new)>(s: seq<T>, keep: T -> bool): (r: seq<T>)
    ensures forall x :: x in r <==> x in s && keep(x)
  {
    if s == [] then []
    else (if keep(s[0]) then [s[0]] else []) + Filter(s[1..], keep)
  }

  lemma FilterHead<T(!new)>(s: seq<T>, keep: T -> bool)
    ensures s == [] ==> Filter(s, keep) == []
    ensures s != [] ==> Filter(s, keep) == (if keep(s[0]) then [s[0]] else []) + Filter(s[1..], keep)
  {
  }

  lemma {:induction false} FilterAppend<T(!new)>(s: seq<T>, t: seq<T>, keep: T -> bool)
    ensures Filter(s + t, keep) == Filter(s, keep) + Filter(t, keep)
  {
    hide Filter;
    FilterHead(s, keep);
    FilterHead(s + t, keep);
    if s == [] {
      assert s + t == t;
    } else {
      FilterAppend(s[1..], t, keep);
      assert (s + t)[0] == s[0] && (s + t)[1..] == s[1..] + t;
    }
  }

  lemma {:induction false} FilterSame<T(!new)>(s: seq<T>, p: T -> bool, q: T -> bool)
    requires forall x :: x in s ==> p(x) == q(x)
    ensures Filter(s, p) == Filter(s, q)
  {
    if s != [] {
      FilterSame(s[1..], p, q);
    }
  }

  lemma {:induction false} FilterNone<T(!new)>(s: seq<T>, keep: T -> bool)
    requires forall x :: x in s ==> !keep(x)
    ensures Filter(s, keep) == []
  {
    if s != [] {
      FilterNone(s[1..], keep);
    }
  }

  lemma {:induction false} FilterDistinct<T(!new)>(s: seq<T>, keep: T -> bool)
    requires Distinct(s)
    ensures Distinct(Filter(s, keep))
  {
    if s != [] {
      assert s[0] !in s[1..];
      FilterDistinct(s[1..], keep);
    }
  }

  /** Filtering never changes the relative order of what it keeps. */
  lemma {:induction false} FilterBefore<T(!new)>(s: seq<T>, keep: T -> bool, a: T, b: T)
    requires Before(s, a, b) && keep(a) && keep(b)
    ensures Before(Filter(s, keep), a, b)
  {
    hide Filter;
    var i, j :| 0 <= i < j < |s| && s[i] == a && s[j] == b;
    var head, tail := s[..i + 1], s[i + 1..];
    assert head[i] == a && tail[j - i - 1] == b;
    hide Before;
    FilterAppend(head, tail, keep);
    BeforeAcross(Filter(head, keep), Filter(tail, keep), a, b);
    assert s == head + tail;
  }

  lemma BeforeIsStrict<T>(s: seq<T>, a: T, b: T)
    requires Distinct(s) && Before(s, a, b)
    ensures a != b && !Before(s, b, a)
  {
  }

  lemma BeforeTransitive<T>(s: seq<T>, a: T, b: T, c: T)
    requires Distinct(s) && Before(s, a, b) && Before(s, b, c)
    ensures Before(s, a, c)
  {
  }

  /** What is kept is listed in its original order. */
  lemma {:induction false} FilterOrdered<T(!new)>(s: seq<T>, keep: T -> bool)
    ensures forall i, j :: 0 <= i < j < |Filter(s, keep)| ==> Before(s, Filter(s, keep)[i], Filter(s, keep)[j])
  {
    if s != [] {
      var rest := s[1..];
      FilterOrdered(rest, keep);
      var kept := Filter(s, keep);
      forall i, j | 0 <= i < j < |kept|
        ensures Before(s, kept[i], kept[j])
      {
        var shift := if keep(s[0]) then 1 else 0;
        assert kept[j] == Filter(rest, keep)[j - shift];
        assert kept[j] in rest;
        assert [s[0]] + rest == s;
        if i < shift {
          assert s[0] in [s[0]];
          BeforeAcross([s[0]], rest, kept[i], kept[j]);
        } else {
          assert kept[i] == Filter(rest, keep)[i - shift];
          BeforeWithin([s[0]], rest, [], kept[i], kept[j]);
          assert [s[0]] + rest + [] == s;
        }
      }
    }
  }

  function Reverse<T>(s: seq<T>): (r: seq<T>)
    ensures |r| == |s| && forall i :: 0 <= i < |s| ==> r[i] == s[|s| - 1 - i]
  {
    seq(|s|, i requires 0 <= i < |s| => s[|s| - 1 - i])
  }

  lemma ReverseBefore<T>(s: seq<T>, a: T, b: T)
    requires Before(s, a, b)
    ensures Before(Reverse(s), b, a)
  {
    var i, j :| 0 <= i < j < |s| && s[i] == a && s[j] == b;
    assert Reverse(s)[|s| - 1 - j] == b && Reverse(s)[|s| - 1 - i] == a;
  }

  lemma {:induction false} NotLarger<T>(a: set<T>, b: set<T>)
    requires a <= b
    ensures |a| <= |b|
  {
    if x :| x in a {
      NotLarger(a - {x}, b - {x});
    }
  }

  lemma Smaller<T>(a: set<T>, b: set<T>)
    requires a < b
    ensures |a| < |b|
  {
    var x :| x in b && x !in a;
    NotLarger(a, b - {x});
  }
}
