/** The standard library's stable sort, and when its result depends only on the elements. */
module Sorting {
  /** A comparator that never contradicts itself; elements may compare equal. */
  ghost predicate WeakOrder<T(!new)>(before: (T, T) -> bool) {
    && (forall x, y :: before(x, y) ==> !before(y, x))
    && (forall x, y, z :: before(x, z) ==> before(x, y) || before(y, z))
  }

  ghost predicate Sorted<T>(before: (T, T) -> bool, s: seq<T>) {
    forall i, j :: 0 <= i < j < |s| ==> !before(s[j], s[i])
  }

  function Insert<T>(before: (T, T) -> bool, e: T, s: seq<T>): seq<T> {
    if s != [] && before(s[0], e) then [s[0]] + Insert(before, e, s[1..]) else [e] + s
  }

  function Sort<T>(before: (T, T) -> bool, s: seq<T>): (sorted: seq<T>)
    ensures |sorted| == |s| && multiset(sorted) == multiset(s)
  {
    if s == [] then []
    else
      InsertKeepsElements(before, s[0], Sort(before, s[1..]));
      assert s == [s[0]] + s[1..];
      Insert(before, s[0], Sort(before, s[1..]))
  }

  lemma {:induction false} InsertKeepsElements<T>(before: (T, T) -> bool, e: T, s: seq<T>)
    ensures |Insert(before, e, s)| == |s| + 1
    ensures multiset(Insert(before, e, s)) == multiset{e} + multiset(s)
  {
    if s != [] && before(s[0], e) {
      InsertKeepsElements(before, e, s[1..]);
      assert s == [s[0]] + s[1..];
    }
  }

  lemma {:induction false} InsertIsSorted<T(!new)>(before: (T, T) -> bool, e: T, s: seq<T>)
    requires WeakOrder(before) && Sorted(before, s)
    ensures Sorted(before, Insert(before, e, s))
  {
    if s != [] && before(s[0], e) {
      var rest := Insert(before, e, s[1..]);
      InsertIsSorted(before, e, s[1..]);
      InsertKeepsElements(before, e, s[1..]);
      forall x | x in rest ensures !before(x, s[0]) {
        assert x in multiset(rest);
        assert x == e || x in s[1..];
      }
    } else if s != [] {
      forall j | 0 <= j < |s| ensures !before(s[j], e) {
        assert j == 0 || !before(s[j], s[0]);
      }
    }
  }

  lemma {:induction false} SortIsSorted<T(!new)>(before: (T, T) -> bool, s: seq<T>)
    requires WeakOrder(before)
    ensures Sorted(before, Sort(before, s))
  {
    if s != [] {
      SortIsSorted(before, s[1..]);
      InsertIsSorted(before, s[0], Sort(before, s[1..]));
    }
  }

  /** No two places hold elements that compare equal. */
  ghost predicate Separated<T>(before: (T, T) -> bool, s: seq<T>) {
    forall i, j :: 0 <= i < j < |s| ==> before(s[i], s[j]) || before(s[j], s[i])
  }

  lemma SameHead<T(!new)>(before: (T, T) -> bool, s: seq<T>, t: seq<T>)
    requires WeakOrder(before) && Sorted(before, s) && Sorted(before, t) && Separated(before, t)
    requires s != [] && t != [] && s[0] in t && t[0] in s
    ensures s[0] == t[0]
  {
    var i: nat :| i < |t| && t[i] == s[0];
    var j: nat :| j < |s| && s[j] == t[0];
  }

  lemma TailElements<T>(s: seq<T>)
    requires s != []
    ensures multiset(s[1..]) == multiset(s) - multiset{s[0]}
  {
    assert s == [s[0]] + s[1..];
  }

  /** Among elements that never compare equal there is only one sorted arrangement. */
  lemma {:induction false} SortedIsUnique<T(!new)>(before: (T, T) -> bool, s: seq<T>, t: seq<T>)
    requires WeakOrder(before) && Sorted(before, s) && Sorted(before, t)
    requires Separated(before, s) && Separated(before, t)
    requires multiset(s) == multiset(t)
    ensures s == t
  {
    assert |multiset(s)| == |s| && |multiset(t)| == |t|;
    if s != [] {
      assert s[0] in multiset(t) && t[0] in multiset(s);
      SameHead(before, s, t);
      var u, v := s[1..], t[1..];
      TailElements(s);
      TailElements(t);
      SortedIsUnique(before, u, v);
    }
  }

  function Filter<T>(keep: T -> bool, s: seq<T>): seq<T> {
    if s == [] then [] else (if keep(s[0]) then [s[0]] else []) + Filter(keep, s[1..])
  }

  lemma {:induction false} FilterAppend<T>(keep: T -> bool, s: seq<T>, e: T)
    ensures Filter(keep, s + [e]) == Filter(keep, s) + if keep(e) then [e] else []
  {
    if s != [] {
      FilterAppend(keep, s[1..], e);
      assert (s + [e])[1..] == s[1..] + [e];
    }
  }

  lemma {:induction false} FilterElements<T>(keep: T -> bool, s: seq<T>, e: T)
    ensures multiset(Filter(keep, s))[e] == if keep(e) then multiset(s)[e] else 0
  {
    if s != [] {
      FilterElements(keep, s[1..], e);
      assert s == [s[0]] + s[1..];
    }
  }

  lemma FilterOfSame<T(!new)>(keep: T -> bool, s: seq<T>, t: seq<T>)
    requires multiset(s) == multiset(t)
    ensures multiset(Filter(keep, s)) == multiset(Filter(keep, t))
  {
    var a, b := multiset(Filter(keep, s)), multiset(Filter(keep, t));
    forall e ensures a[e] == b[e] {
      FilterElements(keep, s, e);
      FilterElements(keep, t, e);
    }
    assert a == b;
  }

  /** Filtering keeps every pair of elements in the order they had. */
  lemma {:induction false} FilterKeepsSorted<T(!new)>(before: (T, T) -> bool, keep: T -> bool, s: seq<T>)
    requires Sorted(before, s)
    ensures Sorted(before, Filter(keep, s))
    ensures forall e :: e in Filter(keep, s) <==> e in s && keep(e)
  {
    if s != [] {
      FilterKeepsSorted(before, keep, s[1..]);
      assert s == [s[0]] + s[1..];
      forall e | e in s[1..] ensures !before(e, s[0]) {
      }
    }
  }

  lemma {:induction false} FilterKeepsSeparated<T(!new)>(before: (T, T) -> bool, keep: T -> bool, s: seq<T>)
    requires Separated(before, s)
    ensures Separated(before, Filter(keep, s))
    ensures forall e :: e in Filter(keep, s) <==> e in s && keep(e)
  {
    if s != [] {
      FilterKeepsSeparated(before, keep, s[1..]);
      assert s == [s[0]] + s[1..];
      forall e | e in s[1..] ensures before(e, s[0]) || before(s[0], e) {
      }
    }
  }

  lemma SeparatedPermutation<T(!new)>(before: (T, T) -> bool, s: seq<T>, t: seq<T>)
    requires WeakOrder(before) && Separated(before, s) && multiset(s) == multiset(t)
    ensures Separated(before, t)
  {
    forall i, j | 0 <= i < j < |t| ensures before(t[i], t[j]) || before(t[j], t[i]) {
      if t[i] == t[j] {
        TwiceInMultiset(t, i, j);
        OnceWhenSeparated(before, s, t[i]);
      } else {
        assert t[i] in multiset(s) && t[j] in multiset(s);
      }
    }
  }

  lemma TwiceInMultiset<T>(t: seq<T>, i: nat, j: nat)
    requires i < j < |t| && t[i] == t[j]
    ensures multiset(t)[t[i]] >= 2
  {
    assert t == t[..i] + [t[i]] + t[i + 1..j] + [t[j]] + t[j + 1..];
  }

  lemma {:induction false} OnceWhenSeparated<T(!new)>(before: (T, T) -> bool, s: seq<T>, e: T)
    requires WeakOrder(before) && Separated(before, s)
    ensures multiset(s)[e] <= 1
  {
    if s != [] {
      OnceWhenSeparated(before, s[1..], e);
      assert s == [s[0]] + s[1..];
    }
  }

  /** Sorting a separated list gives the same whatever order it came in. */
  lemma SortIgnoresOrder<T(!new)>(before: (T, T) -> bool, s: seq<T>, t: seq<T>)
    requires WeakOrder(before) && Separated(before, s) && multiset(s) == multiset(t)
    ensures Sort(before, s) == Sort(before, t)
  {
    SortIsSorted(before, s);
    SortIsSorted(before, t);
    SeparatedPermutation(before, s, Sort(before, s));
    SeparatedPermutation(before, s, Sort(before, t));
    SortedIsUnique(before, Sort(before, s), Sort(before, t));
  }

  /** Sorting and filtering commute. */
  lemma SortCommutesWithFilter<T(!new)>(before: (T, T) -> bool, keep: T -> bool, s: seq<T>)
    requires WeakOrder(before) && Separated(before, s)
    ensures Sort(before, Filter(keep, s)) == Filter(keep, Sort(before, s))
  {
    SortIsSorted(before, s);
    SortIsSorted(before, Filter(keep, s));
    FilterKeepsSorted(before, keep, Sort(before, s));
    FilterKeepsSeparated(before, keep, s);
    FilterOfSame(keep, s, Sort(before, s));
    SeparatedPermutation(before, Filter(keep, s), Filter(keep, Sort(before, s)));
    SeparatedPermutation(before, Filter(keep, s), Sort(before, Filter(keep, s)));
    SortedIsUnique(before, Sort(before, Filter(keep, s)), Filter(keep, Sort(before, s)));
  }
}
