/** Stable sorting by a strict order, as the library sort the code calls delivers it. */
module Sorting {

  /** Puts x after every element it is not less than. */
  function Insert<T>(less: (T, T) -> bool, x: T, s: seq<T>): seq<T> {
    if s == [] then [x]
    else if less(x, s[0]) then [x] + s
    else [s[0]] + Insert(less, x, s[1..])
  }

  function Sort<T>(less: (T, T) -> bool, s: seq<T>): seq<T> {
    if s == [] then [] else Insert(less, s[|s| - 1], Sort(less, s[..|s| - 1]))
  }

  ghost predicate Sorted<T>(less: (T, T) -> bool, s: seq<T>) {
    forall i, j :: 0 <= i < j < |s| ==> !less(s[j], s[i])
  }

  ghost predicate StrictOrder<T(!new)>(less: (T, T) -> bool) {
    && (forall a, b :: less(a, b) ==> !less(b, a))
    && (forall a, b, c :: less(a, b) && less(b, c) ==> less(a, c))
    && (forall a, b, c {:trigger less(a, c), less(b, c)} :: less(a, c) ==> less(a, b) || less(b, c))
  }

  /** No two elements of the collection tie. */
  ghost predicate TieFree<T(!new)>(less: (T, T) -> bool, m: multiset<T>) {
    && (forall a :: m[a] <= 1)
    && forall a, b :: a in m && b in m && a != b ==> less(a, b) || less(b, a)
  }

  lemma {:induction false} InsertSorted<T(!new)>(less: (T, T) -> bool, x: T, s: seq<T>)
    requires StrictOrder(less) && Sorted(less, s)
    ensures multiset(Insert(less, x, s)) == multiset(s) + multiset{x}
    ensures Sorted(less, Insert(less, x, s))
  {
    if s != [] {
      assert s == [s[0]] + s[1..];
      if less(x, s[0]) {
        forall j | 0 < j < |s|
          ensures !less(s[j], x)
        {
          assert !less(s[j], s[0]);
        }
      } else {
        InsertSorted(less, x, s[1..]);
        var t := Insert(less, x, s[1..]);
        forall j | 0 <= j < |t|
          ensures !less(t[j], s[0])
        {
          assert t[j] in multiset(t);
        }
      }
    }
  }

  lemma {:induction false} SortSorts<T(!new)>(less: (T, T) -> bool, s: seq<T>)
    requires StrictOrder(less)
    ensures multiset(Sort(less, s)) == multiset(s)
    ensures Sorted(less, Sort(less, s))
  {
    if s != [] {
      var t := s[..|s| - 1];
      SortSorts(less, t);
      InsertSorted(less, s[|s| - 1], Sort(less, t));
      assert s == t + [s[|s| - 1]];
    }
  }

  lemma RepeatedCount<T>(s: seq<T>, i: nat, j: nat)
    requires i < j < |s| && s[i] == s[j]
    ensures multiset(s)[s[i]] > 1
  {
    assert s == s[..j] + s[j..];
    assert s[..j][i] == s[i] && s[j..][0] == s[i];
    assert s[i] in multiset(s[..j]) && s[i] in multiset(s[j..]);
  }

  /** A sorted arrangement without ties is strictly increasing. */
  lemma SortStrict<T(!new)>(less: (T, T) -> bool, s: seq<T>)
    requires StrictOrder(less) && TieFree(less, multiset(s))
    ensures var t := Sort(less, s);
            multiset(t) == multiset(s) && forall i, j :: 0 <= i < j < |t| ==> less(t[i], t[j])
  {
    SortSorts(less, s);
    var t := Sort(less, s);
    forall i, j | 0 <= i < j < |t|
      ensures less(t[i], t[j])
    {
      if t[i] == t[j] {
        RepeatedCount(t, i, j);
        assert false;
      }
      assert t[i] in multiset(t) && t[j] in multiset(t);
    }
  }
}
