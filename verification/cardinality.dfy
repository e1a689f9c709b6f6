/** Sizes of images and of sets listed by a sequence. */
module Cardinality {

  ghost function Image<A(!new), B>(s: set<A>, f: A -> B): set<B> {
    set x | x in s :: f(x)
  }

  lemma {:induction false} InjectiveImage<A(!new), B>(s: set<A>, f: A -> B)
    requires forall x, y :: x in s && y in s && f(x) == f(y) ==> x == y
    ensures |Image(s, f)| == |s|
  {
    if s != {} {
      var a :| a in s;
      var rest := s - {a};
      InjectiveImage(rest, f);
      assert Image(s, f) == Image(rest, f) + {f(a)};
    }
  }

  ghost function Elems<A>(p: seq<A>): set<A> {
    set x | x in p
  }

  lemma {:induction false} ListedSet<A>(p: seq<A>)
    requires forall i, j :: 0 <= i < j < |p| ==> p[i] != p[j]
    ensures |Elems(p)| == |p|
  {
    if p != [] {
      var q := p[..|p| - 1];
      ListedSet(q);
      assert Elems(p) == Elems(q) + {p[|p| - 1]};
    }
  }

  lemma {:induction false} SubsetSize<A>(s: set<A>, t: set<A>)
    requires s <= t
    ensures |s| <= |t|
  {
    if s != {} {
      var a :| a in s;
      SubsetSize(s - {a}, t - {a});
    }
  }

  lemma {:induction false} SeqSetSize<A>(p: seq<A>)
    ensures |Elems(p)| <= |p|
  {
    if p != [] {
      var q, last := p[..|p| - 1], p[|p| - 1];
      SeqSetSize(q);
      var s := Elems(q);
      assert Elems(p) == s + {last};
      if last in s {
        assert s + {last} == s;
      }
    }
  }
}
