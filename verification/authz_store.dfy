/** The tuple store behind the authorization engine (internal/authz/store.go): a map keyed by a
    NUL-joined string, which behaves as a set of tuples. */
module AuthzStore {
  import opened Wrappers
  import opened AuthzModel
  import Strings

  const NUL: char := '\0'

  function Fields(t: Tuple): seq<string> {
    [t.objectType, t.objectID, t.relation, t.subjectType, t.subjectID, t.subjectRelation]
  }

  function TupleKey(t: Tuple): string {
    Strings.Join(Fields(t), NUL)
  }

  ghost predicate NulFree(t: Tuple) {
    forall f :: f in Fields(t) ==> NUL !in f
  }

  lemma TupleKeyInjective(t: Tuple, u: Tuple)
    requires NulFree(t) && NulFree(u) && TupleKey(t) == TupleKey(u)
    ensures t == u
  {
    Strings.SplitJoin(Fields(t), NUL);
    Strings.SplitJoin(Fields(u), NUL);
    assert forall i :: 0 <= i < 6 ==> Fields(t)[i] == Fields(u)[i];
  }

  /** The tuple with the given fields. */
  ghost function OfFields(fs: seq<string>): Tuple
    requires |fs| == 6
  {
    Tuple(fs[0], fs[1], fs[2], fs[3], fs[4], fs[5])
  }

  lemma {:induction false} MergeHead(x: string, y: string, rest: seq<string>)
    ensures Strings.Join([x + y] + rest, NUL) == x + Strings.Join([y] + rest, NUL)
  {
    assert ([x + y] + rest)[1..] == rest && ([y] + rest)[1..] == rest;
    if rest != [] {
      assert x + y + [NUL] + Strings.Join(rest, NUL) == x + (y + [NUL] + Strings.Join(rest, NUL));
    }
  }

  /** What follows a NUL in a field may as well start the next field. */
  lemma {:induction false} ShiftJoins(parts: seq<string>, i: nat, next: nat, a: string, b: string)
    requires next == i + 1 < |parts| && parts[i] == a + [NUL] + b
    ensures Strings.Join(parts[i := a][next := b + [NUL] + parts[next]], NUL) == Strings.Join(parts, NUL)
  {
    var shifted := parts[i := a][next := b + [NUL] + parts[next]];
    if i == 0 {
      var rest := parts[2..];
      assert parts[1..] == [parts[1]] + rest && shifted[1..] == [b + [NUL] + parts[1]] + rest;
      MergeHead(b + [NUL], parts[1], rest);
      var tail := Strings.Join(parts[1..], NUL);
      assert a + [NUL] + (b + [NUL] + tail) == a + [NUL] + b + [NUL] + tail;
    } else {
      ShiftJoins(parts[1..], i - 1, i, a, b);
      assert shifted[1..] == parts[1..][i - 1 := a][i := b + [NUL] + parts[next]];
    }
  }

  lemma {:induction false} CollidesAt(t: Tuple, i: nat) returns (u: Tuple)
    requires i < 6 && NUL in Fields(t)[i]
    ensures u != t && TupleKey(u) == TupleKey(t)
  {
    var fs := Fields(t);
    var p :| 0 <= p < |fs[i]| && fs[i][p] == NUL;
    var a, b := fs[i][..p], fs[i][p + 1..];
    assert fs[i] == a + [NUL] + b;
    if i < 5 {
      var gs := fs[i := a][i + 1 := b + [NUL] + fs[i + 1]];
      ShiftJoins(fs, i, i + 1, a, b);
      u := OfFields(gs);
      assert Fields(u) == gs && |Fields(u)[i]| < |fs[i]|;
    } else {
      var gs := fs[4 := fs[4] + [NUL] + a][5 := b];
      ShiftJoins(gs, 4, 5, fs[4], a);
      assert gs[4 := fs[4]][5 := a + [NUL] + b] == fs;
      u := OfFields(gs);
      assert Fields(u) == gs && |Fields(u)[5]| < |fs[5]|;
    }
  }

  /** Exactly the tuples with a NUL in a field share their key with another one, and a write of either then
      replaces the other. */
  lemma {:induction false} TupleKeyCollidesIff(t: Tuple)
    ensures (exists u :: u != t && TupleKey(u) == TupleKey(t)) <==> !NulFree(t)
  {
    if u :| u != t && TupleKey(u) == TupleKey(t) {
      if NulFree(t) {
        Strings.SplitJoin(Fields(t), NUL);
        Strings.PartsOfJoin(Fields(u), NUL);
        TupleKeyInjective(t, u);
      }
    }
    if !NulFree(t) {
      var i: nat :| i < 6 && NUL in Fields(t)[i];
      var u := CollidesAt(t, i);
    }
  }

  class Store {
    var tuples: map<string, Tuple>
    var reliable: bool // the in-memory store always answers; a database read may fail

    ghost predicate Valid()
      reads this
    {
      forall k :: k in tuples ==> TupleKey(tuples[k]) == k
    }

    ghost function Contents(): set<Tuple>
      reads this
    {
      tuples.Values
    }

    constructor (reliable: bool)
      ensures Valid() && Contents() == {} && this.reliable == reliable
    {
      tuples := map[];
      this.reliable := reliable;
    }

    method Write(t: Tuple)
      requires Valid()
      modifies this`tuples
      ensures Valid()
      ensures Contents() == (set u | u in old(Contents()) && TupleKey(u) != TupleKey(t)) + {t}
      ensures NulFree(t) && (forall u :: u in old(Contents()) ==> NulFree(u)) ==> Contents() == old(Contents()) + {t}
    {
      var key := TupleKey(t);
      forall u | NulFree(t) && NulFree(u) && TupleKey(u) == key
        ensures u == t
      {
        TupleKeyInjective(t, u);
      }
      ghost var before := tuples;
      tuples := tuples[key := t];
      assert key in tuples && tuples[key] == t;
      forall u | u in before.Values && TupleKey(u) != key
        ensures u in tuples.Values
      {
        assert TupleKey(u) in before && tuples[TupleKey(u)] == u;
      }
    }

    method Delete(t: Tuple)
      requires Valid()
      modifies this`tuples
      ensures Valid()
      ensures Contents() == set u | u in old(Contents()) && TupleKey(u) != TupleKey(t)
      ensures NulFree(t) && (forall u :: u in old(Contents()) ==> NulFree(u)) ==> Contents() == old(Contents()) - {t}
    {
      var key := TupleKey(t);
      forall u | NulFree(t) && NulFree(u) && TupleKey(u) == key
        ensures u == t
      {
        TupleKeyInjective(t, u);
      }
      ghost var before := tuples;
      tuples := tuples - {key};
      forall u | u in before.Values && TupleKey(u) != key
        ensures u in tuples.Values
      {
        assert TupleKey(u) in before && tuples[TupleKey(u)] == u;
      }
    }

    /** Every tuple on the object and relation, in an arbitrary order, or an error. */
    method ReadByObjectRelation(objType: string, objID: string, relation: string)
      returns (r: Result<seq<Tuple>, ()>)
      ensures r.Failure? ==> !reliable
      ensures r.Success? ==> forall t :: t in r.value <==>
                t in Contents() && t.objectType == objType && t.objectID == objID && t.relation == relation
    {
      if !reliable {
        var fails: bool := *;
        if fails {
          return Failure(());
        }
      }
      var found: seq<Tuple> := [];
      var rest := tuples.Keys;
      while rest != {}
        invariant rest <= tuples.Keys
        invariant forall t :: t in found <==> (exists k :: k in tuples.Keys - rest && tuples[k] == t) && On(t, objType, objID, relation)
        decreases rest
      {
        var k :| k in rest;
        if On(tuples[k], objType, objID, relation) {
          found := found + [tuples[k]];
        }
        rest := rest - {k};
      }
      assert forall t :: t in Contents() <==> exists k :: k in tuples.Keys - rest && tuples[k] == t;
      return Success(found);
    }
  }
}
