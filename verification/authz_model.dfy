/** Relation tuples, namespaces and the meaning of a grant (internal/authz).

    A namespace gives every type#relation a union of rewrite rules. The meaning of
    "subject s holds the relation of node n" is the least fixpoint of one step of those
    rules; `DerivableWithin` is its k-th approximation and `Derivable` the limit. */
module AuthzModel {
  import opened Wrappers

  const WILDCARD := "*"

  datatype Tuple = Tuple(
    objectType: string, objectID: string, relation: string,
    subjectType: string, subjectID: string, subjectRelation: string)

  datatype Rewrite =
    | This
    | ComputedUserset(relation: string)
    | TupleToUserset(tupleset: string, computedRelation: string)
    | OtherKind // a kind outside the enumeration: evaluates to a plain deny

  datatype RelationDef = RelationDef(directSubjects: seq<string>, rewrites: seq<Rewrite>)

  datatype Namespace = Namespace(types: map<string, map<string, RelationDef>>) {
    function Relation(objType: string, relation: string): Option<RelationDef> {
      if objType in types && relation in types[objType] then Some(types[objType][relation]) else None
    }
  }

  datatype Node = Node(objType: string, objID: string, relation: string)

  datatype Subject = Subject(typ: string, id: string)

  datatype World = World(ns: Namespace, tuples: set<Tuple>)

  // ----- one step of the rules

  predicate Known(ns: Namespace, n: Node) {
    ns.Relation(n.objType, n.relation).Some?
  }

  function Def(ns: Namespace, n: Node): RelationDef
    requires Known(ns, n)
  {
    ns.Relation(n.objType, n.relation).value
  }

  predicate On(t: Tuple, objType: string, objID: string, relation: string) {
    t.objectType == objType && t.objectID == objID && t.relation == relation
  }

  predicate Names(t: Tuple, def: RelationDef, s: Subject) {
    && t.subjectRelation == ""
    && t.subjectType == s.typ
    && (t.subjectID == s.id || (t.subjectID == WILDCARD && s.typ + ":" + WILDCARD in def.directSubjects))
  }

  /** A tuple on n names s directly, or by a wildcard that the relation admits. */
  ghost predicate NamedOn(w: World, s: Subject, n: Node) {
    Known(w.ns, n) && exists t :: t in w.tuples && On(t, n.objType, n.objID, n.relation) && Names(t, Def(w.ns, n), s)
  }

  ghost predicate Direct(w: World, s: Subject, n: Node) {
    NamedOn(w, s, n) && This in Def(w.ns, n).rewrites
  }

  /** Rule rw of n refers to m: a grant on m is a grant on n. */
  ghost predicate RefersBy(w: World, n: Node, rw: Rewrite, m: Node) {
    match rw
    case This => exists t :: t in w.tuples && On(t, n.objType, n.objID, n.relation)
                             && t.subjectRelation != "" && m == Node(t.subjectType, t.subjectID, t.subjectRelation)
    case ComputedUserset(r) => m == Node(n.objType, n.objID, r)
    case TupleToUserset(ts, r) => exists t :: t in w.tuples && On(t, n.objType, n.objID, ts)
                                              && t.subjectRelation == "" && m == Node(t.subjectType, t.subjectID, r)
    case OtherKind => false
  }

  ghost predicate Refers(w: World, n: Node, m: Node) {
    Known(w.ns, n) && exists rw :: rw in Def(w.ns, n).rewrites && RefersBy(w, n, rw, m)
  }

  // ----- the least fixpoint

  ghost predicate DerivableWithin(w: World, s: Subject, n: Node, k: nat)
    decreases k
  {
    k > 0 && (Direct(w, s, n) || exists m :: Refers(w, n, m) && DerivableWithin(w, s, m, k - 1))
  }

  ghost predicate Derivable(w: World, s: Subject, n: Node) {
    exists k: nat :: DerivableWithin(w, s, n, k)
  }

  lemma {:induction false} DerivableMonotone(w: World, s: Subject, n: Node, k: nat, l: nat)
    requires DerivableWithin(w, s, n, k) && k <= l
    ensures DerivableWithin(w, s, n, l)
    decreases k
  {
    if !Direct(w, s, n) {
      var m :| Refers(w, n, m) && DerivableWithin(w, s, m, k - 1);
      DerivableMonotone(w, s, m, k - 1, l - 1);
    }
  }

  /** `Derivable` is a fixpoint of the rules. */
  lemma DerivableStep(w: World, s: Subject, n: Node)
    ensures Derivable(w, s, n) <==> (Direct(w, s, n) || exists m :: Refers(w, n, m) && Derivable(w, s, m))
  {
    if Derivable(w, s, n) {
      var k: nat :| DerivableWithin(w, s, n, k);
      if !Direct(w, s, n) {
        var m :| Refers(w, n, m) && DerivableWithin(w, s, m, k - 1);
        assert Derivable(w, s, m);
      }
    }
    if Direct(w, s, n) {
      assert DerivableWithin(w, s, n, 1);
    }
    if m :| Refers(w, n, m) && Derivable(w, s, m) {
      var k: nat :| DerivableWithin(w, s, m, k);
      assert DerivableWithin(w, s, n, k + 1);
    }
  }

  /** The same on the fields of the tuples. A grant is a direct subject, a wildcard subject where the relation
      lists `<type>:*`, a member of a userset, a sibling relation, or a relation of a parent object; nothing else is. */
  lemma {:induction false} GrantIff(w: World, s: Subject, n: Node)
    ensures Derivable(w, s, n) <==>
            && n.objType in w.ns.types && n.relation in w.ns.types[n.objType]
            && var def := w.ns.types[n.objType][n.relation];
            || (exists t :: (
                    && This in def.rewrites && t in w.tuples
                    && t.objectType == n.objType && t.objectID == n.objID && t.relation == n.relation
                    && if t.subjectRelation == ""
                       then t.subjectType == s.typ && (t.subjectID == s.id || (t.subjectID == "*" && s.typ + ":*" in def.directSubjects))
                       else Derivable(w, s, Node(t.subjectType, t.subjectID, t.subjectRelation))))
            || (exists r :: ComputedUserset(r) in def.rewrites && Derivable(w, s, Node(n.objType, n.objID, r)))
            || (exists ts, r, t :: (
                    && TupleToUserset(ts, r) in def.rewrites && t in w.tuples
                    && t.objectType == n.objType && t.objectID == n.objID && t.relation == ts && t.subjectRelation == ""
                    && Derivable(w, s, Node(t.subjectType, t.subjectID, r))))
  {
    DerivableStep(w, s, n);
    assert s.typ + ":" + WILDCARD == s.typ + ":*";
    if Derivable(w, s, n) && !Direct(w, s, n) {
      var m :| Refers(w, n, m) && Derivable(w, s, m);
      var rw :| rw in Def(w.ns, n).rewrites && RefersBy(w, n, rw, m);
    }
    if Known(w.ns, n) {
      forall rw, m | rw in Def(w.ns, n).rewrites && RefersBy(w, n, rw, m) && Derivable(w, s, m)
        ensures Derivable(w, s, n)
      {
        assert Refers(w, n, m);
      }
      assert forall r :: RefersBy(w, n, ComputedUserset(r), Node(n.objType, n.objID, r));
      assert forall t :: t in w.tuples && On(t, n.objType, n.objID, n.relation) && t.subjectRelation != "" ==>
                           RefersBy(w, n, This, Node(t.subjectType, t.subjectID, t.subjectRelation));
      assert forall t, ts, r :: t in w.tuples && On(t, n.objType, n.objID, ts) && t.subjectRelation == "" ==>
                                  RefersBy(w, n, TupleToUserset(ts, r), Node(t.subjectType, t.subjectID, r));
    }
  }

  /** A wildcard tuple grants its relation to every subject of its type, where the relation lists the wildcard. */
  lemma {:induction false} WildcardGrants(w: World, n: Node, typ: string, id: string)
    requires n.objType in w.ns.types && n.relation in w.ns.types[n.objType]
    requires This in w.ns.types[n.objType][n.relation].rewrites
    requires typ + ":*" in w.ns.types[n.objType][n.relation].directSubjects
    requires Tuple(n.objType, n.objID, n.relation, typ, "*", "") in w.tuples
    ensures Derivable(w, Subject(typ, id), n)
  {
    GrantIff(w, Subject(typ, id), n);
  }

  /** A node all of whose support lies in the set `denied` is settled by it. */
  ghost predicate Unsupported(w: World, s: Subject, n: Node, denied: iset<Node>) {
    !Direct(w, s, n) && forall m :: Refers(w, n, m) ==> m in denied
  }

  /** ... and the least one: no node of a set closed under "has no support outside" is derivable. */
  lemma {:induction false} NothingDerivableIn(w: World, s: Subject, denied: iset<Node>, n: Node, k: nat)
    requires forall x :: x in denied ==> Unsupported(w, s, x, denied)
    requires n in denied
    ensures !DerivableWithin(w, s, n, k)
    decreases k
  {
    if k > 0 {
      forall m | Refers(w, n, m)
        ensures !DerivableWithin(w, s, m, k - 1)
      {
        NothingDerivableIn(w, s, denied, m, k - 1);
      }
    }
  }

  // ----- node keys

  function NodeKey(n: Node): string {
    n.objType + ":" + n.objID + "#" + n.relation
  }

  /** No type of the namespace contains ':' and no relation contains '#'. */
  ghost predicate WellNamed(ns: Namespace) {
    forall ty, r :: ns.Relation(ty, r).Some? ==> ':' !in ty && '#' !in r
  }

  lemma FirstSeparator(a: string, x: string, b: string, y: string, c: char)
    requires c !in a && c !in b && a + [c] + x == b + [c] + y
    ensures a == b && x == y
  {
    var l, r := a + [c] + x, b + [c] + y;
    assert l[|a|] == c && forall i :: 0 <= i < |a| ==> l[i] == a[i];
    assert r[|b|] == c && forall i :: 0 <= i < |b| ==> r[i] == b[i];
    assert |a| == |b|;
    assert l[..|a|] == a && r[..|b|] == b;
    assert l[|a| + 1..] == x && r[|b| + 1..] == y;
  }

  lemma LastSeparator(x: string, a: string, y: string, b: string, c: char)
    requires c !in a && c !in b && x + [c] + a == y + [c] + b
    ensures a == b && x == y
  {
    var l, r := x + [c] + a, y + [c] + b;
    assert l[|x|] == c && forall i :: |x| < i < |l| ==> l[i] == a[i - |x| - 1];
    assert r[|y|] == c && forall i :: |y| < i < |r| ==> r[i] == b[i - |y| - 1];
    assert |x| == |y|;
    assert l[..|x|] == x && r[..|y|] == y;
    assert l[|x| + 1..] == a && r[|y| + 1..] == b;
  }

  /** The string key identifies a node whenever the names obey the separators. */
  lemma NodeKeyInjective(n: Node, m: Node)
    requires ':' !in n.objType && ':' !in m.objType && '#' !in n.relation && '#' !in m.relation
    requires NodeKey(n) == NodeKey(m)
    ensures n == m
  {
    var x, y := n.objID + "#" + n.relation, m.objID + "#" + m.relation;
    assert NodeKey(n) == n.objType + ":" + x;
    assert NodeKey(m) == m.objType + ":" + y;
    FirstSeparator(n.objType, x, m.objType, y, ':');
    LastSeparator(n.objID, n.relation, m.objID, m.relation, '#');
  }

  /** Either separator inside a name makes two nodes share a key. */
  lemma NodeKeyCollides(a: string, b: string, c: string, r: string)
    ensures Node(a + ":" + b, c, r) != Node(a, b + ":" + c, r)
    ensures NodeKey(Node(a + ":" + b, c, r)) == NodeKey(Node(a, b + ":" + c, r))
    ensures Node(a, b, c + "#" + r) != Node(a, b + "#" + c, r)
    ensures NodeKey(Node(a, b, c + "#" + r)) == NodeKey(Node(a, b + "#" + c, r))
  {
    assert |a + ":" + b| > |a|;
    assert |c + "#" + r| > |r|;
    assert (a + ":" + b) + ":" + c + "#" + r == a + ":" + (b + ":" + c) + "#" + r;
    assert a + ":" + b + "#" + (c + "#" + r) == a + ":" + (b + "#" + c) + "#" + r;
  }
}
