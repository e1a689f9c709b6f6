/** The recursive Check (internal/authz/check.go): depth-first search with a path set, a memo
    table, a depth cap and first-error bookkeeping, proved against the least fixpoint. */
module AuthzCheck {
  import opened Wrappers
  import opened AuthzModel
  import opened AuthzStore

  datatype Error = DepthExceeded | UnknownRelation | StoreFailed

  /** The two maps one Check threads through its recursion; tried holds the nodes left with an error, which are not
      recorded. */
  class Search {
    var visited: set<string>
    var memo: map<string, bool>
    ghost var tried: set<string>

    constructor ()
      ensures visited == {} && memo == map[] && tried == {}
    {
      visited, memo, tried := {}, map[], {};
    }
  }

  // ----- what the search knows

  /** n is not granted directly, and every reference out of it leads to a key in ks; to unknown relations only if
      `strict` asks for that. */
  ghost predicate Swept(w: World, s: Subject, n: Node, ks: set<string>, strict: bool) {
    !Direct(w, s, n) && forall m :: Refers(w, n, m) && (strict || Known(w.ns, m)) ==> NodeKey(m) in ks
  }

  /** A denied node has been swept: each of its references is denied or still on the path. */
  ghost predicate DeniesSwept(w: World, s: Subject, memo: map<string, bool>, ks: set<string>) {
    forall n :: Known(w.ns, n) && NodeKey(n) in memo ==> Swept(w, s, n, ks, true)
  }

  /** So has a node that was left with an error, but for unknown relations. */
  ghost predicate TriesSwept(w: World, s: Subject, tried: set<string>, ks: set<string>) {
    forall n :: Known(w.ns, n) && NodeKey(n) in tried ==> Swept(w, s, n, ks, false)
  }

  ghost predicate AllSwept(w: World, s: Subject, memo: map<string, bool>, tried: set<string>, visited: set<string>) {
    DeniesSwept(w, s, memo, memo.Keys + tried + visited) && TriesSwept(w, s, tried, memo.Keys + tried + visited)
  }

  ghost predicate KnownKey(ns: Namespace, k: string) {
    exists x :: Known(ns, x) && NodeKey(x) == k
  }

  /** Only denies of known nodes are recorded: a grant ends the whole search at once, and an unknown relation is an error. */
  ghost predicate OnlyDenies(w: World, memo: map<string, bool>) {
    forall k :: k in memo ==> !memo[k] && KnownKey(w.ns, k)
  }

  /** What a call may do when it does not grant; `calm` says that unknown relations are the only errors there are. */
  ghost predicate Grows(w: World, s: Subject, calm: bool, memo0: map<string, bool>, tried0: set<string>,
                        memo: map<string, bool>, tried: set<string>, visited: set<string>, err: Option<Error>) {
    && OnlyDenies(w, memo)
    && memo0.Keys <= memo.Keys && tried0 <= tried
    && (err.None? ==> tried == tried0)
    && ((err.None? || calm) && AllSwept(w, s, memo0, tried0, visited) ==> AllSwept(w, s, memo, tried, visited))
  }

  /** One call after another. */
  lemma {:induction false} GrowsOn(w: World, s: Subject, calm: bool, memo0: map<string, bool>, tried0: set<string>,
                                   memo1: map<string, bool>, tried1: set<string>, memo2: map<string, bool>, tried2: set<string>,
                                   visited: set<string>, err0: Option<Error>, e: Option<Error>, err: Option<Error>)
    requires Grows(w, s, calm, memo0, tried0, memo1, tried1, visited,
              err0) && Grows(w, s, calm, memo1, tried1, memo2, tried2, visited, e)
    requires err == if err0.Some? then err0 else e
    ensures Grows(w, s, calm, memo0, tried0, memo2, tried2, visited, err)
    ensures Seen(memo1, tried1, visited) <= Seen(memo2, tried2, visited)
  {
  }

  /** The path from the root to a node: distinct known nodes, each referring to the next. */
  ghost predicate Trail(w: World, root: Node, p: seq<Node>) {
    && (p != [] ==> p[0] == root)
    && (forall i :: 0 <= i < |p| ==> Known(w.ns, p[i]))
    && (forall i, j :: 0 <= i < j < |p| ==> p[i] != p[j])
    && (forall i {:trigger p[i]} :: 0 < i < |p| ==> Refers(w, p[i - 1], p[i]))
  }

  ghost predicate Leads(w: World, root: Node, p: seq<Node>, n: Node) {
    if p == [] then n == root else Refers(w, p[|p| - 1], n)
  }

  ghost predicate Reaches(w: World, root: Node, n: Node) {
    exists p :: Trail(w, root, p) && Leads(w, root, p, n)
  }

  /** Some path without repetition visits more than d nodes before the node it leads to. */
  ghost predicate Exceeds(w: World, root: Node, d: int) {
    exists p, n :: Trail(w, root, p) && Leads(w, root, p, n) && |p| > d
  }

  ghost predicate ReachesUnknown(w: World, root: Node) {
    exists n :: Reaches(w, root, n) && !Known(w.ns, n)
  }

  /** Why an error can arise, in terms of the graph searched from the root. */
  ghost predicate Justified(w: World, root: Node, maxDepth: int, reliable: bool, err: Option<Error>) {
    match err
    case None => true
    case Some(DepthExceeded) => Exceeds(w, root, maxDepth)
    case Some(UnknownRelation) => ReachesUnknown(w, root)
    case Some(StoreFailed) => !reliable
  }

  ghost function Keys(p: seq<Node>): set<string> {
    set n | n in p :: NodeKey(n)
  }

  /** The state every call of the recursion starts from, `trail` being the path down to it. */
  ghost predicate Entered(w: World, memo: map<string, bool>, visited: set<string>, root: Node, trail: seq<Node>) {
    && WellNamed(w.ns)
    && OnlyDenies(w, memo)
    && Trail(w, root, trail)
    && visited == Keys(trail)
  }

  lemma {:induction false} KeysExtend(trail: seq<Node>, n: Node)
    ensures Keys(trail + [n]) == Keys(trail) + {NodeKey(n)}
    ensures n in trail ==> NodeKey(n) in Keys(trail)
  {
  }

  lemma {:induction false} TrailExtends(w: World, root: Node, trail: seq<Node>, n: Node)
    requires Trail(w, root, trail) && Leads(w, root, trail, n)
    requires Known(w.ns, n) && NodeKey(n) !in Keys(trail)
    ensures Trail(w, root, trail + [n]) && Keys(trail + [n]) == Keys(trail) + {NodeKey(n)}
  {
    KeysExtend(trail, n);
    var p := trail + [n];
    forall i {:trigger p[i]} | 0 < i < |p|
      ensures Refers(w, p[i - 1], p[i])
    {
      if i < |trail| {
        assert p[i] == trail[i];
      }
    }
  }

  lemma EndOfTrail(w: World, root: Node, trail: seq<Node>, n: Node)
    requires Trail(w, root, trail) && Leads(w, root, trail, n)
    ensures Reaches(w, root, n)
    ensures forall d: int :: d < |trail| ==> Exceeds(w, root, d)
    ensures !Known(w.ns, n) ==> ReachesUnknown(w, root)
  {
  }

  class Engine {
    const store: Store
    const ns: Namespace
    const maxDepth: int

    constructor (store: Store, ns: Namespace, maxDepth: int)
      ensures this.store == store && this.ns == ns && this.maxDepth == maxDepth
    {
      this.store, this.ns, this.maxDepth := store, ns, maxDepth;
    }

    ghost function Here(): World
      reads store
    {
      World(ns, store.Contents())
    }

    method Check(n: Node, s: Subject) returns (granted: bool, err: Option<Error>)
      requires WellNamed(ns)
      ensures granted ==> err.None?
      ensures err.None? || (store.reliable && !Exceeds(Here(), n, maxDepth)) ==> (granted <==> Derivable(Here(), s, n))
      ensures !granted && err.None? ==> forall m :: Reaches(Here(), n, m) ==> KnownKey(ns, NodeKey(m))
      ensures Justified(Here(), n, maxDepth, store.reliable, err)
      ensures store.reliable && !ReachesUnknown(Here(), n) && |KnownReachable(Here(), n)| <= maxDepth ==> err.None?
    {
      var search := new Search();
      ghost var w, calm := Here(), store.reliable && !Exceeds(Here(), n, maxDepth);
      granted, err := CheckNode(n, s, 0, search, w, calm, n, []);
      if |KnownReachable(w, n)| <= maxDepth {
        DepthBoundedByReach(w, n, maxDepth);
      }
      if !granted && (err.None? || calm) {
        RootDenyIsDefinitive(w, s, search.memo, search.tried, n);
        if err.None? {
          RootDenySweepsAll(w, s, search.memo, n);
        }
      }
    }

    method CheckNode(n: Node, s: Subject, depth: nat, search: Search, ghost w: World, ghost calm: bool, ghost root: Node,
                     ghost trail: seq<Node>)
      returns (granted: bool, err: Option<Error>)
      requires w == Here() && Entered(w, search.memo, search.visited, root, trail) && depth == |trail| && Leads(w, root, trail, n)
      requires depth == 0 || depth <= maxDepth + 1
      requires calm ==> store.reliable && !Exceeds(w, root, maxDepth)
      modifies search
      ensures search.visited == old(search.visited)
      ensures granted ==> err.None? && Derivable(w, s, n)
      ensures !granted ==> Grows(w, s, calm, old(search.memo), old(search.tried), search.memo, search.tried, search.visited, err)
      ensures !granted && err.None? ==> NodeKey(n) in Seen(search.memo, search.tried, search.visited)
      ensures !granted && calm && Known(w.ns, n) ==> NodeKey(n) in Seen(search.memo, search.tried, search.visited)
      ensures Justified(w, root, maxDepth, store.reliable, err)
      decreases if depth > maxDepth then 0 else maxDepth + 1 - depth, 4
    {
      if depth > maxDepth {
        EndOfTrail(w, root, trail, n);
        return false, Some(DepthExceeded);
      }
      var key := NodeKey(n);
      if key in search.memo {
        return search.memo[key], None;
      }
      if key in search.visited {
        return false, None;
      }
      var found := ns.Relation(n.objType, n.relation);
      if found.None? {
        EndOfTrail(w, root, trail, n);
        return false, Some(UnknownRelation);
      }
      TrailExtends(w, root, trail, n);
      search.visited := search.visited + {key};
      var firstErr;
      granted, firstErr := EvalUnion(found.value, n, s, depth, search, w, calm, root, trail + [n]);
      search.visited := search.visited - {key};
      if granted {
        search.memo := search.memo[key := true];
        return true, None;
      }
      if firstErr.None? {
        DenyGrows(w, s, calm, n, old(search.memo), old(search.tried), search.memo, search.tried, search.visited);
        search.memo := search.memo[key := false];
      } else if calm {
        TryGrows(w, s, n, old(search.memo), old(search.tried), search.memo, search.tried, search.visited, firstErr);
        search.tried := search.tried + {key};
      }
      return false, firstErr;
    }

    /** The union of the rewrites: the first grant ends it, an error is remembered. */
    method EvalUnion(def: RelationDef, n: Node, s: Subject, depth: nat, search: Search, ghost w: World, ghost calm: bool,
                     ghost root: Node, ghost trail: seq<Node>)
      returns (granted: bool, firstErr: Option<Error>)
      requires w == Here() && Entered(w, search.memo, search.visited, root, trail) && depth + 1 == |trail| && trail[depth] == n
      requires calm ==> store.reliable && !Exceeds(w, root, maxDepth)
      requires def == Def(ns, n) && depth <= maxDepth
      modifies search
      ensures search.visited == old(search.visited)
      ensures granted ==> firstErr.None? && Derivable(w, s, n)
      ensures !granted ==> Grows(w, s, calm, old(search.memo), old(search.tried), search.memo, search.tried, search.visited, firstErr)
      ensures !granted ==> Ends(w, s, n, def.rewrites, |def.rewrites|, Seen(search.memo, search.tried, search.visited), calm, firstErr)
      ensures Justified(w, root, maxDepth, store.reliable, firstErr)
      decreases maxDepth + 1 - depth, 3
    {
      var i := 0;
      granted, firstErr := false, None;
      while i < |def.rewrites|
        invariant 0 <= i <= |def.rewrites|
        invariant search.visited == old(search.visited) && w == Here()
        invariant Grows(w, s, calm, old(search.memo), old(search.tried), search.memo, search.tried, search.visited, firstErr)
        invariant Ends(w, s, n, def.rewrites, i, Seen(search.memo, search.tried, search.visited), calm, firstErr)
        invariant Justified(w, root, maxDepth, store.reliable, firstErr)
      {
        ghost var before := Seen(search.memo, search.tried, search.visited);
        ghost var err0, memo1, tried1 := firstErr, search.memo, search.tried;
        var e;
        granted, e := EvalRewrite(def.rewrites[i], n, s, depth, search, w, calm, root, trail);
        if granted {
          RewriteDerives(w, s, n, def.rewrites[i]);
          return true, None;
        }
        if e.Some? && firstErr.None? {
          firstErr := e;
        }
        GrowsOn(w, s, calm, old(search.memo), old(search.tried), memo1, tried1, search.memo, search.tried,
                  search.visited, err0, e, firstErr);
        EndsNext(w, s, n, def.rewrites, i, before, Seen(search.memo, search.tried, search.visited), calm, err0, e, firstErr);
        i := i + 1;
      }
      return false, firstErr;
    }

    method EvalRewrite(rw: Rewrite, n: Node, s: Subject, depth: nat, search: Search, ghost w: World, ghost calm: bool,
                       ghost root: Node, ghost trail: seq<Node>)
      returns (granted: bool, err: Option<Error>)
      requires w == Here() && Entered(w, search.memo, search.visited, root, trail) && depth + 1 == |trail| && trail[depth] == n
      requires calm ==> store.reliable && !Exceeds(w, root, maxDepth)
      requires rw in Def(ns, n).rewrites && depth <= maxDepth
      modifies search
      ensures search.visited == old(search.visited)
      ensures granted ==> err.None? && RewriteGrants(w, s, n, rw)
      ensures !granted ==> Grows(w, s, calm, old(search.memo), old(search.tried), search.memo, search.tried, search.visited, err)
      ensures !granted ==> RewriteEnds(w, s, n, rw, Seen(search.memo, search.tried, search.visited), calm, err)
      ensures Justified(w, root, maxDepth, store.reliable, err)
      decreases maxDepth + 1 - depth, 2
    {
      match rw
      case This =>
        granted, err := EvalThis(n, s, depth, search, w, calm, root, trail);
      case ComputedUserset(relation) =>
        ghost var m := Node(n.objType, n.objID, relation);
        assert RefersBy(w, n, rw, m);
        granted, err := CheckNode(Node(n.objType, n.objID, relation), s, depth + 1, search, w, calm, root, trail);
      case TupleToUserset(_, _) =>
        granted, err := EvalTupleToUserset(rw, n, s, depth, search, w, calm, root, trail);
      case OtherKind =>
        granted, err := false, None;
    }

    /** Checks a node that n refers to; without a grant an error is remembered unless there is one already. */
    method CheckNext(m: Node, s: Subject, depth: nat, search: Search, firstErr: Option<Error>, ghost w: World, ghost calm: bool,
                     ghost root: Node, ghost trail: seq<Node>, ghost memo0: map<string, bool>, ghost tried0: set<string>)
      returns (granted: bool, err: Option<Error>)
      requires w == Here() && Entered(w, search.memo, search.visited, root, trail) && depth + 1 == |trail| && Refers(w, trail[depth], m)
      requires calm ==> store.reliable && !Exceeds(w, root, maxDepth)
      requires Grows(w, s, calm, memo0, tried0, search.memo, search.tried, search.visited, firstErr) && depth <= maxDepth
      requires Justified(w, root, maxDepth, store.reliable, firstErr)
      modifies search
      ensures search.visited == old(search.visited)
      ensures granted ==> err.None? && Derivable(w, s, m)
      ensures !granted ==> Grows(w, s, calm, memo0, tried0, search.memo, search.tried, search.visited, err)
      ensures !granted ==> old(Seen(search.memo, search.tried, search.visited)) <= Seen(search.memo, search.tried, search.visited)
      ensures !granted ==> Handled(w, m, Seen(search.memo, search.tried, search.visited), calm, err)
      ensures !granted ==> (firstErr.Some? ==> err == firstErr)
      ensures Justified(w, root, maxDepth, store.reliable, err)
      decreases maxDepth + 1 - depth, 0
    {
      var e;
      ghost var memo1, tried1 := search.memo, search.tried;
      granted, e := CheckNode(m, s, depth + 1, search, w, calm, root, trail);
      if granted {
        return true, None;
      }
      err := if firstErr.Some? then firstErr else e;
      GrowsOn(w, s, calm, memo0, tried0, memo1, tried1, search.memo, search.tried, search.visited, firstErr, e, err);
    }

    /** A tuple without subject relation names the subject: directly, or by a wildcard that the relation admits. */
    static method NamesSubject(tp: Tuple, def: RelationDef, s: Subject) returns (named: bool)
      requires tp.subjectRelation == ""
      ensures named <==> Names(tp, def, s)
    {
      if tp.subjectType != s.typ {
        return false;
      }
      if tp.subjectID == s.id {
        return true;
      }
      if tp.subjectID == WILDCARD {
        var want := s.typ + ":" + WILDCARD;
        var j := 0;
        while j < |def.directSubjects|
          invariant 0 <= j <= |def.directSubjects|
          invariant want !in def.directSubjects[..j]
        {
          if def.directSubjects[j] == want {
            return true;
          }
          j := j + 1;
        }
        assert def.directSubjects[..j] == def.directSubjects;
      }
      return false;
    }

    method EvalThis(n: Node, s: Subject, depth: nat, search: Search, ghost w: World, ghost calm: bool, ghost root: Node,
                    ghost trail: seq<Node>)
      returns (granted: bool, err: Option<Error>)
      requires w == Here() && Entered(w, search.memo, search.visited, root, trail) && depth + 1 == |trail| && trail[depth] == n
      requires calm ==> store.reliable && !Exceeds(w, root, maxDepth)
      requires This in Def(ns, n).rewrites && depth <= maxDepth
      modifies search
      ensures search.visited == old(search.visited)
      ensures granted ==> err.None? && RewriteGrants(w, s, n, This)
      ensures !granted ==> Grows(w, s, calm, old(search.memo), old(search.tried), search.memo, search.tried, search.visited, err)
      ensures !granted ==> RewriteEnds(w, s, n, This, Seen(search.memo, search.tried, search.visited), calm, err)
      ensures Justified(w, root, maxDepth, store.reliable, err)
      decreases maxDepth + 1 - depth, 1
    {
      var read := store.ReadByObjectRelation(n.objType, n.objID, n.relation);
      if read.Failure? {
        return false, Some(StoreFailed);
      }
      var tuples := read.value;
      var def := Def(ns, n);
      ghost var memo0, tried0 := search.memo, search.tried;
      var i := 0;
      var firstErr: Option<Error> := None;
      while i < |tuples|
        invariant 0 <= i <= |tuples|
        invariant search.visited == old(search.visited) && w == Here()
        invariant Grows(w, s, calm, memo0, tried0, search.memo, search.tried, search.visited, firstErr)
        invariant SubjectsSeen(w, s, def, tuples[..i], Seen(search.memo, search.tried, search.visited), calm, firstErr)
        invariant Justified(w, root, maxDepth, store.reliable, firstErr)
      {
        var tp := tuples[i];
        ghost var before, err0 := Seen(search.memo, search.tried, search.visited), firstErr;
        if tp.subjectRelation == "" {
          var named := NamesSubject(tp, def, s);
          if named {
            return true, None;
          }
          SubjectsNext(w, s, def, tuples, i, before, before, calm, err0, err0);
          i := i + 1;
          continue;
        }
        var m := UsersetOf(tp);
        assert RefersBy(w, n, This, m);
        granted, firstErr := CheckNext(m, s, depth, search, firstErr, w, calm, root, trail, memo0, tried0);
        if granted {
          return true, None;
        }
        SubjectsNext(w, s, def, tuples, i, before, Seen(search.memo, search.tried, search.visited), calm, err0, firstErr);
        i := i + 1;
      }
      assert tuples[..i] == tuples;
      ThisEnds(w, s, n, tuples, Seen(search.memo, search.tried, search.visited), calm, firstErr);
      return false, firstErr;
    }

    method EvalTupleToUserset(rw: Rewrite, n: Node, s: Subject, depth: nat, search: Search, ghost w: World, ghost calm: bool,
                              ghost root: Node, ghost trail: seq<Node>)
      returns (granted: bool, err: Option<Error>)
      requires w == Here() && Entered(w, search.memo, search.visited, root, trail) && depth + 1 == |trail| && trail[depth] == n
      requires calm ==> store.reliable && !Exceeds(w, root, maxDepth)
      requires rw.TupleToUserset? && rw in Def(ns, n).rewrites && depth <= maxDepth
      modifies search
      ensures search.visited == old(search.visited)
      ensures granted ==> err.None? && RewriteGrants(w, s, n, rw)
      ensures !granted ==> Grows(w, s, calm, old(search.memo), old(search.tried), search.memo, search.tried, search.visited, err)
      ensures !granted ==> RewriteEnds(w, s, n, rw, Seen(search.memo, search.tried, search.visited), calm, err)
      ensures Justified(w, root, maxDepth, store.reliable, err)
      decreases maxDepth + 1 - depth, 1
    {
      var read := store.ReadByObjectRelation(n.objType, n.objID, rw.tupleset);
      if read.Failure? {
        return false, Some(StoreFailed);
      }
      var parents := read.value;
      ghost var memo0, tried0 := search.memo, search.tried;
      var i := 0;
      var firstErr: Option<Error> := None;
      while i < |parents|
        invariant 0 <= i <= |parents|
        invariant search.visited == old(search.visited) && w == Here()
        invariant Grows(w, s, calm, memo0, tried0, search.memo, search.tried, search.visited, firstErr)
        invariant ParentsSeen(w, rw.computedRelation, parents[..i], Seen(search.memo, search.tried, search.visited),
                  calm, firstErr)
        invariant Justified(w, root, maxDepth, store.reliable, firstErr)
      {
        var p := parents[i];
        assert parents[..i + 1] == parents[..i] + [p];
        if p.subjectRelation != "" {
          i := i + 1;
          continue;
        }
        var m := Node(p.subjectType, p.subjectID, rw.computedRelation);
        assert RefersBy(w, n, rw, m);
        ghost var before, err0 := Seen(search.memo, search.tried, search.visited), firstErr;
        granted, firstErr := CheckNext(m, s, depth, search, firstErr, w, calm, root, trail, memo0, tried0);
        if granted {
          return true, None;
        }
        ParentsNext(w, rw.computedRelation, parents, i, before, Seen(search.memo, search.tried, search.visited), calm,
                  err0, firstErr);
        i := i + 1;
      }
      assert parents[..i] == parents;
      return false, firstErr;
    }
  }

  // ----- one rewrite at a time

  function UsersetOf(t: Tuple): Node {
    Node(t.subjectType, t.subjectID, t.subjectRelation)
  }

  ghost predicate RewriteGrants(w: World, s: Subject, n: Node, rw: Rewrite) {
    (rw.This? && NamedOn(w, s, n)) || exists m :: RefersBy(w, n, rw, m) && Derivable(w, s, m)
  }

  ghost predicate RewriteSwept(w: World, s: Subject, n: Node, rw: Rewrite, ks: set<string>, strict: bool) {
    (rw.This? ==> !NamedOn(w, s, n)) && forall m :: RefersBy(w, n, rw, m) && (strict || Known(w.ns, m)) ==> NodeKey(m) in ks
  }

  /** The first k rewrites. */
  ghost predicate UnionSwept(w: World, s: Subject, n: Node, rws: seq<Rewrite>, k: nat, ks: set<string>, strict: bool) {
    k <= |rws| && forall j :: 0 <= j < k ==> RewriteSwept(w, s, n, rws[j], ks, strict)
  }

  /** How a rewrite that grants nothing ends: swept without an error, or swept but for unknown relations. */
  ghost predicate RewriteEnds(w: World, s: Subject, n: Node, rw: Rewrite, ks: set<string>, calm: bool, err: Option<Error>) {
    && (err.None? ==> RewriteSwept(w, s, n, rw, ks, true))
    && (calm ==> RewriteSwept(w, s, n, rw, ks, false))
  }

  ghost predicate Ends(w: World, s: Subject, n: Node, rws: seq<Rewrite>, k: nat, ks: set<string>, calm: bool,
                       err: Option<Error>) {
    && (err.None? ==> UnionSwept(w, s, n, rws, k, ks, true))
    && (calm ==> UnionSwept(w, s, n, rws, k, ks, false))
  }

  ghost function Seen(memo: map<string, bool>, tried: set<string>, visited: set<string>): set<string> {
    memo.Keys + tried + visited
  }

  /** The node a reference leads to has been seen, if it must be. */
  ghost predicate Handled(w: World, m: Node, ks: set<string>, calm: bool, err: Option<Error>) {
    (err.None? || (calm && Known(w.ns, m))) ==> NodeKey(m) in ks
  }

  /** None of the tuples names the subject, and the usersets among them have been seen. */
  ghost predicate SubjectsSeen(w: World, s: Subject, def: RelationDef, tuples: seq<Tuple>, ks: set<string>, calm: bool,
                               err: Option<Error>) {
    forall t :: t in tuples ==> !Names(t, def, s) && (t.subjectRelation != "" ==> Handled(w, UsersetOf(t), ks, calm, err))
  }

  ghost predicate ParentsSeen(w: World, relation: string, parents: seq<Tuple>, ks: set<string>, calm: bool, err: Option<Error>) {
    forall t :: t in parents && t.subjectRelation == "" ==> Handled(w, Node(t.subjectType, t.subjectID, relation), ks, calm, err)
  }

  lemma {:induction false} SubjectsNext(w: World, s: Subject, def: RelationDef, tuples: seq<Tuple>, i: nat, before: set<string>,
                                        ks: set<string>, calm: bool, err0: Option<Error>, err: Option<Error>)
    requires i < |tuples| && before <= ks && (err0.Some? ==> err == err0)
    requires SubjectsSeen(w, s, def, tuples[..i], before, calm, err0) && !Names(tuples[i], def, s)
    requires tuples[i].subjectRelation != "" ==> Handled(w, UsersetOf(tuples[i]), ks, calm, err)
    ensures SubjectsSeen(w, s, def, tuples[..i + 1], ks, calm, err)
  {
    assert tuples[..i + 1] == tuples[..i] + [tuples[i]];
  }

  lemma {:induction false} ParentsNext(w: World, relation: string, parents: seq<Tuple>, i: nat, before: set<string>,
                                       ks: set<string>,
                                       calm: bool, err0: Option<Error>, err: Option<Error>)
    requires i < |parents| && before <= ks && (err0.Some? ==> err == err0)
    requires ParentsSeen(w, relation, parents[..i], before, calm, err0)
    requires Handled(w, Node(parents[i].subjectType, parents[i].subjectID, relation), ks, calm, err)
    ensures ParentsSeen(w, relation, parents[..i + 1], ks, calm, err)
  {
    assert parents[..i + 1] == parents[..i] + [parents[i]];
  }

  lemma {:induction false} ThisEnds(w: World, s: Subject, n: Node, tuples: seq<Tuple>, ks: set<string>, calm: bool,
                                    err: Option<Error>)
    requires Known(w.ns, n) && forall t :: t in tuples <==> t in w.tuples && On(t, n.objType, n.objID, n.relation)
    requires SubjectsSeen(w, s, Def(w.ns, n), tuples, ks, calm, err)
    ensures RewriteEnds(w, s, n, This, ks, calm, err)
  {
  }

  lemma {:induction false} UnionSweptNext(w: World, s: Subject, n: Node, rws: seq<Rewrite>, i: nat, before: set<string>,
                                          ks: set<string>, strict: bool)
    requires i < |rws| && before <= ks && UnionSwept(w, s, n, rws, i, before, strict) && RewriteSwept(w, s, n, rws[i], ks, strict)
    ensures UnionSwept(w, s, n, rws, i + 1, ks, strict)
  {
  }

  lemma {:induction false} EndsNext(w: World, s: Subject, n: Node, rws: seq<Rewrite>, i: nat, before: set<string>,
                                    ks: set<string>,
                                    calm: bool, err0: Option<Error>, e: Option<Error>, err: Option<Error>)
    requires i < |rws| && before <= ks && (err.None? ==> err0.None? && e.None?)
    requires Ends(w, s, n, rws, i, before, calm, err0) && RewriteEnds(w, s, n, rws[i], ks, calm, e)
    ensures Ends(w, s, n, rws, i + 1, ks, calm, err)
  {
    if err.None? {
      UnionSweptNext(w, s, n, rws, i, before, ks, true);
    }
    if calm {
      UnionSweptNext(w, s, n, rws, i, before, ks, false);
    }
  }

  lemma RewriteDerives(w: World, s: Subject, n: Node, rw: Rewrite)
    requires Known(w.ns, n) && rw in Def(w.ns, n).rewrites && RewriteGrants(w, s, n, rw)
    ensures Derivable(w, s, n)
  {
    DerivableStep(w, s, n);
  }

  lemma {:induction false} UnionIsSwept(w: World, s: Subject, n: Node, ks: set<string>, strict: bool)
    requires Known(w.ns, n) && UnionSwept(w, s, n, Def(w.ns, n).rewrites, |Def(w.ns, n).rewrites|, ks, strict)
    ensures Swept(w, s, n, ks, strict)
  {
    var rws := Def(w.ns, n).rewrites;
    forall rw | rw in rws
      ensures RewriteSwept(w, s, n, rw, ks, strict)
    {
      var j :| 0 <= j < |rws| && rws[j] == rw;
    }
  }

  lemma {:induction false} SameKnownKey(w: World, x: Node, n: Node)
    requires WellNamed(w.ns) && Known(w.ns, x) && Known(w.ns, n) && NodeKey(x) == NodeKey(n)
    ensures x == n
  {
    assert w.ns.Relation(x.objType, x.relation).Some? && w.ns.Relation(n.objType, n.relation).Some?;
    NodeKeyInjective(x, n);
  }

  /** Recording the deny of a swept node keeps the invariant once the node leaves the path. */
  lemma {:induction false} DenyKeepsSwept(w: World, s: Subject, n: Node, memo: map<string, bool>, tried: set<string>,
                                          visited: set<string>)
    requires WellNamed(w.ns) && Known(w.ns, n)
    requires AllSwept(w, s, memo, tried, visited + {NodeKey(n)})
    requires UnionSwept(w, s, n, Def(w.ns, n).rewrites, |Def(w.ns, n).rewrites|, Seen(memo, tried, visited + {NodeKey(n)}), true)
    ensures AllSwept(w, s, memo[NodeKey(n) := false], tried, visited)
  {
    var memo', ks := memo[NodeKey(n) := false], Seen(memo, tried, visited + {NodeKey(n)});
    assert memo'.Keys + tried + visited == ks;
    UnionIsSwept(w, s, n, ks, true);
    forall x | Known(w.ns, x) && NodeKey(x) in memo'
      ensures Swept(w, s, x, ks, true)
    {
      if NodeKey(x) == NodeKey(n) {
        SameKnownKey(w, x, n);
      }
    }
  }

  /** So does leaving it with an error, when unknown relations are the only errors. */
  lemma {:induction false} TryKeepsSwept(w: World, s: Subject, n: Node, memo: map<string, bool>, tried: set<string>,
                                         visited: set<string>)
    requires WellNamed(w.ns) && Known(w.ns, n)
    requires AllSwept(w, s, memo, tried, visited + {NodeKey(n)})
    requires UnionSwept(w, s, n, Def(w.ns, n).rewrites, |Def(w.ns, n).rewrites|, Seen(memo, tried, visited + {NodeKey(n)}), false)
    ensures AllSwept(w, s, memo, tried + {NodeKey(n)}, visited)
  {
    var tried', ks := tried + {NodeKey(n)}, Seen(memo, tried, visited + {NodeKey(n)});
    assert memo.Keys + tried' + visited == ks;
    UnionIsSwept(w, s, n, ks, false);
    forall x | Known(w.ns, x) && NodeKey(x) in tried'
      ensures Swept(w, s, x, ks, false)
    {
      if NodeKey(x) == NodeKey(n) {
        SameKnownKey(w, x, n);
      }
    }
  }

  /** A longer path never hurts. */
  lemma {:induction false} SweptOnPath(w: World, s: Subject, memo: map<string, bool>, tried: set<string>,
                                       visited: set<string>, key: string)
    requires AllSwept(w, s, memo, tried, visited)
    ensures AllSwept(w, s, memo, tried, visited + {key})
  {
  }

  lemma {:induction false} DenyGrows(w: World, s: Subject, calm: bool, n: Node, memo0: map<string, bool>, tried0: set<string>,
                                     memo: map<string, bool>, tried: set<string>, visited: set<string>)
    requires WellNamed(w.ns) && Known(w.ns, n)
    requires Grows(w, s, calm, memo0, tried0, memo, tried, visited + {NodeKey(n)}, None)
    requires UnionSwept(w, s, n, Def(w.ns, n).rewrites, |Def(w.ns, n).rewrites|, Seen(memo, tried, visited + {NodeKey(n)}), true)
    ensures Grows(w, s, calm, memo0, tried0, memo[NodeKey(n) := false], tried, visited, None)
  {
    assert KnownKey(w.ns, NodeKey(n));
    if AllSwept(w, s, memo0, tried0, visited) {
      SweptOnPath(w, s, memo0, tried0, visited, NodeKey(n));
      DenyKeepsSwept(w, s, n, memo, tried, visited);
    }
  }

  lemma {:induction false} TryGrows(w: World, s: Subject, n: Node, memo0: map<string, bool>, tried0: set<string>,
                                    memo: map<string, bool>, tried: set<string>, visited: set<string>, err: Option<Error>)
    requires WellNamed(w.ns) && Known(w.ns, n) && err.Some?
    requires Grows(w, s, true, memo0, tried0, memo, tried, visited + {NodeKey(n)}, err)
    requires UnionSwept(w, s, n, Def(w.ns, n).rewrites, |Def(w.ns, n).rewrites|, Seen(memo, tried, visited + {NodeKey(n)}), false)
    ensures Grows(w, s, true, memo0, tried0, memo, tried + {NodeKey(n)}, visited, err)
  {
    if AllSwept(w, s, memo0, tried0, visited) {
      SweptOnPath(w, s, memo0, tried0, visited, NodeKey(n));
      TryKeepsSwept(w, s, n, memo, tried, visited);
    }
  }

  /** With the path empty again the nodes denied or left with an error support one another only, so none is derivable:
      a deny recorded through a cycle is definitive at the root. */
  lemma {:induction false} RootDenyIsDefinitive(w: World, s: Subject, memo: map<string, bool>, tried: set<string>, n: Node)
    requires AllSwept(w, s, memo, tried, {}) && (Known(w.ns, n) ==> NodeKey(n) in memo.Keys + tried)
    ensures !Derivable(w, s, n)
  {
    var denied := iset x: Node | Known(w.ns, x) ==> NodeKey(x) in memo.Keys + tried;
    forall x | x in denied
      ensures Unsupported(w, s, x, denied)
    {
      if Known(w.ns, x) {
        assert Swept(w, s, x, memo.Keys + tried + {}, NodeKey(x) in memo);
      }
    }
    forall k: nat
      ensures !DerivableWithin(w, s, n, k)
    {
      NothingDerivableIn(w, s, denied, n, k);
    }
  }

  lemma {:induction false} SweepReaches(w: World, s: Subject, memo: map<string, bool>, root: Node, p: seq<Node>, m: Node)
    requires DeniesSwept(w, s, memo, memo.Keys) && NodeKey(root) in memo
    requires Trail(w, root, p) && Leads(w, root, p, m)
    ensures NodeKey(m) in memo
  {
    if p != [] {
      var q, x := p[..|p| - 1], p[|p| - 1];
      TrailInit(w, root, p);
      SweepReaches(w, s, memo, root, q, x);
      assert Swept(w, s, x, memo.Keys, true);
    }
  }

  /** Without an error it also means that everything the root reaches was searched. */
  lemma {:induction false} RootDenySweepsAll(w: World, s: Subject, memo: map<string, bool>, root: Node)
    requires AllSwept(w, s, memo, {}, {}) && OnlyDenies(w, memo) && NodeKey(root) in memo
    ensures forall m :: Reaches(w, root, m) ==> KnownKey(w.ns, NodeKey(m))
  {
    assert memo.Keys + {} + {} == memo.Keys;
    forall m | Reaches(w, root, m)
      ensures KnownKey(w.ns, NodeKey(m))
    {
      var p :| Trail(w, root, p) && Leads(w, root, p, m);
      SweepReaches(w, s, memo, root, p, m);
    }
  }

  /** Until then it need not be: with a on the path, b refers to a only and is denied and recorded, although a
      is granted through g in the end and b with it. */
  lemma RecordedDenyOfGranted(s: Subject)
    ensures var rels := map[
                     "a" := RelationDef([], [ComputedUserset("b"), ComputedUserset("g")]),
                     "b" := RelationDef([], [ComputedUserset("a")]),
                     "g" := RelationDef([s.typ], [This])];
            var w := World(Namespace(map["t" := rels]), {Tuple("t", "o", "g", s.typ, s.id, "")});
            var a, b := Node("t", "o", "a"), Node("t", "o", "b");
            && UnionSwept(w, s, b, Def(w.ns, b).rewrites, |Def(w.ns, b).rewrites|, {NodeKey(a)}, true)
            && DeniesSwept(w, s, map[NodeKey(b) := false], {NodeKey(a), NodeKey(b)})
            && Derivable(w, s, b)
  {
    var rels := map[
      "a" := RelationDef([], [ComputedUserset("b"), ComputedUserset("g")]),
      "b" := RelationDef([], [ComputedUserset("a")]),
      "g" := RelationDef([s.typ], [This])];
    var w := World(Namespace(map["t" := rels]), {Tuple("t", "o", "g", s.typ, s.id, "")});
    var a, b, g := Node("t", "o", "a"), Node("t", "o", "b"), Node("t", "o", "g");
    assert Names(Tuple("t", "o", "g", s.typ, s.id, ""), Def(w.ns, g), s);
    DerivableStep(w, s, g);
    assert RefersBy(w, a, ComputedUserset("g"), g);
    RewriteDerives(w, s, a, ComputedUserset("g"));
    assert RefersBy(w, b, ComputedUserset("a"), a);
    RewriteDerives(w, s, b, ComputedUserset("a"));
    forall x | Known(w.ns, x) && NodeKey(x) in map[NodeKey(b) := false]
      ensures x == b
    {
      assert x.objType == "t" && x.relation in rels;
      NodeKeyInjective(x, b);
    }
  }

  // ----- how deep a search can get

  function RelationsOf(rw: Rewrite): seq<string> {
    match rw
    case ComputedUserset(r) => [r]
    case TupleToUserset(_, r) => [r]
    case _ => []
  }

  /** A finite set of nodes that contains the root and is closed under reference. */
  ghost function Universe(w: World, root: Node): set<Node> {
    set o, r | o in Objects(w, root) && r in Relations(w, root) :: Node(o.0, o.1, r)
  }

  ghost function Objects(w: World, root: Node): set<(string, string)> {
    {(root.objType, root.objID)} + set t | t in w.tuples :: (t.subjectType, t.subjectID)
  }

  ghost function Relations(w: World, root: Node): set<string> {
    {root.relation} + (set t | t in w.tuples :: t.subjectRelation)
    + set ty, r, rw, x | ty in w.ns.types && r in w.ns.types[ty] && rw in w.ns.types[ty][r].rewrites && x in RelationsOf(rw) :: x
  }

  ghost function KnownReachable(w: World, root: Node): set<Node> {
    set n | n in Universe(w, root) && Known(w.ns, n) && Reaches(w, root, n)
  }

  lemma UniverseClosed(w: World, root: Node, n: Node, m: Node)
    requires n in Universe(w, root) && Refers(w, n, m)
    ensures m in Universe(w, root)
  {
    var rw :| rw in Def(w.ns, n).rewrites && RefersBy(w, n, rw, m);
    assert n.objType in w.ns.types && n.relation in w.ns.types[n.objType];
    assert rw.ComputedUserset? || rw.TupleToUserset? ==> m.relation in RelationsOf(rw);
    assert (m.objType, m.objID) in Objects(w, root);
    assert m.relation in Relations(w, root);
  }

  lemma {:induction false} TrailInit(w: World, root: Node, p: seq<Node>)
    requires Trail(w, root, p) && p != []
    ensures Trail(w, root, p[..|p| - 1]) && Leads(w, root, p[..|p| - 1], p[|p| - 1]) && Known(w.ns, p[|p| - 1])
  {
  }

  lemma {:induction false} TrailInUniverse(w: World, root: Node, p: seq<Node>)
    requires Trail(w, root, p)
    ensures forall n :: n in p ==> n in KnownReachable(w, root)
  {
    if p != [] {
      var q, n := p[..|p| - 1], p[|p| - 1];
      TrailInit(w, root, p);
      TrailInUniverse(w, root, q);
      EndOfTrail(w, root, q, n);
      NextInUniverse(w, root, q, n);
      assert p == q + [n];
    }
  }

  lemma {:induction false} NextInUniverse(w: World, root: Node, q: seq<Node>, n: Node)
    requires Leads(w, root, q, n) && forall x :: x in q ==> x in Universe(w, root)
    ensures n in Universe(w, root)
  {
    if q != [] {
      UniverseClosed(w, root, q[|q| - 1], n);
    } else {
      assert (n.objType, n.objID) in Objects(w, root) && n.relation in Relations(w, root);
    }
  }

  lemma {:induction false} DistinctFit(p: seq<Node>, r: set<Node>)
    requires forall i, j :: 0 <= i < j < |p| ==> p[i] != p[j]
    requires forall n :: n in p ==> n in r
    ensures |p| <= |r|
  {
    if p != [] {
      DistinctFit(p[1..], r - {p[0]});
    }
  }

  /** The cap cannot bind when it is at least the number of reachable nodes. */
  lemma DepthBoundedByReach(w: World, root: Node, d: int)
    requires |KnownReachable(w, root)| <= d
    ensures !Exceeds(w, root, d)
  {
    forall p | Trail(w, root, p)
      ensures |p| <= d
    {
      TrailInUniverse(w, root, p);
      DistinctFit(p, KnownReachable(w, root));
    }
  }

  /** Nor when a rank that every reference lowers starts no higher than the cap. */
  lemma {:induction false} DepthBoundedByRank(w: World, root: Node, rank: Node -> nat, p: seq<Node>, n: Node)
    requires forall x, m :: Refers(w, x, m) ==> rank(m) < rank(x)
    requires Trail(w, root, p) && Leads(w, root, p, n)
    ensures |p| + rank(n) <= rank(root)
  {
    if p != [] {
      var q, x := p[..|p| - 1], p[|p| - 1];
      assert Leads(w, root, q, x);
      DepthBoundedByRank(w, root, rank, q, x);
    }
  }
}
