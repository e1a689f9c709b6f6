/** The fixed authorization model (internal/authz/config.go) and what it grants. */
module AuthzNamespace {
  import opened AuthzModel
  import opened AuthzCheck

  const USER := "user"
  const SYSTEM := "system"
  const TENANT := "tenant"
  const DOCUMENT := "document"
  const ADMIN := "admin"
  const OWNER := "owner"
  const MANAGER := "manager"
  const MEMBER := "member"
  const VIEWER := "viewer"
  const EDITOR := "editor"

  function DefaultNamespace(): Namespace {
    Namespace(map[
                USER := map[],
                SYSTEM := map[ADMIN := RelationDef([USER], [This])],
                TENANT := map[
                  SYSTEM := RelationDef([SYSTEM], [This]),
                  ADMIN := RelationDef([USER], [This, TupleToUserset(SYSTEM, ADMIN)]),
                  OWNER := RelationDef([USER], [This]),
                  MANAGER := RelationDef([USER], [This, ComputedUserset(ADMIN), ComputedUserset(OWNER)]),
                  MEMBER := RelationDef([USER], [This, ComputedUserset(MANAGER)]),
                  VIEWER := RelationDef([USER, USER + ":" + WILDCARD], [This, ComputedUserset(MEMBER)])
                ],
                DOCUMENT := map[
                  TENANT := RelationDef([TENANT], [This]),
                  VIEWER := RelationDef([USER], [This, ComputedUserset(EDITOR), TupleToUserset(TENANT, VIEWER)]),
                  EDITOR := RelationDef([USER], [This, TupleToUserset(TENANT, MEMBER)])
                ]
              ])
  }

  function Default(tuples: set<Tuple>): World {
    World(DefaultNamespace(), tuples)
  }

  lemma NamesDiffer()
    ensures USER != SYSTEM && USER != TENANT && USER != DOCUMENT && SYSTEM != TENANT && SYSTEM != DOCUMENT && TENANT != DOCUMENT
    ensures forall a, b {:trigger a + b} :: a in RELATIONS && b in RELATIONS && a[0] != b[0] ==> a != b
    ensures MANAGER != MEMBER
    ensures forall ty: string :: ty + ":" + WILDCARD != USER
  {
    assert SYSTEM[0] != TENANT[0];
    assert |MANAGER| != |MEMBER|;
    assert forall ty: string :: (ty + ":" + WILDCARD)[|ty| + 1] == '*';
  }

  const RELATIONS := [SYSTEM, ADMIN, OWNER, MANAGER, MEMBER, VIEWER, EDITOR, TENANT]

  lemma DefaultWellNamed()
    ensures WellNamed(DefaultNamespace())
  {
  }

  ghost predicate UsersetFree(tuples: set<Tuple>) {
    forall t :: t in tuples ==> t.subjectRelation == ""
  }

  /** Parent edges point at objects of the type the model names. */
  ghost predicate WellTyped(tuples: set<Tuple>) {
    && UsersetFree(tuples)
    && (forall t :: t in tuples && t.objectType == TENANT && t.relation == SYSTEM ==> t.subjectType == SYSTEM)
    && (forall t :: t in tuples && t.objectType == DOCUMENT && t.relation == TENANT ==> t.subjectType == TENANT)
  }

  ghost predicate Parent(w: World, objType: string, objID: string, edge: string, parentType: string, parentID: string) {
    exists t :: t in w.tuples && On(t, objType, objID, edge)
                && t.subjectRelation == "" && t.subjectType == parentType && t.subjectID == parentID
  }

  /** All references of the default model, read off once. */
  lemma DefaultRefers(tuples: set<Tuple>, n: Node, m: Node)
    requires UsersetFree(tuples) && Refers(Default(tuples), n, m)
    ensures n.objType == TENANT || n.objType == DOCUMENT
    ensures n.objType == TENANT ==>
              || (n.relation == ADMIN && m.relation == ADMIN && Parent(Default(tuples), TENANT, n.objID, SYSTEM, m.objType, m.objID))
              || (n.relation == MANAGER && (m == Node(TENANT, n.objID, ADMIN) || m == Node(TENANT, n.objID, OWNER)))
              || (n.relation == MEMBER && m == Node(TENANT, n.objID, MANAGER))
              || (n.relation == VIEWER && m == Node(TENANT, n.objID, MEMBER))
    ensures n.objType == DOCUMENT ==>
              || (n.relation == VIEWER && m == Node(DOCUMENT, n.objID, EDITOR))
              || (n.relation == VIEWER && m.relation == VIEWER && Parent(Default(tuples), DOCUMENT, n.objID, TENANT, m.objType, m.objID))
              || (n.relation == EDITOR && m.relation == MEMBER && Parent(Default(tuples), DOCUMENT, n.objID, TENANT, m.objType, m.objID))
  {
    NamesDiffer();
    var w := Default(tuples);
    var rw :| rw in Def(w.ns, n).rewrites && RefersBy(w, n, rw, m);
  }

  // ----- depth

  function Rank(n: Node): nat {
    if n.objType == DOCUMENT then
      if n.relation == VIEWER then 5 else if n.relation == EDITOR then 4 else 0
    else if n.objType == TENANT then
      if n.relation == VIEWER then 4 else if n.relation == MEMBER then 3 else if n.relation == MANAGER then 2
      else if n.relation == ADMIN then 1 else 0
    else 0
  }

  lemma {:induction false} ReferenceDescends(tuples: set<Tuple>, x: Node, m: Node)
    requires WellTyped(tuples) && Refers(Default(tuples), x, m)
    ensures Rank(m) < Rank(x) && Known(DefaultNamespace(), m)
  {
    NamesDiffer();
    DefaultRefers(tuples, x, m);
  }

  /** In a well-typed store no search goes deeper than 5 and none that starts at a relation of the
      model meets an unknown one. */
  lemma {:induction false} DefaultDepth(tuples: set<Tuple>, root: Node)
    requires WellTyped(tuples)
    ensures !Exceeds(Default(tuples), root, 5)
    ensures Known(DefaultNamespace(), root) ==> !ReachesUnknown(Default(tuples), root)
  {
    var w := Default(tuples);
    forall x, m | Refers(w, x, m)
      ensures Rank(m) < Rank(x) && Known(w.ns, m)
    {
      ReferenceDescends(tuples, x, m);
    }
    assert Rank(root) <= 5;
    forall p, n | Trail(w, root, p) && Leads(w, root, p, n)
      ensures |p| <= Rank(root)
    {
      DepthBoundedByRank(w, root, Rank, p, n);
    }
  }

  /** The bound is attained: a document view checked down to the system administrators. */
  lemma {:induction false} DepthFiveIsReached() returns (tuples: set<Tuple>, root: Node)
    ensures WellTyped(tuples) && Exceeds(Default(tuples), root, 4)
  {
    var a, b := Tuple(DOCUMENT, "d", TENANT, TENANT, "t", ""), Tuple(TENANT, "t", SYSTEM, SYSTEM, "memory", "");
    tuples := {a, b};
    root := Node(DOCUMENT, "d", VIEWER);
    var p := [root, Node(DOCUMENT, "d", EDITOR), Node(TENANT, "t", MEMBER), Node(TENANT, "t", MANAGER), Node(TENANT, "t", ADMIN)];
    var end := Node(SYSTEM, "memory", ADMIN);
    LongChain(Default(tuples), p, end);
    ChainExceeds(Default(tuples), p, end);
    PairWellTyped(a, b);
  }

  lemma {:induction false} PairWellTyped(a: Tuple, b: Tuple)
    requires a.objectType == DOCUMENT && a.subjectType == TENANT && a.subjectRelation == ""
    requires b.objectType == TENANT && b.subjectType == SYSTEM && b.subjectRelation == ""
    ensures WellTyped({a, b})
  {
    NamesDiffer();
  }

  lemma {:induction false} ChainExceeds(w: World, p: seq<Node>, end: Node)
    requires |p| == 5 && forall i :: 0 <= i < 5 ==> Known(w.ns, p[i]) && Rank(p[i]) == 5 - i
    requires Refers(w, p[0], p[1]) && Refers(w, p[1], p[2]) && Refers(w, p[2], p[3]) && Refers(w, p[3], p[4]) && Refers(w, p[4], end)
    ensures Exceeds(w, p[0], 4)
  {
    assert Trail(w, p[0], p);
    assert Leads(w, p[0], p, end);
    EndOfTrail(w, p[0], p, end);
  }

  lemma {:induction false} LongChain(w: World, p: seq<Node>, end: Node)
    requires w.ns == DefaultNamespace()
    requires p == [Node(DOCUMENT, "d", VIEWER), Node(DOCUMENT, "d", EDITOR), Node(TENANT, "t", MEMBER),
                   Node(TENANT, "t", MANAGER), Node(TENANT, "t", ADMIN)]
    requires end == Node(SYSTEM, "memory", ADMIN)
    requires Tuple(DOCUMENT, "d", TENANT, TENANT, "t", "") in w.tuples
    requires Tuple(TENANT, "t", SYSTEM, SYSTEM, "memory", "") in w.tuples
    ensures forall i :: 0 <= i < 5 ==> Known(w.ns, p[i]) && Rank(p[i]) == 5 - i
    ensures Refers(w, p[0], p[1]) && Refers(w, p[1], p[2]) && Refers(w, p[2], p[3]) && Refers(w, p[3], p[4]) && Refers(w, p[4], end)
  {
    ChainRanks(w.ns, p);
    DocumentRefers(w);
    TenantRefers(w);
  }

  lemma {:induction false} ChainRanks(ns: Namespace, p: seq<Node>)
    requires ns == DefaultNamespace()
    requires p == [Node(DOCUMENT, "d", VIEWER), Node(DOCUMENT, "d", EDITOR), Node(TENANT, "t", MEMBER),
                   Node(TENANT, "t", MANAGER), Node(TENANT, "t", ADMIN)]
    ensures forall i :: 0 <= i < 5 ==> Known(ns, p[i]) && Rank(p[i]) == 5 - i
  {
    NamesDiffer();
  }

  lemma {:induction false} DocumentRefers(w: World)
    requires w.ns == DefaultNamespace() && Tuple(DOCUMENT, "d", TENANT, TENANT, "t", "") in w.tuples
    ensures Refers(w, Node(DOCUMENT, "d", VIEWER), Node(DOCUMENT, "d", EDITOR))
    ensures Refers(w, Node(DOCUMENT, "d", EDITOR), Node(TENANT, "t", MEMBER))
  {
    NamesDiffer();
    assert RefersBy(w, Node(DOCUMENT, "d", VIEWER), ComputedUserset(EDITOR), Node(DOCUMENT, "d", EDITOR));
    assert RefersBy(w, Node(DOCUMENT, "d", EDITOR), TupleToUserset(TENANT, MEMBER), Node(TENANT, "t", MEMBER));
  }

  lemma {:induction false} TenantRefers(w: World)
    requires w.ns == DefaultNamespace() && Tuple(TENANT, "t", SYSTEM, SYSTEM, "memory", "") in w.tuples
    ensures Refers(w, Node(TENANT, "t", MEMBER), Node(TENANT, "t", MANAGER))
    ensures Refers(w, Node(TENANT, "t", MANAGER), Node(TENANT, "t", ADMIN))
    ensures Refers(w, Node(TENANT, "t", ADMIN), Node(SYSTEM, "memory", ADMIN))
  {
    NamesDiffer();
    assert RefersBy(w, Node(TENANT, "t", MEMBER), ComputedUserset(MANAGER), Node(TENANT, "t", MANAGER));
    assert RefersBy(w, Node(TENANT, "t", MANAGER), ComputedUserset(ADMIN), Node(TENANT, "t", ADMIN));
    assert RefersBy(w, Node(TENANT, "t", ADMIN), TupleToUserset(SYSTEM, ADMIN), Node(SYSTEM, "memory", ADMIN));
  }

  // ----- who holds what, without recursion

  ghost predicate AdminOf(w: World, s: Subject, t: string) {
    || NamedOn(w, s, Node(TENANT, t, ADMIN))
    || exists sys :: Parent(w, TENANT, t, SYSTEM, SYSTEM, sys) && NamedOn(w, s, Node(SYSTEM, sys, ADMIN))
  }

  ghost predicate ManagerOf(w: World, s: Subject, t: string) {
    AdminOf(w, s, t) || NamedOn(w, s, Node(TENANT, t, OWNER)) || NamedOn(w, s, Node(TENANT, t, MANAGER))
  }

  ghost predicate MemberOf(w: World, s: Subject, t: string) {
    ManagerOf(w, s, t) || NamedOn(w, s, Node(TENANT, t, MEMBER))
  }

  ghost predicate ViewerOf(w: World, s: Subject, t: string) {
    MemberOf(w, s, t) || NamedOn(w, s, Node(TENANT, t, VIEWER))
  }

  ghost predicate EditorOf(w: World, s: Subject, d: string) {
    || NamedOn(w, s, Node(DOCUMENT, d, EDITOR))
    || exists t :: Parent(w, DOCUMENT, d, TENANT, TENANT, t) && MemberOf(w, s, t)
  }

  ghost predicate ReaderOf(w: World, s: Subject, d: string) {
    || NamedOn(w, s, Node(DOCUMENT, d, VIEWER))
    || EditorOf(w, s, d)
    || exists t :: Parent(w, DOCUMENT, d, TENANT, TENANT, t) && ViewerOf(w, s, t)
  }

  /** A node whose references are exactly ms is held by those it names and those who hold one of ms. */
  lemma HeldThrough(tuples: set<Tuple>, s: Subject, n: Node, ms: iset<Node>)
    requires var w := Default(tuples);
             && Known(w.ns, n) && This in Def(w.ns, n).rewrites
             && (forall m :: Refers(w, n, m) ==> m in ms)
             && (forall m :: m in ms ==> exists rw :: rw in Def(w.ns, n).rewrites && RefersBy(w, n, rw, m))
    ensures var w := Default(tuples); Derivable(w, s, n) <==> NamedOn(w, s, n) || exists m :: m in ms && Derivable(w, s, m)
  {
    DerivableStep(Default(tuples), s, n);
    assert forall m :: m in ms ==> Refers(Default(tuples), n, m);
  }

  lemma HeldBySiblings(tuples: set<Tuple>, s: Subject, n: Node, a: string, b: string)
    requires UsersetFree(tuples) && Known(DefaultNamespace(), n)
    requires var rws := Def(DefaultNamespace(), n).rewrites;
             rws == [This, ComputedUserset(a), ComputedUserset(b)] || (a == b && rws == [This, ComputedUserset(a)])
    ensures var w := Default(tuples);
            Derivable(w, s, n) <==>
            NamedOn(w, s, n) || Derivable(w, s, Node(n.objType, n.objID, a)) || Derivable(w, s, Node(n.objType, n.objID, b))
  {
    var w, ms := Default(tuples), iset{Node(n.objType, n.objID, a), Node(n.objType, n.objID, b)};
    assert RefersBy(w, n, ComputedUserset(a), Node(n.objType, n.objID, a));
    assert RefersBy(w, n, ComputedUserset(b), Node(n.objType, n.objID, b));
    HeldThrough(tuples, s, n, ms);
  }

  lemma OnlyNamed(tuples: set<Tuple>, s: Subject, n: Node)
    requires UsersetFree(tuples) && Known(DefaultNamespace(), n) && Def(DefaultNamespace(), n).rewrites == [This]
    ensures Derivable(Default(tuples), s, n) <==> NamedOn(Default(tuples), s, n)
  {
    HeldThrough(tuples, s, n, iset{});
  }

  lemma AdminGrants(tuples: set<Tuple>, s: Subject, t: string)
    requires WellTyped(tuples)
    ensures var w := Default(tuples); Derivable(w, s, Node(TENANT, t, ADMIN)) <==> AdminOf(w, s, t)
  {
    NamesDiffer();
    var w, n := Default(tuples), Node(TENANT, t, ADMIN);
    var ms := iset sys | Parent(w, TENANT, t, SYSTEM, SYSTEM, sys) :: Node(SYSTEM, sys, ADMIN);
    forall m | Refers(w, n, m)
      ensures m in ms
    {
      DefaultRefers(tuples, n, m);
    }
    forall m | m in ms
      ensures RefersBy(w, n, TupleToUserset(SYSTEM, ADMIN), m)
    {
    }
    HeldThrough(tuples, s, n, ms);
    forall sys {
      OnlyNamed(tuples, s, Node(SYSTEM, sys, ADMIN));
    }
  }

  /** Tenant relations in closed form. */
  lemma TenantGrants(tuples: set<Tuple>, s: Subject, t: string)
    requires WellTyped(tuples)
    ensures var w := Default(tuples);
            && (Derivable(w, s, Node(TENANT, t, ADMIN)) <==> AdminOf(w, s, t))
            && (Derivable(w, s, Node(TENANT, t, MANAGER)) <==> ManagerOf(w, s, t))
            && (Derivable(w, s, Node(TENANT, t, MEMBER)) <==> MemberOf(w, s, t))
            && (Derivable(w, s, Node(TENANT, t, VIEWER)) <==> ViewerOf(w, s, t))
  {
    NamesDiffer();
    AdminGrants(tuples, s, t);
    OnlyNamed(tuples, s, Node(TENANT, t, OWNER));
    HeldBySiblings(tuples, s, Node(TENANT, t, MANAGER), ADMIN, OWNER);
    HeldBySiblings(tuples, s, Node(TENANT, t, MEMBER), MANAGER, MANAGER);
    HeldBySiblings(tuples, s, Node(TENANT, t, VIEWER), MEMBER, MEMBER);
  }

  /** Document relations in closed form. */
  lemma DocumentGrants(tuples: set<Tuple>, s: Subject, d: string)
    requires WellTyped(tuples)
    ensures var w := Default(tuples);
            && (Derivable(w, s, Node(DOCUMENT, d, EDITOR)) <==> EditorOf(w, s, d))
            && (Derivable(w, s, Node(DOCUMENT, d, VIEWER)) <==> ReaderOf(w, s, d))
  {
    NamesDiffer();
    var w, e, v := Default(tuples), Node(DOCUMENT, d, EDITOR), Node(DOCUMENT, d, VIEWER);
    var es := iset t | Parent(w, DOCUMENT, d, TENANT, TENANT, t) :: Node(TENANT, t, MEMBER);
    var vs := (iset t | Parent(w, DOCUMENT, d, TENANT, TENANT, t) :: Node(TENANT, t, VIEWER)) + iset{e};
    forall m | Refers(w, e, m)
      ensures m in es
    {
      DefaultRefers(tuples, e, m);
    }
    forall m | Refers(w, v, m)
      ensures m in vs
    {
      DefaultRefers(tuples, v, m);
    }
    forall m | m in es
      ensures RefersBy(w, e, TupleToUserset(TENANT, MEMBER), m)
    {
    }
    forall m | m in vs
      ensures RefersBy(w, v, TupleToUserset(TENANT, VIEWER), m) || RefersBy(w, v, ComputedUserset(EDITOR), m)
    {
    }
    HeldThrough(tuples, s, e, es);
    HeldThrough(tuples, s, v, vs);
    forall t {
      TenantGrants(tuples, s, t);
    }
  }

  // ----- the same for a user, as conditions on which tuples are stored

  lemma {:induction false} NamedUser(tuples: set<Tuple>, u: string, n: Node)
    requires UsersetFree(tuples) && Known(DefaultNamespace(), n) && USER in Def(DefaultNamespace(), n).directSubjects
    ensures NamedOn(Default(tuples), Subject("user", u), n) <==>
            || Tuple(n.objType, n.objID, n.relation, "user", u, "") in tuples
            || (n.objType == "tenant" && n.relation == "viewer" && Tuple(n.objType, n.objID, n.relation, "user", "*", "") in tuples)
  {
    NamesDiffer();
    var def := Def(DefaultNamespace(), n);
    assert "user" + ":" + WILDCARD in def.directSubjects <==> n.objType == TENANT && n.relation == VIEWER;
    if NamedOn(Default(tuples), Subject("user", u), n) {
      var t :| t in tuples && On(t, n.objType, n.objID, n.relation) && Names(t, def, Subject("user", u));
      assert t == Tuple(n.objType, n.objID, n.relation, "user", t.subjectID, "");
    }
    assert forall x :: Names(Tuple(n.objType, n.objID, n.relation, "user", x, ""), def, Subject("user", u)) <==>
                         x == u || (x == "*" && n.objType == TENANT && n.relation == VIEWER);
  }

  /** Which tuples make a user admin, manager, member or viewer of a tenant. */
  lemma {:induction false} TenantUsers(tuples: set<Tuple>, u: string, t: string)
    requires WellTyped(tuples)
    ensures var w, s := Default(tuples), Subject("user", u);
            && (Derivable(w, s, Node("tenant", t, "admin")) <==>
                || Tuple("tenant", t, "admin", "user", u, "") in tuples
                || (exists y ::
                      Tuple("tenant", t, "system", "system", y, "") in tuples && Tuple("system", y, "admin", "user", u, "") in tuples))
            && (Derivable(w, s, Node("tenant", t, "manager")) <==>
                || Derivable(w, s, Node("tenant", t, "admin"))
                || Tuple("tenant", t, "owner", "user", u, "") in tuples || Tuple("tenant", t, "manager", "user", u, "") in tuples)
            && (Derivable(w, s, Node("tenant", t, "member")) <==>
                Derivable(w, s, Node("tenant", t, "manager")) || Tuple("tenant", t, "member", "user", u, "") in tuples)
            && (Derivable(w, s, Node("tenant", t, "viewer")) <==>
                || Derivable(w, s, Node("tenant", t, "member"))
                || Tuple("tenant", t, "viewer", "user", u, "") in tuples || Tuple("tenant", t, "viewer", "user", "*", "") in tuples)
  {
    NamesDiffer();
    TenantGrants(tuples, Subject("user", u), t);
    NamedUser(tuples, u, Node(TENANT, t, ADMIN));
    NamedUser(tuples, u, Node(TENANT, t, OWNER));
    NamedUser(tuples, u, Node(TENANT, t, MANAGER));
    NamedUser(tuples, u, Node(TENANT, t, MEMBER));
    NamedUser(tuples, u, Node(TENANT, t, VIEWER));
    forall y
      ensures Parent(Default(tuples), TENANT, t, SYSTEM, SYSTEM, y) <==> Tuple("tenant", t, "system", "system", y, "") in tuples
      ensures NamedOn(Default(tuples), Subject("user", u), Node(SYSTEM, y, ADMIN)) <==>
                Tuple("system", y, "admin", "user", u, "") in tuples
    {
      ParentTuple(tuples, TENANT, t, SYSTEM, SYSTEM, y);
      NamedUser(tuples, u, Node(SYSTEM, y, ADMIN));
    }
  }

  lemma ParentTuple(tuples: set<Tuple>, o: string, id: string, edge: string, parentType: string, parent: string)
    ensures Parent(Default(tuples), o, id, edge, parentType, parent) <==> Tuple(o, id, edge, parentType, parent, "") in tuples
  {
    if Parent(Default(tuples), o, id, edge, parentType, parent) {
      var t :| t in tuples && On(t, o, id, edge) && t.subjectRelation == "" && t.subjectType == parentType && t.subjectID == parent;
      assert t == Tuple(o, id, edge, parentType, parent, "");
    }
    assert On(Tuple(o, id, edge, parentType, parent, ""), o, id, edge);
  }

  /** Which tuples let a user edit and read a document. */
  lemma {:induction false} DocumentUsers(tuples: set<Tuple>, u: string, d: string)
    requires WellTyped(tuples)
    ensures var w, s := Default(tuples), Subject("user", u);
            && (Derivable(w, s, Node("document", d, "editor")) <==>
                || Tuple("document", d, "editor", "user", u, "") in tuples
                || (exists t :: Tuple("document", d, "tenant", "tenant", t, "") in tuples && Derivable(w, s, Node("tenant", t, "member"))))
            && (Derivable(w, s, Node("document", d, "viewer")) <==>
                || Derivable(w, s, Node("document", d, "editor"))
                || Tuple("document", d, "viewer", "user", u, "") in tuples
                || (exists t :: Tuple("document", d, "tenant", "tenant", t, "") in tuples && Derivable(w, s, Node("tenant", t, "viewer"))))
  {
    NamesDiffer();
    var w, s := Default(tuples), Subject("user", u);
    DocumentGrants(tuples, s, d);
    NamedUser(tuples, u, Node(DOCUMENT, d, EDITOR));
    NamedUser(tuples, u, Node(DOCUMENT, d, VIEWER));
    forall t
      ensures Parent(w, DOCUMENT, d, TENANT, TENANT, t) <==> Tuple("document", d, "tenant", "tenant", t, "") in tuples
      ensures MemberOf(w, s, t) <==> Derivable(w, s, Node("tenant", t, "member"))
      ensures ViewerOf(w, s, t) <==> Derivable(w, s, Node("tenant", t, "viewer"))
    {
      ParentTuple(tuples, DOCUMENT, d, TENANT, TENANT, t);
      TenantGrants(tuples, s, t);
    }
  }

  /** A public tenant: one wildcard viewer tuple lets every user view it and read its documents, in any store. */
  lemma {:induction false} PublicTenant(tuples: set<Tuple>, u: string, t: string, d: string)
    requires Tuple("tenant", t, "viewer", "user", "*", "") in tuples
    ensures Derivable(Default(tuples), Subject("user", u), Node("tenant", t, "viewer"))
    ensures Tuple("document", d, "tenant", "tenant", t, "") in tuples ==>
              Derivable(Default(tuples), Subject("user", u), Node("document", d, "viewer"))
  {
    NamesDiffer();
    var w, n, s := Default(tuples), Node("tenant", t, "viewer"), Subject("user", u);
    var def := Def(w.ns, n);
    assert def.directSubjects[1] == "user" + ":*" && def.rewrites[0] == This;
    WildcardGrants(w, n, "user", u);
    GrantIff(w, s, Node("document", d, "viewer"));
    var rws := Def(w.ns, Node("document", d, "viewer")).rewrites;
    assert rws[2] == TupleToUserset("tenant", "viewer");
  }

  // ----- inclusion and non-interference in every userset-free store

  /** system#admin, tenant#admin, manager, member, viewer: each includes the one before it. */
  lemma InclusionChain(tuples: set<Tuple>, s: Subject, sys: string, t: string)
    requires Parent(Default(tuples), TENANT, t, SYSTEM, SYSTEM, sys)
    ensures var w := Default(tuples);
            && (Derivable(w, s, Node(SYSTEM, sys, ADMIN)) ==> Derivable(w, s, Node(TENANT, t, ADMIN)))
            && (Derivable(w, s, Node(TENANT, t, ADMIN)) ==> Derivable(w, s, Node(TENANT, t, MANAGER)))
            && (Derivable(w, s, Node(TENANT, t, OWNER)) ==> Derivable(w, s, Node(TENANT, t, MANAGER)))
            && (Derivable(w, s, Node(TENANT, t, MANAGER)) ==> Derivable(w, s, Node(TENANT, t, MEMBER)))
            && (Derivable(w, s, Node(TENANT, t, MEMBER)) ==> Derivable(w, s, Node(TENANT, t, VIEWER)))
  {
    NamesDiffer();
    var w := Default(tuples);
    Included(w, s, Node(TENANT, t, ADMIN), TupleToUserset(SYSTEM, ADMIN), Node(SYSTEM, sys, ADMIN));
    Included(w, s, Node(TENANT, t, MANAGER), ComputedUserset(ADMIN), Node(TENANT, t, ADMIN));
    Included(w, s, Node(TENANT, t, MANAGER), ComputedUserset(OWNER), Node(TENANT, t, OWNER));
    Included(w, s, Node(TENANT, t, MEMBER), ComputedUserset(MANAGER), Node(TENANT, t, MANAGER));
    Included(w, s, Node(TENANT, t, VIEWER), ComputedUserset(MEMBER), Node(TENANT, t, MEMBER));
  }

  lemma Included(w: World, s: Subject, n: Node, rw: Rewrite, m: Node)
    requires Known(w.ns, n) && rw in Def(w.ns, n).rewrites && RefersBy(w, n, rw, m)
    ensures Derivable(w, s, m) ==> Derivable(w, s, n)
  {
    DerivableStep(w, s, n);
  }

  /** Two worlds give the same grants on a region closed under reference in which they agree on the
      names and on the references to known nodes. */
  lemma {:induction false} AgreeOn(w: World, w': World, s: Subject, region: iset<Node>, n: Node, k: nat)
    requires w.ns == w'.ns && n in region
    requires forall x :: x in region && Direct(w, s, x) ==> Direct(w', s, x)
    requires forall x, m :: x in region && Refers(w, x, m) && Known(w.ns, m) ==> m in region && Refers(w', x, m)
    ensures DerivableWithin(w, s, n, k) ==> Derivable(w', s, n)
    decreases k
  {
    if DerivableWithin(w, s, n, k) {
      DerivableStep(w', s, n);
      if !Direct(w, s, n) {
        var m :| Refers(w, n, m) && DerivableWithin(w, s, m, k - 1);
        AgreeOn(w, w', s, region, m, k - 1);
      }
    }
  }

  ghost predicate IsPublic(t: Tuple) {
    t.subjectType == USER && t.subjectID == WILDCARD && t.subjectRelation == ""
  }

  const CLOSED_RELATIONS := [ADMIN, OWNER, MANAGER, MEMBER, EDITOR]

  /** Public (user:*) tuples grant a concrete subject nothing but viewing. */
  lemma PublicTuplesOnlyView(tuples: set<Tuple>, s: Subject, n: Node)
    requires UsersetFree(tuples) && s.id != WILDCARD && n.relation in CLOSED_RELATIONS
    ensures Derivable(Default(tuples), s, n) <==> Derivable(Default(set t | t in tuples && !IsPublic(t)), s, n)
  {
    NamesDiffer();
    var w, w' := Default(tuples), Default(set t | t in tuples && !IsPublic(t));
    var region := iset x: Node | x.relation in CLOSED_RELATIONS;
    forall x | x in region
      ensures Direct(w, s, x) <==> Direct(w', s, x)
      ensures forall m :: Refers(w, x, m) && Known(w.ns, m) ==> m in region && Refers(w', x, m)
      ensures forall m :: Refers(w', x, m) ==> m in region && Refers(w, x, m)
    {
      PublicNeverNames(tuples, s, x);
      forall m | Refers(w, x, m) || Refers(w', x, m)
        ensures m in region
        ensures Refers(w, x, m)
        ensures Known(w.ns, m) ==> Refers(w', x, m)
      {
        if Refers(w, x, m) { DefaultRefers(tuples, x, m); } else { DefaultRefers(w'.tuples, x, m); }
        PublicNeverParent(tuples, x, m);
      }
    }
    if Derivable(w, s, n) {
      var k: nat :| DerivableWithin(w, s, n, k);
      AgreeOn(w, w', s, region, n, k);
    }
    if Derivable(w', s, n) {
      var k: nat :| DerivableWithin(w', s, n, k);
      AgreeOn(w', w, s, region, n, k);
    }
  }

  lemma PublicNeverNames(tuples: set<Tuple>, s: Subject, x: Node)
    requires UsersetFree(tuples) && s.id != WILDCARD && x.relation in CLOSED_RELATIONS
    ensures NamedOn(Default(tuples), s, x) <==> NamedOn(Default(set t | t in tuples && !IsPublic(t)), s, x)
  {
    NamesDiffer();
    if Known(DefaultNamespace(), x) {
      assert Def(DefaultNamespace(), x).directSubjects == [USER];
    }
  }

  lemma PublicNeverParent(tuples: set<Tuple>, x: Node, m: Node)
    requires UsersetFree(tuples)
    ensures var w, w' := Default(tuples), Default(set t | t in tuples && !IsPublic(t));
            && (Refers(w', x, m) ==> Refers(w, x, m))
            && (Refers(w, x, m) && Known(w.ns, m) ==> Refers(w', x, m))
  {
    NamesDiffer();
    var w, w' := Default(tuples), Default(set t | t in tuples && !IsPublic(t));
    if Refers(w', x, m) {
      var rw :| rw in Def(w.ns, x).rewrites && RefersBy(w', x, rw, m);
      assert RefersBy(w, x, rw, m);
    }
    if Refers(w, x, m) && Known(w.ns, m) {
      var rw :| rw in Def(w.ns, x).rewrites && RefersBy(w, x, rw, m);
      assert m.objType != USER;
      assert RefersBy(w', x, rw, m);
    }
  }

  /** An owner is never an administrator: no owner tuple takes part in an admin grant. */
  lemma OwnersAreNotAdmins(tuples: set<Tuple>, s: Subject, n: Node)
    requires UsersetFree(tuples) && n.relation == ADMIN
    ensures Derivable(Default(tuples), s, n) <==> Derivable(Default(set t | t in tuples && t.relation != OWNER), s, n)
  {
    NamesDiffer();
    var w, w' := Default(tuples), Default(set t | t in tuples && t.relation != OWNER);
    var region := iset x: Node | x.relation == ADMIN;
    forall x | x in region
      ensures Direct(w, s, x) <==> Direct(w', s, x)
      ensures forall m :: Refers(w, x, m) <==> Refers(w', x, m)
      ensures forall m :: Refers(w, x, m) ==> m in region
    {
      forall m
        ensures Refers(w, x, m) <==> Refers(w', x, m)
        ensures Refers(w, x, m) ==> m in region
      {
        if Refers(w, x, m) {
          DefaultRefers(tuples, x, m);
          var rw :| rw in Def(w.ns, x).rewrites && RefersBy(w, x, rw, m);
          assert RefersBy(w', x, rw, m);
        }
        if Refers(w', x, m) {
          var rw :| rw in Def(w.ns, x).rewrites && RefersBy(w', x, rw, m);
          assert RefersBy(w, x, rw, m);
        }
      }
    }
    if Derivable(w, s, n) {
      var k: nat :| DerivableWithin(w, s, n, k);
      AgreeOn(w, w', s, region, n, k);
    }
    if Derivable(w', s, n) {
      var k: nat :| DerivableWithin(w', s, n, k);
      AgreeOn(w', w, s, region, n, k);
    }
  }
}
