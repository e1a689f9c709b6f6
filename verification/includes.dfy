/** Include expansion (internal/service/includes.go): a bounded, cycle-safe, de-duplicating
    depth-first walk that keeps a manifest with one entry per includes edge it examines. */
module Includes {
  import opened Wrappers
  import opened Sorting
  import opened Strings
  import opened Glob

  const MAX_INCLUDE_NODES := 500
  const MAX_INCLUDE_VISITS := 2000
  const DEFAULT_INCLUDE_DEPTH := 10

  type DocId = int

  datatype Status = Included | SkippedScope | SkippedCycle | SkippedDepth | SkippedMissing

  datatype IncludeRef = IncludeRef(documentID: DocId, via: DocId, status: Status)

  datatype EdgeListItem = EdgeListItem(edgeID: int, createdAt: int, outgoing: bool, isInclude: bool, other: DocId)

  datatype Document = Document(scope: Option<string>, renders: bool)

  /** What the caller can read: edges by document (absent when listing fails) and documents by id
      (absent when gone, archived or out of scope). */
  datatype Library = Library(
    edges: map<DocId, seq<EdgeListItem>>,
    docs: map<DocId, Document>,
    condScope: string,
    segOK: (string, string) -> bool,
    space: char -> bool)

  // ----- what the edges say

  function Outgoing(es: seq<EdgeListItem>): seq<EdgeListItem> {
    if es == [] then []
    else Outgoing(es[..|es| - 1]) + if es[|es| - 1].outgoing && es[|es| - 1].isInclude then [es[|es| - 1]] else []
  }

  function Before(a: EdgeListItem, b: EdgeListItem): bool {
    if a.createdAt != b.createdAt then a.createdAt < b.createdAt else a.edgeID < b.edgeID
  }

  function Targets(es: seq<EdgeListItem>): seq<DocId> {
    seq(|es|, i requires 0 <= i < |es| => es[i].other)
  }

  /** The includes of a document, in link order. */
  function Links(lib: Library, d: DocId): seq<DocId> {
    if d in lib.edges then Targets(Sort(Before, Outgoing(lib.edges[d]))) else []
  }

  ghost function ResolveStatus(lib: Library, d: DocId): Status {
    if d !in lib.docs then SkippedMissing
    else
      var doc := lib.docs[d];
      if doc.scope.Some? && Fields(lib.space, doc.scope.value) != []
         && !Selects(lib.segOK, Fields(lib.space, doc.scope.value), Fields(lib.space, lib.condScope)) then SkippedScope
      else if !doc.renders then SkippedMissing
      else Included
  }

  /** d includes e, and e is readable, rendered and selected by the scope. */
  ghost predicate Includes(lib: Library, d: DocId, e: DocId) {
    e in Links(lib, d) && ResolveStatus(lib, e) == Included
  }

  ghost predicate Path(lib: Library, root: DocId, p: seq<DocId>, end: DocId) {
    && p != [] && p[0] == root && p[|p| - 1] == end
    && forall i, j :: 0 <= i < j < |p| && j == i + 1 ==> Includes(lib, p[i], p[j])
  }

  ghost predicate Reachable(lib: Library, root: DocId, end: DocId) {
    exists p :: Path(lib, root, p, end)
  }

  ghost predicate Distinct(p: seq<DocId>) {
    forall i, j :: 0 <= i < j < |p| ==> p[i] != p[j]
  }

  function Elements(p: seq<DocId>): set<DocId> {
    set d | d in p
  }

  lemma {:induction false} OutgoingCount(es: seq<EdgeListItem>, x: EdgeListItem)
    ensures multiset(Outgoing(es))[x] == if x.outgoing && x.isInclude then multiset(es)[x] else 0
  {
    if es != [] {
      var init, last := es[..|es| - 1], es[|es| - 1];
      assert es == init + [last];
      OutgoingCount(init, x);
    }
  }

  lemma {:induction false} SortedOutgoing(es: seq<EdgeListItem>)
    ensures var s := Sort(Before, Outgoing(es));
            && (forall x :: multiset(s)[x] == if x.outgoing && x.isInclude then multiset(es)[x] else 0)
            && forall i, j :: 0 <= i < j < |s| ==>
                 s[i].createdAt < s[j].createdAt || (s[i].createdAt == s[j].createdAt && s[i].edgeID <= s[j].edgeID)
  {
    SortSorts(Before, Outgoing(es));
    var s := Sort(Before, Outgoing(es));
    forall i, j | 0 <= i < j < |s|
      ensures !Before(s[j], s[i])
    {
    }
    forall x {
      OutgoingCount(es, x);
    }
  }

  /** Link order: the links of a document are the targets of its outgoing includes, each as often as it is listed and
      nothing else, oldest first, ties by edge id. */
  lemma {:induction false} LinkOrder(lib: Library, d: DocId) returns (s: seq<EdgeListItem>)
    ensures |Links(lib, d)| == |s| && forall i :: 0 <= i < |s| ==> Links(lib, d)[i] == s[i].other
    ensures forall x :: multiset(s)[x] == if d in lib.edges && x.outgoing && x.isInclude then multiset(lib.edges[d])[x] else 0
    ensures forall i, j :: 0 <= i < j < |s| ==>
              s[i].createdAt < s[j].createdAt || (s[i].createdAt == s[j].createdAt && s[i].edgeID <= s[j].edgeID)
  {
    s := [];
    if d in lib.edges {
      s := Sort(Before, Outgoing(lib.edges[d]));
      SortedOutgoing(lib.edges[d]);
    }
  }

  /** An outgoing include leads from d to e. */
  ghost predicate Linked(lib: Library, d: DocId, e: DocId) {
    d in lib.edges && exists x :: x in lib.edges[d] && x.outgoing && x.isInclude && x.other == e
  }

  lemma {:induction false} TargetsOf(s: seq<EdgeListItem>, e: DocId)
    ensures e in Targets(s) <==> exists x :: x in s && x.other == e
  {
    if x :| x in s && x.other == e {
      var i :| 0 <= i < |s| && s[i] == x;
      assert Targets(s)[i] == e;
    }
    if e in Targets(s) {
      var i :| 0 <= i < |s| && Targets(s)[i] == e;
      assert s[i] in s;
    }
  }

  /** A document links to the targets of its outgoing includes. */
  lemma {:induction false} LinksIff(lib: Library, d: DocId, e: DocId)
    ensures e in Links(lib, d) <==> Linked(lib, d, e)
  {
    if d in lib.edges {
      var es := lib.edges[d];
      var s := Sort(Before, Outgoing(es));
      SortedOutgoing(es);
      TargetsOf(s, e);
      forall x
        ensures x in s <==> x in es && x.outgoing && x.isInclude
      {
        assert (x in s <==> x in multiset(s)) && (x in es <==> x in multiset(es));
      }
    }
  }

  /** Which documents a link takes in: readable, rendered, and unconditional or selected by the scope asked for. */
  lemma {:induction false} TakenInIff(lib: Library, d: DocId)
    ensures ResolveStatus(lib, d) == Included <==>
            && d in lib.docs && lib.docs[d].renders
            && (|| lib.docs[d].scope == None
                || Fields(lib.space, lib.docs[d].scope.value) == []
                || exists pat, val :: pat in Fields(lib.space, lib.docs[d].scope.value) && val in Fields(lib.space, lib.condScope)
                                      && (pat == val || Matches(lib.segOK, Split(pat, '/'), Split(val, '/'))))
    ensures ResolveStatus(lib, d) in {Included, SkippedScope, SkippedMissing}
    ensures ResolveStatus(lib, d) == SkippedMissing ==> d !in lib.docs || !lib.docs[d].renders
    ensures ResolveStatus(lib, d) == SkippedScope ==> d in lib.docs && lib.docs[d].scope.Some?
  {
    if d in lib.docs && lib.docs[d].scope.Some? {
      var pats, vals := Fields(lib.space, lib.docs[d].scope.value), Fields(lib.space, lib.condScope);
      assert Selects(lib.segOK, pats, vals) <==>
             exists pat, val :: pat in pats && val in vals && (pat == val || Matches(lib.segOK, Split(pat, '/'), Split(val, '/')));
    }
  }

  // ----- what the manifest says

  /** The targets recorded for one document, in order. */
  ghost function Via(m: seq<IncludeRef>, d: DocId): seq<DocId> {
    if m == [] then []
    else Via(m[..|m| - 1], d) + if m[|m| - 1].via == d then [m[|m| - 1].documentID] else []
  }

  lemma ViaAppend(m: seq<IncludeRef>, e: IncludeRef)
    ensures forall d :: Via(m + [e], d) == Via(m, d) + if e.via == d then [e.documentID] else []
  {
    assert (m + [e])[..|m|] == m;
  }

  /** The documents taken in, in the order of the entries that took them in. */
  ghost function Taken(m: seq<IncludeRef>): seq<DocId> {
    if m == [] then []
    else
      var taken, e := Taken(m[..|m| - 1]), m[|m| - 1];
      if e.status == Included && e.documentID !in taken then taken + [e.documentID] else taken
  }

  /** How the walk got to d: from the root along the entries that took documents in. */
  ghost function Chain(m: seq<IncludeRef>, root: DocId, d: DocId): seq<DocId> {
    if d == root then [root]
    else if m == [] then []
    else
      var init, e := m[..|m| - 1], m[|m| - 1];
      if e.status == Included && e.documentID == d && d !in Taken(init) then Chain(init, root, e.via) + [d] else Chain(init, root, d)
  }

  lemma {:induction false} TakenAppend(m: seq<IncludeRef>, e: IncludeRef)
    ensures Taken(m + [e]) == if e.status == Included && e.documentID !in Taken(m) then Taken(m) + [e.documentID] else Taken(m)
  {
    assert (m + [e])[..|m|] == m;
  }

  lemma {:induction false} ChainStays(m: seq<IncludeRef>, m': seq<IncludeRef>, root: DocId, d: DocId)
    requires m <= m' && (d == root || d in Taken(m))
    ensures d in Taken(m') || d == root
    ensures Chain(m', root, d) == Chain(m, root, d)
    decreases |m'|
  {
    if |m| < |m'| {
      var init := m'[..|m'| - 1];
      ChainStays(m, init, root, d);
      assert m' == init + [m'[|m'| - 1]];
      TakenAppend(init, m'[|m'| - 1]);
    } else {
      assert m == m';
    }
  }

  /** The status of the next entry, given the entries before it: on the way here, taken in already, out of
      bounds, or as the document resolves. */
  ghost function Verdict(lib: Library, root: DocId, limit: int, m: seq<IncludeRef>, via: DocId, d: DocId): Status {
    if d in Chain(m, root, via) then SkippedCycle
    else if d in Taken(m) then Included
    else if |Chain(m, root, via)| > limit || |Taken(m)| >= 500 || |m| >= 2000 then SkippedDepth
    else ResolveStatus(lib, d)
  }

  ghost predicate Judged(lib: Library, root: DocId, limit: int, m: seq<IncludeRef>, k: nat)
    requires k < |m|
  {
    m[k].status == Verdict(lib, root, limit, m[..k], m[k].via, m[k].documentID)
  }

  ghost predicate AllJudged(lib: Library, root: DocId, limit: int, m: seq<IncludeRef>) {
    forall k :: 0 <= k < |m| ==> Judged(lib, root, limit, m, k)
  }

  /** Entry k takes in a document that has links to follow. */
  ghost predicate Opens(lib: Library, m: seq<IncludeRef>, k: nat)
    requires k < |m|
  {
    m[k].status == Included && m[k].documentID !in Taken(m[..k]) && Links(lib, m[k].documentID) != []
  }

  /** If the last entry opens a document, it is d. */
  ghost predicate NextIs(lib: Library, m: seq<IncludeRef>, d: DocId) {
    m != [] && Opens(lib, m, |m| - 1) ==> m[|m| - 1].documentID == d
  }

  ghost predicate NothingOpen(lib: Library, m: seq<IncludeRef>) {
    m != [] ==> !Opens(lib, m, |m| - 1)
  }

  /** The walk of a document starts right after the entry that took it in. */
  ghost predicate Followed(lib: Library, m: seq<IncludeRef>) {
    forall k, l :: 0 <= k < l < |m| && l == k + 1 && Opens(lib, m, k) ==> m[l].via == m[k].documentID
  }

  lemma {:induction false} FollowedAppend(lib: Library, m: seq<IncludeRef>, e: IncludeRef)
    requires Followed(lib, m) && NextIs(lib, m, e.via)
    ensures Followed(lib, m + [e])
  {
    var m' := m + [e];
    forall k, l | 0 <= k < l < |m'| && l == k + 1 && Opens(lib, m', k)
      ensures m'[l].via == m'[k].documentID
    {
      assert m'[..k] == m[..k] && m'[k] == m[k];
      assert Opens(lib, m, k);
    }
  }

  lemma {:induction false} OpensLast(lib: Library, m: seq<IncludeRef>, e: IncludeRef)
    ensures e.status == Included ==> NextIs(lib, m + [e], e.documentID)
    ensures e.status != Included || e.documentID in Taken(m) || Links(lib, e.documentID) == [] ==> NothingOpen(lib, m + [e])
  {
    assert (m + [e])[..|m|] == m;
  }

  /** The manifest accounts for what was taken in, in which order, and for every status in it. */
  ghost predicate Explained(lib: Library, root: DocId, limit: int, included: seq<DocId>, m: seq<IncludeRef>) {
    included == Taken(m) && AllJudged(lib, root, limit, m) && Followed(lib, m)
  }

  lemma {:induction false} ExplainedAppend(lib: Library, root: DocId, limit: int, included: seq<DocId>,
                                           m: seq<IncludeRef>, e: IncludeRef)
    requires Explained(lib, root, limit, included, m) && e.status == Verdict(lib, root, limit, m, e.via, e.documentID)
    requires NextIs(lib, m, e.via)
    ensures Explained(lib, root, limit, if e.status == Included && e.documentID !in included then included + [e.documentID] else included,
                      m + [e])
  {
    TakenAppend(m, e);
    FollowedAppend(lib, m, e);
    var m' := m + [e];
    forall k | 0 <= k < |m'|
      ensures Judged(lib, root, limit, m', k)
    {
      assert k < |m| ==> m'[..k] == m[..k] && Judged(lib, root, limit, m, k);
      assert k == |m| ==> m'[..k] == m;
    }
  }

  lemma {:induction false} ChainAppend(m: seq<IncludeRef>, root: DocId, e: IncludeRef)
    requires e.status == Included && e.documentID !in Taken(m) && e.documentID != root
    ensures Chain(m + [e], root, e.documentID) == Chain(m, root, e.via) + [e.documentID]
  {
    assert (m + [e])[..|m|] == m;
  }

  /** The reason an entry gives is a fact about the library or about the bounds. */
  ghost predicate EntryHolds(lib: Library, root: DocId, limit: int, included: seq<DocId>, examined: int, e: IncludeRef) {
    match e.status
    case Included => e.documentID in included
    case SkippedCycle => OnPathTo(lib, root, e.via, e.documentID) && (e.documentID == root || e.documentID in included)
    case SkippedDepth => |included| >= MAX_INCLUDE_NODES || examined > MAX_INCLUDE_VISITS || AtLimit(lib, root, limit, e.via)
    case _ => ResolveStatus(lib, e.documentID) == e.status
  }

  ghost predicate OnPathTo(lib: Library, root: DocId, d: DocId, e: DocId) {
    exists p :: Path(lib, root, p, d) && Distinct(p) && e in p
  }

  ghost predicate AtLimit(lib: Library, root: DocId, limit: int, d: DocId) {
    exists p :: Path(lib, root, p, d) && Distinct(p) && |p| > limit
  }

  ghost predicate NearRoot(lib: Library, root: DocId, limit: int, d: DocId) {
    exists p :: Path(lib, root, p, d) && Distinct(p) && |p| <= limit + 1
  }

  ghost predicate EntriesHold(lib: Library, root: DocId, limit: int, included: seq<DocId>, manifest: seq<IncludeRef>) {
    forall e :: e in manifest ==> EntryHolds(lib, root, limit, included, |manifest|, e)
  }

  /** A recorded entry goes on holding while the walk includes and examines more. */
  lemma EntriesStay(lib: Library, root: DocId, limit: int, included: seq<DocId>, included': seq<DocId>,
                    manifest: seq<IncludeRef>, e: IncludeRef)
    requires EntriesHold(lib, root, limit, included, manifest) && included <= included'
    requires EntryHolds(lib, root, limit, included', |manifest| + 1, e)
    ensures EntriesHold(lib, root, limit, included', manifest + [e])
  {
    forall x | x in manifest
      ensures EntryHolds(lib, root, limit, included', |manifest| + 1, x)
    {
      assert EntryHolds(lib, root, limit, included, |manifest|, x);
    }
  }

  /** What was seen is the root and what was taken in, each once and within the cap. */
  ghost predicate SeenOnce(root: DocId, seen: set<DocId>, included: seq<DocId>) {
    seen == {root} + Elements(included) && Distinct(included) && root !in included && |included| <= MAX_INCLUDE_NODES
  }

  lemma {:induction false} SeenGrows(root: DocId, seen: set<DocId>, included: seq<DocId>, d: DocId)
    requires SeenOnce(root, seen, included) && d !in seen && |included| < MAX_INCLUDE_NODES
    ensures SeenOnce(root, seen + {d}, included + [d])
  {
    assert d !in Elements(included);
    assert Elements(included + [d]) == Elements(included) + {d};
  }

  ghost predicate Untouched(seen: set<DocId>, manifest: seq<IncludeRef>) {
    forall d :: d !in seen ==> Via(manifest, d) == []
  }

  ghost predicate AllNear(lib: Library, root: DocId, limit: int, included: seq<DocId>) {
    forall d :: d in included ==> NearRoot(lib, root, limit, d)
  }

  lemma {:induction false} UntouchedGrows(seen: set<DocId>, manifest: seq<IncludeRef>, e: IncludeRef)
    requires Untouched(seen, manifest) && e.via in seen
    ensures Untouched(seen, manifest + [e]) && Untouched(seen + {e.documentID}, manifest + [e])
  {
    ViaAppend(manifest, e);
  }

  lemma {:induction false} NearGrows(lib: Library, root: DocId, limit: int, included: seq<DocId>, d: DocId)
    requires AllNear(lib, root, limit, included) && NearRoot(lib, root, limit, d)
    ensures AllNear(lib, root, limit, included + [d])
  {
  }

  /** What holds between any two edges of the walk. */
  ghost predicate Consistent(lib: Library, root: DocId, limit: int, seen: set<DocId>, included: seq<DocId>,
                             manifest: seq<IncludeRef>) {
    && SeenOnce(root, seen, included)
    && EntriesHold(lib, root, limit, included, manifest)
    && Explained(lib, root, limit, included, manifest)
    && Untouched(seen, manifest)
    && AllNear(lib, root, limit, included)
  }

  /** A step only adds: entries that held before still hold. */
  lemma {:induction false} Record(lib: Library, root: DocId, limit: int, seen: set<DocId>, included: seq<DocId>,
                                  manifest: seq<IncludeRef>,
               e: IncludeRef)
    requires Consistent(lib, root, limit, seen, included, manifest)
    requires e.via in seen && EntryHolds(lib, root, limit, included, |manifest| + 1, e)
    requires e.status == Verdict(lib, root, limit, manifest, e.via, e.documentID) && NextIs(lib, manifest, e.via)
    requires e.status == Included ==> e.documentID in included
    ensures Consistent(lib, root, limit, seen, included, manifest + [e])
  {
    UntouchedGrows(seen, manifest, e);
    ExplainedAppend(lib, root, limit, included, manifest, e);
    EntriesStay(lib, root, limit, included, included, manifest, e);
  }

  lemma {:induction false} EntryOfTaken(lib: Library, root: DocId, limit: int, included: seq<DocId>,
                                        manifest: seq<IncludeRef>, e: IncludeRef)
    requires EntriesHold(lib, root, limit, included, manifest) && e.status == Included
    ensures EntriesHold(lib, root, limit, included + [e.documentID], manifest + [e])
  {
    EntriesStay(lib, root, limit, included, included + [e.documentID], manifest, e);
  }

  lemma {:induction false} TakeIn(lib: Library, root: DocId, limit: int, seen: set<DocId>, included: seq<DocId>,
                                  manifest: seq<IncludeRef>, e: IncludeRef)
    requires Consistent(lib, root, limit, seen, included, manifest)
    requires e.via in seen && e.status == Included && e.documentID !in seen && |included| < MAX_INCLUDE_NODES
    requires NearRoot(lib, root, limit, e.documentID)
    requires Included == Verdict(lib, root, limit, manifest, e.via, e.documentID) && NextIs(lib, manifest, e.via)
    ensures Consistent(lib, root, limit, seen + {e.documentID}, included + [e.documentID], manifest + [e])
  {
    SeenGrows(root, seen, included, e.documentID);
    UntouchedGrows(seen, manifest, e);
    ExplainedAppend(lib, root, limit, included, manifest, e);
    EntryOfTaken(lib, root, limit, included, manifest, e);
    NearGrows(lib, root, limit, included, e.documentID);
  }

  /** Every document whose walk is over has exactly one entry per link, in link order, and no other
      document was touched. */
  ghost predicate Walked(lib: Library, seen0: set<DocId>, manifest0: seq<IncludeRef>, seen: set<DocId>, manifest: seq<IncludeRef>,
                         current: DocId, done: int) {
    && 0 <= done <= |Links(lib, current)|
    && Via(manifest, current) == Links(lib, current)[..done]
    && (forall d :: d in seen - seen0 ==> Via(manifest, d) == Links(lib, d))
    && (forall d :: d !in seen - seen0 && d != current ==> Via(manifest, d) == Via(manifest0, d))
  }

  lemma WalkedEntry(lib: Library, seen0: set<DocId>, manifest0: seq<IncludeRef>, seen: set<DocId>, manifest: seq<IncludeRef>,
                    current: DocId, done: nat, e: IncludeRef)
    requires Walked(lib, seen0, manifest0, seen, manifest, current, done)
    requires current !in seen - seen0 && done < |Links(lib, current)| && e.via == current && e.documentID == Links(lib, current)[done]
    ensures Walked(lib, seen0, manifest0, seen, manifest + [e], current, done + 1)
  {
    ViaAppend(manifest, e);
    var links := Links(lib, current);
    assert links[..done + 1] == links[..done] + [links[done]];
  }

  /** The walk of a newly included document fits into the walk that included it. */
  lemma WalkedNested(lib: Library, seen0: set<DocId>, manifest0: seq<IncludeRef>, seen1: set<DocId>, manifest1: seq<IncludeRef>,
                     seen2: set<DocId>, manifest2: seq<IncludeRef>, current: DocId, done: nat, next: DocId)
    requires Walked(lib, seen0, manifest0, seen1, manifest1, current, done)
    requires Walked(lib, seen1 + {next}, manifest1, seen2, manifest2, next, |Links(lib, next)|)
    requires seen0 <= seen1 && seen1 + {next} <= seen2 && next !in seen1 && current in seen0
    ensures Walked(lib, seen0, manifest0, seen2, manifest2, current, done)
  {
    var links := Links(lib, next);
    assert links[..|links|] == links;
  }

  lemma {:induction false} PathGrows(lib: Library, root: DocId, p: seq<DocId>, d: DocId, e: DocId)
    requires Path(lib, root, p, d) && Includes(lib, d, e)
    ensures Path(lib, root, p + [e], e)
  {
    var q := p + [e];
    forall i, j | 0 <= i < j < |q| && j == i + 1
      ensures Includes(lib, q[i], q[j])
    {
      assert j < |p| ==> q[j] == p[j];
    }
  }

  lemma {:induction false} PathExtends(lib: Library, root: DocId, limit: int, p: seq<DocId>, d: DocId, e: DocId)
    requires Path(lib, root, p, d) && Distinct(p) && |p| <= limit && Includes(lib, d, e) && e !in p
    ensures Path(lib, root, p + [e], e) && Distinct(p + [e]) && Elements(p + [e]) == Elements(p) + {e}
    ensures NearRoot(lib, root, limit, e)
  {
    PathGrows(lib, root, p, d, e);
    var q := p + [e];
    assert Distinct(q) && |q| <= limit + 1;
  }

  /** The verdict is right about the library and the bounds. */
  lemma {:induction false} VerdictHolds(lib: Library, root: DocId, limit: int, path: seq<DocId>, seen: set<DocId>,
                                        included: seq<DocId>,
                                        manifest: seq<IncludeRef>, e: IncludeRef)
    requires Consistent(lib, root, limit, seen, included, manifest)
    requires Path(lib, root, path, e.via) && Distinct(path) && path == Chain(manifest, root, e.via) && Elements(path) <= seen
    requires e.status == Verdict(lib, root, limit, manifest, e.via, e.documentID)
    requires e.status == Included ==> e.documentID in included
    ensures EntryHolds(lib, root, limit, included, |manifest| + 1, e)
  {
    assert e.documentID in path ==> e.documentID in Elements(path);
    assert |path| > limit ==> AtLimit(lib, root, limit, e.via);
  }

  /** The walk stands at d, with path leading there. */
  ghost predicate StandsAt(lib: Library, root: DocId, path: seq<DocId>, d: DocId, onPath: set<DocId>, seen: set<DocId>,
                           manifest: seq<IncludeRef>) {
    Path(lib, root, path, d) && Distinct(path) && onPath == Elements(path) <= seen && path == Chain(manifest, root, d)
  }

  ghost predicate Ready(lib: Library, root: DocId, limit: int, path: seq<DocId>, d: DocId, onPath: set<DocId>, seen: set<DocId>,
                        included: seq<DocId>, manifest: seq<IncludeRef>) {
    && Consistent(lib, root, limit, seen, included, manifest)
    && StandsAt(lib, root, path, d, onPath, seen, manifest) && NextIs(lib, manifest, d)
  }

  /** It stands there again when a link has been followed. */
  lemma {:induction false} StaysReady(lib: Library, root: DocId, limit: int, path: seq<DocId>, d: DocId, onPath: set<DocId>,
                                      seen: set<DocId>, included: seq<DocId>, manifest: seq<IncludeRef>,
                                      seen': set<DocId>, included': seq<DocId>, manifest': seq<IncludeRef>)
    requires Ready(lib, root, limit, path, d, onPath, seen, included, manifest) && seen <= seen' && manifest <= manifest'
    requires Consistent(lib, root, limit, seen', included', manifest') && NothingOpen(lib, manifest')
    ensures Ready(lib, root, limit, path, d, onPath, seen', included', manifest')
  {
    assert path[|path| - 1] in Elements(path);
    assert d == root || d in Taken(manifest);
    ChainStays(manifest, manifest', root, d);
  }

  lemma {:induction false} EndIsSeen(lib: Library, root: DocId, path: seq<DocId>, d: DocId)
    requires Path(lib, root, path, d)
    ensures d in path && d in Elements(path)
  {
    assert path[|path| - 1] in path;
  }

  /** One link further, at a document that was just taken in. */
  lemma {:induction false} StepsTo(lib: Library, root: DocId, limit: int, path: seq<DocId>, d: DocId, onPath: set<DocId>,
                                   seen: set<DocId>, included: seq<DocId>, manifest: seq<IncludeRef>, e: IncludeRef)
    requires Ready(lib, root, limit, path, d, onPath, seen, included, manifest) && |path| <= limit
    requires e.via == d && e.status == Included && e.documentID !in seen && |included| < MAX_INCLUDE_NODES
    requires Includes(lib, d, e.documentID) && Verdict(lib, root, limit, manifest, d, e.documentID) == Included
    ensures Ready(lib, root, limit, path + [e.documentID], e.documentID, onPath + {e.documentID}, seen + {e.documentID},
                  included + [e.documentID], manifest + [e])
    ensures Via(manifest + [e], e.documentID) == []
  {
    var tid := e.documentID;
    EndIsSeen(lib, root, path, d);
    PathExtends(lib, root, limit, path, d, tid);
    TakeIn(lib, root, limit, seen, included, manifest, e);
    ChainAppend(manifest, root, e);
    OpensLast(lib, manifest, e);
    ViaAppend(manifest, e);
  }

  class IncludeResolver {
    const lib: Library
    var seen: set<DocId>
    var onPath: set<DocId>
    var included: seq<DocId>
    var manifest: seq<IncludeRef>
    var visits: int

    constructor (lib: Library, root: DocId)
      ensures this.lib == lib && seen == {root} && onPath == {root} && included == [] && manifest == [] && visits == 0
    {
      this.lib := lib;
      seen, onPath := {root}, {root};
      included, manifest, visits := [], [], 0;
    }

    method ResolveOne(id: DocId) returns (status: Status)
      ensures status == ResolveStatus(lib, id)
    {
      if id !in lib.docs {
        return SkippedMissing;
      }
      var doc := lib.docs[id];
      if doc.scope.Some? && Fields(lib.space, doc.scope.value) != [] {
        var selected := ScopeMatches(lib.segOK, lib.space, doc.scope.value, lib.condScope);
        if !selected {
          return SkippedScope;
        }
      }
      if !doc.renders {
        return SkippedMissing;
      }
      return Included;
    }

    /** The outgoing includes of a document in link order. */
    method ListIncludes(docID: DocId) returns (inc: seq<EdgeListItem>)
      requires docID in lib.edges
      ensures |inc| == |Links(lib, docID)| && forall i :: 0 <= i < |inc| ==> inc[i].other == Links(lib, docID)[i]
    {
      var edges := lib.edges[docID];
      inc := [];
      var k := 0;
      while k < |edges|
        invariant 0 <= k <= |edges| && inc == Outgoing(edges[..k])
      {
        if edges[k].outgoing && edges[k].isInclude {
          inc := inc + [edges[k]];
        }
        assert edges[..k + 1][..k] == edges[..k];
        k := k + 1;
      }
      assert edges[..k] == edges;
      inc := Sort(Before, inc);
    }

    method Walk(docID: DocId, depth: int, ghost root: DocId, ghost limit: int, ghost path: seq<DocId>)
      requires Ready(lib, root, limit, path, docID, onPath, seen, included, manifest) && visits == |manifest|
      requires depth == limit - |path| + 1 && Via(manifest, docID) == []
      modifies this
      ensures Consistent(lib, root, limit, seen, included, manifest) && visits == |manifest|
      ensures onPath == old(onPath) && old(seen) <= seen && old(manifest) <= manifest
      ensures Walked(lib, old(seen), old(manifest), seen, manifest, docID, |Links(lib, docID)|)
      ensures if Links(lib, docID) == [] then manifest == old(manifest) else NothingOpen(lib, manifest)
      decreases depth, 1
    {
      if docID !in lib.edges {
        return;
      }
      var inc := ListIncludes(docID);
      ghost var seen0, manifest0, included0 := seen, manifest, included;
      EndIsSeen(lib, root, path, docID);
      var i := 0;
      while i < |inc|
        invariant 0 <= i <= |inc|
        invariant Ready(lib, root, limit, path, docID, onPath, seen, included, manifest) && visits == |manifest|
        invariant onPath == old(onPath) && seen0 <= seen && manifest0 <= manifest
        invariant Walked(lib, seen0, manifest0, seen, manifest, docID, i)
        invariant if i == 0 then manifest == manifest0 else NothingOpen(lib, manifest)
      {
        Examine(inc[i].other, docID, depth, root, limit, path, seen0, manifest0, i);
        StaysReady(lib, root, limit, path, docID, onPath, seen0, included0, manifest0, seen, included, manifest);
        i := i + 1;
      }
    }

    /** One edge of the walk of docID. */
    method Examine(tid: DocId, docID: DocId, depth: int, ghost root: DocId, ghost limit: int, ghost path: seq<DocId>,
                   ghost seen0: set<DocId>, ghost manifest0: seq<IncludeRef>, ghost i: nat)
      requires Ready(lib, root, limit, path, docID, onPath, seen, included, manifest) && visits == |manifest|
      requires depth == limit - |path| + 1 && docID in seen0 && seen0 <= seen
      requires i < |Links(lib, docID)| && tid == Links(lib, docID)[i]
      requires Walked(lib, seen0, manifest0, seen, manifest, docID, i)
      modifies this
      ensures Consistent(lib, root, limit, seen, included, manifest) && visits == |manifest|
      ensures onPath == old(onPath) && old(seen) <= seen && old(manifest) <= manifest
      ensures Walked(lib, seen0, manifest0, seen, manifest, docID, i + 1) && NothingOpen(lib, manifest)
      decreases depth, 0
    {
      visits := visits + 1;
      var status;
      if tid in onPath {
        status := SkippedCycle;
      } else if tid in seen {
        status := Included;
      } else if depth <= 0 || |included| >= MAX_INCLUDE_NODES || visits > MAX_INCLUDE_VISITS {
        status := SkippedDepth;
      } else {
        status := ResolveOne(tid);
        if status == Included {
          Expand(tid, docID, depth, root, limit, path, seen0, manifest0, i);
          return;
        }
      }
      Note(IncludeRef(tid, docID, status), root, limit, path, seen0, manifest0, i);
    }

    /** Appends an entry that takes nothing in. */
    method Note(e: IncludeRef, ghost root: DocId, ghost limit: int, ghost path: seq<DocId>, ghost seen0: set<DocId>,
                ghost manifest0: seq<IncludeRef>, ghost i: nat)
      requires Ready(lib, root, limit, path, e.via, onPath, seen, included, manifest) && visits == |manifest| + 1
      requires e.via in seen0 && seen0 <= seen && i < |Links(lib, e.via)| && e.documentID == Links(lib, e.via)[i]
      requires e.status == Verdict(lib, root, limit, manifest, e.via, e.documentID)
      requires e.status == Included ==> e.documentID in included
      requires Walked(lib, seen0, manifest0, seen, manifest, e.via, i)
      modifies this`manifest
      ensures Consistent(lib, root, limit, seen, included, manifest) && visits == |manifest| && manifest == old(manifest) + [e]
      ensures Walked(lib, seen0, manifest0, seen, manifest, e.via, i + 1) && NothingOpen(lib, manifest)
    {
      OpensLast(lib, manifest, e);
      VerdictHolds(lib, root, limit, path, seen, included, manifest, e);
      Record(lib, root, limit, seen, included, manifest, e);
      WalkedEntry(lib, seen0, manifest0, seen, manifest, e.via, i, e);
      manifest := manifest + [e];
    }

    /** Takes a document in and walks it. */
    method Expand(tid: DocId, docID: DocId, depth: int, ghost root: DocId, ghost limit: int, ghost path: seq<DocId>,
                  ghost seen0: set<DocId>, ghost manifest0: seq<IncludeRef>, ghost i: nat)
      requires Ready(lib, root, limit, path, docID, onPath, seen, included, manifest) && visits == |manifest| + 1
      requires depth == limit - |path| + 1 > 0 && docID in seen0 && seen0 <= seen
      requires i < |Links(lib, docID)| && tid == Links(lib, docID)[i]
      requires Walked(lib, seen0, manifest0, seen, manifest, docID, i)
      requires tid !in seen && |included| < MAX_INCLUDE_NODES && ResolveStatus(lib, tid) == Included
      requires Verdict(lib, root, limit, manifest, docID, tid) == Included
      modifies this
      ensures Consistent(lib, root, limit, seen, included, manifest) && visits == |manifest|
      ensures onPath == old(onPath) && old(seen) <= seen && old(manifest) <= manifest
      ensures Walked(lib, seen0, manifest0, seen, manifest, docID, i + 1) && NothingOpen(lib, manifest)
      decreases depth - 1, 2
    {
      var e := IncludeRef(tid, docID, Included);
      ghost var seen1, manifest1 := seen, manifest + [e];
      StepsTo(lib, root, limit, path, docID, onPath, seen, included, manifest, e);
      OpensLast(lib, manifest, e);
      WalkedEntry(lib, seen0, manifest0, seen, manifest, docID, i, e);
      manifest := manifest + [e];
      seen := seen + {tid};
      included := included + [tid];
      onPath := onPath + {tid};
      Walk(tid, depth - 1, root, limit, path + [tid]);
      WalkedNested(lib, seen0, manifest0, seen1, manifest1, seen, manifest, docID, i + 1, tid);
      onPath := onPath - {tid};
    }
  }

  lemma {:induction false} TakenBy(m: seq<IncludeRef>, d: DocId) returns (l: nat)
    requires d in Taken(m)
    ensures l < |m| && m[l].status == Included && m[l].documentID == d
  {
    if d in Taken(m[..|m| - 1]) {
      l := TakenBy(m[..|m| - 1], d);
    } else {
      l := |m| - 1;
    }
  }

  /** From the 2001st link on nothing new is taken in. */
  lemma {:induction false} VisitsBounded(lib: Library, root: DocId, limit: int, included: seq<DocId>, m: seq<IncludeRef>, k: nat)
    requires Explained(lib, root, limit, included, m) && k < |m| && m[k].status == Included
    ensures exists l :: 0 <= l < 2000 && l <= k && m[l].status == Included && m[l].documentID == m[k].documentID
  {
    assert Judged(lib, root, limit, m, k);
    if k >= 2000 {
      var l := TakenBy(m[..k], m[k].documentID);
      VisitsBounded(lib, root, limit, included, m, l);
    }
  }

  // ----- the whole expansion

  /** A document outside the reach of a closed set cannot be reached. */
  lemma {:induction false} ClosedUnderIncludes(lib: Library, root: DocId, closed: set<DocId>, p: seq<DocId>, end: DocId)
    requires root in closed && Path(lib, root, p, end)
    requires forall d, e :: d in closed && Includes(lib, d, e) ==> e in closed
    ensures end in closed
  {
    if |p| > 1 {
      var d := p[|p| - 2];
      ClosedUnderIncludes(lib, root, closed, p[..|p| - 1], d);
      assert Includes(lib, d, p[|p| - 1]);
    }
  }

  lemma {:induction false} ViaRecorded(m: seq<IncludeRef>, d: DocId, e: DocId)
    requires e in Via(m, d)
    ensures exists x :: x in m && x.via == d && x.documentID == e
  {
    var x := m[|m| - 1];
    assert x in m;
    if !(x.via == d && x.documentID == e) {
      ViaRecorded(m[..|m| - 1], d, e);
    }
  }

  /** Without a skipped_depth entry the walk has taken in everything it could reach. */
  lemma NothingLeftOut(lib: Library, root: DocId, limit: int, included: seq<DocId>, manifest: seq<IncludeRef>)
    requires Consistent(lib, root, limit, {root} + Elements(included), included, manifest)
    requires forall d :: d == root || d in included ==> Via(manifest, d) == Links(lib, d)
    requires forall e :: e in manifest ==> e.status != SkippedDepth
    ensures forall d :: d == root || d in included <==> Reachable(lib, root, d)
  {
    var seen := {root} + Elements(included);
    forall d, e | d in seen && Includes(lib, d, e)
      ensures e in seen
    {
      ViaRecorded(manifest, d, e);
      var x :| x in manifest && x.via == d && x.documentID == e;
      assert EntryHolds(lib, root, limit, included, |manifest|, x);
    }
    forall d | Reachable(lib, root, d)
      ensures d in seen
    {
      var p :| Path(lib, root, p, d);
      ClosedUnderIncludes(lib, root, seen, p, d);
    }
    assert Path(lib, root, [root], root);
    forall d | d in included
      ensures Reachable(lib, root, d)
    {
      assert NearRoot(lib, root, limit, d);
    }
  }

  lemma {:induction false} RecordedVia(m: seq<IncludeRef>, e: IncludeRef)
    requires e in m
    ensures e.documentID in Via(m, e.via)
  {
    if m[|m| - 1] != e {
      RecordedVia(m[..|m| - 1], e);
    }
  }

  /** The manifest has an entry from d to e. */
  ghost predicate Recorded(m: seq<IncludeRef>, d: DocId, e: DocId) {
    exists x :: x in m && x.via == d && x.documentID == e
  }

  /** One entry per link of every document walked, and no other. */
  lemma {:induction false} RecordedIff(lib: Library, root: DocId, included: seq<DocId>, manifest: seq<IncludeRef>,
                                       d: DocId, e: DocId)
    requires forall x :: Via(manifest, x) == if x == root || x in included then Links(lib, x) else []
    ensures Recorded(manifest, d, e) <==> (d == root || d in included) && Linked(lib, d, e)
  {
    LinksIff(lib, d, e);
    if Recorded(manifest, d, e) {
      var x :| x in manifest && x.via == d && x.documentID == e;
      RecordedVia(manifest, x);
    }
    if e in Via(manifest, d) {
      ViaRecorded(manifest, d, e);
    }
  }

  method ResolveIncludes(lib: Library, root: DocId) returns (included: seq<DocId>, manifest: seq<IncludeRef>)
    ensures Distinct(included) && root !in included && |included| <= 500
    ensures forall d :: d in included ==> NearRoot(lib, root, 10, d)
    ensures forall d, e :: Recorded(manifest, d, e) <==> (d == root || d in included) && Linked(lib, d, e)
    ensures Explained(lib, root, 10, included, manifest) && NothingOpen(lib, manifest)
    ensures forall d :: Via(manifest, d) == if d == root || d in included then Links(lib, d) else []
    ensures EntriesHold(lib, root, DEFAULT_INCLUDE_DEPTH, included, manifest)
    ensures (forall e :: e in manifest ==> e.status != SkippedDepth) ==> forall d :: d == root || d in included <==>
              Reachable(lib, root, d)
  {
    var r := new IncludeResolver(lib, root);
    assert Path(lib, root, [root], root);
    r.Walk(root, DEFAULT_INCLUDE_DEPTH, root, DEFAULT_INCLUDE_DEPTH, [root]);
    included, manifest := r.included, r.manifest;
    ghost var links := Links(lib, root);
    assert links[..|links|] == links;
    forall d, e
      ensures Recorded(manifest, d, e) <==> (d == root || d in included) && Linked(lib, d, e)
    {
      RecordedIff(lib, root, included, manifest, d, e);
    }
    if forall e :: e in manifest ==> e.status != SkippedDepth {
      NothingLeftOut(lib, root, DEFAULT_INCLUDE_DEPTH, included, manifest);
    }
  }
}
