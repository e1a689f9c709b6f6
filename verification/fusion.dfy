/** Reciprocal Rank Fusion of the vector and the lexical candidate lists (internal/repository/section.go). */
module Fusion {
  import opened Cardinality
  import opened Sorting

  const RRF_K := 60
  const VEC_ONLY_FLOOR := 0.4

  type SectionId = int // a UUID, compared as the code compares its text
  type Embedding = seq<real>

  datatype HybridRow = HybridRow(sectionID: SectionId, vecSim: real, lexRank: real, hasVec: bool, hasLex: bool,
            payload: string, embedding: Embedding)

  datatype Tier = High | Standard | Low

  datatype SearchResult = SearchResult(sectionID: SectionId, score: real, tier: Tier, payload: string)

  datatype ScoredRow = ScoredRow(result: SearchResult, emb: Embedding)

  datatype Entry = Entry(id: SectionId, val: real)

  datatype List = Vec | Lex

  function Has(l: List, r: HybridRow): bool {
    match l case Vec => r.hasVec case Lex => r.hasLex
  }

  function Val(l: List, r: HybridRow): real {
    match l case Vec => r.vecSim case Lex => r.lexRank
  }

  function RrfContrib(rank: int): real
    requires rank > -RRF_K
  {
    1.0 / (RRF_K + rank) as real
  }

  function Truncated(a: int, b: int): int
    requires b > 0
  {
    if a >= 0 then a / b else -((-a) / b)
  }

  function FusionTier(r: HybridRow, vecRank: int, lexRank: int, poolSize: int): Tier {
    if r.hasVec && r.hasLex then High
    else
      var rank := if r.hasLex then lexRank else vecRank;
      if rank <= Truncated(poolSize, 2) then Standard else Low
  }

  /** A distant semantic-only neighbour. */
  predicate Gated(r: HybridRow) {
    r.hasVec && !r.hasLex && r.vecSim < VEC_ONLY_FLOOR
  }

  // ----- what a fusion is, whatever the order of the rows

  ghost predicate DistinctIds(rows: seq<HybridRow>) {
    forall i, j :: 0 <= i < j < |rows| ==> rows[i].sectionID != rows[j].sectionID
  }

  ghost function Kept(rows: seq<HybridRow>): set<HybridRow> {
    set r | r in rows && !Gated(r)
  }

  ghost function Elements(rows: seq<HybridRow>): set<HybridRow> {
    set r | r in rows
  }

  /** The rows of list l. */
  ghost function Listed(l: List, kept: set<HybridRow>): set<HybridRow> {
    set r | r in kept && Has(l, r)
  }

  predicate Beats(l: List, a: HybridRow, b: HybridRow) {
    Val(l, a) > Val(l, b) || (Val(l, a) == Val(l, b) && a.sectionID < b.sectionID)
  }

  ghost function AheadOf(l: List, kept: set<HybridRow>, r: HybridRow): set<HybridRow> {
    set a | a in Listed(l, kept) && Beats(l, a, r)
  }

  /** A row's rank in a list: one more than the number of listed rows ahead of it; 0 when not listed. */
  ghost function Rank(l: List, kept: set<HybridRow>, r: HybridRow): nat {
    if Has(l, r) then 1 + |AheadOf(l, kept, r)| else 0
  }

  ghost function Contribution(l: List, kept: set<HybridRow>, r: HybridRow): real {
    if Has(l, r) then RrfContrib(Rank(l, kept, r)) else 0.0
  }

  ghost function Fused(kept: set<HybridRow>, r: HybridRow, poolSize: int): ScoredRow {
    ScoredRow(
      SearchResult(r.sectionID, Contribution(Vec, kept, r) + Contribution(Lex, kept, r),
                   FusionTier(r, Rank(Vec, kept, r), Rank(Lex, kept, r), poolSize), r.payload),
      r.embedding)
  }

  predicate Ahead(a: ScoredRow, b: ScoredRow) {
    a.result.score > b.result.score || (a.result.score == b.result.score && a.result.sectionID < b.result.sectionID)
  }

  /** `out` lists every kept row once with its fused score and tier, best first. */
  ghost predicate IsFusion(rows: seq<HybridRow>, poolSize: int, out: seq<ScoredRow>) {
    && (forall s :: s in out <==> exists r :: r in Kept(rows) && s == Fused(Kept(rows), r, poolSize))
    && forall i, j :: 0 <= i < j < |out| ==> Ahead(out[i], out[j])
  }

  /** The fusion does not depend on the order in which the database returned the rows. */
  lemma FusionUnique(rows: seq<HybridRow>, rows': seq<HybridRow>, poolSize: int, out: seq<ScoredRow>, out': seq<ScoredRow>)
    requires multiset(rows) == multiset(rows')
    requires IsFusion(rows, poolSize, out) && IsFusion(rows', poolSize, out')
    ensures out == out'
  {
    forall r
      ensures r in rows <==> r in rows'
    {
      assert r in multiset(rows) <==> r in multiset(rows');
    }
    assert Kept(rows) == Kept(rows');
    SameElementsSameOrder(out, out');
  }

  lemma {:induction false} SameElementsSameOrder(a: seq<ScoredRow>, b: seq<ScoredRow>)
    requires forall i, j :: 0 <= i < j < |a| ==> Ahead(a[i], a[j])
    requires forall i, j :: 0 <= i < j < |b| ==> Ahead(b[i], b[j])
    requires forall s :: s in a <==> s in b
    ensures a == b
  {
    assert forall i :: 0 <= i < |a| ==> a[i] in b;
    assert forall i :: 0 <= i < |b| ==> b[i] in a;
    if a != [] {
      assert a[0] in b && b[0] in a;
      assert a[0] == b[0];
      forall s
        ensures s in a[1..] <==> s in b[1..]
      {
        assert s in a[1..] <==> s in a && s != a[0];
        assert s in b[1..] <==> s in b && s != b[0];
      }
      SameElementsSameOrder(a[1..], b[1..]);
      assert a == [a[0]] + a[1..] && b == [b[0]] + b[1..];
    }
  }

  // ----- the same on the fields of the rows

  /** The rows that take part: in the lexical list, or not a distant semantic-only neighbour. */
  ghost predicate Present(rows: seq<HybridRow>, r: HybridRow) {
    r in rows && (r.hasLex || !r.hasVec || r.vecSim >= 0.4)
  }

  ghost function VecAhead(rows: seq<HybridRow>, r: HybridRow): set<HybridRow> {
    set a | a in rows && Present(rows, a) && a.hasVec
            && (a.vecSim > r.vecSim || (a.vecSim == r.vecSim && a.sectionID < r.sectionID))
  }

  ghost function LexAhead(rows: seq<HybridRow>, r: HybridRow): set<HybridRow> {
    set a | a in rows && Present(rows, a) && a.hasLex
            && (a.lexRank > r.lexRank || (a.lexRank == r.lexRank && a.sectionID < r.sectionID))
  }

  lemma {:induction false} RanksAre(rows: seq<HybridRow>, r: HybridRow)
    ensures r.hasVec ==> Rank(Vec, Kept(rows), r) == 1 + |VecAhead(rows, r)|
    ensures r.hasLex ==> Rank(Lex, Kept(rows), r) == 1 + |LexAhead(rows, r)|
  {
    assert AheadOf(Vec, Kept(rows), r) == VecAhead(rows, r);
    assert AheadOf(Lex, Kept(rows), r) == LexAhead(rows, r);
  }

  lemma {:induction false} ShownRow(rows: seq<HybridRow>, poolSize: int, out: seq<ScoredRow>, i: nat) returns (r: HybridRow)
    requires IsFusion(rows, poolSize, out) && i < |out|
    ensures r in rows && !Gated(r) && out[i] == Fused(Kept(rows), r, poolSize)
  {
    assert out[i] in out;
    r :| r in Kept(rows) && out[i] == Fused(Kept(rows), r, poolSize);
  }

  lemma {:induction false} SameRow(rows: seq<HybridRow>, q: HybridRow, r: HybridRow)
    requires DistinctIds(rows) && q in rows && r in rows && q.sectionID == r.sectionID
    ensures q == r
  {
  }

  lemma {:induction false} RowShown(rows: seq<HybridRow>, poolSize: int, out: seq<ScoredRow>, r: HybridRow) returns (i: nat)
    requires IsFusion(rows, poolSize, out) && r in rows && !Gated(r)
    ensures i < |out| && out[i].result.sectionID == r.sectionID
  {
    assert r in Kept(rows);
    var s := Fused(Kept(rows), r, poolSize);
    assert s in out;
    i :| i < |out| && out[i] == s;
  }

  ghost predicate HasId(rows: seq<HybridRow>, id: SectionId) {
    exists r :: r in rows && r.sectionID == id
  }

  /** Which rows appear: a row is in the output if and only if it is lexical, or its cosine is at least 0.4, and nothing
      else is; the highest score comes first and ties go by id. */
  lemma {:induction false} FusionShows(rows: seq<HybridRow>, poolSize: int, out: seq<ScoredRow>)
    requires IsFusion(rows, poolSize, out) && DistinctIds(rows)
    ensures forall r :: r in rows ==>
              ((r.hasLex || !r.hasVec || r.vecSim >= 0.4) <==>
                        exists i :: 0 <= i < |out| && out[i].result.sectionID == r.sectionID)
    ensures forall i :: 0 <= i < |out| ==> HasId(rows, out[i].result.sectionID)
    ensures forall i, j :: 0 <= i < j < |out| ==>
              || out[i].result.score > out[j].result.score
              || (out[i].result.score == out[j].result.score && out[i].result.sectionID < out[j].result.sectionID)
  {
    forall i | 0 <= i < |out|
      ensures HasId(rows, out[i].result.sectionID)
    {
      var r := ShownRow(rows, poolSize, out, i);
    }
    forall r | r in rows
      ensures (r.hasLex || !r.hasVec || r.vecSim >= 0.4) <==> exists i :: 0 <= i < |out| && out[i].result.sectionID == r.sectionID
    {
      if !Gated(r) {
        var i := RowShown(rows, poolSize, out, r);
        assert 0 <= i < |out| && out[i].result.sectionID == r.sectionID;
      }
      if i :| 0 <= i < |out| && out[i].result.sectionID == r.sectionID {
        var q := ShownRow(rows, poolSize, out, i);
        SameRow(rows, q, r);
      }
    }
    forall i, j | 0 <= i < j < |out|
      ensures Ahead(out[i], out[j])
    {
    }
  }

  /** What a row gets: a reciprocal rank from each list it is in, its tier and its own payload and embedding. */
  lemma {:induction false} FusionScores(rows: seq<HybridRow>, poolSize: int, out: seq<ScoredRow>, i: nat, r: HybridRow)
    requires IsFusion(rows, poolSize, out) && DistinctIds(rows)
    requires i < |out| && r in rows && out[i].result.sectionID == r.sectionID
    ensures var v, l := 1 + |VecAhead(rows, r)|, 1 + |LexAhead(rows, r)|;
            && out[i].result.score ==
               (if r.hasVec then 1.0 / (60 + v) as real else 0.0) + (if r.hasLex then 1.0 / (60 + l) as real else 0.0)
            && (r.hasVec && r.hasLex ==> out[i].result.tier == High)
            && (r.hasLex && !r.hasVec ==> out[i].result.tier == if 2 * l <= poolSize then Standard else Low)
            && (r.hasVec && !r.hasLex ==> out[i].result.tier == if 2 * v <= poolSize then Standard else Low)
    ensures out[i].result.payload == r.payload && out[i].emb == r.embedding
  {
    var q := ShownRow(rows, poolSize, out, i);
    SameRow(rows, q, r);
    RanksAre(rows, r);
    TierHalf(1 + |VecAhead(rows, r)|, poolSize);
    TierHalf(1 + |LexAhead(rows, r)|, poolSize);
  }

  lemma {:induction false} TierHalf(rank: nat, poolSize: int)
    requires rank > 0
    ensures rank <= Truncated(poolSize, 2) <==> 2 * rank <= poolSize
  {
  }

  // ----- the code

  predicate EntryBefore(a: Entry, b: Entry) {
    a.val > b.val || (a.val == b.val && a.id < b.id)
  }

  function EntryOf(l: List, r: HybridRow): Entry {
    Entry(r.sectionID, Val(l, r))
  }

  ghost predicate ListOf(l: List, rows: set<HybridRow>, list: seq<Entry>) {
    forall e :: e in list <==> exists r :: r in rows && Has(l, r) && e == EntryOf(l, r)
  }

  ghost predicate IdsDiffer(rows: set<HybridRow>) {
    forall a, b :: a in rows && b in rows && a.sectionID == b.sectionID ==> a == b
  }

  /** The position of a row in the sorted list is its rank. */
  lemma RankIsPosition(l: List, rows: set<HybridRow>, list: seq<Entry>, j: nat, r: HybridRow)
    requires IdsDiffer(rows) && ListOf(l, rows, list)
    requires forall x, y :: 0 <= x < y < |list| ==> EntryBefore(list[x], list[y])
    requires j < |list| && r in rows && Has(l, r) && list[j] == EntryOf(l, r)
    ensures Rank(l, rows, r) == j + 1
  {
    var ahead := AheadOf(l, rows, r);
    var f := (a: HybridRow) => EntryOf(l, a);
    var entries := Image(ahead, f);
    InjectiveImage(ahead, f);
    var before := Elems(list[..j]);
    ListedSet(list[..j]);
    forall e | e in entries
      ensures e in before
    {
      assert e in list;
      var i :| 0 <= i < |list| && list[i] == e;
      assert i < j;
      assert list[..j][i] == e;
    }
    forall e | e in before
      ensures e in entries
    {
      assert e in list && EntryBefore(e, list[j]);
      var a :| a in rows && Has(l, a) && e == EntryOf(l, a);
      assert a in ahead && f(a) == e;
    }
    assert entries == before;
  }

  lemma SortedList(l: List, rows: set<HybridRow>, list: seq<Entry>)
    requires ListOf(l, rows, list)
    requires forall x, y :: 0 <= x < y < |list| ==> list[x].id != list[y].id
    ensures var t := Sort(EntryBefore, list);
            && ListOf(l, rows, t)
            && forall x, y :: 0 <= x < y < |t| ==> EntryBefore(t[x], t[y])
  {
    forall e
      ensures multiset(list)[e] <= 1
    {
      CountOnce(list, e);
    }
    SortStrict(EntryBefore, list);
    var t := Sort(EntryBefore, list);
    forall e
      ensures e in t <==> e in list
    {
      assert e in multiset(t) <==> e in multiset(list);
    }
  }

  method RrfRanks(rows: seq<HybridRow>, l: List) returns (ranks: map<SectionId, int>)
    requires DistinctIds(rows)
    ensures forall r :: r in rows ==> (if r.sectionID in ranks then ranks[r.sectionID] else 0) == Rank(l, Elements(rows), r)
  {
    var list := BuildList(rows, l);
    ghost var all := Elements(rows);
    SortedList(l, all, list);
    list := Sort(EntryBefore, list);
    ranks := map[];
    var i := 0;
    while i < |list|
      invariant 0 <= i <= |list|
      invariant forall id :: id in ranks ==> exists j :: 0 <= j < i && list[j].id == id
      invariant forall j :: 0 <= j < i ==> list[j].id in ranks && ranks[list[j].id] == j + 1
    {
      forall j | 0 <= j < i
        ensures list[j].id != list[i].id
      {
        SameIdSameEntry(l, all, list, j, i);
      }
      ranks := ranks[list[i].id := i + 1];
      i := i + 1;
    }
    forall r | r in rows
      ensures (if r.sectionID in ranks then ranks[r.sectionID] else 0) == Rank(l, all, r)
    {
      RankRead(l, all, list, ranks, r);
    }
  }

  lemma SameIdSameEntry(l: List, rows: set<HybridRow>, list: seq<Entry>, i: nat, j: nat)
    requires IdsDiffer(rows) && ListOf(l, rows, list) && i < j < |list|
    requires EntryBefore(list[i], list[j])
    ensures list[i].id != list[j].id
  {
    assert list[i] in list && list[j] in list;
  }

  lemma RankRead(l: List, rows: set<HybridRow>, list: seq<Entry>, ranks: map<SectionId, int>, r: HybridRow)
    requires IdsDiffer(rows) && ListOf(l, rows, list) && r in rows
    requires forall x, y :: 0 <= x < y < |list| ==> EntryBefore(list[x], list[y])
    requires forall id :: id in ranks ==> exists j :: 0 <= j < |list| && list[j].id == id
    requires forall j :: 0 <= j < |list| ==> list[j].id in ranks && ranks[list[j].id] == j + 1
    ensures (if r.sectionID in ranks then ranks[r.sectionID] else 0) == Rank(l, rows, r)
  {
    assert forall j :: 0 <= j < |list| ==> list[j] in list;
    if Has(l, r) {
      assert EntryOf(l, r) in list;
      var j :| 0 <= j < |list| && list[j] == EntryOf(l, r);
      RankIsPosition(l, rows, list, j, r);
    }
  }

  lemma {:induction false} CountOnce(list: seq<Entry>, e: Entry)
    requires forall x, y :: 0 <= x < y < |list| ==> list[x] != list[y]
    ensures multiset(list)[e] <= 1
  {
    if list != [] {
      var q := list[..|list| - 1];
      CountOnce(q, e);
      assert list == q + [list[|list| - 1]];
    }
  }

  method BuildList(rows: seq<HybridRow>, l: List) returns (list: seq<Entry>)
    requires DistinctIds(rows)
    ensures ListOf(l, Elements(rows), list)
    ensures forall x, y :: 0 <= x < y < |list| ==> list[x].id != list[y].id
  {
    list := [];
    var i := 0;
    while i < |rows|
      invariant 0 <= i <= |rows|
      invariant ListOf(l, Elements(rows[..i]), list)
      invariant forall x, y :: 0 <= x < y < |list| ==> list[x].id != list[y].id
    {
      if Has(l, rows[i]) {
        forall e | e in list
          ensures e.id != rows[i].sectionID
        {
          var r :| r in Elements(rows[..i]) && Has(l, r) && e == EntryOf(l, r);
        }
        list := list + [Entry(rows[i].sectionID, Val(l, rows[i]))];
      }
      assert Elements(rows[..i + 1]) == Elements(rows[..i]) + {rows[i]};
      i := i + 1;
    }
    assert rows[..i] == rows;
  }

  method KeepRows(rows: seq<HybridRow>) returns (kept: seq<HybridRow>)
    requires DistinctIds(rows)
    ensures DistinctIds(kept) && Elements(kept) == Kept(rows)
  {
    kept := [];
    var i := 0;
    while i < |rows|
      invariant 0 <= i <= |rows|
      invariant DistinctIds(kept) && Elements(kept) == Kept(rows[..i])
    {
      if !Gated(rows[i]) {
        forall j | 0 <= j < |kept|
          ensures kept[j].sectionID != rows[i].sectionID
        {
          assert kept[j] in Elements(kept);
          assert kept[j] in rows[..i];
        }
        assert Elements(kept + [rows[i]]) == Elements(kept) + {rows[i]};
        kept := kept + [rows[i]];
      }
      assert rows[..i + 1] == rows[..i] + [rows[i]];
      i := i + 1;
    }
    assert rows[..i] == rows;
  }

  function Zip(out: seq<SearchResult>, embs: seq<Embedding>): seq<ScoredRow>
    requires |out| == |embs|
  {
    seq(|out|, i requires 0 <= i < |out| => ScoredRow(out[i], embs[i]))
  }

  method FuseHybridScored(rows: seq<HybridRow>, poolSize: int) returns (out: seq<SearchResult>, embs: seq<Embedding>)
    requires DistinctIds(rows)
    ensures |out| == |embs| && IsFusion(rows, poolSize, Zip(out, embs))
  {
    var kept := KeepRows(rows);
    var vecRank := RrfRanks(kept, Vec);
    var lexRank := RrfRanks(kept, Lex);
    var scored := ScoreRows(kept, vecRank, lexRank, poolSize, Kept(rows));
    SortFusion(rows, kept, poolSize, scored);
    out, embs := Unzip(Sort(Ahead, scored));
  }

  method ScoreRows(kept: seq<HybridRow>, vecRank: map<SectionId, int>, lexRank: map<SectionId, int>, poolSize: int,
                   ghost all: set<HybridRow>) returns (scored: seq<ScoredRow>)
    requires Elements(kept) == all
    requires forall r :: r in kept ==> (if r.sectionID in vecRank then vecRank[r.sectionID] else 0) == Rank(Vec, all, r)
    requires forall r :: r in kept ==> (if r.sectionID in lexRank then lexRank[r.sectionID] else 0) == Rank(Lex, all, r)
    ensures |scored| == |kept| && forall j :: 0 <= j < |kept| ==> scored[j] == Fused(all, kept[j], poolSize)
  {
    scored := [];
    var i := 0;
    while i < |kept|
      invariant 0 <= i <= |kept|
      invariant |scored| == i && forall j :: 0 <= j < i ==> scored[j] == Fused(all, kept[j], poolSize)
    {
      var r := kept[i];
      var vr := if r.sectionID in vecRank then vecRank[r.sectionID] else 0;
      var lr := if r.sectionID in lexRank then lexRank[r.sectionID] else 0;
      assert r in kept;
      var score := 0.0;
      if r.hasVec {
        score := score + RrfContrib(vr);
      }
      if r.hasLex {
        score := score + RrfContrib(lr);
      }
      scored := scored + [ScoredRow(SearchResult(r.sectionID, score, FusionTier(r, vr, lr, poolSize), r.payload), r.embedding)];
      i := i + 1;
    }
  }

  method Unzip(scored: seq<ScoredRow>) returns (out: seq<SearchResult>, embs: seq<Embedding>)
    ensures |out| == |embs| && Zip(out, embs) == scored
  {
    out, embs := [], [];
    var i := 0;
    while i < |scored|
      invariant 0 <= i <= |scored| && |out| == |embs| == i
      invariant Zip(out, embs) == scored[..i]
    {
      out, embs := out + [scored[i].result], embs + [scored[i].emb];
      i := i + 1;
    }
    assert scored[..i] == scored;
  }

  lemma {:induction false} SortScored(scored: seq<ScoredRow>)
    requires forall i, j :: 0 <= i < j < |scored| ==> scored[i].result.sectionID != scored[j].result.sectionID
    ensures var t := Sort(Ahead, scored);
            && (forall s :: s in t <==> s in scored)
            && forall i, j :: 0 <= i < j < |t| ==> Ahead(t[i], t[j])
  {
    forall s
      ensures multiset(scored)[s] <= 1
    {
      ScoredOnce(scored, s);
    }
    SortStrict(Ahead, scored);
    var t := Sort(Ahead, scored);
    forall s
      ensures s in t <==> s in scored
    {
      assert s in multiset(t) <==> s in multiset(scored);
    }
  }

  lemma {:induction false} SortFusion(rows: seq<HybridRow>, kept: seq<HybridRow>, poolSize: int, scored: seq<ScoredRow>)
    requires DistinctIds(kept) && Elements(kept) == Kept(rows)
    requires |scored| == |kept| && forall j :: 0 <= j < |kept| ==> scored[j] == Fused(Kept(rows), kept[j], poolSize)
    ensures IsFusion(rows, poolSize, Sort(Ahead, scored))
  {
    SortScored(scored);
    var t := Sort(Ahead, scored);
    forall r | r in Kept(rows)
      ensures Fused(Kept(rows), r, poolSize) in t
    {
      assert r in Elements(kept);
      var j :| 0 <= j < |kept| && kept[j] == r;
      assert scored[j] in scored;
    }
    forall s | s in t
      ensures exists r :: r in Kept(rows) && s == Fused(Kept(rows), r, poolSize)
    {
      assert s in scored;
      var j :| 0 <= j < |scored| && scored[j] == s;
      assert kept[j] in Elements(kept);
    }
  }

  lemma {:induction false} ScoredOnce(scored: seq<ScoredRow>, s: ScoredRow)
    requires forall i, j :: 0 <= i < j < |scored| ==> scored[i] != scored[j]
    ensures multiset(scored)[s] <= 1
  {
    if scored != [] {
      var q := scored[..|scored| - 1];
      ScoredOnce(q, s);
      assert scored == q + [scored[|scored| - 1]];
    }
  }

  method FuseHybrid(rows: seq<HybridRow>, limit: int, poolSize: int)
    returns (out: seq<SearchResult>, ghost fusion: seq<ScoredRow>)
    requires DistinctIds(rows)
    ensures IsFusion(rows, poolSize, fusion)
    ensures |out| == if 0 < limit < |fusion| then limit else |fusion|
    ensures forall i :: 0 <= i < |out| ==> out[i] == fusion[i].result
  {
    var embs;
    out, embs := FuseHybridScored(rows, poolSize);
    fusion := Zip(out, embs);
    if limit > 0 && |out| > limit {
      out := out[..limit];
    }
  }

  // ----- tiers

  function Level(t: Tier): int {
    match t case High => 0 case Standard => 1 case Low => 2
  }

  ghost predicate TiersInOrder(out: seq<ScoredRow>) {
    forall i, j :: 0 <= i < j < |out| ==> Level(out[i].result.tier) <= Level(out[j].result.tier)
  }

  /** Each list fits the pool and every row comes from a list, as the two SQL limits and the join give. */
  ghost predicate FitsPool(rows: seq<HybridRow>, poolSize: int) {
    && DistinctIds(rows)
    && (forall r :: r in rows ==> r.hasVec || r.hasLex)
    && |Listed(Vec, Kept(rows))| <= poolSize
    && |Listed(Lex, Kept(rows))| <= poolSize
  }

  lemma RankFits(l: List, kept: set<HybridRow>, r: HybridRow)
    requires r in kept && Has(l, r)
    ensures 1 <= Rank(l, kept, r) <= |Listed(l, kept)|
  {
    assert r !in AheadOf(l, kept, r);
    SubsetSize(AheadOf(l, kept, r) + {r}, Listed(l, kept));
  }

  /** The scores of the three tiers do not overlap in a pool of at most 61. */
  lemma TierScores(kept: set<HybridRow>, a: HybridRow, b: HybridRow, poolSize: int)
    requires a in kept && b in kept && 0 <= poolSize <= 61
    requires a.hasVec || a.hasLex
    requires b.hasVec || b.hasLex
    requires |Listed(Vec, kept)| <= poolSize && |Listed(Lex, kept)| <= poolSize
    requires Level(Fused(kept, a, poolSize).result.tier) < Level(Fused(kept, b, poolSize).result.tier)
    ensures Fused(kept, a, poolSize).result.score > Fused(kept, b, poolSize).result.score
  {
    if a.hasVec { RankFits(Vec, kept, a); }
    if a.hasLex { RankFits(Lex, kept, a); }
    if b.hasVec { RankFits(Vec, kept, b); }
    if b.hasLex { RankFits(Lex, kept, b); }
    var rb := if b.hasLex then Rank(Lex, kept, b) else Rank(Vec, kept, b);
    if a.hasVec && a.hasLex {
      Decreasing(Rank(Vec, kept, a), 61);
      Decreasing(Rank(Lex, kept, a), 61);
      Decreasing(1, rb);
      assert RrfContrib(61) + RrfContrib(61) > RrfContrib(1);
    } else {
      var ra := if a.hasLex then Rank(Lex, kept, a) else Rank(Vec, kept, a);
      Decreasing(ra, rb);
    }
  }

  lemma Decreasing(a: int, b: int)
    requires 1 <= a <= b
    ensures RrfContrib(a) >= RrfContrib(b)
    ensures a < b ==> RrfContrib(a) > RrfContrib(b)
  {
    var x, y := (RRF_K + a) as real, (RRF_K + b) as real;
    assert (1.0 / x) * x == 1.0 && (1.0 / y) * y == 1.0;
    assert 1.0 / x - 1.0 / y == (y - x) / (x * y);
  }

  lemma TiersSeparate(rows: seq<HybridRow>, poolSize: int, out: seq<ScoredRow>)
    requires FitsPool(rows, poolSize) && IsFusion(rows, poolSize, out) && poolSize <= 61
    ensures TiersInOrder(out)
  {
    var kept := Kept(rows);
    forall i, j | 0 <= i < j < |out|
      ensures Level(out[i].result.tier) <= Level(out[j].result.tier)
    {
      assert out[i] in out && out[j] in out && Ahead(out[i], out[j]);
      var a :| a in kept && out[i] == Fused(kept, a, poolSize);
      var b :| b in kept && out[j] == Fused(kept, b, poolSize);
      if Level(out[j].result.tier) < Level(out[i].result.tier) {
        TierScores(kept, b, a, poolSize);
      }
    }
  }

  // ----- 61 is the largest such pool

  function VecRow(i: int): HybridRow {
    HybridRow(i, 1.0, 0.0, true, false, "", [])
  }

  function LexRow(i: int): HybridRow {
    HybridRow(62 + i, 0.0, 2.0, false, true, "", [])
  }

  const BOTH := HybridRow(61, 1.0, 1.0, true, true, "", [])

  function Vecs(): seq<HybridRow> {
    seq(61, i => VecRow(i))
  }

  function Lexs(): seq<HybridRow> {
    seq(61, i => LexRow(i))
  }

  function Mixed(): seq<HybridRow> {
    Vecs() + [BOTH] + Lexs()
  }

  predicate IsVecRow(r: HybridRow) {
    0 <= r.sectionID < 61 && r == VecRow(r.sectionID)
  }

  predicate IsLexRow(r: HybridRow) {
    62 <= r.sectionID < 123 && r == LexRow(r.sectionID - 62)
  }

  lemma {:induction false} MixedMembers(r: HybridRow)
    ensures r in Vecs() <==> IsVecRow(r)
    ensures r in Lexs() <==> IsLexRow(r)
    ensures r in Kept(Mixed()) <==> IsVecRow(r) || r == BOTH || IsLexRow(r)
  {
    if IsVecRow(r) {
      assert Vecs()[r.sectionID] == r;
    }
    if IsLexRow(r) {
      assert Lexs()[r.sectionID - 62] == r;
    }
    assert r in Mixed() <==> r in Vecs() || r == BOTH || r in Lexs();
  }

  lemma {:induction false} MixedSizes()
    ensures |Elems(Vecs())| == 61 && BOTH !in Vecs()
    ensures |Elems(Lexs())| == 61 && BOTH !in Lexs()
  {
    ListedSet(Vecs());
    ListedSet(Lexs());
    MixedMembers(BOTH);
  }

  /** 61 rows are ahead of BOTH in each list, so it comes last in both. */
  lemma {:induction false} LastInBothLists()
    ensures var kept := Kept(Mixed());
            && Rank(Vec, kept, VecRow(0)) == 1
            && Rank(Vec, kept, BOTH) == Rank(Lex, kept, BOTH) == 62
            && |Listed(Vec, kept)| == |Listed(Lex, kept)| == 62
  {
    LastInVec();
    LastInLex();
  }

  lemma {:induction false} LastInVec()
    ensures var kept := Kept(Mixed());
            Rank(Vec, kept, VecRow(0)) == 1 && Rank(Vec, kept, BOTH) == 62 && |Listed(Vec, kept)| == 62
  {
    var kept, vs := Kept(Mixed()), Elems(Vecs());
    forall r
      ensures r in vs <==> IsVecRow(r)
      ensures r in kept <==> IsVecRow(r) || r == BOTH || IsLexRow(r)
    {
      MixedMembers(r);
    }
    MixedSizes();
    assert AheadOf(Vec, kept, VecRow(0)) == {};
    assert AheadOf(Vec, kept, BOTH) == vs;
    assert Listed(Vec, kept) == vs + {BOTH};
  }

  lemma {:induction false} LastInLex()
    ensures var kept := Kept(Mixed()); Rank(Lex, kept, BOTH) == 62 && |Listed(Lex, kept)| == 62
  {
    var kept, ls := Kept(Mixed()), Elems(Lexs());
    forall r
      ensures r in ls <==> IsLexRow(r)
      ensures r in kept <==> IsVecRow(r) || r == BOTH || IsLexRow(r)
    {
      MixedMembers(r);
    }
    MixedSizes();
    assert AheadOf(Lex, kept, BOTH) == ls;
    assert Listed(Lex, kept) == ls + {BOTH};
  }

  lemma {:induction false} MixedFits(poolSize: int)
    requires poolSize >= 62
    ensures FitsPool(Mixed(), poolSize) && Kept(Mixed()) == Elements(Mixed())
    ensures |Mixed()| == 123 && Mixed()[0] == VecRow(0) && Mixed()[61] == BOTH
  {
    var rows := Mixed();
    LastInBothLists();
    forall r | r in rows
      ensures (r.hasVec || r.hasLex) && !Gated(r)
    {
      MixedMembers(r);
    }
    assert forall i :: 0 <= i < |rows| ==> rows[i].sectionID == i;
  }

  lemma {:induction false} TiersCanMix(poolSize: int)
    requires poolSize >= 62
    ensures exists rows, out :: FitsPool(rows, poolSize) && IsFusion(rows, poolSize, out) && !TiersInOrder(out)
  {
    var rows := Mixed();
    var kept := Kept(rows);
    LastInBothLists();
    MixedFits(poolSize);
    var out := FusionOf(rows, poolSize);
    MixedTie(poolSize);
    var s, h := Fused(kept, VecRow(0), poolSize), Fused(kept, BOTH, poolSize);
    assert s in out && h in out by {
      MixedMembers(VecRow(0));
      MixedMembers(BOTH);
    }
    TieGoesToSmallerId(poolSize, out, s, h);
  }

  lemma {:induction false} FusionOf(rows: seq<HybridRow>, poolSize: int) returns (out: seq<ScoredRow>)
    requires DistinctIds(rows) && Kept(rows) == Elements(rows)
    ensures IsFusion(rows, poolSize, out)
  {
    var scored := seq(|rows|, i requires 0 <= i < |rows| => Fused(Kept(rows), rows[i], poolSize));
    SortFusion(rows, rows, poolSize, scored);
    out := Sort(Ahead, scored);
  }

  /** A first place in one list ties with two 62nd places. */
  lemma {:induction false} MixedTie(poolSize: int)
    requires poolSize >= 62
    ensures var kept := Kept(Mixed());
            var s, h := Fused(kept, VecRow(0), poolSize).result, Fused(kept, BOTH, poolSize).result;
            s.tier == Standard && h.tier == High && s.score == h.score && s.sectionID < h.sectionID
  {
    LastInBothLists();
    assert RrfContrib(62) + RrfContrib(62) == RrfContrib(1);
  }

  lemma {:induction false} TieGoesToSmallerId(poolSize: int, out: seq<ScoredRow>, s: ScoredRow, h: ScoredRow)
    requires forall i, j :: 0 <= i < j < |out| ==> Ahead(out[i], out[j])
    requires s in out && h in out && s.result.tier == Standard && h.result.tier == High
    requires s.result.score == h.result.score && s.result.sectionID < h.result.sectionID
    ensures !TiersInOrder(out)
  {
    var i :| 0 <= i < |out| && out[i] == s;
    var j :| 0 <= j < |out| && out[j] == h;
    assert i < j;
  }

  /** High before standard before low in every fusion of such lists, if and only if the pool is at most 61. */
  lemma {:induction false} TiersInOrderIff(poolSize: int)
    ensures (forall rows, out :: FitsPool(rows, poolSize) && IsFusion(rows, poolSize, out) ==> TiersInOrder(out)) <==>
              poolSize <= 61
  {
    if poolSize <= 61 {
      forall rows, out | FitsPool(rows, poolSize) && IsFusion(rows, poolSize, out)
        ensures TiersInOrder(out)
      {
        TiersSeparate(rows, poolSize, out);
      }
    } else {
      TiersCanMix(poolSize);
    }
  }
}
