/** Merging two documents (internal/service/cleanup.go): the kept sections move into the winner in the order
    the caller asks for, everything else of the two documents goes, in one transaction. */
module DocumentMerge {
  import opened Wrappers

  type DocId = string
  type SectionId = string
  type TenantId = string

  datatype Section = Section(doc: DocId, ordinal: int, heading: string, content: string)

  datatype Error = InvalidInput | NotFound

  datatype Document = Document(tenant: TenantId, archived: bool)

  type Docs = map<DocId, Document>
  type Sections = map<SectionId, Section>

  /** Later repetitions dropped. */
  function Dedup(ids: seq<SectionId>): seq<SectionId> {
    if ids == [] then []
    else
      var init := Dedup(ids[..|ids| - 1]);
      if ids[|ids| - 1] in init then init else init + [ids[|ids| - 1]]
  }

  predicate NoRepeats(ids: seq<SectionId>) {
    forall i, k :: 0 <= i < k < |ids| ==> ids[i] != ids[k]
  }

  function FirstIndex(ids: seq<SectionId>, id: SectionId): (i: nat)
    requires id in ids
    ensures i < |ids| && ids[i] == id && forall k :: 0 <= k < i ==> ids[k] != id
  {
    if ids[0] == id then 0 else 1 + FirstIndex(ids[1..], id)
  }

  /** Deduplication keeps exactly the ids given, each once, in the order of their first mention. */
  lemma {:induction false} DedupIs(ids: seq<SectionId>)
    ensures forall id :: id in Dedup(ids) <==> id in ids
    ensures NoRepeats(Dedup(ids))
    ensures forall i, k :: 0 <= i < k < |Dedup(ids)| ==>
              Dedup(ids)[i] in ids && Dedup(ids)[k] in ids && FirstIndex(ids, Dedup(ids)[i]) < FirstIndex(ids, Dedup(ids)[k])
  {
    if ids != [] {
      var n := |ids| - 1;
      var init := ids[..n];
      DedupIs(init);
      assert ids == init + [ids[n]];
      var d := Dedup(ids);
      forall id | id in init
        ensures FirstIndex(ids, id) == FirstIndex(init, id)
      {
        FirstIndexPrefix(init, ids[n], id);
      }
      forall i, k | 0 <= i < k < |d|
        ensures d[i] in ids && d[k] in ids && FirstIndex(ids, d[i]) < FirstIndex(ids, d[k])
      {
        assert d[i] in init;
        if d[k] !in init {
          assert d[k] == ids[n];
        }
      }
    }
  }

  lemma {:induction false} FirstIndexPrefix(ids: seq<SectionId>, last: SectionId, id: SectionId)
    requires id in ids
    ensures id in ids + [last] && FirstIndex(ids + [last], id) == FirstIndex(ids, id)
  {
    var i, k := FirstIndex(ids, id), FirstIndex(ids + [last], id);
    assert (ids + [last])[i] == id;
    assert forall j :: 0 <= j < i ==> ids[..i][j] == (ids + [last])[j];
    assert forall j :: 0 <= j < k ==> (ids + [last])[..k][j] == (ids + [last])[j];
  }

  /** One document's sections, each with its own ordinal from 0 up, in the order of list. */
  ghost predicate ReadsBackAs(sections: Sections, doc: DocId, list: seq<SectionId>) {
    && NoRepeats(list)
    && (forall s :: s in sections && sections[s].doc == doc <==> s in list)
    && (forall i :: 0 <= i < |list| ==> list[i] in sections && sections[list[i]].doc == doc && sections[list[i]].ordinal == i)
  }

  predicate SameText(a: Section, b: Section) {
    a.heading == b.heading && a.content == b.content
  }

  /** GetByID: a live document of a readable tenant. */
  predicate Loads(docs: Docs, readable: set<TenantId>, id: DocId) {
    id in docs && docs[id].tenant in readable && !docs[id].archived
  }

  ghost predicate Mergeable(docs: Docs, sections: Sections, tid: TenantId, winner: DocId, loser: DocId, keep: seq<SectionId>) {
    && winner != loser && keep != []
    && winner in docs && loser in docs && docs[winner] == docs[loser] == Document(tid, false)
    && forall id :: id in keep ==> id in sections && sections[id].doc in {winner, loser}
  }

  class Documents {
    var docs: Docs
    var sections: Sections

    constructor (docs: Docs, sections: Sections)
      ensures this.docs == docs && this.sections == sections
    {
      this.docs, this.sections := docs, sections;
    }

    /** readable holds the tenants whose documents the caller may load: its own and the common pool. */
    method MergeDocuments(tid: TenantId, readable: set<TenantId>, winner: DocId, loser: DocId, keep: seq<SectionId>)
      returns (err: Option<Error>)
      requires tid in readable
      modifies this
      ensures err.None? <==> Mergeable(old(docs), old(sections), tid, winner, loser, keep)
      ensures err == Some(NotFound) <==>
              && winner != loser && keep != []
              && !(winner in old(docs) && old(docs)[winner].tenant in readable && !old(docs)[winner].archived &&
                   loser in old(docs) && old(docs)[loser].tenant in readable && !old(docs)[loser].archived)
      ensures err.Some? ==> docs == old(docs) && sections == old(sections)
      ensures err.None? ==> docs == old(docs) - {loser}
      ensures err.None? ==> ReadsBackAs(sections, winner, Dedup(keep)) && ReadsBackAs(sections, loser, [])
      ensures err.None? ==> forall s :: s in sections ==> s in old(sections) && SameText(sections[s], old(sections)[s])
      ensures err.None? ==> forall s :: s in old(sections) && old(sections)[s].doc !in {winner, loser} ==>
                s in sections && sections[s] == old(sections)[s]
    {
      if winner == loser {
        return Some(InvalidInput);
      }
      if keep == [] {
        return Some(InvalidInput);
      }
      var ordered := KeepOrder(keep);
      if !Loads(docs, readable, winner) || !Loads(docs, readable, loser) {
        return Some(NotFound);
      }
      if docs[winner].tenant != tid || docs[loser].tenant != tid {
        return Some(InvalidInput);
      }
      for i := 0 to |ordered|
        invariant forall k :: 0 <= k < i ==> ordered[k] in sections && sections[ordered[k]].doc in {winner, loser}
      {
        if ordered[i] !in sections || sections[ordered[i]].doc !in {winner, loser} {
          assert ordered[i] in keep;
          return Some(InvalidInput);
        }
      }
      assert forall id :: id in keep ==> id in sections && sections[id].doc in {winner, loser};
      MoveAndDrop(winner, loser, ordered);
      return None;
    }

    /** The writes of the transaction: kept sections to the winner, the others and the loser away. */
    method MoveAndDrop(winner: DocId, loser: DocId, ordered: seq<SectionId>)
      requires winner != loser && NoRepeats(ordered)
      requires forall id :: id in ordered ==> id in sections && sections[id].doc in {winner, loser}
      modifies this
      ensures docs == old(docs) - {loser}
      ensures ReadsBackAs(sections, winner, ordered) && ReadsBackAs(sections, loser, [])
      ensures forall s :: s in sections ==> s in old(sections) && SameText(sections[s], old(sections)[s])
      ensures forall s :: s in old(sections) && old(sections)[s].doc !in {winner, loser} ==>
                s in sections && sections[s] == old(sections)[s]
    {
      Reassign(winner, ordered);
      sections := map s | s in sections && (sections[s].doc !in {winner, loser} || s in ordered) :: sections[s];
      docs := docs - {loser};
    }

    /** The one UPDATE with an ordinal per kept id. */
    method Reassign(winner: DocId, ordered: seq<SectionId>)
      requires NoRepeats(ordered) && forall id :: id in ordered ==> id in sections
      modifies this`sections
      ensures sections.Keys == old(sections.Keys)
      ensures forall i :: 0 <= i < |ordered| ==> sections[ordered[i]] == old(sections)[ordered[i]].(doc := winner, ordinal := i)
      ensures forall s :: s in sections && s !in ordered ==> sections[s] == old(sections)[s]
    {
      sections := map s | s in sections ::
        if s in ordered then sections[s].(doc := winner, ordinal := FirstIndex(ordered, s)) else sections[s];
    }

    static method KeepOrder(keep: seq<SectionId>) returns (ordered: seq<SectionId>)
      ensures ordered == Dedup(keep) && NoRepeats(ordered) && forall id :: id in ordered <==> id in keep
    {
      var seen: set<SectionId> := {};
      ordered := [];
      for i := 0 to |keep|
        invariant ordered == Dedup(keep[..i]) && forall id :: id in seen <==> id in ordered
      {
        assert keep[..i + 1][..i] == keep[..i];
        if keep[i] in seen {
          continue;
        }
        seen := seen + {keep[i]};
        ordered := ordered + [keep[i]];
      }
      assert keep[..|keep|] == keep;
      DedupIs(keep);
    }
  }
}
