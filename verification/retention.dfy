/** The retention sweep of internal/cleanup/scanner.go and internal/repository/retention.go: expired
    perishable documents are deleted, fully flagged knowledge documents are archived, each with one audit
    row. Times are days and every query of one sweep sees the same now; the transaction on a document fails
    when fails says so. */
module Retention {
  import opened Wrappers
  import DocPolicy

  type DocId = string
  type SectionId = string
  type TenantId = string

  const BOOTSTRAP_TENANT := "00000000-0000-0000-0000-000000000001"

  datatype Doc = Doc(tenant: TenantId, docType: string, path: string, created: int, archived: bool, pinned: bool)
  datatype Section = Section(doc: DocId, flagged: Option<int>)

  datatype Reason = Expired | Stale

  /** One row of deletion_events. */
  datatype Event = Event(tenant: TenantId, path: string, docType: string, reason: Reason)

  type Docs = map<DocId, Doc>
  type Sections = map<SectionId, Section>
  type Cutoffs = map<string, int>

  function EvictionCutoffs(policies: DocPolicy.Table): Cutoffs {
    map t | t in policies && policies[t].expiration > 0 && policies[t].prunable :: policies[t].expiration
  }

  function ArchiveCutoffs(policies: DocPolicy.Table): Cutoffs {
    map t | t in policies && policies[t].expiration > 0 && !policies[t].prunable :: policies[t].expiration
  }

  method BuildRetentionCutoffs(policies: DocPolicy.Table) returns (out: Cutoffs)
    ensures out == EvictionCutoffs(policies)
  {
    out := map[];
    var rest := policies.Keys;
    while rest != {}
      invariant rest <= policies.Keys
      invariant out == map t | t in policies && t !in rest && policies[t].expiration > 0 && policies[t].prunable :: policies[t].expiration
      decreases rest
    {
      var t :| t in rest;
      rest := rest - {t};
      if policies[t].expiration > 0 && policies[t].prunable {
        out := out[t := policies[t].expiration];
      }
    }
  }

  method BuildArchiveCutoffs(policies: DocPolicy.Table) returns (out: Cutoffs)
    ensures out == ArchiveCutoffs(policies)
  {
    out := map[];
    var rest := policies.Keys;
    while rest != {}
      invariant rest <= policies.Keys
      invariant out == map t | t in policies && t !in rest && policies[t].expiration > 0 && !policies[t].prunable :: policies[t].expiration
      decreases rest
    {
      var t :| t in rest;
      rest := rest - {t};
      if policies[t].expiration > 0 && !policies[t].prunable {
        out := out[t := policies[t].expiration];
      }
    }
  }

  // ----- who is due

  predicate Live(d: Doc) {
    !d.archived && !d.pinned
  }

  predicate Evictable(d: Doc, days: int, now: int) {
    Live(d) && d.created < now - days
  }

  predicate Past(s: Section, days: int, now: int) {
    s.flagged.Some? && s.flagged.value + days <= now
  }

  predicate FullyFlagged(sections: Sections, id: DocId, days: int, now: int) {
    && (exists s :: s in sections && sections[s].doc == id && Past(sections[s], days, now))
    && !(exists s :: s in sections && sections[s].doc == id && !Past(sections[s], days, now))
  }

  /** The candidate query of the given reason. */
  predicate Due(reason: Reason, docs: Docs, sections: Sections, cutoffs: Cutoffs, tenant: TenantId, now: int, id: DocId) {
    && id in docs && docs[id].tenant == tenant && docs[id].docType in cutoffs && cutoffs[docs[id].docType] > 0
    && match reason
       case Expired => Evictable(docs[id], cutoffs[docs[id].docType], now)
       case Stale => Live(docs[id]) && FullyFlagged(sections, id, cutoffs[docs[id].docType], now)
  }

  predicate NoRepeats(ids: seq<DocId>) {
    forall i, k :: 0 <= i < k < |ids| ==> ids[i] != ids[k]
  }

  ghost function Ids(ids: seq<DocId>): set<DocId> {
    set i | 0 <= i < |ids| :: ids[i]
  }

  /** The audit rows of the given documents. */
  ghost function Events(docs: Docs, ids: seq<DocId>, reason: Reason): seq<Event>
    requires forall id :: id in ids ==> id in docs
  {
    seq(|ids|, i requires 0 <= i < |ids| => EventOf(docs[ids[i]], reason))
  }

  function EventOf(d: Doc, reason: Reason): Event {
    Event(d.tenant, d.path, d.docType, reason)
  }

  function Without(sections: Sections, id: DocId): Sections {
    map s | s in sections && sections[s].doc != id :: sections[s]
  }

  /** What a sweep that handled the documents of done makes of the tables. */
  ghost function DocsAfter(reason: Reason, docs: Docs, done: set<DocId>): Docs {
    match reason
    case Expired => docs - done
    case Stale => map id | id in docs :: if id in done then docs[id].(archived := true) else docs[id]
  }

  ghost function SectionsAfter(reason: Reason, sections: Sections, done: set<DocId>): Sections {
    match reason
    case Expired => map s | s in sections && sections[s].doc !in done :: sections[s]
    case Stale => sections
  }

  class Store {
    var docs: Docs
    var sections: Sections
    var audit: seq<Event>

    constructor (docs: Docs, sections: Sections)
      ensures this.docs == docs && this.sections == sections && audit == []
    {
      this.docs, this.sections, audit := docs, sections, [];
    }

    /** Due documents of one tenant and type, each once. */
    method Query(reason: Reason, tenant: TenantId, docType: string, days: int, now: int) returns (rows: seq<DocId>)
      requires days > 0
      ensures NoRepeats(rows)
      ensures forall id :: id in rows <==> Due(reason, docs, sections, map[docType := days], tenant, now, id)
    {
      rows := [];
      var rest := docs.Keys;
      while rest != {}
        invariant rest <= docs.Keys && NoRepeats(rows)
        invariant forall id :: id in rows <==> id !in rest && Due(reason, docs, sections, map[docType := days], tenant, now, id)
        decreases rest
      {
        var id :| id in rest;
        rest := rest - {id};
        if Due(reason, docs, sections, map[docType := days], tenant, now, id) {
          rows := rows + [id];
        }
      }
    }

    method Candidates(reason: Reason, tenant: TenantId, cutoffs: Cutoffs, now: int) returns (out: seq<DocId>)
      ensures NoRepeats(out)
      ensures forall id :: id in out <==> Due(reason, docs, sections, cutoffs, tenant, now, id)
    {
      out := [];
      var rest := cutoffs.Keys;
      while rest != {}
        invariant rest <= cutoffs.Keys && NoRepeats(out)
        invariant forall id :: id in out <==> Due(reason, docs, sections, cutoffs, tenant, now, id) && docs[id].docType !in rest
        decreases rest
      {
        var docType :| docType in rest;
        rest := rest - {docType};
        if cutoffs[docType] <= 0 {
          continue;
        }
        var rows := Query(reason, tenant, docType, cutoffs[docType], now);
        NoRepeatsAppend(out, rows);
        out := out + rows;
      }
    }

    /** One transaction: the sections, the document and the audit row, or nothing. */
    method Evict(id: DocId, fails: DocId -> bool) returns (err: bool)
      requires id in docs
      modifies this
      ensures err == fails(id)
      ensures err ==> docs == old(docs) && sections == old(sections) && audit == old(audit)
      ensures !err ==> docs == old(docs) - {id} && sections == Without(old(sections), id)
      ensures !err ==>
                audit == old(audit) + [Event(old(docs)[id].tenant, old(docs)[id].path, old(docs)[id].docType, Expired)]
    {
      if fails(id) {
        return true;
      }
      sections := Without(sections, id);
      audit := audit + [EventOf(docs[id], Expired)];
      docs := docs - {id};
      return false;
    }

    /** ArchiveByID only touches a live row: an archived one is no error but is not counted. */
    method ArchiveOne(id: DocId, fails: DocId -> bool) returns (ok: bool, err: bool)
      requires id in docs
      modifies this`docs, this`audit
      ensures err == fails(id) && ok == (!err && !old(docs)[id].archived)
      ensures !ok ==> docs == old(docs) && audit == old(audit)
      ensures ok ==> docs == old(docs)[id := old(docs)[id].(archived := true)]
      ensures ok ==>
                audit == old(audit) + [Event(old(docs)[id].tenant, old(docs)[id].path, old(docs)[id].docType, Stale)]
    {
      if fails(id) {
        return false, true;
      }
      if docs[id].archived {
        return false, false;
      }
      audit := audit + [EventOf(docs[id], Stale)];
      docs := docs[id := docs[id].(archived := true)];
      return true, false;
    }

    method DeleteExpiredCold(tenant: TenantId, cutoffs: Cutoffs, now: int, fails: DocId -> bool)
      returns (deleted: seq<DocId>, err: bool)
      modifies this
      ensures Swept(Expired, old(docs), old(sections), old(audit), docs, sections, audit, deleted)
      ensures forall id :: id in deleted ==> Due(Expired, old(docs), old(sections), cutoffs, tenant, now, id)
      ensures !err ==> forall id :: Due(Expired, old(docs), old(sections), cutoffs, tenant, now, id) ==> id in deleted
    {
      var candidates := Candidates(Expired, tenant, cutoffs, now);
      deleted := [];
      for i := 0 to |candidates|
        invariant deleted == candidates[..i]
        invariant Swept(Expired, old(docs), old(sections), old(audit), docs, sections, audit, deleted)
      {
        ghost var d, s, a := docs, sections, audit;
        IdsNext(deleted, candidates[i]);
        assert candidates[i] in candidates && candidates[i] !in deleted;
        var failed := Evict(candidates[i], fails);
        if failed {
          return deleted, true;
        }
        EvictedOne(old(docs), old(sections), old(audit), d, s, a, deleted, candidates[i]);
        deleted := deleted + [candidates[i]];
      }
      return deleted, false;
    }

    method ArchiveExpiredStale(tenant: TenantId, cutoffs: Cutoffs, now: int, fails: DocId -> bool)
      returns (archived: seq<DocId>, err: bool)
      modifies this`docs, this`audit
      ensures Swept(Stale, old(docs), old(sections), old(audit), docs, sections, audit, archived)
      ensures forall id :: id in archived ==> Due(Stale, old(docs), old(sections), cutoffs, tenant, now, id)
      ensures !err ==> forall id :: Due(Stale, old(docs), old(sections), cutoffs, tenant, now, id) ==> id in archived
    {
      var candidates := Candidates(Stale, tenant, cutoffs, now);
      archived := [];
      for i := 0 to |candidates|
        invariant archived == candidates[..i]
        invariant Swept(Stale, old(docs), old(sections), old(audit), docs, sections, audit, archived)
      {
        ghost var d, a := docs, audit;
        IdsNext(archived, candidates[i]);
        assert candidates[i] in candidates && candidates[i] !in archived;
        var ok, failed := ArchiveOne(candidates[i], fails);
        if failed {
          return archived, true;
        }
        if ok {
          ArchivedOne(old(docs), sections, old(audit), d, a, archived, candidates[i]);
          archived := archived + [candidates[i]];
        }
      }
      return archived, false;
    }
  }

  /** The documents of done, each once, were handled: exactly they changed, with one audit row each. */
  ghost predicate Swept(reason: Reason, docs: Docs, sections: Sections, audit: seq<Event>, docs': Docs,
                        sections': Sections, audit': seq<Event>, done: seq<DocId>) {
    && NoRepeats(done) && (forall id :: id in done ==> id in docs)
    && docs' == DocsAfter(reason, docs, Ids(done)) && sections' == SectionsAfter(reason, sections, Ids(done))
    && audit' == audit + Events(docs, done, reason)
  }

  lemma {:induction false} IdsNext(ids: seq<DocId>, id: DocId)
    ensures Ids(ids + [id]) == Ids(ids) + {id}
    ensures forall x :: x in Ids(ids) <==> x in ids
  {
    forall x | x in Ids(ids) + {id}
      ensures x in Ids(ids + [id])
    {
      if x in Ids(ids) {
        var i :| 0 <= i < |ids| && ids[i] == x;
        assert (ids + [id])[i] == x;
      } else {
        assert (ids + [id])[|ids|] == x;
      }
    }
  }

  lemma {:induction false} EventsNext(docs: Docs, ids: seq<DocId>, id: DocId, reason: Reason)
    requires (forall x :: x in ids ==> x in docs) && id in docs
    ensures Events(docs, ids + [id], reason) == Events(docs, ids, reason) + [EventOf(docs[id], reason)]
  {
  }

  lemma {:induction false} EvictedOne(docs: Docs, sections: Sections, audit: seq<Event>, d: Docs, s: Sections,
                                      a: seq<Event>, done: seq<DocId>, id: DocId)
    requires Swept(Expired, docs, sections, audit, d, s, a, done) && id in d
    ensures Swept(Expired, docs, sections, audit, d - {id}, Without(s, id), a + [EventOf(d[id], Expired)], done + [id])
  {
    IdsNext(done, id);
    EventsNext(docs, done, id, Expired);
  }

  lemma {:induction false} ArchivedOne(docs: Docs, sections: Sections, audit: seq<Event>, d: Docs, a: seq<Event>,
                                       done: seq<DocId>, id: DocId)
    requires Swept(Stale, docs, sections, audit, d, sections, a, done) && id in d && !d[id].archived && id !in done
    ensures Swept(Stale, docs, sections, audit, d[id := d[id].(archived := true)], sections,
              a + [EventOf(d[id], Stale)], done + [id])
  {
    IdsNext(done, id);
    EventsNext(docs, done, id, Stale);
  }

  lemma {:induction false} NoRepeatsAppend(a: seq<DocId>, b: seq<DocId>)
    requires NoRepeats(a) && NoRepeats(b) && forall id :: id in a ==> id !in b
    ensures NoRepeats(a + b)
  {
    forall i, k | 0 <= i < k < |a + b|
      ensures (a + b)[i] != (a + b)[k]
    {
      assert i < |a| ==> a[i] in a;
      assert k >= |a| ==> b[k - |a|] in b;
    }
  }

  lemma {:induction false} IdsAppend(a: seq<DocId>, b: seq<DocId>)
    ensures Ids(a + b) == Ids(a) + Ids(b)
  {
    forall x
      ensures x in Ids(a + b) <==> x in Ids(a) + Ids(b)
    {
      assert x in Ids(a + b) <==> x in a + b;
      assert x in Ids(a) <==> x in a;
      assert x in Ids(b) <==> x in b;
    }
  }

  lemma {:induction false} AfterTwice(reason: Reason, docs: Docs, sections: Sections, a: set<DocId>, b: set<DocId>)
    ensures DocsAfter(reason, DocsAfter(reason, docs, a), b) == DocsAfter(reason, docs, a + b)
    ensures SectionsAfter(reason, SectionsAfter(reason, sections, a), b) == SectionsAfter(reason, sections, a + b)
  {
  }

  /** The audit rows of a second sweep are those its documents would have had before the first. */
  lemma {:induction false} EventsTwice(reason: Reason, docs: Docs, a: set<DocId>, first: seq<DocId>, second: seq<DocId>)
    requires forall id :: id in first ==> id in docs
    requires forall id :: id in second ==> id in DocsAfter(reason, docs, a)
    ensures forall id :: id in first + second ==> id in docs
    ensures Events(docs, first + second, reason) == Events(docs, first, reason) + Events(DocsAfter(reason, docs, a), second, reason)
  {
    forall id | id in second
      ensures id in docs && EventOf(DocsAfter(reason, docs, a)[id], reason) == EventOf(docs[id], reason)
    {
    }
  }

  /** Two sweeps of the same kind in a row make one. */
  lemma {:induction false} SweptTwice(reason: Reason, docs0: Docs, s0: Sections, a0: seq<Event>, docs1: Docs,
                                      s1: Sections, a1: seq<Event>,
                                      docs2: Docs, s2: Sections, a2: seq<Event>, first: seq<DocId>, second: seq<DocId>)
    requires Swept(reason, docs0, s0, a0, docs1, s1, a1, first)
    requires Swept(reason, docs1, s1, a1, docs2, s2, a2, second)
    requires forall id :: id in second ==> id in docs1 && Live(docs1[id])
    ensures Swept(reason, docs0, s0, a0, docs2, s2, a2, first + second)
  {
    IdsAppend(first, second);
    AfterTwice(reason, docs0, s0, Ids(first), Ids(second));
    EventsTwice(reason, docs0, Ids(first), first, second);
    forall id | id in first
      ensures id !in second
    {
      assert id in Ids(first);
    }
    NoRepeatsAppend(first, second);
  }

  /** What is due after a sweep was due before it, and what was due and not handled still is. */
  lemma {:induction false} DueAfter(reason: Reason, docs: Docs, s: Sections, a: seq<Event>, docs': Docs, s': Sections,
                                    a': seq<Event>,
                                    done: seq<DocId>, cutoffs: Cutoffs, tenant: TenantId, now: int, id: DocId)
    requires Swept(reason, docs, s, a, docs', s', a', done)
    ensures Due(reason, docs', s', cutoffs, tenant, now, id) <==> Due(reason, docs, s, cutoffs, tenant, now, id) && id !in done
  {
    assert id in Ids(done) <==> id in done;
  }

  // ----- one cycle

  predicate Sweepable(tenants: seq<TenantId>, n: nat, tenant: TenantId)
    requires n <= |tenants|
  {
    tenant in tenants[..n] && tenant != BOOTSTRAP_TENANT
  }

  /** done holds only documents that were due, of the first n tenants but never of the common pool; all of
      them when the sweep is complete. */
  ghost predicate Covers(reason: Reason, docs: Docs, sections: Sections, cutoffs: Cutoffs, tenants: seq<TenantId>,
                         n: nat, now: int, done: seq<DocId>, complete: bool)
    requires n <= |tenants|
  {
    && (forall id :: id in done ==>
          && id in docs && Sweepable(tenants, n, docs[id].tenant)
          && Due(reason, docs, sections, cutoffs, docs[id].tenant, now, id))
    && (complete ==>
          forall id, tenant :: Sweepable(tenants, n, tenant) && Due(reason, docs, sections, cutoffs, tenant, now, id) ==> id in done)
  }

  lemma {:induction false} CoversMore(reason: Reason, docs: Docs, s: Sections, done: seq<DocId>, more: seq<DocId>,
                                      cutoffs: Cutoffs, tenants: seq<TenantId>, n: nat, now: int, complete: bool, err: bool)
    requires n < |tenants| && tenants[n] != BOOTSTRAP_TENANT && Covers(reason, docs, s, cutoffs, tenants, n, now, done, complete)
    requires forall id :: id in more ==> Due(reason, docs, s, cutoffs, tenants[n], now, id)
    requires !err ==> forall id :: Due(reason, docs, s, cutoffs, tenants[n], now, id) ==> id in done || id in more
    ensures Covers(reason, docs, s, cutoffs, tenants, n + 1, now, done + more, complete && !err)
  {
    assert tenants[..n + 1] == tenants[..n] + [tenants[n]];
  }

  lemma {:induction false} CoversNext(reason: Reason, docs0: Docs, s0: Sections, a0: seq<Event>, docs1: Docs,
                                      s1: Sections, a1: seq<Event>,
                                      docs2: Docs, s2: Sections, a2: seq<Event>, done: seq<DocId>, more: seq<DocId>,
                                      cutoffs: Cutoffs, tenants: seq<TenantId>, n: nat, now: int, complete: bool, err: bool)
    requires Swept(reason, docs0, s0, a0, docs1, s1, a1, done) && Swept(reason, docs1, s1, a1, docs2, s2, a2, more)
    requires n < |tenants| && tenants[n] != BOOTSTRAP_TENANT && Covers(reason, docs0, s0, cutoffs, tenants, n, now, done, complete)
    requires forall id :: id in more ==> Due(reason, docs1, s1, cutoffs, tenants[n], now, id)
    requires !err ==> forall id :: Due(reason, docs1, s1, cutoffs, tenants[n], now, id) ==> id in more
    ensures Swept(reason, docs0, s0, a0, docs2, s2, a2, done + more)
    ensures Covers(reason, docs0, s0, cutoffs, tenants, n + 1, now, done + more, complete && !err)
  {
    SweptTwice(reason, docs0, s0, a0, docs1, s1, a1, docs2, s2, a2, done, more);
    forall id
      ensures Due(reason, docs1, s1, cutoffs, tenants[n], now, id) <==>
                Due(reason, docs0, s0, cutoffs, tenants[n], now, id) && id !in done
    {
      DueAfter(reason, docs0, s0, a0, docs1, s1, a1, done, cutoffs, tenants[n], now, id);
    }
    CoversMore(reason, docs0, s0, done, more, cutoffs, tenants, n, now, complete, err);
  }

  class Scanner {
    var docsEvicted: nat
    var docsArchived: nat
    var errors: nat

    constructor ()
      ensures docsEvicted == docsArchived == errors == 0
    {
      docsEvicted, docsArchived, errors := 0, 0, 0;
    }

    method RetentionSweep(store: Store, tenants: seq<TenantId>, policies: DocPolicy.Table, now: int,
                          fails: DocId -> bool) returns (ghost evicted: seq<DocId>)
      modifies this`docsEvicted, this`errors, store
      ensures Swept(Expired, old(store.docs), old(store.sections), old(store.audit), store.docs, store.sections,
                store.audit, evicted)
      ensures Covers(Expired, old(store.docs), old(store.sections), EvictionCutoffs(policies), tenants, |tenants|, now,
                evicted, errors == old(errors))
      ensures docsEvicted == old(docsEvicted) + |evicted| && errors >= old(errors)
    {
      evicted := [];
      var cutoffs := BuildRetentionCutoffs(policies);
      if cutoffs == map[] {
        return;
      }
      for i := 0 to |tenants|
        invariant Swept(Expired, old(store.docs), old(store.sections), old(store.audit), store.docs, store.sections,
                  store.audit, evicted)
        invariant Covers(Expired, old(store.docs), old(store.sections), cutoffs, tenants, i, now, evicted, errors == old(errors))
        invariant docsEvicted == old(docsEvicted) + |evicted| && errors >= old(errors)
      {
        assert tenants[..i + 1] == tenants[..i] + [tenants[i]];
        if tenants[i] == BOOTSTRAP_TENANT {
          continue;
        }
        ghost var d, s, a := store.docs, store.sections, store.audit;
        var deleted, err := store.DeleteExpiredCold(tenants[i], cutoffs, now, fails);
        CoversNext(Expired, old(store.docs), old(store.sections), old(store.audit), d, s, a, store.docs, store.sections,
                  store.audit,
                   evicted, deleted, cutoffs, tenants, i, now, errors == old(errors), err);
        if err {
          errors := errors + 1;
        }
        docsEvicted := docsEvicted + |deleted|;
        evicted := evicted + deleted;
      }
    }

    method ArchiveSweep(store: Store, tenants: seq<TenantId>, policies: DocPolicy.Table, now: int, fails: DocId -> bool)
      returns (ghost archived: seq<DocId>)
      modifies this`docsArchived, this`errors, store`docs, store`audit
      ensures Swept(Stale, old(store.docs), store.sections, old(store.audit), store.docs, store.sections, store.audit, archived)
      ensures Covers(Stale, old(store.docs), store.sections, ArchiveCutoffs(policies), tenants, |tenants|, now,
                archived, errors == old(errors))
      ensures docsArchived == old(docsArchived) + |archived| && errors >= old(errors)
    {
      archived := [];
      var cutoffs := BuildArchiveCutoffs(policies);
      if cutoffs == map[] {
        return;
      }
      for i := 0 to |tenants|
        invariant Swept(Stale, old(store.docs), store.sections, old(store.audit), store.docs, store.sections,
                  store.audit, archived)
        invariant Covers(Stale, old(store.docs), store.sections, cutoffs, tenants, i, now, archived, errors == old(errors))
        invariant docsArchived == old(docsArchived) + |archived| && errors >= old(errors)
      {
        assert tenants[..i + 1] == tenants[..i] + [tenants[i]];
        if tenants[i] == BOOTSTRAP_TENANT {
          continue;
        }
        ghost var d, a := store.docs, store.audit;
        var more, err := store.ArchiveExpiredStale(tenants[i], cutoffs, now, fails);
        CoversNext(Stale, old(store.docs), store.sections, old(store.audit), d, store.sections, a, store.docs,
                  store.sections, store.audit,
                   archived, more, cutoffs, tenants, i, now, errors == old(errors), err);
        if err {
          errors := errors + 1;
        }
        docsArchived := docsArchived + |more|;
        archived := archived + more;
      }
    }

    /** The lifecycle part of one cycle, which reads the policies once for each sweep. No document is both
        evicted and archived, everything else is left as it was, each handled document has exactly one audit
        row, and a cycle without errors handles exactly the documents that were due when it started. */
    method RunOnce(store: Store, enabled: bool, tenants: seq<TenantId>, policies: DocPolicy.Table,
                   later: DocPolicy.Table, now: int, fails: DocId -> bool)
      returns (ghost evicted: seq<DocId>, ghost archived: seq<DocId>)
      modifies this, store
      ensures !enabled ==> evicted == archived == []
      ensures NoRepeats(evicted + archived)
      ensures forall id :: id in evicted + archived ==>
                id in old(store.docs) && old(store.docs)[id].tenant in tenants &&
                old(store.docs)[id].tenant != "00000000-0000-0000-0000-000000000001"
      ensures store.docs == DocsAfter(Stale, DocsAfter(Expired, old(store.docs), Ids(evicted)), Ids(archived))
      ensures store.sections == SectionsAfter(Expired, old(store.sections), Ids(evicted))
      ensures store.audit == old(store.audit) + Events(old(store.docs), evicted, Expired) + Events(old(store.docs), archived, Stale)
      ensures enabled ==>
                Covers(Expired, old(store.docs), old(store.sections), EvictionCutoffs(policies), tenants, |tenants|,
                          now, evicted, errors == old(errors))
      ensures enabled ==>
                CoversRest(old(store.docs), old(store.sections), ArchiveCutoffs(later), tenants, now, evicted, archived,
                          errors == old(errors))
      ensures enabled && policies == later ==>
                Covers(Stale, old(store.docs), old(store.sections), ArchiveCutoffs(later), tenants, |tenants|, now,
                          archived, errors == old(errors))
      ensures docsEvicted == old(docsEvicted) + |evicted| && docsArchived == old(docsArchived) + |archived| && errors >= old(errors)
      ensures enabled && errors == old(errors) ==>
                forall id, tenant :: (
                  && tenant in tenants && tenant != BOOTSTRAP_TENANT
                  && Due(Expired, old(store.docs), old(store.sections), EvictionCutoffs(policies), tenant, now, id)) ==> id in evicted
      ensures enabled && errors == old(errors) && policies == later ==>
                forall id, tenant :: (
                  && tenant in tenants && tenant != BOOTSTRAP_TENANT
                  && Due(Stale, old(store.docs), old(store.sections), ArchiveCutoffs(later), tenant, now, id)) ==> id in archived
    {
      evicted, archived := [], [];
      assert tenants[..|tenants|] == tenants;
      if enabled {
        evicted := RetentionSweep(store, tenants, policies, now, fails);
        ghost var mid, midSections, midErrors := store.docs, store.sections, errors;
        archived := ArchiveSweep(store, tenants, later, now, fails);
        ArchivesTheRest(old(store.docs), old(store.sections), mid, midSections, evicted, archived,
                  ArchiveCutoffs(later), tenants, now,
                        errors == midErrors);
        if policies == later {
          ArchiveUnaffected(old(store.docs), old(store.sections), evicted, archived, policies, tenants, now, errors == midErrors);
        }
      }
    }
  }

  /** archived holds only documents that were due for archiving and not evicted, and all of them when the sweep
      is complete. */
  ghost predicate CoversRest(docs: Docs, sections: Sections, cutoffs: Cutoffs, tenants: seq<TenantId>, now: int,
                             evicted: seq<DocId>, archived: seq<DocId>, complete: bool) {
    && Covers(Stale, docs, sections, cutoffs, tenants, |tenants|, now, archived, false)
    && (forall id :: id in archived ==> id !in evicted)
    && (complete ==> forall id, tenant :: Sweepable(tenants, |tenants|, tenant) && Due(Stale, docs, sections, cutoffs, tenant, now, id) ==>
                       id in archived || id in evicted)
  }

  /** The archive sweep sees what the evictions left. */
  lemma {:induction false} ArchivesTheRest(docs: Docs, sections: Sections, mid: Docs, midSections: Sections,
                                           evicted: seq<DocId>, archived: seq<DocId>,
                                           cutoffs: Cutoffs, tenants: seq<TenantId>, now: int, complete: bool)
    requires mid == DocsAfter(Expired, docs, Ids(evicted)) && midSections == SectionsAfter(Expired, sections, Ids(evicted))
    requires NoRepeats(evicted) && NoRepeats(archived)
    requires Covers(Stale, mid, midSections, cutoffs, tenants, |tenants|, now, archived, complete)
    ensures CoversRest(docs, sections, cutoffs, tenants, now, evicted, archived, complete)
    ensures NoRepeats(evicted + archived)
    ensures Events(docs, archived, Stale) == Events(mid, archived, Stale)
  {
    forall id, tenant
      ensures Due(Stale, mid, midSections, cutoffs, tenant, now, id) <==>
                Due(Stale, docs, sections, cutoffs, tenant, now, id) && id !in evicted
    {
      DueAfterEviction(docs, sections, evicted, cutoffs, tenant, now, id);
    }
    forall id | id in evicted
      ensures id !in archived
    {
      assert id in Ids(evicted);
    }
    NoRepeatsAppend(evicted, archived);
  }

  lemma {:induction false} DueAfterEviction(docs: Docs, sections: Sections, evicted: seq<DocId>, cutoffs: Cutoffs,
                                            tenant: TenantId, now: int, id: DocId)
    ensures Due(Stale, DocsAfter(Expired, docs, Ids(evicted)), SectionsAfter(Expired, sections, Ids(evicted)), cutoffs,
              tenant, now, id) <==>
            Due(Stale, docs, sections, cutoffs, tenant, now, id) && id !in evicted
  {
    assert id in Ids(evicted) <==> id in evicted;
    if id in docs && id !in evicted {
      forall s | s in sections && sections[s].doc == id
        ensures s in SectionsAfter(Expired, sections, Ids(evicted)) && SectionsAfter(Expired, sections, Ids(evicted))[s] == sections[s]
      {
      }
    }
  }

  /** Under one policy table no document is due for both: the evictions take nothing from the archive sweep. */
  lemma {:induction false} NeverDueForBoth(docs: Docs, sections: Sections, policies: DocPolicy.Table, tenant: TenantId,
                                           now: int, id: DocId)
    requires Due(Expired, docs, sections, EvictionCutoffs(policies), tenant, now, id)
    ensures !Due(Stale, docs, sections, ArchiveCutoffs(policies), tenant, now, id)
  {
  }

  lemma {:induction false} ArchiveUnaffected(docs: Docs, sections: Sections, evicted: seq<DocId>, archived: seq<DocId>,
                                             policies: DocPolicy.Table, tenants: seq<TenantId>, now: int, complete: bool)
    requires Covers(Expired, docs, sections, EvictionCutoffs(policies), tenants, |tenants|, now, evicted, false)
    requires CoversRest(docs, sections, ArchiveCutoffs(policies), tenants, now, evicted, archived, complete)
    ensures Covers(Stale, docs, sections, ArchiveCutoffs(policies), tenants, |tenants|, now, archived, complete)
  {
    forall id | id in evicted
      ensures forall tenant :: !Due(Stale, docs, sections, ArchiveCutoffs(policies), tenant, now, id)
    {
      NeverDueForBoth(docs, sections, policies, docs[id].tenant, now, id);
    }
  }

  /** Who is evicted: live documents of prunable types that expire, once they are older than that. */
  lemma {:induction false} EvictedIff(docs: Docs, sections: Sections, policies: DocPolicy.Table, tenant: TenantId,
                                      now: int, id: DocId)
    ensures Due(Expired, docs, sections, EvictionCutoffs(policies), tenant, now, id) <==>
            && id in docs && docs[id].tenant == tenant && !docs[id].archived && !docs[id].pinned && docs[id].docType in policies
            && var p := policies[docs[id].docType];
               p.prunable && p.expiration > 0 && docs[id].created + p.expiration < now
  {
  }

  /** Who is archived: live documents of other types that expire, once each of their sections, and there is one, has been
      flagged that long. */
  lemma {:induction false} ArchivedIff(docs: Docs, sections: Sections, policies: DocPolicy.Table, tenant: TenantId,
                                       now: int, id: DocId)
    ensures Due(Stale, docs, sections, ArchiveCutoffs(policies), tenant, now, id) <==>
            && id in docs && docs[id].tenant == tenant && !docs[id].archived && !docs[id].pinned && docs[id].docType in policies
            && var p := policies[docs[id].docType];
               && !p.prunable && p.expiration > 0
               && (exists s :: s in sections && sections[s].doc == id)
               && forall s :: s in sections && sections[s].doc == id ==>
                    sections[s].flagged.Some? && sections[s].flagged.value + p.expiration <= now
  {
    if id in docs && docs[id].docType in policies {
      ArchivesIff(sections, id, policies[docs[id].docType].expiration, now);
    }
  }

  /** What a sweep leaves: evicted documents are gone with their sections, archived ones are marked, all else is as it
      was, and each has one audit row of its own. */
  lemma {:induction false} SweptMeans(reason: Reason, docs: Docs, sections: Sections, audit: seq<Event>, docs': Docs,
                                      sections': Sections, audit': seq<Event>, done: seq<DocId>)
    requires Swept(reason, docs, sections, audit, docs', sections', audit', done)
    ensures forall id :: id in docs' <==> id in docs && !(reason == Expired && id in done)
    ensures forall id :: id in docs' ==> docs'[id] == if id in done then docs[id].(archived := true) else docs[id]
    ensures forall s :: s in sections' <==> s in sections && !(reason == Expired && sections[s].doc in done)
    ensures forall s :: s in sections' ==> sections'[s] == sections[s]
    ensures |audit'| == |audit| + |done| && audit <= audit'
    ensures forall i :: 0 <= i < |done| ==>
              done[i] in docs &&
              audit'[|audit| + i] == Event(docs[done[i]].tenant, docs[done[i]].path, docs[done[i]].docType, reason)
  {
    IdsNext(done, "");
  }

  /** Archiving asks for at least one section, and for every section to be flagged past the grace. */
  lemma {:induction false} ArchivesIff(sections: Sections, id: DocId, days: int, now: int)
    ensures FullyFlagged(sections, id, days, now) <==>
            (exists s :: s in sections && sections[s].doc == id) &&
            forall s :: s in sections && sections[s].doc == id ==>
                      sections[s].flagged.Some? && sections[s].flagged.value + days <= now
  {
    assert forall s :: s in sections ==> (Past(sections[s], days, now) <==>
              sections[s].flagged.Some? && sections[s].flagged.value + days <= now);
  }

  lemma {:induction false} SeedWindow(parse: DocPolicy.Parser, t: string)
    requires DocPolicy.ParsesJson(parse)
    ensures var e := DocPolicy.Overlaid(parse, DocPolicy.SeedRow(t), DocPolicy.DefaultEffectivePolicy());
            && e.expiration == (if t == "handoff" then 90 else if t == "prompt" then 0 else 30)
            && (e.prunable <==> t == "journal" || t == "handoff")
  {
    DocPolicy.SeedRowValid(parse, t);
  }

  /** Under the seeded policies journals and handoffs expire, knowledge is archived, prompts do neither. */
  lemma {:induction false} SeedCutoffs(parse: DocPolicy.Parser, t: string)
    requires DocPolicy.ParsesJson(parse) && DocPolicy.Accepts(parse, DocPolicy.Seed())
    ensures var table := DocPolicy.Resolved(parse, DocPolicy.Seed());
            && (t in EvictionCutoffs(table) <==> t == "journal" || t == "handoff")
            && (t in ArchiveCutoffs(table) <==> t in DocPolicy.DOC_TYPES && t != "journal" && t != "handoff" && t != "prompt")
  {
    DocPolicy.SeedAccepted(parse);
    DocPolicy.ReferenceIsBase(parse, DocPolicy.Seed());
    SeedWindow(parse, t);
  }
}
