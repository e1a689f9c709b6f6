/** Writing a document's sections (writeSections in internal/service/write_path.go): replace, merge by
    heading and append-only, over the stored rows. */
module SectionMerge {
  import opened Wrappers

  datatype WriteMode = Unset | Replace | MergeSections | AppendOnly

  datatype Section = Section(
    id: int, docID: int, ordinal: int, heading: Option<string>, content: string,
    embedding: Option<seq<real>>, meta: string)

  /** Section rows by id. */
  type Rows = map<int, Section>

  datatype Error = SectionExists(key: string)

  function HeadingKey(h: Option<string>): string {
    match h case None => "\0preamble" case Some(s) => s
  }

  function Key(s: Section): string {
    HeadingKey(s.heading)
  }

  // ----- the pairing: the n-th section of a heading meets the n-th stored one

  function KeyCount(s: seq<Section>, k: string): nat {
    if s == [] then 0 else KeyCount(s[..|s| - 1], k) + if Key(s[|s| - 1]) == k then 1 else 0
  }

  /** The position of the n-th section with key k. */
  function NthIndex(s: seq<Section>, k: string, n: nat): (i: nat)
    requires n < KeyCount(s, k)
    ensures i < |s| && Key(s[i]) == k && KeyCount(s[..i], k) == n
  {
    var last := |s| - 1;
    if n < KeyCount(s[..last], k) then
      var i := NthIndex(s[..last], k, n);
      assert s[..last][..i] == s[..i];
      i
    else last
  }

  /** The incoming section that meets stored section e, if there is one. */
  function Partner(existing: seq<Section>, incoming: seq<Section>, e: nat): (p: Option<nat>)
    requires e < |existing|
    ensures p.Some? ==> p.value < |incoming| && Key(incoming[p.value]) == Key(existing[e])
  {
    var k := Key(existing[e]);
    var n := KeyCount(existing[..e], k);
    if n < KeyCount(incoming, k) then Some(NthIndex(incoming, k, n)) else None
  }

  function Overlay(e: Section, i: Section): Section {
    e.(content := i.content, embedding := i.embedding)
  }

  function After(existing: seq<Section>, incoming: seq<Section>, e: nat): Section
    requires e < |existing|
  {
    var p := Partner(existing, incoming, e);
    if p.Some? then Overlay(existing[e], incoming[p.value]) else existing[e]
  }

  /** The stored sections after a merge, none dropped, moved or renamed. */
  function Merged(existing: seq<Section>, incoming: seq<Section>): seq<Section> {
    seq(|existing|, e requires 0 <= e < |existing| => After(existing, incoming, e))
  }

  /** The incoming sections that meet no stored one, in order. */
  function Extra(existing: seq<Section>, incoming: seq<Section>): seq<Section> {
    if incoming == [] then []
    else
      var rest, last := incoming[..|incoming| - 1], incoming[|incoming| - 1];
      Extra(existing, rest) + if KeyCount(rest, Key(last)) < KeyCount(existing, Key(last)) then [] else [last]
  }

  function MaxOrdinal(s: seq<Section>): int {
    if s == [] then -1
    else var m := MaxOrdinal(s[..|s| - 1]);
         if s[|s| - 1].ordinal > m then s[|s| - 1].ordinal else m
  }

  lemma {:induction false} KeyCountPrefix(s: seq<Section>, i: nat, j: nat, k: string)
    requires i <= j <= |s|
    ensures KeyCount(s[..i], k) <= KeyCount(s[..j], k)
    ensures i < j && Key(s[i]) == k ==> KeyCount(s[..i], k) < KeyCount(s[..j], k)
    decreases j
  {
    if i < j {
      assert s[..j][..j - 1] == s[..j - 1];
      KeyCountPrefix(s, i, j - 1, k);
    }
  }

  /** An occurrence number belongs to one position only. */
  lemma {:induction false} NthUnique(s: seq<Section>, i: nat, j: nat)
    requires i < |s| && j < |s| && Key(s[i]) == Key(s[j])
    requires KeyCount(s[..i], Key(s[i])) == KeyCount(s[..j], Key(s[j]))
    ensures i == j
  {
    if i < j {
      KeyCountPrefix(s, i, j, Key(s[i]));
    } else if j < i {
      KeyCountPrefix(s, j, i, Key(s[i]));
    }
  }

  /** One more incoming section changes one stored section, or none. */
  lemma {:induction false} PartnerStep(existing: seq<Section>, incoming: seq<Section>, i: nat, e: nat)
    requires i < |incoming| && e < |existing|
    ensures var k, n := Key(incoming[i]), KeyCount(incoming[..i], Key(incoming[i]));
            Partner(existing, incoming[..i + 1], e) ==
            if n < KeyCount(existing, k) && e == NthIndex(existing, k, n) then Some(i) else Partner(existing, incoming[..i], e)
  {
    var k, n := Key(incoming[i]), KeyCount(incoming[..i], Key(incoming[i]));
    var more := incoming[..i + 1];
    assert more[..i] == incoming[..i];
    var ke := Key(existing[e]);
    var ne := KeyCount(existing[..e], ke);
    KeyCountPrefix(existing, e, |existing|, ke);
    assert existing[..|existing|] == existing;
    if n < KeyCount(existing, k) && ke == k && ne == n {
      NthUnique(existing, e, NthIndex(existing, k, n));
    }
  }

  // ----- the pairing on the headings themselves

  /** Equal headings; no heading at all goes with the literal text that stands for it. */
  ghost predicate SameHeading(g: Option<string>, h: Option<string>) {
    g == h || (g in {None, Some("\0preamble")} && h in {None, Some("\0preamble")})
  }

  lemma {:induction false} KeyEqualIff(g: Option<string>, h: Option<string>)
    ensures HeadingKey(g) == HeadingKey(h) <==> SameHeading(g, h)
  {
  }

  /** The positions before n whose heading is h. */
  ghost function Earlier(s: seq<Section>, n: nat, h: Option<string>): set<int>
    requires n <= |s|
  {
    set i | 0 <= i < n && SameHeading(s[i].heading, h)
  }

  lemma {:induction false} EarlierStep(s: seq<Section>, n: nat, h: Option<string>)
    requires n < |s|
    ensures |Earlier(s, n + 1, h)| == |Earlier(s, n, h)| + if SameHeading(s[n].heading, h) then 1 else 0
  {
    var rest := Earlier(s, n, h);
    if SameHeading(s[n].heading, h) {
      assert Earlier(s, n + 1, h) == rest + {n};
    } else {
      assert Earlier(s, n + 1, h) == rest;
    }
  }

  lemma {:induction false} KeyCountStep(s: seq<Section>, n: nat, k: string)
    requires n < |s|
    ensures KeyCount(s[..n + 1], k) == KeyCount(s[..n], k) + if Key(s[n]) == k then 1 else 0
  {
    assert s[..n + 1][..n] == s[..n];
  }

  lemma {:induction false} EarlierCount(s: seq<Section>, n: nat, h: Option<string>)
    requires n <= |s|
    ensures |Earlier(s, n, h)| == KeyCount(s[..n], HeadingKey(h))
  {
    if n > 0 {
      EarlierCount(s, n - 1, h);
      EarlierStep(s, n - 1, h);
      KeyCountStep(s, n - 1, HeadingKey(h));
      KeyEqualIff(s[n - 1].heading, h);
    }
  }

  /** Stored section e and incoming section p have the same heading, and as many of that heading before them. */
  ghost predicate Paired(existing: seq<Section>, incoming: seq<Section>, e: nat, p: nat) {
    && e < |existing| && p < |incoming| && SameHeading(existing[e].heading, incoming[p].heading)
    && |Earlier(existing, e, existing[e].heading)| == |Earlier(incoming, p, incoming[p].heading)|
  }

  lemma {:induction false} PartnerIff(existing: seq<Section>, incoming: seq<Section>, e: nat, p: nat)
    requires e < |existing|
    ensures Partner(existing, incoming, e) == Some(p) <==> Paired(existing, incoming, e, p)
  {
    var k := Key(existing[e]);
    var n := KeyCount(existing[..e], k);
    EarlierCount(existing, e, existing[e].heading);
    if p < |incoming| {
      KeyEqualIff(existing[e].heading, incoming[p].heading);
      EarlierCount(incoming, p, incoming[p].heading);
      if Key(incoming[p]) == k {
        KeyCountPrefix(incoming, p, |incoming|, k);
        assert incoming[..|incoming|] == incoming;
        if n < KeyCount(incoming, k) && KeyCount(incoming[..p], k) == n {
          NthUnique(incoming, p, NthIndex(incoming, k, n));
        }
      }
    }
  }

  lemma {:induction false} KeyCountZero(s: seq<Section>, k: string)
    ensures KeyCount(s, k) == 0 <==> forall i :: 0 <= i < |s| ==> Key(s[i]) != k
  {
    if s != [] {
      KeyCountZero(s[..|s| - 1], k);
    }
  }

  /** An incoming section meets a stored one exactly when fewer of its heading come before it than are stored. */
  lemma {:induction false} MeetsIff(existing: seq<Section>, incoming: seq<Section>, t: nat)
    requires t < |incoming|
    ensures var k := Key(incoming[t]);
            KeyCount(incoming[..t], k) < KeyCount(existing, k) <==> exists e: nat :: Paired(existing, incoming, e, t)
  {
    var k := Key(incoming[t]);
    var n := KeyCount(incoming[..t], k);
    if n < KeyCount(existing, k) {
      var e := NthIndex(existing, k, n);
      MeetsOrigin(existing, incoming, e, t);
      PartnerIff(existing, incoming, e, t);
    }
    if e: nat :| Paired(existing, incoming, e, t) {
      PartnerIff(existing, incoming, e, t);
      KeyCountPrefix(existing, e, |existing|, k);
      assert existing[..|existing|] == existing;
      EarlierCount(existing, e, existing[e].heading);
      EarlierCount(incoming, t, incoming[t].heading);
    }
  }

  ghost predicate Unmet(existing: seq<Section>, incoming: seq<Section>, t: int)
    requires 0 <= t < |incoming|
  {
    KeyCount(incoming[..t], Key(incoming[t])) >= KeyCount(existing, Key(incoming[t]))
  }

  ghost predicate Increasing(ts: seq<int>) {
    forall i, j :: 0 <= i < j < |ts| ==> ts[i] < ts[j]
  }

  /** ts are the positions of the unmet sections among the first n. */
  ghost predicate Positions(existing: seq<Section>, incoming: seq<Section>, n: nat, ts: seq<int>) {
    && n <= |incoming| && Increasing(ts)
    && (forall j :: 0 <= j < |ts| ==> 0 <= ts[j] < n && Unmet(existing, incoming, ts[j]))
    && (forall t :: 0 <= t < n && Unmet(existing, incoming, t) ==> t in ts)
  }

  lemma {:induction false} PositionsStep(existing: seq<Section>, incoming: seq<Section>, n: nat, ts: seq<int>)
    requires n < |incoming| && Positions(existing, incoming, n, ts)
    ensures Positions(existing, incoming, n + 1, if Unmet(existing, incoming, n) then ts + [n] else ts)
  {
  }

  ghost predicate Picks(s: seq<Section>, ts: seq<int>, picked: seq<Section>) {
    |ts| == |picked| && forall j :: 0 <= j < |ts| ==> 0 <= ts[j] < |s| && picked[j] == s[ts[j]]
  }

  lemma {:induction false} PicksStep(s: seq<Section>, ts: seq<int>, picked: seq<Section>, n: nat)
    requires Picks(s, ts, picked) && n < |s|
    ensures Picks(s, ts + [n], picked + [s[n]])
  {
  }

  lemma {:induction false} ExtraLast(existing: seq<Section>, incoming: seq<Section>, n: nat)
    requires n < |incoming|
    ensures Extra(existing, incoming[..n + 1]) ==
            if Unmet(existing, incoming, n) then Extra(existing, incoming[..n]) + [incoming[n]] else Extra(existing, incoming[..n])
  {
    assert incoming[..n + 1][..n] == incoming[..n];
  }

  lemma {:induction false} ExtraPositions(existing: seq<Section>, incoming: seq<Section>, n: nat) returns (ts: seq<int>)
    requires n <= |incoming|
    ensures Positions(existing, incoming, n, ts)
    ensures Picks(incoming, ts, Extra(existing, incoming[..n]))
  {
    if n == 0 {
      ts := [];
    } else {
      var init := ExtraPositions(existing, incoming, n - 1);
      PositionsStep(existing, incoming, n - 1, init);
      ExtraLast(existing, incoming, n - 1);
      if Unmet(existing, incoming, n - 1) {
        ts := init + [n - 1];
        PicksStep(incoming, init, Extra(existing, incoming[..n - 1]), n - 1);
      } else {
        ts := init;
      }
    }
  }

  /** What a merge makes of the stored sections: each takes the content and the embedding of the incoming section it is
      paired with and nothing else of it, or stays as it is. */
  lemma {:induction false} MergeOutcome(existing: seq<Section>, incoming: seq<Section>, docID: int, firstID: int,
                                        out: seq<Section>, e: nat)
    requires IsMerge(existing, incoming, docID, firstID, out) && e < |existing|
    ensures forall p: nat :: Paired(existing, incoming, e, p) ==>
              out[e] == existing[e].(content := incoming[p].content, embedding := incoming[p].embedding)
    ensures (forall p: nat :: !Paired(existing, incoming, e, p)) ==> out[e] == existing[e]
  {
    assert out[e] == out[..|existing|][e] == After(existing, incoming, e);
    forall p: nat
      ensures Partner(existing, incoming, e) == Some(p) <==> Paired(existing, incoming, e, p)
    {
      PartnerIff(existing, incoming, e, p);
    }
  }

  /** What it adds: the incoming sections paired with none, in their order, behind every ordinal in use. */
  lemma {:induction false} MergeAdds(existing: seq<Section>, incoming: seq<Section>, docID: int, firstID: int,
                                     out: seq<Section>) returns (ts: seq<int>)
    requires IsMerge(existing, incoming, docID, firstID, out)
    ensures |out| == |existing| + |ts| && Increasing(ts)
    ensures forall t :: t in ts <==> 0 <= t < |incoming| && forall e: nat :: !Paired(existing, incoming, e, t)
    ensures forall j {:trigger ts[j]} :: 0 <= j < |ts| ==> (
              && 0 <= ts[j] < |incoming|
              && out[|existing| + j] == incoming[ts[j]].(ordinal := MaxOrdinal(existing) + 1 + j, docID := docID, id := firstID + j))
  {
    ts := ExtraPositions(existing, incoming, |incoming|);
    assert incoming[..|incoming|] == incoming;
    forall t
      ensures t in ts <==> 0 <= t < |incoming| && forall e: nat :: !Paired(existing, incoming, e, t)
    {
      if 0 <= t < |incoming| {
        MeetsIff(existing, incoming, t);
      }
    }
  }

  /** A stored section whose heading no incoming section has comes back as it was. */
  lemma {:induction false} UnmetStays(existing: seq<Section>, incoming: seq<Section>, docID: int, firstID: int,
                                      out: seq<Section>, e: nat)
    requires IsMerge(existing, incoming, docID, firstID, out) && e < |existing|
    requires forall p :: 0 <= p < |incoming| ==> !SameHeading(existing[e].heading, incoming[p].heading)
    ensures out[e] == existing[e]
  {
    MergeOutcome(existing, incoming, docID, firstID, out, e);
    assert forall p: nat :: !Paired(existing, incoming, e, p);
  }

  // ----- the code

  ghost predicate DistinctIds(s: seq<Section>) {
    forall i, j :: 0 <= i < j < |s| ==> s[i].id != s[j].id
  }

  /** Strictly increasing ordinals: the order sections are read back in. */
  ghost predicate Ordered(s: seq<Section>) {
    forall i, j :: 0 <= i < j < |s| ==> s[i].ordinal < s[j].ordinal
  }

  function AsStored(s: Section, embed: bool): Section {
    if embed then s else s.(embedding := None)
  }

  function Group(s: seq<Section>, k: string): seq<Section> {
    if s == [] then [] else Group(s[..|s| - 1], k) + if Key(s[|s| - 1]) == k then [s[|s| - 1]] else []
  }

  lemma {:induction false} GroupIsNth(s: seq<Section>, k: string)
    ensures |Group(s, k)| == KeyCount(s, k)
    ensures forall n :: 0 <= n < KeyCount(s, k) ==> Group(s, k)[n] == s[NthIndex(s, k, n)]
  {
    if s != [] {
      GroupIsNth(s[..|s| - 1], k);
    }
  }

  class SectionTable {
    var rows: Rows
    var nextID: int

    ghost predicate Valid()
      reads this
    {
      forall id :: id in rows ==> rows[id].id == id && id < nextID
    }

    /** s are the stored rows of the document, as read. */
    ghost predicate Holds(docID: int, s: seq<Section>)
      reads this
    {
      && DistinctIds(s)
      && (forall i :: 0 <= i < |s| ==> s[i].id in rows && rows[s[i].id] == s[i] && s[i].docID == docID)
      && (forall id :: id in rows && rows[id].docID == docID ==> exists i :: 0 <= i < |s| && s[i].id == id)
    }

    constructor ()
      ensures Valid() && rows == map[]
    {
      rows, nextID := map[], 0;
    }

    method UpdateSectionContent(id: int, content: string, embedding: Option<seq<real>>, withEmbed: bool)
      requires Valid()
      modifies this
      ensures Valid() && nextID == old(nextID)
      ensures id in old(rows) ==>
                rows == old(rows)[id := old(rows)[id].(content := content, embedding := if withEmbed then embedding else None)]
      ensures id !in old(rows) ==> rows == old(rows)
    {
      if id in rows {
        rows := rows[id := rows[id].(content := content, embedding := if withEmbed then embedding else None)];
      }
    }

    method DeleteByDocumentID(docID: int)
      requires Valid()
      modifies this
      ensures Valid() && nextID == old(nextID)
      ensures rows == map id | id in old(rows) && old(rows)[id].docID != docID :: old(rows)[id]
    {
      rows := map id | id in rows && rows[id].docID != docID :: rows[id];
    }

    /** Stores the sections under fresh ids, which the caller's slice receives. */
    method CreateBatch(secs: seq<Section>, docID: int, embed: bool) returns (created: seq<Section>)
      requires Valid()
      modifies this
      ensures Valid() && nextID == old(nextID) + |secs|
      ensures |created| == |secs|
      ensures forall i :: 0 <= i < |secs| ==> created[i] == secs[i].(docID := docID, id := old(nextID) + i)
      ensures forall i :: 0 <= i < |secs| ==> created[i].id in rows && rows[created[i].id] == AsStored(created[i], embed)
      ensures forall id :: id in rows <==> id in old(rows) || old(nextID) <= id < nextID
      ensures forall id :: id in old(rows) ==> rows[id] == old(rows)[id]
    {
      created := [];
      var i := 0;
      while i < |secs|
        invariant 0 <= i <= |secs| == |secs| && |created| == i
        invariant Valid() && nextID == old(nextID) + i
        invariant forall j :: 0 <= j < i ==> created[j] == secs[j].(docID := docID, id := old(nextID) + j)
        invariant forall j :: 0 <= j < i ==> created[j].id in rows && rows[created[j].id] == AsStored(created[j], embed)
        invariant forall id :: id in rows <==> id in old(rows) || old(nextID) <= id < nextID
        invariant forall id :: id in old(rows) ==> rows[id] == old(rows)[id]
      {
        var s := secs[i].(docID := docID, id := nextID);
        rows := rows[s.id := AsStored(s, embed)];
        nextID := nextID + 1;
        created := created + [s];
        i := i + 1;
      }
    }
  }

  function Lookup(m: map<string, seq<Section>>, k: string): seq<Section> {
    if k in m then m[k] else []
  }

  ghost predicate Grouped(existing: seq<Section>, byHeading: map<string, seq<Section>>) {
    forall k :: Lookup(byHeading, k) == Group(existing, k)
  }

  method GroupByHeading(existing: seq<Section>) returns (byHeading: map<string, seq<Section>>, maxOrd: int)
    ensures Grouped(existing, byHeading)
    ensures maxOrd == MaxOrdinal(existing)
  {
    byHeading, maxOrd := map[], -1;
    var i := 0;
    while i < |existing|
      invariant 0 <= i <= |existing|
      invariant Grouped(existing[..i], byHeading)
      invariant maxOrd == MaxOrdinal(existing[..i])
    {
      var e := existing[i];
      var k := Key(e);
      assert existing[..i + 1][..i] == existing[..i];
      byHeading := byHeading[k := Lookup(byHeading, k) + [e]];
      if e.ordinal > maxOrd {
        maxOrd := e.ordinal;
      }
      i := i + 1;
    }
    assert existing[..i] == existing;
  }

  /** The inserts prepared so far: the extra sections under increasing ordinals. */
  ghost predicate Numbered(extra: seq<Section>, first: int, inserts: seq<Section>) {
    |inserts| == |extra| && forall j :: 0 <= j < |extra| ==> inserts[j] == extra[j].(ordinal := first + j)
  }

  /** What has been written for the first i incoming sections. */
  ghost predicate Written(existing: seq<Section>, incoming: seq<Section>, embed: bool,
                          rows0: Rows, rows: Rows, updated: Rows) {
    && rows.Keys == rows0.Keys
    && (forall e {:trigger existing[e]} :: 0 <= e < |existing| ==>
          var p := Partner(existing, incoming, e);
          if p.Some? then
            && existing[e].id in updated && updated[existing[e].id] == Overlay(existing[e], incoming[p.value])
            && existing[e].id in rows && rows[existing[e].id] == AsStored(Overlay(existing[e], incoming[p.value]), embed)
          else
            existing[e].id !in updated && existing[e].id in rows && rows[existing[e].id] == existing[e])
    && (forall id :: id in rows && (forall e :: 0 <= e < |existing| ==> existing[e].id != id) ==> rows[id] == rows0[id])
  }

  lemma {:induction false} WrittenStep(existing: seq<Section>, incoming: seq<Section>, i: nat, embed: bool,
                                       rows0: Rows,
                                       rows: Rows, updated: Rows, e: nat, rows': Rows, updated': Rows)
    requires i < |incoming| && DistinctIds(existing)
    requires Written(existing, incoming[..i], embed, rows0, rows, updated)
    requires var k, n := Key(incoming[i]), KeyCount(incoming[..i], Key(incoming[i]));
             n < KeyCount(existing, k) && e == NthIndex(existing, k, n)
    requires var s := Overlay(existing[e], incoming[i]);
             rows' == rows[s.id := AsStored(s, embed)] && updated' == updated[s.id := s]
    ensures Written(existing, incoming[..i + 1], embed, rows0, rows', updated')
  {
    forall x | 0 <= x < |existing|
      ensures Partner(existing, incoming[..i + 1], x) == if x == e then Some(i) else Partner(existing, incoming[..i], x)
      ensures x != e ==> existing[x].id != existing[e].id
    {
      PartnerStep(existing, incoming, i, x);
    }
  }

  lemma {:induction false} WrittenSkip(existing: seq<Section>, incoming: seq<Section>, i: nat, embed: bool,
                                       rows0: Rows,
                                       rows: Rows, updated: Rows)
    requires i < |incoming|
    requires Written(existing, incoming[..i], embed, rows0, rows, updated)
    requires KeyCount(incoming[..i], Key(incoming[i])) >= KeyCount(existing, Key(incoming[i]))
    ensures Written(existing, incoming[..i + 1], embed, rows0, rows, updated)
  {
    forall x | 0 <= x < |existing|
      ensures Partner(existing, incoming[..i + 1], x) == Partner(existing, incoming[..i], x)
    {
      PartnerStep(existing, incoming, i, x);
    }
  }

  function Count(m: map<string, int>, k: string): int {
    if k in m then m[k] else 0
  }

  function Min(a: int, b: int): int {
    if a < b then a else b
  }

  /** How many of each heading's stored sections have been met. */
  ghost predicate Consumed(existing: seq<Section>, incoming: seq<Section>, consumed: map<string, int>) {
    forall k :: Count(consumed, k) == Min(KeyCount(incoming, k), KeyCount(existing, k))
  }

  lemma {:induction false} ConsumedStep(existing: seq<Section>, incoming: seq<Section>, i: nat, consumed: map<string, int>)
    requires i < |incoming| && Consumed(existing, incoming[..i], consumed)
    ensures var k := Key(incoming[i]);
            var met := Count(consumed, k) < KeyCount(existing, k);
            Consumed(existing, incoming[..i + 1], if met then consumed[k := Count(consumed, k) + 1] else consumed)
  {
    assert incoming[..i + 1][..i] == incoming[..i];
  }

  lemma {:induction false} ExtraStep(existing: seq<Section>, incoming: seq<Section>, i: nat, first: int, inserts: seq<Section>)
    requires i < |incoming| && Numbered(Extra(existing, incoming[..i]), first, inserts)
    ensures var more := KeyCount(incoming[..i], Key(incoming[i])) < KeyCount(existing, Key(incoming[i]));
            Numbered(Extra(existing, incoming[..i + 1]), first,
                      if more then inserts else inserts + [incoming[i].(ordinal := first + |inserts|)])
    ensures NoneStored(existing, incoming[..i]) && KeyCount(existing, Key(incoming[i])) == 0 ==>
              NoneStored(existing, incoming[..i + 1])
  {
    ExtraLast(existing, incoming, i);
    if NoneStored(existing, incoming[..i]) && KeyCount(existing, Key(incoming[i])) == 0 {
      NoneStoredStep(existing, incoming, i);
    }
  }

  lemma {:induction false} NoneStoredStep(existing: seq<Section>, incoming: seq<Section>, i: nat)
    requires i < |incoming| && NoneStored(existing, incoming[..i]) && KeyCount(existing, Key(incoming[i])) == 0
    ensures NoneStored(existing, incoming[..i + 1])
  {
    assert incoming[..i + 1] == incoming[..i] + [incoming[i]];
  }

  lemma {:induction false} NotMetYet(existing: seq<Section>, incoming: seq<Section>, i: nat, at: nat)
    requires i < |incoming| && at < |existing| && Key(existing[at]) == Key(incoming[i])
    requires KeyCount(existing[..at], Key(incoming[i])) == KeyCount(incoming[..i], Key(incoming[i]))
    ensures Partner(existing, incoming[..i], at).None?
  {
  }

  /** What the next incoming section meets, and what it does to the counters and the inserts. */
  lemma {:induction false} Meets(existing: seq<Section>, incoming: seq<Section>, i: nat, consumed: map<string, int>,
                                 first: int, inserts: seq<Section>)
    requires i < |incoming| && Consumed(existing, incoming[..i], consumed)
    requires Numbered(Extra(existing, incoming[..i]), first, inserts)
    ensures var k, idx := Key(incoming[i]), Count(consumed, Key(incoming[i]));
            && 0 <= idx <= KeyCount(existing, k) == |Group(existing, k)|
            && (if idx < KeyCount(existing, k) then
                  && idx == KeyCount(incoming[..i], k)
                  && Group(existing, k)[idx] == existing[NthIndex(existing, k, idx)]
                  && Consumed(existing, incoming[..i + 1], consumed[k := idx + 1])
                  && Numbered(Extra(existing, incoming[..i + 1]), first, inserts)
                else
                  && KeyCount(incoming[..i], k) >= KeyCount(existing, k)
                  && Consumed(existing, incoming[..i + 1], consumed)
                  && Numbered(Extra(existing, incoming[..i + 1]), first, inserts + [incoming[i].(ordinal := first + |inserts|)])
                  && (NoneStored(existing, incoming[..i]) && KeyCount(existing, k) == 0 ==>
                            NoneStored(existing, incoming[..i + 1])))
  {
    GroupIsNth(existing, Key(incoming[i]));
    ConsumedStep(existing, incoming, i, consumed);
    ExtraStep(existing, incoming, i, first, inserts);
  }

  /** No incoming heading is stored yet. */
  ghost predicate NoneStored(existing: seq<Section>, incoming: seq<Section>) {
    forall s :: s in incoming ==> KeyCount(existing, Key(s)) == 0
  }

  /** Some incoming section has the heading of a stored one. */
  ghost predicate Collides(existing: seq<Section>, incoming: seq<Section>) {
    exists e, i :: 0 <= e < |existing| && 0 <= i < |incoming| && SameHeading(existing[e].heading, incoming[i].heading)
  }

  lemma {:induction false} CollidesIff(existing: seq<Section>, incoming: seq<Section>)
    ensures Collides(existing, incoming) <==> !NoneStored(existing, incoming)
  {
    forall i | 0 <= i < |incoming|
      ensures KeyCount(existing, Key(incoming[i])) > 0 <==>
              exists e :: 0 <= e < |existing| && SameHeading(existing[e].heading, incoming[i].heading)
    {
      KeyCountZero(existing, Key(incoming[i]));
      forall e | 0 <= e < |existing| {
        KeyEqualIff(existing[e].heading, incoming[i].heading);
      }
    }
  }

  /** Writes one incoming section over the stored section it meets. */
  method Overwrite(table: SectionTable, embed: bool, e: Section, in_: Section, ghost existing: seq<Section>,
                   ghost incoming: seq<Section>,
                   ghost i: nat, ghost at: nat, ghost rows0: Rows, ghost updated: Rows) returns (u: Section)
    requires table.Valid() && DistinctIds(existing) && i < |incoming| && in_ == incoming[i]
    requires Written(existing, incoming[..i], embed, rows0, table.rows, updated)
    requires var k, n := Key(in_), KeyCount(incoming[..i], Key(in_));
             n < KeyCount(existing, k) && at == NthIndex(existing, k, n) && e == existing[at]
    modifies table
    ensures table.Valid() && table.nextID == old(table.nextID)
    ensures u == Overlay(e, in_)
    ensures Written(existing, incoming[..i + 1], embed, rows0, table.rows, updated[u.id := u])
  {
    NotMetYet(existing, incoming, i, at);
    ghost var before := table.rows;
    table.UpdateSectionContent(e.id, in_.content, in_.embedding, embed);
    u := e.(content := in_.content, embedding := in_.embedding);
    WrittenStep(existing, incoming, i, embed, rows0, before, updated, at, table.rows, updated[u.id := u]);
  }

  /** Everything the loop over the incoming sections knows after i of them. */
  ghost predicate Progress(existing: seq<Section>, incoming: seq<Section>, i: nat, mode: WriteMode, embed: bool,
                           consumed: map<string, int>, first: int, inserts: seq<Section>,
                           rows0: Rows, rows: Rows, updated: Rows) {
    && i <= |incoming|
    && Consumed(existing, incoming[..i], consumed)
    && Numbered(Extra(existing, incoming[..i]), first, inserts)
    && Written(existing, incoming[..i], embed, rows0, rows, updated)
    && (mode == AppendOnly ==> rows == rows0 && updated == map[] && consumed == map[] && NoneStored(existing, incoming[..i]))
  }

  lemma {:induction false} ProgressStart(existing: seq<Section>, incoming: seq<Section>, mode: WriteMode, embed: bool,
                                         first: int, rows0: Rows)
    requires Written(existing, [], embed, rows0, rows0, map[])
    ensures Progress(existing, incoming, 0, mode, embed, map[], first, [], rows0, rows0, map[])
  {
    assert incoming[..0] == [];
  }

  /** One turn of the loop; `stop` when append-only meets a stored heading. */
  method PutNext(table: SectionTable, mode: WriteMode, embed: bool, byHeading: map<string, seq<Section>>, in_: Section,
                 consumed: map<string, int>, next: int, inserts: seq<Section>, updated: Rows,
                 ghost existing: seq<Section>, ghost incoming: seq<Section>, ghost i: nat, ghost first: int, ghost rows0: Rows)
    returns (stop: bool, consumed': map<string, int>, inserts': seq<Section>, updated': Rows)
    requires table.Valid() && DistinctIds(existing) && i < |incoming| && in_ == incoming[i] && next == first + |inserts|
    requires Grouped(existing, byHeading)
    requires Progress(existing, incoming, i, mode, embed, consumed, first, inserts, rows0, table.rows, updated)
    modifies table
    ensures table.Valid() && table.nextID == old(table.nextID)
    ensures stop ==> mode == AppendOnly && table.rows == rows0 && updated' == map[]
    ensures stop ==> NoneStored(existing, incoming[..i]) && KeyCount(existing, Key(in_)) > 0
    ensures !stop ==> Progress(existing, incoming, i + 1, mode, embed, consumed', first, inserts', rows0, table.rows, updated')
  {
    stop, consumed', inserts', updated' := false, consumed, inserts, updated;
    var k := Key(in_);
    var grp := Lookup(byHeading, k);
    var idx := Count(consumed, k);
    Meets(existing, incoming, i, consumed, first, inserts);
    if idx < |grp| {
      if mode == AppendOnly {
        stop := true;
        return;
      }
      var e := grp[idx];
      ghost var at := NthIndex(existing, k, idx);
      consumed' := consumed[k := idx + 1];
      e := Overwrite(table, embed, e, in_, existing, incoming, i, at, rows0, updated);
      updated' := updated[e.id := e];
    } else {
      WrittenSkip(existing, incoming, i, embed, rows0, table.rows, updated);
      inserts' := inserts + [in_.(ordinal := next)];
    }
  }

  /** The error names the first incoming section whose heading is stored. */
  ghost predicate ReportsFirst(existing: seq<Section>, incoming: seq<Section>, error: Error) {
    exists i :: 0 <= i < |incoming| && !Collides(existing, incoming[..i]) && Collides(existing, [incoming[i]])
                && error == SectionExists(Key(incoming[i]))
  }

  lemma {:induction false} StopsAtFirst(existing: seq<Section>, incoming: seq<Section>, i: nat)
    requires i < |incoming| && NoneStored(existing, incoming[..i]) && KeyCount(existing, Key(incoming[i])) > 0
    ensures ReportsFirst(existing, incoming, SectionExists(Key(incoming[i])))
  {
    CollidesIff(existing, incoming[..i]);
    CollidesIff(existing, [incoming[i]]);
    assert incoming[i] in [incoming[i]];
  }

  method Upsert(table: SectionTable, mode: WriteMode, embed: bool, existing: seq<Section>, incoming: seq<Section>)
    returns (r: Result<seq<Section>, Error>, updated: Rows)
    requires mode == MergeSections || mode == AppendOnly
    requires table.Valid() && DistinctIds(existing)
    requires Written(existing, [], embed, table.rows, table.rows, map[])
    modifies table
    ensures table.Valid() && table.nextID == old(table.nextID)
    ensures r.Failure? <==> mode == AppendOnly && !NoneStored(existing, incoming)
    ensures r.Failure? ==> ReportsFirst(existing, incoming, r.error)
    ensures mode == AppendOnly ==> table.rows == old(table.rows) && updated == map[]
    ensures r.Success? ==> Numbered(Extra(existing, incoming), MaxOrdinal(existing) + 1, r.value)
    ensures r.Success? ==> Written(existing, incoming, embed, old(table.rows), table.rows, updated)
  {
    ghost var rows0 := table.rows;
    var byHeading, maxOrd := GroupByHeading(existing);
    var consumed: map<string, int> := map[];
    updated := map[];
    var inserts: seq<Section> := [];
    var i := 0;
    ProgressStart(existing, incoming, mode, embed, maxOrd + 1, rows0);
    while i < |incoming|
      invariant 0 <= i <= |incoming|
      invariant table.Valid() && table.nextID == old(table.nextID)
      invariant Progress(existing, incoming, i, mode, embed, consumed, maxOrd + 1, inserts, rows0, table.rows, updated)
    {
      var stop;
      stop, consumed, inserts, updated := PutNext(table, mode, embed, byHeading, incoming[i], consumed,
                maxOrd + 1 + |inserts|, inserts, updated,
                                                  existing, incoming, i, maxOrd + 1, rows0);
      if stop {
        assert incoming[i] in incoming;
        StopsAtFirst(existing, incoming, i);
        return Failure(SectionExists(Key(incoming[i]))), updated;
      }
      i := i + 1;
    }
    assert incoming[..i] == incoming;
    return Success(inserts), updated;
  }

  /** The stored rows of the document are the returned sections (embeddings only when the type embeds)
      and every other document's rows are as before. */
  ghost predicate ReadsBack(docID: int, out: seq<Section>, embed: bool, rows0: Rows, rows: Rows) {
    && DistinctIds(out)
    && (forall i {:trigger out[i]} :: 0 <= i < |out| ==>
          && out[i].docID == docID && out[i].id in rows
          && rows[out[i].id].(embedding := out[i].embedding) == out[i]
          && (embed ==> rows[out[i].id] == out[i]))
    && (forall id :: id in rows && rows[id].docID == docID ==> exists i :: 0 <= i < |out| && out[i].id == id)
    && (forall id :: id in rows0 && rows0[id].docID != docID ==> id in rows && rows[id] == rows0[id])
    && (forall id :: id in rows && rows[id].docID != docID ==> id in rows0 && rows[id] == rows0[id])
  }

  /** Each written section is stored with its embedding if the type embeds and without one if not; the others are as they were. */
  ghost predicate StoredAs(existing: seq<Section>, incoming: seq<Section>, out: seq<Section>, embed: bool, rows: Rows) {
    forall i :: 0 <= i < |out| ==>
      out[i].id in rows &&
      var asIs := embed || (i < |existing| && Partner(existing, incoming, i).None?);
      rows[out[i].id] == if asIs then out[i] else out[i].(embedding := None)
  }

  lemma {:induction false} StoredRows(existing: seq<Section>, incoming: seq<Section>, docID: int, embed: bool, firstID: int,
                                      inserts: seq<Section>, rows0: Rows, rows1: Rows, rows: Rows, updated: Rows)
    requires forall i :: 0 <= i < |existing| ==> existing[i].id in rows0 && existing[i].docID == docID
    requires Written(existing, incoming, embed, rows0, rows1, updated)
    requires FreshRows(firstID, inserts, embed, rows1, rows)
    ensures StoredAs(existing, incoming, Merged(existing, incoming) + inserts, embed, rows)
  {
    var merged := Merged(existing, incoming);
    var out := merged + inserts;
    forall i | 0 <= i < |out|
      ensures out[i].id in rows &&
              var asIs := embed || (i < |existing| && Partner(existing, incoming, i).None?);
              rows[out[i].id] == if asIs then out[i] else out[i].(embedding := None)
    {
      if i < |existing| {
        assert out[i] == After(existing, incoming, i) && existing[i].id in rows1;
      } else {
        assert out[i] == inserts[i - |existing|];
      }
    }
  }

  /** New sections: fresh ids, the document's id, the ordinals given. */
  ghost predicate Created(secs: seq<Section>, docID: int, firstID: int, out: seq<Section>) {
    |out| == |secs| && forall i :: 0 <= i < |secs| ==> out[i] == secs[i].(docID := docID, id := firstID + i)
  }

  /** The result of a merge: the stored sections in place, then the new ones behind every ordinal in use. */
  ghost predicate IsMerge(existing: seq<Section>, incoming: seq<Section>, docID: int, firstID: int, out: seq<Section>) {
    && |out| == |existing| + |Extra(existing, incoming)|
    && out[..|existing|] == Merged(existing, incoming)
    && forall i :: |existing| <= i < |out| ==>
         var j := i - |existing|;
         out[i] == Extra(existing, incoming)[j].(ordinal := MaxOrdinal(existing) + 1 + j, docID := docID, id := firstID + j)
  }

  /** The largest ordinal in use, and -1 where none is larger. */
  lemma {:induction false} MaxOrdinalIsMax(s: seq<Section>)
    ensures forall i :: 0 <= i < |s| ==> s[i].ordinal <= MaxOrdinal(s)
    ensures MaxOrdinal(s) == -1 || exists i :: 0 <= i < |s| && s[i].ordinal == MaxOrdinal(s) > -1
  {
    if s != [] {
      MaxOrdinalIsMax(s[..|s| - 1]);
    }
  }

  lemma {:induction false} MergeKeepsOrder(existing: seq<Section>, incoming: seq<Section>, docID: int, firstID: int,
                                           out: seq<Section>)
    requires IsMerge(existing, incoming, docID, firstID, out) && Ordered(existing)
    ensures Ordered(out)
  {
    MaxOrdinalIsMax(existing);
    var n := |existing|;
    assert forall i :: 0 <= i < n ==> out[i] == out[..n][i];
    forall i, j | 0 <= i < j < |out|
      ensures out[i].ordinal < out[j].ordinal
    {
      if i < n {
        assert out[i].ordinal == existing[i].ordinal;
      }
      if j < n {
        assert out[j].ordinal == existing[j].ordinal;
      }
    }
  }

  /** The stored sections with the updates of this call in place. */
  method Assemble(existing: seq<Section>, updated: Rows, ghost incoming: seq<Section>, embed: bool,
                  ghost rows0: Rows, ghost rows: Rows) returns (final: seq<Section>)
    requires Written(existing, incoming, embed, rows0, rows, updated)
    ensures final == Merged(existing, incoming)
  {
    final := [];
    var i := 0;
    while i < |existing|
      invariant 0 <= i <= |existing| && |final| == i
      invariant forall j :: 0 <= j < i ==> final[j] == After(existing, incoming, j)
    {
      var e := existing[i];
      final := final + [if e.id in updated then updated[e.id] else e];
      i := i + 1;
    }
  }

  method ReplaceSections(table: SectionTable, embed: bool, incoming: seq<Section>, docID: int) returns (created: seq<Section>)
    requires table.Valid()
    modifies table
    ensures table.Valid()
    ensures ReadsBack(docID, created, embed, old(table.rows), table.rows)
    ensures Created(incoming, docID, old(table.nextID), created)
    ensures StoredAs([], incoming, created, embed, table.rows)
  {
    ghost var rows0, firstID := table.rows, table.nextID;
    table.DeleteByDocumentID(docID);
    ghost var rows1 := table.rows;
    created := table.CreateBatch(incoming, docID, embed);
    CreatedReadBack(incoming, docID, embed, firstID, created, rows0, rows1, table.rows);
  }

  method UpsertSections(table: SectionTable, mode: WriteMode, embed: bool, existing: seq<Section>,
                        incoming: seq<Section>, docID: int)
    returns (r: Result<seq<Section>, Error>)
    requires mode == MergeSections || mode == AppendOnly
    requires table.Valid() && table.Holds(docID, existing)
    modifies table
    ensures table.Valid()
    ensures r.Failure? <==> mode == AppendOnly && Collides(existing, incoming)
    ensures r.Failure? ==> table.rows == old(table.rows) && ReportsFirst(existing, incoming, r.error)
    ensures r.Success? ==> ReadsBack(docID, r.value, embed, old(table.rows), table.rows)
    ensures r.Success? ==> IsMerge(existing, incoming, docID, old(table.nextID), r.value)
    ensures r.Success? ==> StoredAs(existing, incoming, r.value, embed, table.rows)
    ensures r.Success? && Ordered(existing) ==> Ordered(r.value)
    ensures mode == AppendOnly ==> forall id :: id in old(table.rows) ==>
              id in table.rows && table.rows[id] == old(table.rows)[id]
  {
    ghost var rows0, firstID := table.rows, table.nextID;
    CollidesIff(existing, incoming);
    assert Written(existing, [], embed, rows0, rows0, map[]);
    var updated;
    r, updated := Upsert(table, mode, embed, existing, incoming);
    if r.Failure? {
      return;
    }
    ghost var rows1 := table.rows;
    var inserts := table.CreateBatch(r.value, docID, embed);
    var final := Assemble(existing, updated, incoming, embed, rows0, rows1);
    MergeReadBack(existing, incoming, docID, embed, firstID, final, inserts, rows0, rows1, table.rows, updated);
    StoredRows(existing, incoming, docID, embed, firstID, inserts, rows0, rows1, table.rows, updated);
    MergeShape(existing, incoming, docID, firstID, r.value, inserts);
    if Ordered(existing) {
      MergeKeepsOrder(existing, incoming, docID, firstID, final + inserts);
    }
    return Success(final + inserts);
  }

  lemma {:induction false} AppendedAt(merged: seq<Section>, extra: seq<Section>, docID: int, firstID: int, first: int,
                                      inserts: seq<Section>, created: seq<Section>, j: nat)
    requires Numbered(extra, first, inserts) && Created(inserts, docID, firstID, created) && j < |extra|
    ensures (merged + created)[|merged| + j] == extra[j].(ordinal := first + j, docID := docID, id := firstID + j)
  {
    assert created[j] == inserts[j].(docID := docID, id := firstID + j);
  }

  lemma {:induction false} MergeShape(existing: seq<Section>, incoming: seq<Section>, docID: int, firstID: int,
                                      inserts: seq<Section>, created: seq<Section>)
    requires Numbered(Extra(existing, incoming), MaxOrdinal(existing) + 1, inserts) && Created(inserts, docID, firstID, created)
    ensures IsMerge(existing, incoming, docID, firstID, Merged(existing, incoming) + created)
  {
    var merged, n := Merged(existing, incoming), |existing|;
    assert (merged + created)[..n] == merged;
    forall i | n <= i < n + |created|
      ensures var j := i - n;
              (merged + created)[i] ==
              Extra(existing, incoming)[j].(ordinal := MaxOrdinal(existing) + 1 + j, docID := docID, id := firstID + j)
    {
      AppendedAt(merged, Extra(existing, incoming), docID, firstID, MaxOrdinal(existing) + 1, inserts, created, i - n);
    }
  }

  method WriteSections(table: SectionTable, mode: WriteMode, embed: bool, existing: seq<Section>,
                       incoming: seq<Section>, docID: int)
    returns (r: Result<seq<Section>, Error>)
    requires table.Valid() && table.Holds(docID, existing)
    modifies table
    ensures table.Valid()
    ensures r.Failure? <==> mode == AppendOnly && Collides(existing, incoming)
    ensures r.Failure? ==> table.rows == old(table.rows) && ReportsFirst(existing, incoming, r.error)
    ensures r.Success? ==> ReadsBack(docID, r.value, embed, old(table.rows), table.rows)
    ensures r.Success? && mode in {Replace, Unset} ==> Created(incoming, docID, old(table.nextID), r.value)
    ensures r.Success? && mode in {MergeSections, AppendOnly} ==> IsMerge(existing, incoming, docID, old(table.nextID), r.value)
    ensures r.Success? ==>
              StoredAs(if mode in {Replace, Unset} then [] else existing, incoming, r.value, embed, table.rows)
    ensures r.Success? && Ordered(if mode in {Replace, Unset} then incoming else existing) ==> Ordered(r.value)
    ensures mode == AppendOnly ==> forall id :: id in old(table.rows) ==>
              id in table.rows && table.rows[id] == old(table.rows)[id]
  {
    if mode == Replace || mode == Unset {
      var created := ReplaceSections(table, embed, incoming, docID);
      return Success(created);
    }
    r := UpsertSections(table, mode, embed, existing, incoming, docID);
  }

  ghost predicate FreshRows(firstID: int, out: seq<Section>, embed: bool, rows1: Rows, rows: Rows) {
    && (forall id :: id in rows1 ==> id < firstID)
    && (forall i :: 0 <= i < |out| ==> out[i].id in rows && rows[out[i].id] == AsStored(out[i], embed))
    && (forall id :: id in rows <==> id in rows1 || firstID <= id < firstID + |out|)
    && (forall id :: id in rows1 ==> rows[id] == rows1[id])
  }

  lemma {:induction false} CreatedReadBack(secs: seq<Section>, docID: int, embed: bool, firstID: int, out: seq<Section>,
                                           rows0: Rows, rows1: Rows, rows: Rows)
    requires Created(secs, docID, firstID, out) && FreshRows(firstID, out, embed, rows1, rows)
    requires rows1 == map id | id in rows0 && rows0[id].docID != docID :: rows0[id]
    ensures ReadsBack(docID, out, embed, rows0, rows)
  {
    forall id | id in rows && id !in rows1
      ensures exists i :: 0 <= i < |out| && out[i].id == id
      ensures rows[id].docID == docID
    {
      assert out[id - firstID].id == id;
    }
  }

  /** The stored sections keep their rows through a merge, updated or not. */
  lemma {:induction false} MergedRow(existing: seq<Section>, incoming: seq<Section>, docID: int, embed: bool,
                                     firstID: int, i: nat,
                                     rows0: Rows, rows1: Rows, rows: Rows, updated: Rows)
    requires i < |existing| && existing[i].docID == docID
    requires Written(existing, incoming, embed, rows0, rows1, updated)
    requires (forall id :: id in rows1 ==> id < firstID && id in rows && rows[id] == rows1[id])
    ensures var f := After(existing, incoming, i);
            && f.id == existing[i].id < firstID && f.docID == docID && f.id in rows
            && rows[f.id].(embedding := f.embedding) == f && (embed ==> rows[f.id] == f)
  {
    assert existing[i].id in rows1;
  }

  /** A row of neither the document nor the batch is untouched. */
  lemma {:induction false} OtherRow(existing: seq<Section>, incoming: seq<Section>, docID: int, embed: bool,
                                    firstID: int, inserts: seq<Section>, id: int,
                                    rows0: Rows, rows1: Rows, rows: Rows, updated: Rows)
    requires Written(existing, incoming, embed, rows0, rows1, updated)
    requires FreshRows(firstID, inserts, embed, rows1, rows)
    requires forall e :: 0 <= e < |existing| ==> existing[e].id != id
    ensures id in rows0 ==> id in rows && rows[id] == rows0[id]
    ensures id in rows && id < firstID ==> id in rows0 && rows[id] == rows0[id]
  {
  }

  lemma {:induction false} MergeReadBack(existing: seq<Section>, incoming: seq<Section>, docID: int, embed: bool, firstID: int,
                                         final: seq<Section>, inserts: seq<Section>,
                                         rows0: Rows, rows1: Rows, rows: Rows, updated: Rows)
    requires DistinctIds(existing) && final == Merged(existing, incoming)
    requires forall i :: 0 <= i < |existing| ==>
               existing[i].id in rows0 && rows0[existing[i].id] == existing[i] && existing[i].docID == docID
    requires forall id :: id in rows0 && rows0[id].docID == docID ==> exists i :: 0 <= i < |existing| && existing[i].id == id
    requires Written(existing, incoming, embed, rows0, rows1, updated)
    requires FreshRows(firstID, inserts, embed, rows1, rows)
    requires forall j :: 0 <= j < |inserts| ==> inserts[j].docID == docID && inserts[j].id == firstID + j
    ensures ReadsBack(docID, final + inserts, embed, rows0, rows)
  {
    var out, n := final + inserts, |existing|;
    forall i | 0 <= i < |out|
      ensures out[i].docID == docID && out[i].id in rows
      ensures rows[out[i].id].(embedding := out[i].embedding) == out[i]
      ensures embed ==> rows[out[i].id] == out[i]
      ensures if i < n then out[i].id == existing[i].id && out[i].id < firstID else out[i].id == firstID + (i - n)
    {
      if i < n {
        MergedRow(existing, incoming, docID, embed, firstID, i, rows0, rows1, rows, updated);
      }
    }
    forall id | id in rows || id in rows0
      ensures || (exists i :: 0 <= i < |out| && out[i].id == id)
              || (id in rows && id in rows0 && rows[id] == rows0[id] && rows[id].docID != docID)
    {
      if e :| 0 <= e < n && existing[e].id == id {
        assert out[e].id == id;
      } else if id in rows && id >= firstID {
        assert out[n + (id - firstID)].id == id;
      } else {
        OtherRow(existing, incoming, docID, embed, firstID, inserts, id, rows0, rows1, rows, updated);
      }
    }
  }

  // ----- merging the same sections again changes nothing

  lemma {:induction false} SameKeys(a: seq<Section>, b: seq<Section>, k: string)
    requires |a| == |b| && forall i :: 0 <= i < |a| ==> Key(a[i]) == Key(b[i])
    ensures KeyCount(a, k) == KeyCount(b, k)
  {
    if a != [] {
      SameKeys(a[..|a| - 1], b[..|b| - 1], k);
    }
  }

  lemma {:induction false} KeyCountSnoc(s: seq<Section>, x: Section, k: string)
    ensures KeyCount(s + [x], k) == KeyCount(s, k) + if Key(x) == k then 1 else 0
  {
    assert (s + [x])[..|s|] == s;
  }

  lemma {:induction false} KeyCountConcat(a: seq<Section>, b: seq<Section>, k: string)
    ensures KeyCount(a + b, k) == KeyCount(a, k) + KeyCount(b, k)
  {
    if b == [] {
      assert a + b == a;
    } else {
      assert (a + b)[..|a + b| - 1] == a + b[..|b| - 1];
      KeyCountConcat(a, b[..|b| - 1], k);
    }
  }

  lemma {:induction false} ExtraCount(existing: seq<Section>, incoming: seq<Section>, k: string)
    ensures KeyCount(Extra(existing, incoming), k) == KeyCount(incoming, k) - Min(KeyCount(incoming, k), KeyCount(existing, k))
  {
    if incoming != [] {
      var rest, last := incoming[..|incoming| - 1], incoming[|incoming| - 1];
      ExtraCount(existing, rest, k);
      var kept := Extra(existing, rest);
      KeyCountSnoc(kept, last, k);
      assert Extra(existing, incoming) == kept || Extra(existing, incoming) == kept + [last];
    }
  }

  /** The j-th new section is an incoming one, and becomes that occurrence of its heading. */
  lemma {:induction false} ExtraOrigin(existing: seq<Section>, incoming: seq<Section>, j: nat) returns (t: nat)
    requires j < |Extra(existing, incoming)|
    ensures t < |incoming| && Extra(existing, incoming)[j] == incoming[t]
    ensures var k := Key(incoming[t]);
            KeyCount(incoming[..t], k) == KeyCount(existing, k) + KeyCount(Extra(existing, incoming)[..j], k)
  {
    var last := |incoming| - 1;
    var rest := Extra(existing, incoming[..last]);
    if j < |rest| {
      t := ExtraOrigin(existing, incoming[..last], j);
      assert incoming[..last][..t] == incoming[..t];
      assert Extra(existing, incoming)[..j] == rest[..j];
    } else {
      t := last;
      ExtraCount(existing, incoming[..last], Key(incoming[last]));
      assert Extra(existing, incoming)[..j] == rest;
    }
  }

  lemma {:induction false} NothingExtra(existing: seq<Section>, incoming: seq<Section>)
    requires forall k :: KeyCount(incoming, k) <= KeyCount(existing, k)
    ensures Extra(existing, incoming) == []
  {
    if incoming != [] {
      var rest := incoming[..|incoming| - 1];
      assert forall k :: KeyCount(rest, k) <= KeyCount(incoming, k);
      NothingExtra(existing, rest);
    }
  }

  /** A section that was stored before the merge has the occurrence number it had. */
  lemma {:induction false} OldOccurrence(existing: seq<Section>, incoming: seq<Section>, docID: int, firstID: int,
                                         out: seq<Section>, e: nat, k: string)
    requires IsMerge(existing, incoming, docID, firstID, out) && e <= |existing|
    ensures KeyCount(out[..e], k) == KeyCount(existing[..e], k)
  {
    assert forall i :: 0 <= i < e ==> out[i] == out[..|existing|][i];
    SameKeys(out[..e], existing[..e], k);
  }

  lemma {:induction false} BothOccurrences(existing: seq<Section>, incoming: seq<Section>, docID: int, firstID: int,
                                           out: seq<Section>, j: nat, k: string)
    requires IsMerge(existing, incoming, docID, firstID, out) && j <= |Extra(existing, incoming)|
    ensures KeyCount(out[..|existing| + j], k) == KeyCount(existing, k) + KeyCount(Extra(existing, incoming)[..j], k)
  {
    var n := |existing|;
    OldOccurrence(existing, incoming, docID, firstID, out, n, k);
    assert existing[..n] == existing;
    NewKeys(existing, incoming, docID, firstID, out, j, k);
    KeyCountSplit(out, n, n + j, k);
  }

  lemma {:induction false} KeyCountSplit(s: seq<Section>, i: nat, j: nat, k: string)
    requires i <= j <= |s|
    ensures KeyCount(s[..j], k) == KeyCount(s[..i], k) + KeyCount(s[i..j], k)
  {
    KeyCountConcat(s[..i], s[i..j], k);
    assert s[..j] == s[..i] + s[i..j];
  }

  lemma {:induction false} NewKeys(existing: seq<Section>, incoming: seq<Section>, docID: int, firstID: int,
                                   out: seq<Section>, j: nat, k: string)
    requires IsMerge(existing, incoming, docID, firstID, out) && j <= |Extra(existing, incoming)|
    ensures KeyCount(out[|existing|..|existing| + j], k) == KeyCount(Extra(existing, incoming)[..j], k)
  {
    var n := |existing|;
    var new_, extra := out[n..n + j], Extra(existing, incoming)[..j];
    forall i | 0 <= i < j
      ensures Key(new_[i]) == Key(extra[i])
    {
      assert new_[i] == out[n + i];
    }
    SameKeys(new_, extra, k);
  }

  /** A new section has the occurrence number its origin has among the incoming ones. */
  lemma {:induction false} NewOccurrence(existing: seq<Section>, incoming: seq<Section>, docID: int, firstID: int,
                                         out: seq<Section>, j: nat) returns (t: nat)
    requires IsMerge(existing, incoming, docID, firstID, out) && j < |Extra(existing, incoming)|
    ensures t < |incoming| && Extra(existing, incoming)[j] == incoming[t]
    ensures KeyCount(out[..|existing| + j], Key(incoming[t])) == KeyCount(incoming[..t], Key(incoming[t]))
  {
    t := ExtraOrigin(existing, incoming, j);
    BothOccurrences(existing, incoming, docID, firstID, out, j, Key(incoming[t]));
  }

  /** The stored sections of a finished merge meet the partners they met before. */
  lemma {:induction false} PartnerAgain(existing: seq<Section>, incoming: seq<Section>, docID: int, firstID: int,
                                        out: seq<Section>, e: nat)
    requires IsMerge(existing, incoming, docID, firstID, out) && e < |out|
    ensures After(out, incoming, e) == out[e]
  {
    var n := |existing|;
    if e < n {
      assert out[e] == out[..n][e] == After(existing, incoming, e);
      OldOccurrence(existing, incoming, docID, firstID, out, e, Key(out[e]));
    } else {
      var t := NewOccurrence(existing, incoming, docID, firstID, out, e - n);
      MeetsOrigin(out, incoming, e, t);
    }
  }

  lemma {:induction false} MeetsOrigin(out: seq<Section>, incoming: seq<Section>, e: nat, t: nat)
    requires e < |out| && t < |incoming| && Key(out[e]) == Key(incoming[t])
    requires KeyCount(out[..e], Key(out[e])) == KeyCount(incoming[..t], Key(out[e]))
    ensures Partner(out, incoming, e) == Some(t)
  {
    KeyCountPrefix(incoming, t, |incoming|, Key(out[e]));
    assert incoming[..|incoming|] == incoming;
    NthUnique(incoming, t, NthIndex(incoming, Key(out[e]), KeyCount(out[..e], Key(out[e]))));
  }

  /** Equal but for the embeddings, which a type without embeddings does not store. */
  ghost predicate Alike(a: seq<Section>, b: seq<Section>) {
    |a| == |b| && forall i :: 0 <= i < |a| ==> a[i].(embedding := b[i].embedding) == b[i]
  }

  lemma {:induction false} AlikeCounts(a: seq<Section>, b: seq<Section>, e: nat, k: string)
    requires Alike(a, b) && e <= |a|
    ensures KeyCount(a[..e], k) == KeyCount(b[..e], k)
  {
    assert forall i :: 0 <= i < e ==> Key(a[i]) == Key(b[i]);
    SameKeys(a[..e], b[..e], k);
  }

  lemma {:induction false} AlikePartner(a: seq<Section>, b: seq<Section>, incoming: seq<Section>, e: nat)
    requires Alike(a, b) && e < |a|
    ensures Partner(a, incoming, e) == Partner(b, incoming, e)
  {
    assert Key(a[e]) == Key(b[e]);
    AlikeCounts(a, b, e, Key(a[e]));
  }

  /** After a merge every incoming section meets a stored one: merging again adds nothing. */
  lemma {:induction false} NothingLeft(existing: seq<Section>, incoming: seq<Section>, docID: int, firstID: int,
                                       out: seq<Section>)
    requires IsMerge(existing, incoming, docID, firstID, out)
    ensures forall k :: KeyCount(incoming, k) <= KeyCount(out, k)
  {
    var n, extra := |existing|, Extra(existing, incoming);
    forall k
      ensures KeyCount(incoming, k) <= KeyCount(out, k)
    {
      BothOccurrences(existing, incoming, docID, firstID, out, |extra|, k);
      assert out[..n + |extra|] == out && extra[..|extra|] == extra;
      ExtraCount(existing, incoming, k);
    }
  }

  /** Merging the same sections into the rows that a merge left, as they are stored, gives them back: a section
      that was written is the one written, any other is the stored one. */
  lemma {:induction false} MergeIdempotent(existing: seq<Section>, incoming: seq<Section>, docID: int, firstID: int,
                                           out: seq<Section>,
                                           stored: seq<Section>, firstID': int, out': seq<Section>)
    requires IsMerge(existing, incoming, docID, firstID, out) && Alike(stored, out)
    requires IsMerge(stored, incoming, docID, firstID', out')
    ensures |out'| == |out| && forall e :: 0 <= e < |out| ==>
              out'[e] == if Partner(out, incoming, e).Some? then out[e] else stored[e]
    ensures stored == out ==> out' == out
  {
    NothingLeft(existing, incoming, docID, firstID, out);
    forall k
      ensures KeyCount(incoming, k) <= KeyCount(stored, k)
    {
      AlikeCounts(stored, out, |out|, k);
      assert stored[..|out|] == stored && out[..|out|] == out;
    }
    NothingExtra(stored, incoming);
    forall e | 0 <= e < |out|
      ensures out'[e] == if Partner(out, incoming, e).Some? then out[e] else stored[e]
    {
      PartnerAgain(existing, incoming, docID, firstID, out, e);
      AlikePartner(stored, out, incoming, e);
      assert out'[..|stored|][e] == out'[e];
    }
  }
}
