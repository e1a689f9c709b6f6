/** Document type policies: NULL inheritance from the reference row (internal/models/doc_type_policy.go), the
    admin patch (internal/service/write_path.go) and the snapshot store (internal/staleness/staleness.go).
    The rules column is read by an uninterpreted JSON parser. */
module DocPolicy {
  import opened Wrappers

  const REFERENCE := "reference"
  const DOC_TYPES: set<string> := {"project_state", "audit", "learning", "preference", "tool", REFERENCE, "journal",
            "handoff", "prompt"}

  const WRITE_MODES: set<string> := {"replace", "merge_sections", "append_only"}
  const SLUG_FORMATS: set<string> := {"any", "date", "datetime", "kebab"}
  const SUBCATEGORY_RULES: set<string> := {"optional", "required", "forbidden"}

  /** One row of doc_type_policies; None is NULL, inherit from the reference row. */
  datatype Policy = Policy(
    docType: string,
    expiration: Option<int>,
    duplicateGuard: Option<bool>,
    cleanupScan: Option<bool>,
    lintStale: Option<bool>,
    embed: Option<bool>,
    defaultSearch: Option<bool>,
    prunable: Option<bool>,
    writeMode: Option<string>,
    slugFormat: Option<string>,
    subcategory: Option<string>,
    rules: string)

  datatype ChainPrevious = ChainPrevious(scope: string, edgeType: string)

  /** isObject is false for the JSON null, which decodes into an empty key map as well. */
  datatype Rules = Rules(isObject: bool, keys: map<string, string>, chain: Option<ChainPrevious>)

  datatype Effective = Effective(
    expiration: int,
    duplicateGuard: bool,
    cleanupScan: bool,
    lintStale: bool,
    embed: bool,
    defaultSearch: bool,
    prunable: bool,
    writeMode: string,
    slugFormat: string,
    subcategory: string,
    rules: Rules)

  type Table = map<string, Effective>

  datatype Error =
    | NotAdmin
    | UnknownType
    | NoReference
    | Missing(field: string)
    | BadRules
    | Rejected(docType: string, field: string)
    | CheckFailed

  /** Decodes a rules column; None when it is not a JSON object (or null) or chain_previous is malformed. */
  type Parser = string -> Option<Rules>

  const NO_RULES := Rules(true, map[], None)

  const HANDOFF_RULES := "{\"chain_previous\":{\"scope\":\"subcategory\",\"edge_type\":\"continues_from\"}}"

  function ParseRules(parse: Parser, js: string): Option<Rules> {
    if js == "" then Some(NO_RULES) else parse(js)
  }

  function Over<T>(o: Option<T>, base: T): T {
    if o.Some? then o.value else base
  }

  // ----- resolution

  function ResolveRow(parse: Parser, r: Policy, base: Effective): Result<Effective, Error> {
    var rules := ParseRules(parse, r.rules);
    if rules.None? then Failure(BadRules)
    else Success(Effective(
      Over(r.expiration, base.expiration),
      Over(r.duplicateGuard, base.duplicateGuard),
      Over(r.cleanupScan, base.cleanupScan),
      Over(r.lintStale, base.lintStale),
      Over(r.embed, base.embed),
      Over(r.defaultSearch, base.defaultSearch),
      Over(r.prunable, base.prunable),
      Over(r.writeMode, base.writeMode),
      Over(r.slugFormat, base.slugFormat),
      Over(r.subcategory, base.subcategory),
      rules.value))
  }

  /** A row over a base, with no rules where they do not decode. */
  function Overlaid(parse: Parser, r: Policy, base: Effective): Effective {
    var e := ResolveRow(parse, r, base);
    if e.Success? then e.value else base.(rules := NO_RULES)
  }

  /** The scalar the reference row fails to set; an expiration left out of it counts as 0. */
  function MissingField(ref: Policy): Option<string> {
    if ref.duplicateGuard.None? then Some("duplicate_guard")
    else if ref.cleanupScan.None? then Some("cleanup_scan")
    else if ref.lintStale.None? then Some("lint_stale_check")
    else if ref.embed.None? then Some("embed")
    else if ref.defaultSearch.None? then Some("default_search")
    else if ref.prunable.None? then Some("prunable")
    else if ref.writeMode.None? then Some("write_mode")
    else if ref.slugFormat.None? then Some("slug_format")
    else if ref.subcategory.None? then Some("subcategory")
    else None
  }

  function EffectiveFromReference(parse: Parser, ref: Policy): (res: Result<Effective, Error>)
    ensures res.Success? <==> MissingField(ref).None? && ParseRules(parse, ref.rules).Some?
  {
    var missing := MissingField(ref);
    if missing.Some? then Failure(Missing(missing.value))
    else ResolveRow(parse, ref, Effective(
      Over(ref.expiration, 0), ref.duplicateGuard.value, ref.cleanupScan.value, ref.lintStale.value, ref.embed.value,
      ref.defaultSearch.value, ref.prunable.value, ref.writeMode.value, ref.slugFormat.value, ref.subcategory.value, NO_RULES))
  }

  /** The row that speaks for each type: the last one of it. */
  function ByType(rows: seq<Policy>): map<string, Policy> {
    if rows == [] then map[] else ByType(rows[..|rows| - 1])[rows[|rows| - 1].docType := rows[|rows| - 1]]
  }

  lemma {:induction false} UpdatesCommute<K, V>(m: map<K, V>, k: K, v: V, j: K, w: V)
    ensures k == j ==> m[k := v][j := w] == m[j := w]
    ensures k != j ==> m[k := v][j := w] == m[j := w][k := v]
  {
  }

  lemma {:induction false} ByTypeNext(rows: seq<Policy>, n: nat)
    requires n < |rows|
    ensures ByType(rows[..n + 1]) == ByType(rows[..n])[rows[n].docType := rows[n]]
  {
    assert rows[..n + 1][..n] == rows[..n];
  }

  lemma {:induction false} ByTypeSnoc(rows: seq<Policy>, r: Policy)
    ensures ByType(rows + [r]) == ByType(rows)[r.docType := r]
  {
    assert (rows + [r])[..|rows|] == rows;
  }

  /** doc_type is the primary key of the table the rows are read from. */
  ghost predicate Distinct(rows: seq<Policy>) {
    forall i, k :: 0 <= i < |rows| && 0 <= k < |rows| && rows[i].docType == rows[k].docType ==> i == k
  }

  lemma {:induction false} ByTypeListed(rows: seq<Policy>)
    ensures forall t :: t in ByType(rows) ==> ByType(rows)[t] in rows && ByType(rows)[t].docType == t
    ensures forall i :: 0 <= i < |rows| ==> rows[i].docType in ByType(rows)
    ensures Distinct(rows) ==> forall i :: 0 <= i < |rows| ==> ByType(rows)[rows[i].docType] == rows[i]
  {
    if rows != [] {
      var n := |rows| - 1;
      var init := rows[..n];
      ByTypeListed(init);
      assert rows == init + [rows[n]];
      forall i | 0 <= i < |rows|
        ensures rows[i].docType in ByType(rows)
        ensures Distinct(rows) ==> ByType(rows)[rows[i].docType] == rows[i]
      {
        assert i < n ==> rows[i] == init[i];
        assert Distinct(rows) ==> Distinct(init);
      }
    }
  }

  /** The table by primary key. */
  type Rows = map<string, Policy>

  predicate Keyed(rows: Rows) {
    forall t :: t in rows ==> rows[t].docType == t
  }

  predicate Resolves(parse: Parser, rows: Rows) {
    && REFERENCE in rows
    && EffectiveFromReference(parse, rows[REFERENCE]).Success?
    && forall t :: t in rows ==> ParseRules(parse, rows[t].rules).Some?
  }

  function Base(parse: Parser, rows: Rows): Effective
    requires Resolves(parse, rows)
  {
    EffectiveFromReference(parse, rows[REFERENCE]).value
  }

  function OverlayAll(parse: Parser, rows: Rows, base: Effective): Table {
    map t | t in rows :: Overlaid(parse, rows[t], base)
  }

  function Resolved(parse: Parser, rows: Rows): Table
    requires Resolves(parse, rows)
  {
    OverlayAll(parse, rows, Base(parse, rows))
  }

  predicate AllParse(parse: Parser, rows: seq<Policy>) {
    forall i :: 0 <= i < |rows| ==> ParseRules(parse, rows[i].rules).Some?
  }

  /** A list of rows of distinct types parses as its rows by type do. */
  lemma {:induction false} ParsedListed(parse: Parser, rows: seq<Policy>)
    ensures AllParse(parse, rows) ==> forall t :: t in ByType(rows) ==> ParseRules(parse, ByType(rows)[t].rules).Some?
    ensures Distinct(rows) && (forall t :: t in ByType(rows) ==> ParseRules(parse, ByType(rows)[t].rules).Some?) ==>
              AllParse(parse, rows)
  {
    ByTypeListed(rows);
    forall i | 0 <= i < |rows| && Distinct(rows) && forall t :: t in ByType(rows) ==>
              ParseRules(parse, ByType(rows)[t].rules).Some?
      ensures ParseRules(parse, rows[i].rules).Some?
    {
      assert rows[i].docType in ByType(rows);
    }
  }

  method Index(rows: seq<Policy>) returns (byType: map<string, Policy>)
    ensures byType == ByType(rows)
  {
    byType := map[];
    for i := 0 to |rows|
      invariant byType == ByType(rows[..i])
    {
      ByTypeNext(rows, i);
      byType := byType[rows[i].docType := rows[i]];
    }
    assert rows[..|rows|] == rows;
  }

  method ResolveRows(parse: Parser, rows: seq<Policy>, base: Effective) returns (res: Result<Table, Error>)
    ensures res.Success? <==> AllParse(parse, rows)
    ensures res.Success? ==> res.value == OverlayAll(parse, ByType(rows), base)
    ensures res.Failure? ==> res.error == BadRules
  {
    var out: Table := map[];
    for i := 0 to |rows|
      invariant forall k :: 0 <= k < i ==> ParseRules(parse, rows[k].rules).Some?
      invariant out == OverlayAll(parse, ByType(rows[..i]), base)
    {
      var eff := ResolveRow(parse, rows[i], base);
      if eff.Failure? {
        return Failure(eff.error);
      }
      ByTypeNext(rows, i);
      out := out[rows[i].docType := eff.value];
    }
    assert rows[..|rows|] == rows;
    return Success(out);
  }

  method ResolveDocTypePolicies(parse: Parser, rows: seq<Policy>) returns (res: Result<Table, Error>)
    ensures res.Success? <==> Resolves(parse, ByType(rows)) && AllParse(parse, rows)
    ensures res.Success? ==> res.value == Resolved(parse, ByType(rows))
    ensures res.Failure? ==>
              res.error == if REFERENCE !in ByType(rows) then NoReference
                           else if MissingField(ByType(rows)[REFERENCE]).Some? then Missing(MissingField(ByType(rows)[REFERENCE]).value)
                           else BadRules
  {
    var byType := Index(rows);
    if REFERENCE !in byType {
      return Failure(NoReference);
    }
    var base := EffectiveFromReference(parse, byType[REFERENCE]);
    if base.Failure? {
      return Failure(base.error);
    }
    res := ResolveRows(parse, rows, base.value);
    ParsedListed(parse, rows);
  }

  // ----- what resolution gives, column by column

  /** The value a column gets: its own, else that of the reference row. */
  ghost predicate Inherits<T>(own: Option<T>, ref: Option<T>, value: T) {
    if own.Some? then value == own.value else ref.Some? && value == ref.value
  }

  lemma {:induction false} RulesAre(parse: Parser, js: string)
    ensures ParseRules(parse, js).Some? <==> js == "" || parse(js).Some?
    ensures js == "" ==> ParseRules(parse, js) == Some(Rules(true, map[], None))
    ensures js != "" ==> ParseRules(parse, js) == parse(js)
  {
  }

  /** A table resolves exactly when it has a reference row that sets everything but perhaps the expiration, and all rules
      decode. */
  lemma {:induction false} ResolvesIff(parse: Parser, rows: Rows)
    ensures Resolves(parse, rows) <==>
            && "reference" in rows
            && var ref := rows["reference"];
               && ref.duplicateGuard.Some? && ref.cleanupScan.Some? && ref.lintStale.Some? && ref.embed.Some? && ref.defaultSearch.Some?
               && ref.prunable.Some? && ref.writeMode.Some? && ref.slugFormat.Some? && ref.subcategory.Some?
               && forall t :: t in rows ==> rows[t].rules == "" || parse(rows[t].rules).Some?
  {
    forall t | t in rows {
      RulesAre(parse, rows[t].rules);
    }
  }

  /** Every column of every type is its own value or, where it is NULL, that of the reference row; the rules are never
      inherited. */
  lemma {:induction false} ResolvedIs(parse: Parser, rows: Rows, t: string)
    requires Resolves(parse, rows) && t in rows
    ensures t in Resolved(parse, rows) && Resolved(parse, rows).Keys == rows.Keys
    ensures var own, ref, e := rows[t], rows["reference"], Resolved(parse, rows)[t];
            && Inherits(own.expiration, if ref.expiration.Some? then ref.expiration else Some(0), e.expiration)
            && Inherits(own.duplicateGuard, ref.duplicateGuard, e.duplicateGuard)
            && Inherits(own.cleanupScan, ref.cleanupScan, e.cleanupScan)
            && Inherits(own.lintStale, ref.lintStale, e.lintStale)
            && Inherits(own.embed, ref.embed, e.embed)
            && Inherits(own.defaultSearch, ref.defaultSearch, e.defaultSearch)
            && Inherits(own.prunable, ref.prunable, e.prunable)
            && Inherits(own.writeMode, ref.writeMode, e.writeMode)
            && Inherits(own.slugFormat, ref.slugFormat, e.slugFormat)
            && Inherits(own.subcategory, ref.subcategory, e.subcategory)
            && e.rules == if own.rules == "" then Rules(true, map[], None) else parse(own.rules).value
  {
    RulesAre(parse, rows[t].rules);
  }

  // ----- validation

  predicate ValidEffective(e: Effective) {
    && e.writeMode in WRITE_MODES && e.slugFormat in SLUG_FORMATS && e.subcategory in SUBCATEGORY_RULES
    && e.expiration >= 0
    && (e.defaultSearch ==> e.embed)
    && (e.duplicateGuard ==> e.writeMode == "replace")
  }

  function ValidateEffective(docType: string, e: Effective): (err: Option<Error>)
    ensures err.None? <==> ValidEffective(e)
    ensures err.None? <==>
            && e.writeMode in {"replace", "merge_sections", "append_only"} && e.slugFormat in {"any", "date", "datetime", "kebab"}
            && e.subcategory in {"optional", "required", "forbidden"} && e.expiration >= 0
            && (e.defaultSearch ==> e.embed) && (e.duplicateGuard ==> e.writeMode == "replace")
  {
    if e.writeMode !in WRITE_MODES then Some(Rejected(docType, "write_mode"))
    else if e.slugFormat !in SLUG_FORMATS then Some(Rejected(docType, "slug_format"))
    else if e.subcategory !in SUBCATEGORY_RULES then Some(Rejected(docType, "subcategory"))
    else if e.expiration < 0 then Some(Rejected(docType, "expiration_age_days"))
    else if e.defaultSearch && !e.embed then Some(Rejected(docType, "default_search"))
    else if e.duplicateGuard && e.writeMode != "replace" then Some(Rejected(docType, "duplicate_guard"))
    else None
  }

  /** The table resolves and every policy in the result is valid. */
  predicate Accepts(parse: Parser, rows: Rows) {
    Resolves(parse, rows) && forall t :: t in rows ==> ValidEffective(Resolved(parse, rows)[t])
  }

  // ----- the patch

  function Patched(base: Policy, p: Policy): Policy {
    base.(
      expiration := if p.expiration.Some? then p.expiration else base.expiration,
      duplicateGuard := if p.duplicateGuard.Some? then p.duplicateGuard else base.duplicateGuard,
      cleanupScan := if p.cleanupScan.Some? then p.cleanupScan else base.cleanupScan,
      lintStale := if p.lintStale.Some? then p.lintStale else base.lintStale,
      embed := if p.embed.Some? then p.embed else base.embed,
      defaultSearch := if p.defaultSearch.Some? then p.defaultSearch else base.defaultSearch,
      prunable := if p.prunable.Some? then p.prunable else base.prunable,
      writeMode := if p.writeMode.Some? then p.writeMode else base.writeMode,
      slugFormat := if p.slugFormat.Some? then p.slugFormat else base.slugFormat,
      subcategory := if p.subcategory.Some? then p.subcategory else base.subcategory,
      rules := if p.rules != "" then p.rules else base.rules)
  }

  function EmptyRow(docType: string): Policy {
    Policy(docType, None, None, None, None, None, None, None, None, None, None, "")
  }

  /** The stored row of the patched type with the patch laid over it. */
  function PatchedRow(rows: Rows, patch: Policy): Policy {
    Patched(if patch.docType in rows then rows[patch.docType] else EmptyRow(patch.docType), patch)
  }

  /** Supplied columns replace the stored ones; the others stay as they are, NULL where they were NULL or the type had no
      row. */
  lemma {:induction false} PatchedColumns(rows: Rows, patch: Policy)
    requires Keyed(rows)
    ensures var stored, row := patch.docType in rows, PatchedRow(rows, patch);
            var old_ := if stored then rows[patch.docType]
                        else Policy(patch.docType, None, None, None, None, None, None, None, None, None, None, "");
            && row.docType == patch.docType
            && row.expiration == (if patch.expiration.Some? then patch.expiration else old_.expiration)
            && row.duplicateGuard == (if patch.duplicateGuard.Some? then patch.duplicateGuard else old_.duplicateGuard)
            && row.cleanupScan == (if patch.cleanupScan.Some? then patch.cleanupScan else old_.cleanupScan)
            && row.lintStale == (if patch.lintStale.Some? then patch.lintStale else old_.lintStale)
            && row.embed == (if patch.embed.Some? then patch.embed else old_.embed)
            && row.defaultSearch == (if patch.defaultSearch.Some? then patch.defaultSearch else old_.defaultSearch)
            && row.prunable == (if patch.prunable.Some? then patch.prunable else old_.prunable)
            && row.writeMode == (if patch.writeMode.Some? then patch.writeMode else old_.writeMode)
            && row.slugFormat == (if patch.slugFormat.Some? then patch.slugFormat else old_.slugFormat)
            && row.subcategory == (if patch.subcategory.Some? then patch.subcategory else old_.subcategory)
            && row.rules == (if patch.rules != "" then patch.rules else old_.rules)
  {
  }

  function Merged(rows: Rows, patch: Policy): Rows {
    rows[patch.docType := PatchedRow(rows, patch)]
  }

  /** What is stored for a row: an empty rules column becomes the empty object. */
  function Normal(row: Policy): Policy {
    if row.rules == "" then row.(rules := "{}") else row
  }

  /** The CHECK constraints of the table. */
  predicate Checks(parse: Parser, row: Policy) {
    && (row.expiration.Some? ==> row.expiration.value >= 0)
    && (row.writeMode.Some? ==> row.writeMode.value in WRITE_MODES)
    && (row.slugFormat.Some? ==> row.slugFormat.value in SLUG_FORMATS)
    && (row.subcategory.Some? ==> row.subcategory.value in SUBCATEGORY_RULES)
    && (row.defaultSearch != Some(true) || row.embed != Some(false))
    && ParseRules(parse, row.rules).Some? && ParseRules(parse, row.rules).value.isObject
  }

  /** JSON facts used: the empty object has no rules, and the seeded handoff rules decode. */
  ghost predicate ParsesJson(parse: Parser) {
    parse("{}") == Some(NO_RULES) && parse(HANDOFF_RULES).Some? && parse(HANDOFF_RULES).value.isObject
  }

  /** m with row for its type, if it has one of that type. */
  ghost function Replaced(m: Rows, docType: string, row: Policy): Rows {
    if docType in m then m[docType := row] else m
  }

  lemma {:induction false} ReplacedNext(rows: seq<Policy>, n: nat, docType: string, row: Policy)
    requires n < |rows|
    ensures Replaced(ByType(rows[..n + 1]), docType, row) ==
            Replaced(ByType(rows[..n]), docType, row)[rows[n].docType := if rows[n].docType == docType then row else rows[n]]
  {
    ByTypeNext(rows, n);
    UpdatesCommute(ByType(rows[..n]), rows[n].docType, rows[n], docType, row);
    UpdatesCommute(ByType(rows[..n]), docType, row, docType, row);
  }

  lemma {:induction false} HasType(rows: seq<Policy>, docType: string)
    ensures docType in ByType(rows) <==> exists k :: 0 <= k < |rows| && rows[k].docType == docType
    ensures docType in ByType(rows) ==> ByType(rows)[docType].docType == docType
  {
    ByTypeListed(rows);
  }

  lemma {:induction false} ListNext(list: seq<Policy>, rows: Rows, rest: set<string>, t: string)
    requires Keyed(rows) && t in rest && t in rows && Distinct(list) && ByType(list) == rows - rest
    ensures Distinct(list + [rows[t]]) && ByType(list + [rows[t]]) == rows - (rest - {t})
  {
    ByTypeListed(list);
    ByTypeSnoc(list, rows[t]);
  }

  // ----- the store

  class PolicyStore {
    const parse: Parser
    var rows: Rows  // doc_type_policies
    var snap: Table

    ghost predicate Valid() reads this {
      Keyed(rows)
    }

    constructor (parse: Parser, rows: Rows, snap: Table)
      requires Keyed(rows)
      ensures Valid() && this.parse == parse && this.rows == rows && this.snap == snap
    {
      this.parse, this.rows, this.snap := parse, rows, snap;
    }

    method List() returns (list: seq<Policy>)
      requires Valid()
      ensures Distinct(list) && ByType(list) == rows
    {
      list := [];
      var rest := rows.Keys;
      while rest != {}
        invariant rest <= rows.Keys && Distinct(list)
        invariant ByType(list) == rows - rest
        decreases rest
      {
        var t :| t in rest;
        ListNext(list, rows, rest, t);
        rest := rest - {t};
        list := list + [rows[t]];
      }
    }

    /** Resolves, validates and swaps the snapshot; a rejected table leaves it alone. */
    method Load() returns (err: Option<Error>)
      requires Valid()
      modifies this`snap
      ensures err.None? <==> Accepts(parse, rows)
      ensures snap == if err.None? then Resolved(parse, rows) else old(snap)
    {
      var list := List();
      ParsedListed(parse, list);
      var eff := ResolveDocTypePolicies(parse, list);
      if eff.Failure? {
        return Some(eff.error);
      }
      err := Validate(eff.value);
      if err.None? {
        snap := eff.value;
      }
    }

    static method Validate(eff: Table) returns (err: Option<Error>)
      ensures err.None? <==> forall t :: t in eff ==> ValidEffective(eff[t])
      ensures err.Some? ==> exists t :: t in eff && err == ValidateEffective(t, eff[t])
    {
      var rest := eff.Keys;
      while rest != {}
        invariant rest <= eff.Keys
        invariant forall t :: t in eff && t !in rest ==> ValidEffective(eff[t])
        decreases rest
      {
        var t :| t in rest;
        var e := ValidateEffective(t, eff[t]);
        if e.Some? {
          return e;
        }
        rest := rest - {t};
      }
      return None;
    }

    method Upsert(row: Policy) returns (err: Option<Error>)
      requires Valid()
      modifies this`rows
      ensures Valid()
      ensures err == if Checks(parse, Normal(row)) then None else Some(CheckFailed)
      ensures rows == if err.None? then old(rows)[row.docType := Normal(row)] else old(rows)
      ensures err.None? ==> rows[row.docType] == if row.rules == "" then row.(rules := "{}") else row
    {
      var stored := if row.rules == "" then row.(rules := "{}") else row;
      if !Checks(parse, stored) {
        return Some(CheckFailed);
      }
      rows := rows[row.docType := stored];
      return None;
    }

    /** An unknown type is served the reference policy. */
    function EffectiveFor(docType: string): Effective
      requires REFERENCE in snap
      reads this
    {
      if docType in snap then snap[docType] else snap[REFERENCE]
    }

    /** What the write path asks: the snapshot, or the compiled-in default for a policy without write mode. */
    function PolicyFor(docType: string): Effective
      requires REFERENCE in snap
      reads this
    {
      var p := EffectiveFor(docType);
      if p.writeMode != "" then p else DefaultEffectivePolicy()
    }

    /** The rows with row in place of the one of its type, or added at the end. */
    static method Merge(rows: seq<Policy>, row: Policy) returns (merged: seq<Policy>)
      requires Distinct(rows)
      ensures ByType(merged) == ByType(rows)[row.docType := row]
      ensures Distinct(merged)
    {
      merged := [];
      var replaced := false;
      for i := 0 to |rows|
        invariant |merged| == i
        invariant forall k :: 0 <= k < i ==> merged[k].docType == rows[k].docType
        invariant replaced <==> row.docType in ByType(rows[..i])
        invariant ByType(merged) == Replaced(ByType(rows[..i]), row.docType, row)
      {
        ByTypeNext(rows, i);
        ReplacedNext(rows, i, row.docType, row);
        if rows[i].docType == row.docType {
          ByTypeSnoc(merged, row);
          merged, replaced := merged + [row], true;
        } else {
          ByTypeSnoc(merged, rows[i]);
          merged := merged + [rows[i]];
        }
      }
      assert rows[..|rows|] == rows;
      HasType(rows, row.docType);
      if !replaced {
        ByTypeSnoc(merged, row);
        merged := merged + [row];
      }
    }

    /** The stored row of a type, or a fresh one. */
    static method Find(rows: seq<Policy>, docType: string) returns (row: Policy)
      requires Distinct(rows)
      ensures row == if docType in ByType(rows) then ByType(rows)[docType] else EmptyRow(docType)
      ensures row.docType == docType
    {
      ByTypeListed(rows);
      for i := 0 to |rows|
        invariant forall k :: 0 <= k < i ==> rows[k].docType != docType
      {
        if rows[i].docType == docType {
          return rows[i];
        }
      }
      return EmptyRow(docType);
    }

    /** The row a patch leads to, and whether the table with it is accepted. */
    method Propose(patch: Policy) returns (row: Policy, err: Option<Error>)
      requires Valid()
      ensures row == PatchedRow(rows, patch)
      ensures err.None? <==> Accepts(parse, Merged(rows, patch))
    {
      var list := List();
      row := Find(list, patch.docType);
      row := Patched(row, patch);
      var merged := Merge(list, row);
      ParsedListed(parse, merged);
      var eff := ResolveDocTypePolicies(parse, merged);
      if eff.Failure? {
        return row, Some(eff.error);
      }
      err := Validate(eff.value);
    }

    /** Patches one row. It succeeds exactly when an admin patches a known type, the merged table is accepted
        and the rules are not the JSON null; then the row is stored and the reload that follows is never
        rejected, so the snapshot is the resolved table. */
    method SetDocTypePolicy(isAdmin: bool, patch: Policy) returns (err: Option<Error>)
      requires Valid() && ParsesJson(parse)
      modifies this
      ensures Valid()
      ensures err.None? <==>
              && isAdmin && patch.docType in DOC_TYPES
              && Accepts(parse, Merged(old(rows), patch)) && Checks(parse, Normal(PatchedRow(old(rows), patch)))
      ensures err.None? ==> rows == old(rows)[patch.docType := Normal(PatchedRow(old(rows), patch))]
      ensures err.None? ==> Accepts(parse, rows) && snap == Resolved(parse, rows)
      ensures err.Some? ==> rows == old(rows) && snap == old(snap)
      ensures !isAdmin ==> err == Some(NotAdmin)
      ensures isAdmin && patch.docType !in
                {"project_state", "audit", "learning", "preference", "tool", "reference", "journal", "handoff", "prompt"} ==>
                err == Some(UnknownType)
      ensures isAdmin && patch.docType in DOC_TYPES && Accepts(parse, Merged(old(rows), patch)) && err.Some? ==>
                err == Some(CheckFailed)
    {
      if !isAdmin {
        return Some(NotAdmin);
      }
      if patch.docType !in DOC_TYPES {
        return Some(UnknownType);
      }
      var row;
      row, err := Propose(patch);
      if err.Some? {
        return;
      }
      err := Upsert(row);
      if err.Some? {
        return;
      }
      StoredAccepted(parse, old(rows), patch);
      err := Load();
    }
  }

  lemma {:induction false} NormalRow(parse: Parser, r: Policy)
    requires ParsesJson(parse)
    ensures ParseRules(parse, Normal(r).rules) == ParseRules(parse, r.rules)
    ensures EffectiveFromReference(parse, Normal(r)) == EffectiveFromReference(parse, r)
    ensures forall base :: Overlaid(parse, Normal(r), base) == Overlaid(parse, r, base)
  {
  }

  lemma {:induction false} NormalResolves(parse: Parser, rows: Rows, docType: string)
    requires ParsesJson(parse) && docType in rows
    ensures var stored := rows[docType := Normal(rows[docType])];
            && (Resolves(parse, rows) <==> Resolves(parse, stored))
            && (Resolves(parse, rows) ==> Resolved(parse, rows) == Resolved(parse, stored))
  {
    var stored := rows[docType := Normal(rows[docType])];
    NormalRow(parse, rows[docType]);
    SameOverlays(parse, rows, stored);
  }

  /** Tables whose rows look the same over every base resolve alike. */
  lemma {:induction false} SameOverlays(parse: Parser, a: Rows, b: Rows)
    requires a.Keys == b.Keys
    requires forall t :: t in a ==> ParseRules(parse, a[t].rules) == ParseRules(parse, b[t].rules)
    requires forall t, base :: t in a ==> Overlaid(parse, a[t], base) == Overlaid(parse, b[t], base)
    requires REFERENCE in a ==> EffectiveFromReference(parse, a[REFERENCE]) == EffectiveFromReference(parse, b[REFERENCE])
    ensures Resolves(parse, a) <==> Resolves(parse, b)
    ensures Resolves(parse, a) ==> Resolved(parse, a) == Resolved(parse, b)
  {
  }

  /** Storing the empty object for an empty rules column changes no effective policy. */
  lemma {:induction false} NormalAccepted(parse: Parser, rows: Rows, docType: string)
    requires ParsesJson(parse) && docType in rows
    ensures var stored := rows[docType := Normal(rows[docType])];
            && (Accepts(parse, rows) <==> Accepts(parse, stored))
            && (Accepts(parse, rows) ==> Resolved(parse, rows) == Resolved(parse, stored))
  {
    NormalResolves(parse, rows, docType);
    assert rows[docType := Normal(rows[docType])].Keys == rows.Keys;
  }

  /** The reload after an accepted patch is never rejected. */
  lemma {:induction false} StoredAccepted(parse: Parser, rows: Rows, patch: Policy)
    requires ParsesJson(parse) && Accepts(parse, Merged(rows, patch))
    ensures Accepts(parse, rows[patch.docType := Normal(PatchedRow(rows, patch))])
  {
    NormalAccepted(parse, Merged(rows, patch), patch.docType);
    UpdatesCommute(rows, patch.docType, PatchedRow(rows, patch), patch.docType, Normal(PatchedRow(rows, patch)));
  }

  // ----- every reachable table

  /** The seeded rows: reference sets every column, the others what differs from it. */
  function SeedRow(docType: string): Policy {
    if docType == REFERENCE then
      Policy(docType, Some(30), Some(true), Some(true), Some(true), Some(true), Some(true), Some(false),
                Some("replace"), Some("any"), Some("optional"), "{}")
    else if docType == "journal" then
      Policy(docType, Some(30), Some(false), Some(false), Some(false), None, Some(false), Some(true),
                Some("merge_sections"), Some("date"), Some("forbidden"), "{}")
    else if docType == "handoff" then
      Policy(docType, Some(90), Some(false), Some(false), Some(false), None, Some(false), Some(true), None, None,
                Some("required"), HANDOFF_RULES)
    else if docType == "prompt" then
      Policy(docType, Some(0), Some(false), Some(false), Some(false), Some(false), Some(false), Some(false),
                Some("replace"), None, Some("required"), "{}")
    else Normal(EmptyRow(docType))
  }

  function Seed(): Rows {
    map t | t in DOC_TYPES :: SeedRow(t)
  }

  /** What the compiled-in fallback serves; it is the reference row of the seed. */
  function DefaultEffectivePolicy(): Effective {
    Effective(30, true, true, true, true, true, false, "replace", "any", "optional", NO_RULES)
  }

  lemma {:induction false} SeedRowValid(parse: Parser, docType: string)
    requires ParsesJson(parse)
    ensures ParseRules(parse, SeedRow(docType).rules).Some?
    ensures ValidEffective(Overlaid(parse, SeedRow(docType), DefaultEffectivePolicy()))
  {
    var r, base := SeedRow(docType), DefaultEffectivePolicy();
    assert ParseRules(parse, r.rules).Some?;
    SeedEnums(docType);
    assert ValidEffective(base);
    ValidOver(parse, r, base);
  }

  lemma {:induction false} SeedEnums(docType: string)
    ensures SetsValid(SeedRow(docType)) && !Clashes(SeedRow(docType), DefaultEffectivePolicy())
  {
  }

  /** Every field the row sets is valid by itself. */
  predicate SetsValid(r: Policy) {
    && (r.expiration.Some? ==> r.expiration.value >= 0)
    && (r.writeMode.Some? ==> r.writeMode.value in WRITE_MODES)
    && (r.slugFormat.Some? ==> r.slugFormat.value in SLUG_FORMATS)
    && (r.subcategory.Some? ==> r.subcategory.value in SUBCATEGORY_RULES)
  }

  lemma {:induction false} ValidOver(parse: Parser, r: Policy, base: Effective)
    requires ParseRules(parse, r.rules).Some? && SetsValid(r) && ValidEffective(base)
    ensures ValidEffective(Overlaid(parse, r, base)) <==> !Clashes(r, base)
  {
  }

  lemma {:induction false} SeedAccepted(parse: Parser)
    requires ParsesJson(parse)
    ensures Keyed(Seed()) && Accepts(parse, Seed())
    ensures Resolved(parse, Seed())[REFERENCE] == DefaultEffectivePolicy()
  {
    assert REFERENCE in Seed();
    assert EffectiveFromReference(parse, SeedRow(REFERENCE)) == Success(DefaultEffectivePolicy());
    forall t | t in Seed()
      ensures ParseRules(parse, Seed()[t].rules).Some? && ValidEffective(Overlaid(parse, Seed()[t], DefaultEffectivePolicy()))
    {
      SeedRowValid(parse, t);
    }
  }

  /** What the seed serves. */
  lemma {:induction false} SeedServes(parse: Parser)
    requires ParsesJson(parse)
    ensures Seed().Keys == {"project_state", "audit", "learning", "preference", "tool", "reference", "journal", "handoff", "prompt"}
    ensures Resolves(parse, Seed()) && Resolved(parse, Seed()).Keys == Seed().Keys
    ensures var served, none := Resolved(parse, Seed()), Rules(true, map[], None);
            && (forall t :: t in {"project_state", "audit", "learning", "preference", "tool", "reference"} ==>
                  served[t] == Effective(30, true, true, true, true, true, false, "replace", "any", "optional", none))
            && served["journal"] == Effective(30, false, false, false, true, false, true, "merge_sections", "date", "forbidden", none)
            && served["handoff"] == Effective(90, false, false, false, true, false, true, "replace", "any", "required",
                parse("{\"chain_previous\":{\"scope\":\"subcategory\",\"edge_type\":\"continues_from\"}}").value)
            && served["prompt"] == Effective(0, false, false, false, false, false, false, "replace", "any", "required", none)
  {
    SeedAccepted(parse);
    var base := DefaultEffectivePolicy();
    assert EffectiveFromReference(parse, SeedRow(REFERENCE)) == Success(base);
    forall t | t in DOC_TYPES
      ensures Resolved(parse, Seed())[t] == Overlaid(parse, SeedRow(t), base)
    {
    }
  }

  /** The rows after one admin patch. */
  function After(parse: Parser, rows: Rows, patch: Policy): Rows {
    if patch.docType in DOC_TYPES && Accepts(parse, Merged(rows, patch)) && Checks(parse, Normal(PatchedRow(rows, patch)))
    then rows[patch.docType := Normal(PatchedRow(rows, patch))]
    else rows
  }

  lemma {:induction false} AfterAccepted(parse: Parser, rows: Rows, patch: Policy)
    requires ParsesJson(parse) && Keyed(rows) && Accepts(parse, rows)
    ensures Keyed(After(parse, rows, patch)) && Accepts(parse, After(parse, rows, patch))
  {
    if Accepts(parse, Merged(rows, patch)) {
      StoredAccepted(parse, rows, patch);
    }
  }

  ghost predicate Run(parse: Parser, tables: seq<Rows>, patches: seq<Policy>) {
    && |tables| == |patches| + 1 && tables[0] == Seed()
    && forall i {:trigger patches[i]} :: 0 <= i < |patches| ==> tables[i + 1] == After(parse, tables[i], patches[i])
  }

  /** Every table reachable from the seed resolves to valid policies, so no reload and no restart is ever
      rejected. */
  lemma {:induction false} EveryTableAccepted(parse: Parser, tables: seq<Rows>, patches: seq<Policy>, n: nat)
    requires ParsesJson(parse) && Run(parse, tables, patches) && n < |tables|
    ensures Keyed(tables[n]) && Accepts(parse, tables[n])
  {
    if n == 0 {
      SeedAccepted(parse);
    } else {
      EveryTableAccepted(parse, tables, patches, n - 1);
      AfterAccepted(parse, tables[n - 1], patches[n - 1]);
    }
  }

  /** A store that serves an accepted table answers every type, known or not, with a valid policy, and the
      write path never falls back to the compiled-in default. */
  lemma {:induction false} AnswersAreValid(store: PolicyStore, rows: Rows, docType: string)
    requires Accepts(store.parse, rows) && store.snap == Resolved(store.parse, rows)
    ensures ValidEffective(store.EffectiveFor(docType)) && store.PolicyFor(docType) == store.EffectiveFor(docType)
    ensures store.EffectiveFor(docType) == Resolved(store.parse, rows)[if docType in rows then docType else "reference"]
  {
    assert ValidEffective(Resolved(store.parse, rows)[if docType in rows then docType else REFERENCE]);
  }

  /** An accepted row breaks a CHECK constraint exactly when its rules are the JSON null. */
  lemma {:induction false} ChecksFailIff(parse: Parser, rows: Rows, docType: string)
    requires Accepts(parse, rows) && docType in rows
    ensures Checks(parse, rows[docType]) <==> ParseRules(parse, rows[docType].rules).value.isObject
  {
    assert ValidEffective(Resolved(parse, rows)[docType]);
  }

  // ----- who a patch can affect

  /** A patch to any other type than reference changes no type's policy but its own. */
  lemma {:induction false} PatchStaysLocal(parse: Parser, rows: Rows, patch: Policy, other: string)
    requires Resolves(parse, rows) && Resolves(parse, After(parse, rows, patch))
    requires patch.docType != REFERENCE && other != patch.docType && other in rows
    ensures other in Resolved(parse, After(parse, rows, patch))
    ensures Resolved(parse, After(parse, rows, patch))[other] == Resolved(parse, rows)[other]
  {
    assert Base(parse, After(parse, rows, patch)) == Base(parse, rows);
  }

  /** Every field the patch supplies has that value, every other one is as it was. */
  ghost predicate Takes<T>(field: Option<T>, before: T, after: T) {
    (field.Some? ==> after == field.value) && (field.None? ==> after == before)
  }

  ghost predicate TakesEffect(p: Policy, before: Effective, after: Effective) {
    && Takes(p.expiration, before.expiration, after.expiration)
    && Takes(p.duplicateGuard, before.duplicateGuard, after.duplicateGuard)
    && Takes(p.cleanupScan, before.cleanupScan, after.cleanupScan)
    && Takes(p.lintStale, before.lintStale, after.lintStale)
    && Takes(p.embed, before.embed, after.embed)
    && Takes(p.defaultSearch, before.defaultSearch, after.defaultSearch)
    && Takes(p.prunable, before.prunable, after.prunable)
    && Takes(p.writeMode, before.writeMode, after.writeMode)
    && Takes(p.slugFormat, before.slugFormat, after.slugFormat)
    && Takes(p.subcategory, before.subcategory, after.subcategory)
  }

  lemma {:induction false} OverlayTakesEffect(parse: Parser, r: Policy, p: Policy, base: Effective)
    requires ParseRules(parse, r.rules).Some? && ParseRules(parse, Patched(r, p).rules).Some?
    ensures TakesEffect(p, Overlaid(parse, r, base), Overlaid(parse, Patched(r, p), base))
  {
  }

  /** A complete row looks the same over any base, but for an expiration it leaves out. */
  lemma {:induction false} ReferenceOver(parse: Parser, r: Policy, base: Effective)
    requires EffectiveFromReference(parse, r).Success? && (r.expiration.None? ==> base.expiration == 0)
    ensures EffectiveFromReference(parse, r).value == Overlaid(parse, r, base)
  {
  }

  lemma {:induction false} BaseTakesEffect(parse: Parser, r: Policy, p: Policy)
    requires EffectiveFromReference(parse, r).Success? && EffectiveFromReference(parse, Patched(r, p)).Success?
    ensures TakesEffect(p, EffectiveFromReference(parse, r).value, EffectiveFromReference(parse, Patched(r, p)).value)
  {
    var base := EffectiveFromReference(parse, r).value;
    assert r.expiration.None? ==> base.expiration == 0;
    ReferenceOver(parse, r, base);
    ReferenceOver(parse, Patched(r, p), base);
    OverlayTakesEffect(parse, r, p, base);
  }

  /** An accepted patch changes the effective policy of its type in exactly the supplied fields; a type
      without a row starts from what it was served before, the reference policy. */
  lemma {:induction false} PatchTakesEffect(parse: Parser, rows: Rows, patch: Policy)
    requires ParsesJson(parse) && Resolves(parse, rows) && Resolves(parse, Merged(rows, patch))
    ensures var t := patch.docType;
            TakesEffect(patch, Resolved(parse, rows)[if t in rows then t else REFERENCE], Resolved(parse, Merged(rows, patch))[t])
  {
    var merged := Merged(rows, patch);
    assert merged[patch.docType] == PatchedRow(rows, patch) && ParseRules(parse, merged[patch.docType].rules).Some?;
    if patch.docType == REFERENCE {
      ReferenceIsBase(parse, rows);
      ReferenceIsBase(parse, merged);
      BaseTakesEffect(parse, rows[REFERENCE], patch);
    } else {
      assert Base(parse, merged) == Base(parse, rows);
      if patch.docType in rows {
        OverlayTakesEffect(parse, rows[patch.docType], patch, Base(parse, rows));
      } else {
        ReferenceIsBase(parse, rows);
        OverlayTakesEffect(parse, EmptyRow(patch.docType), patch, Base(parse, rows));
      }
    }
  }

  /** Its rules are replaced by supplied ones and kept otherwise. */
  lemma {:induction false} PatchedRules(parse: Parser, rows: Rows, patch: Policy)
    requires Resolves(parse, rows) && Resolves(parse, Merged(rows, patch)) && patch.docType in rows
    ensures var before := Resolved(parse, rows)[patch.docType].rules;
            var after := Resolved(parse, Merged(rows, patch))[patch.docType].rules;
            if patch.rules == "" then after == before else parse(patch.rules) == Some(after)
  {
    assert Merged(rows, patch)[patch.docType] == PatchedRow(rows, patch);
    assert ParseRules(parse, rows[patch.docType].rules).Some? && ParseRules(parse, PatchedRow(rows, patch).rules).Some?;
  }

  ghost predicate Keeps<T>(field: Option<T>, reference: T, before: T, after: T) {
    (field.Some? ==> after == before) && (field.None? ==> after == reference)
  }

  /** Every field the row sets is as it was, every field it leaves NULL is the reference value. */
  ghost predicate FillsNulls(r: Policy, ref: Effective, before: Effective, after: Effective) {
    && Keeps(r.expiration, ref.expiration, before.expiration, after.expiration)
    && Keeps(r.duplicateGuard, ref.duplicateGuard, before.duplicateGuard, after.duplicateGuard)
    && Keeps(r.cleanupScan, ref.cleanupScan, before.cleanupScan, after.cleanupScan)
    && Keeps(r.lintStale, ref.lintStale, before.lintStale, after.lintStale)
    && Keeps(r.embed, ref.embed, before.embed, after.embed)
    && Keeps(r.defaultSearch, ref.defaultSearch, before.defaultSearch, after.defaultSearch)
    && Keeps(r.prunable, ref.prunable, before.prunable, after.prunable)
    && Keeps(r.writeMode, ref.writeMode, before.writeMode, after.writeMode)
    && Keeps(r.slugFormat, ref.slugFormat, before.slugFormat, after.slugFormat)
    && Keeps(r.subcategory, ref.subcategory, before.subcategory, after.subcategory)
    && after.rules == before.rules
  }

  lemma {:induction false} OverlayFillsNulls(parse: Parser, r: Policy, base: Effective, newBase: Effective)
    ensures FillsNulls(r, newBase, Overlaid(parse, r, base), Overlaid(parse, r, newBase)) <== ParseRules(parse, r.rules).Some?
  {
  }

  /** Laying the reference row over its own base changes nothing. */
  lemma {:induction false} ReferenceIsBase(parse: Parser, rows: Rows)
    requires Resolves(parse, rows)
    ensures Resolved(parse, rows)[REFERENCE] == Base(parse, rows)
  {
  }

  /** A patch to reference leaves every field another type sets, and moves every field it leaves NULL to the
      new reference value. */
  lemma {:induction false} ReferencePatchFillsNulls(parse: Parser, rows: Rows, patch: Policy, other: string)
    requires Resolves(parse, rows) && Resolves(parse, After(parse, rows, patch))
    requires patch.docType == REFERENCE && other != REFERENCE && other in rows
    ensures other in After(parse, rows, patch)
    ensures FillsNulls(rows[other], Resolved(parse, After(parse, rows, patch))[REFERENCE],
                       Resolved(parse, rows)[other], Resolved(parse, After(parse, rows, patch))[other])
  {
    var stored := After(parse, rows, patch);
    assert stored[other] == rows[other];
    ReferenceIsBase(parse, stored);
    OverlayFillsNulls(parse, rows[other], Base(parse, rows), Base(parse, stored));
  }

  // ----- patches that overlap

  /** The rows after two patches that were both computed from the same table; q is stored last. */
  function Overlapped(rows: Rows, p: Policy, q: Policy): Rows {
    rows[p.docType := Normal(PatchedRow(rows, p))][q.docType := Normal(PatchedRow(rows, q))]
  }

  function Mixed(rows: Rows, p: Policy, q: Policy): Rows {
    Merged(rows, p)[q.docType := PatchedRow(rows, q)]
  }

  /** Search without embeddings, or the duplicate guard without replace, for a row over a base. */
  predicate Clashes(r: Policy, base: Effective) {
    || (Over(r.defaultSearch, base.defaultSearch) && !Over(r.embed, base.embed))
    || (Over(r.duplicateGuard, base.duplicateGuard) && Over(r.writeMode, base.writeMode) != "replace")
  }

  /** Over another valid base a valid row can only go wrong in the rules that relate two fields. */
  lemma {:induction false} ClashesIff(parse: Parser, r: Policy, base: Effective, newBase: Effective)
    requires ParseRules(parse, r.rules).Some? && ValidEffective(Overlaid(parse, r, base)) && ValidEffective(newBase)
    ensures ValidEffective(Overlaid(parse, r, newBase)) <==> !Clashes(r, newBase)
  {
  }

  lemma {:induction false} AcceptedRow(parse: Parser, rows: Rows, t: string)
    requires Accepts(parse, rows) && t in rows
    ensures ParseRules(parse, rows[t].rules).Some? && ValidEffective(Overlaid(parse, rows[t], Base(parse, rows)))
    ensures ValidEffective(Base(parse, rows))
  {
    assert ValidEffective(Resolved(parse, rows)[t]);
    ReferenceIsBase(parse, rows);
    assert ValidEffective(Resolved(parse, rows)[REFERENCE]);
  }

  /** A table is accepted when its rows come, over one base, from accepted tables. */
  lemma {:induction false} AcceptedOver(parse: Parser, rows: Rows, base: Effective)
    requires REFERENCE in rows && EffectiveFromReference(parse, rows[REFERENCE]) == Success(base)
    requires forall t :: t in rows ==> ParseRules(parse, rows[t].rules).Some?
    ensures Accepts(parse, rows) <==> forall t :: t in rows ==> ValidEffective(Overlaid(parse, rows[t], base))
  {
    if Accepts(parse, rows) {
      forall t | t in rows
        ensures ValidEffective(Overlaid(parse, rows[t], base))
      {
        AcceptedRow(parse, rows, t);
      }
    }
  }

  lemma {:induction false} ReferenceAndOther(parse: Parser, rows: Rows, p: Policy, q: Policy)
    requires Accepts(parse, Merged(rows, p)) && Accepts(parse, Merged(rows, q))
    requires p.docType == REFERENCE && q.docType != REFERENCE
    ensures Accepts(parse, Mixed(rows, p, q)) <==> !Clashes(PatchedRow(rows, q), Base(parse, Merged(rows, p)))
  {
    var mixed, base := Mixed(rows, p, q), Base(parse, Merged(rows, p));
    AcceptedRow(parse, Merged(rows, q), q.docType);
    assert forall t :: t in mixed && t != q.docType ==> t in Merged(rows, p) && mixed[t] == Merged(rows, p)[t];
    forall t | t in mixed
      ensures ParseRules(parse, mixed[t].rules).Some?
      ensures t != q.docType ==> ValidEffective(Overlaid(parse, mixed[t], base))
    {
      if t != q.docType {
        AcceptedRow(parse, Merged(rows, p), t);
      }
    }
    AcceptedOver(parse, mixed, base);
    AcceptedRow(parse, Merged(rows, p), REFERENCE);
    ClashesIff(parse, PatchedRow(rows, q), Base(parse, Merged(rows, q)), base);
    assert q.docType in mixed && mixed[q.docType] == PatchedRow(rows, q);
  }

  lemma {:induction false} TwoOthers(parse: Parser, rows: Rows, p: Policy, q: Policy)
    requires Accepts(parse, Merged(rows, p)) && Accepts(parse, Merged(rows, q))
    requires p.docType != REFERENCE && q.docType != REFERENCE && p.docType != q.docType
    ensures Accepts(parse, Mixed(rows, p, q))
  {
    var mixed, base := Mixed(rows, p, q), Base(parse, Merged(rows, p));
    assert base == Base(parse, Merged(rows, q));
    assert forall t :: t in mixed && t != q.docType ==> t in Merged(rows, p) && mixed[t] == Merged(rows, p)[t];
    forall t | t in mixed
      ensures ParseRules(parse, mixed[t].rules).Some? && ValidEffective(Overlaid(parse, mixed[t], base))
    {
      if t != q.docType {
        AcceptedRow(parse, Merged(rows, p), t);
      } else {
        AcceptedRow(parse, Merged(rows, q), t);
      }
    }
    AcceptedOver(parse, mixed, base);
  }

  /** Empty rules columns aside, the stored rows are the mixed ones. */
  lemma {:induction false} OverlappedAccepted(parse: Parser, rows: Rows, p: Policy, q: Policy)
    requires ParsesJson(parse)
    ensures Accepts(parse, Overlapped(rows, p, q)) <==> Accepts(parse, Mixed(rows, p, q))
  {
    var mixed := Mixed(rows, p, q);
    var half := mixed[p.docType := Normal(mixed[p.docType])];
    NormalAccepted(parse, mixed, p.docType);
    NormalAccepted(parse, half, q.docType);
    OverlappedIsNormal(rows, p, q);
  }

  lemma {:induction false} OverlappedIsNormal(rows: Rows, p: Policy, q: Policy)
    ensures var mixed := Mixed(rows, p, q);
            var half := mixed[p.docType := Normal(mixed[p.docType])];
            half[q.docType := Normal(half[q.docType])] == Overlapped(rows, p, q)
  {
  }

  /** Which overlapping patches go well: those to one type, those to two types other than reference, and of a
      patch to reference and one to another type exactly those where the other type's new row does not clash
      with the new reference. */
  lemma {:induction false} OverlapAcceptedIff(parse: Parser, rows: Rows, p: Policy, q: Policy)
    requires ParsesJson(parse) && Accepts(parse, Merged(rows, p)) && Accepts(parse, Merged(rows, q))
    ensures Accepts(parse, Overlapped(rows, p, q)) <==>
            && (p.docType == REFERENCE && q.docType != REFERENCE ==> !Clashes(PatchedRow(rows, q), Base(parse, Merged(rows, p))))
            && (q.docType == REFERENCE && p.docType != REFERENCE ==> !Clashes(PatchedRow(rows, p), Base(parse, Merged(rows, q))))
  {
    OverlappedAccepted(parse, rows, p, q);
    UpdatesCommute(rows, p.docType, PatchedRow(rows, p), q.docType, PatchedRow(rows, q));
    if p.docType == q.docType {
      assert Mixed(rows, p, q) == Merged(rows, q);
    } else if p.docType == REFERENCE {
      ReferenceAndOther(parse, rows, p, q);
    } else if q.docType == REFERENCE {
      assert Mixed(rows, p, q) == Mixed(rows, q, p);
      ReferenceAndOther(parse, rows, q, p);
    } else {
      TwoOthers(parse, rows, p, q);
    }
  }

  /** However stale the table a row was computed from: storing a row of valid fields over an accepted table
      leaves an accepted one exactly when it does not clash with the reference now in place or, if it is the
      reference row, when it is complete and no row clashes with it. */
  lemma {:induction false} CommitAcceptedIff(parse: Parser, rows: Rows, row: Policy)
    requires Accepts(parse, rows) && ParseRules(parse, row.rules).Some? && SetsValid(row)
    ensures var after := rows[row.docType := row];
            Accepts(parse, after) <==>
            if row.docType != REFERENCE then !Clashes(row, Base(parse, rows))
            else MissingField(row).None? && forall t :: t in after ==>
                      !Clashes(after[t], EffectiveFromReference(parse, row).value)
  {
    var after := rows[row.docType := row];
    forall t | t in rows
      ensures SetsValid(rows[t]) && ParseRules(parse, rows[t].rules).Some?
    {
      AcceptedRow(parse, rows, t);
    }
    if EffectiveFromReference(parse, after[REFERENCE]).Success? {
      CommitOver(parse, rows, row, EffectiveFromReference(parse, after[REFERENCE]).value);
    }
  }

  lemma {:induction false} CommitOver(parse: Parser, rows: Rows, row: Policy, base: Effective)
    requires Accepts(parse, rows) && ParseRules(parse, row.rules).Some? && SetsValid(row)
    requires forall t :: t in rows ==> SetsValid(rows[t]) && ParseRules(parse, rows[t].rules).Some?
    requires EffectiveFromReference(parse, rows[row.docType := row][REFERENCE]) == Success(base)
    ensures var after := rows[row.docType := row];
            Accepts(parse, after) <==>
            if row.docType != REFERENCE then !Clashes(row, base) else forall t :: t in after ==> !Clashes(after[t], base)
  {
    var after := rows[row.docType := row];
    AcceptedOver(parse, after, base);
    AcceptedRow(parse, rows, REFERENCE);
    CompleteOver(parse, after[REFERENCE], base);
    if ValidEffective(base) {
      forall t | t in after
        ensures ValidEffective(Overlaid(parse, after[t], base)) <==> !Clashes(after[t], base)
        ensures row.docType != REFERENCE && t != row.docType ==> ValidEffective(Overlaid(parse, after[t], base))
      {
        ValidOver(parse, after[t], base);
        if row.docType != REFERENCE && t != row.docType {
          AcceptedRow(parse, rows, t);
        }
      }
      assert row.docType in after && after[row.docType] == row;
    }
  }

  /** A complete reference row of valid fields is a valid policy exactly when it does not clash with itself. */
  lemma {:induction false} CompleteOver(parse: Parser, r: Policy, base: Effective)
    requires EffectiveFromReference(parse, r) == Success(base) && SetsValid(r)
    ensures Overlaid(parse, r, base) == base && (ValidEffective(base) <==> !Clashes(r, base))
  {
    ReferenceOver(parse, r, base);
  }

  /** Of two overlapping patches to one type only the last is kept, whatever the first one set. */
  lemma {:induction false} LastPatchWins(rows: Rows, p: Policy, q: Policy)
    requires p.docType == q.docType
    ensures Overlapped(rows, p, q) == rows[q.docType := Normal(PatchedRow(rows, q))]
  {
    UpdatesCommute(rows, p.docType, Normal(PatchedRow(rows, p)), q.docType, Normal(PatchedRow(rows, q)));
  }

  const NO_VECTORS := EmptyRow(REFERENCE).(embed := Some(false), defaultSearch := Some(false))
  const SEARCHED := EmptyRow("tool").(defaultSearch := Some(true))

  lemma {:induction false} NoVectorsAccepted(parse: Parser)
    requires ParsesJson(parse)
    ensures Accepts(parse, Merged(Seed(), NO_VECTORS))
    ensures Base(parse, Merged(Seed(), NO_VECTORS)) == DefaultEffectivePolicy().(embed := false, defaultSearch := false)
  {
    var rows := Merged(Seed(), NO_VECTORS);
    var base := DefaultEffectivePolicy().(embed := false, defaultSearch := false);
    assert rows[REFERENCE] == SeedRow(REFERENCE).(embed := Some(false), defaultSearch := Some(false));
    assert EffectiveFromReference(parse, rows[REFERENCE]) == Success(base);
    forall t | t in rows
      ensures ParseRules(parse, rows[t].rules).Some? && ValidEffective(Overlaid(parse, rows[t], base))
    {
      SeedRowValid(parse, t);
      assert t != REFERENCE ==> rows[t] == SeedRow(t);
    }
  }

  lemma {:induction false} SearchedAccepted(parse: Parser)
    requires ParsesJson(parse)
    ensures Accepts(parse, Merged(Seed(), SEARCHED))
  {
    var rows := Merged(Seed(), SEARCHED);
    assert EffectiveFromReference(parse, SeedRow(REFERENCE)) == Success(DefaultEffectivePolicy());
    forall t | t in rows
      ensures ParseRules(parse, rows[t].rules).Some? && ValidEffective(Overlaid(parse, rows[t], DefaultEffectivePolicy()))
    {
      SeedRowValid(parse, t);
      assert t != "tool" ==> rows[t] == SeedRow(t);
    }
  }

  /** A patch to reference and one to another type that are each accepted against the seed, and leave a table
      that no longer loads when both are stored. */
  lemma {:induction false} WriteSkewExample(parse: Parser)
    requires ParsesJson(parse)
    ensures Accepts(parse, Merged(Seed(), NO_VECTORS)) && Accepts(parse, Merged(Seed(), SEARCHED))
    ensures !Accepts(parse, Overlapped(Seed(), NO_VECTORS, SEARCHED)) && !Accepts(parse, Overlapped(Seed(), SEARCHED, NO_VECTORS))
  {
    NoVectorsAccepted(parse);
    SearchedAccepted(parse);
    assert PatchedRow(Seed(), SEARCHED).embed == None;
    OverlapAcceptedIff(parse, Seed(), NO_VECTORS, SEARCHED);
    OverlapAcceptedIff(parse, Seed(), SEARCHED, NO_VECTORS);
  }
}
