/** Document paths: the printer and parser of internal/models/document.go and the write contract of
    internal/models/validation.go. */
module Paths {
  import opened Wrappers
  import opened Strings

  const MAX_CATEGORY_LEN := 50
  const MAX_SUBCATEGORY_LEN := 100
  const MAX_SLUG_LEN := 100

  datatype DocPath = DocPath(category: string, subcategory: Option<string>, slug: string)

  function BuildPath(d: DocPath): string {
    match d.subcategory
    case Some(sub) => d.category + "/" + sub + "/" + d.slug
    case None => d.category + "/" + d.slug
  }

  function ParsePath(path: string): DocPath {
    var trimmed := Trim(path, '/');
    if trimmed == "" then DocPath("misc", None, trimmed)
    else
      var parts := Split(trimmed, '/');
      if |parts| == 1 then DocPath("misc", None, parts[0])
      else if |parts| == 2 then DocPath(parts[0], None, parts[1])
      else if |parts| == 3 then DocPath(parts[0], Some(parts[1]), parts[2])
      else DocPath(parts[0], Some(Join(parts[1..|parts| - 1], '/')), parts[|parts| - 1])
  }

  // ----- validation

  predicate Alphanumeric(c: char) {
    'a' <= c <= 'z' || 'A' <= c <= 'Z' || '0' <= c <= '9'
  }

  /** The segment pattern: an alphanumeric, then alphanumerics, dots, underscores and hyphens. */
  predicate ValidSegment(s: string) {
    s != "" && Alphanumeric(s[0]) && forall i :: 0 < i < |s| ==> Alphanumeric(s[i]) || s[i] in "._-"
  }

  datatype Invalid = TooLong(field: string) | BadSegment(segment: string)

  predicate ValidSubcategory(sub: string) {
    |sub| <= MAX_SUBCATEGORY_LEN && forall seg :: seg in Split(sub, '/') ==> ValidSegment(seg)
  }

  predicate ValidPath(d: DocPath) {
    && |d.category| <= MAX_CATEGORY_LEN && ValidSegment(d.category)
    && |d.slug| <= MAX_SLUG_LEN && ValidSegment(d.slug)
    && (d.subcategory.Some? ==> ValidSubcategory(d.subcategory.value))
  }

  lemma {:induction false} SegmentIff(s: string)
    ensures ValidSegment(s) <==>
            s != "" && forall i :: 0 <= i < |s| ==> 'a' <= s[i] <= 'z' || 'A' <= s[i] <= 'Z' || '0' <= s[i] <= '9' ||
                                                    (i > 0 && (s[i] == '.' || s[i] == '_' || s[i] == '-'))
  {
    assert forall c :: c in "._-" <==> c == '.' || c == '_' || c == '-';
  }

  method ValidateSubcategoryPath(sub: string) returns (err: Option<Invalid>)
    ensures err.None? <==> ValidSubcategory(sub)
    ensures err == Some(TooLong("subcategory")) <==> |sub| > 100
    ensures |sub| <= 100 ==> (err.None? <==> forall seg :: seg in Split(sub, '/') ==> ValidSegment(seg))
    ensures err.Some? && err.value.BadSegment? ==> err.value.segment in Split(sub, '/') && !ValidSegment(err.value.segment)
  {
    if |sub| > MAX_SUBCATEGORY_LEN {
      return Some(TooLong("subcategory"));
    }
    var segs := Split(sub, '/');
    for i := 0 to |segs|
      invariant forall seg :: seg in segs[..i] ==> ValidSegment(seg)
    {
      if !ValidSegment(segs[i]) {
        return Some(BadSegment(segs[i]));
      }
    }
    assert segs[..|segs|] == segs;
    return None;
  }

  method ValidateDocumentPath(d: DocPath) returns (err: Option<Invalid>)
    ensures err.None? <==> ValidPath(d)
    ensures err.None? <==>
            && |d.category| <= 50 && ValidSegment(d.category) && |d.slug| <= 100 && ValidSegment(d.slug)
            && (d.subcategory.Some? ==>
                  |d.subcategory.value| <= 100 && forall seg :: seg in Split(d.subcategory.value, '/') ==> ValidSegment(seg))
  {
    if |d.category| > MAX_CATEGORY_LEN {
      return Some(TooLong("category"));
    }
    if !ValidSegment(d.category) {
      return Some(BadSegment(d.category));
    }
    if |d.slug| > MAX_SLUG_LEN {
      return Some(TooLong("slug"));
    }
    if !ValidSegment(d.slug) {
      return Some(BadSegment(d.slug));
    }
    if d.subcategory.Some? {
      err := ValidateSubcategoryPath(d.subcategory.value);
    } else {
      err := None;
    }
  }

  // ----- what stands where

  lemma {:induction false} TrimPlain(path: string)
    requires path != "" ==> path[0] != '/' && path[|path| - 1] != '/'
    ensures Trim(path, '/') == path
  {
  }

  /** Slashes around a path do not count. */
  lemma {:induction false} SlashesAround(path: string)
    ensures ParsePath("/" + path) == ParsePath(path) && ParsePath(path + "/") == ParsePath(path)
  {
    assert ("/" + path)[1..] == path;
    TrimBehind(path, '/');
  }

  /** The category stands before the first slash, the slug behind the last, and all between them is the subcategory; a
      path without a slash is a slug in "misc". */
  lemma {:induction false} ParsePlaces(category: string, sub: string, slug: string)
    requires category != "" && '/' !in category && slug != "" && '/' !in slug
    ensures ParsePath(slug) == DocPath("misc", None, slug) && ParsePath("") == DocPath("misc", None, "")
    ensures ParsePath(category + "/" + slug) == DocPath(category, None, slug)
    ensures ParsePath(category + "/" + sub + "/" + slug) == DocPath(category, Some(sub), slug)
  {
    TrimPlain(slug);
    SplitPlain(slug, '/');
    var d, e := DocPath(category, None, slug), DocPath(category, Some(sub), slug);
    ParseAfterBuild(d);
    ParseAfterBuild(e);
    assert BuildPath(d) == category + "/" + slug && BuildPath(e) == category + "/" + sub + "/" + slug;
  }

  // ----- the round trips

  /** Categories and slugs that survive printing: not empty and without a slash. */
  predicate Plain(s: string) {
    s != "" && '/' !in s
  }

  /** The segments a path is printed from. */
  function Segments(d: DocPath): seq<string> {
    [d.category] + (if d.subcategory.Some? then Split(d.subcategory.value, '/') else []) + [d.slug]
  }

  lemma {:induction false} BuildIsSegments(d: DocPath)
    requires Plain(d.category) && Plain(d.slug)
    ensures Split(BuildPath(d), '/') == Segments(d)
    ensures Trim(BuildPath(d), '/') == BuildPath(d)
  {
    var path := BuildPath(d);
    SplitPlain(d.category, '/');
    SplitPlain(d.slug, '/');
    assert path[0] == d.category[0] && path[|path| - 1] == d.slug[|d.slug| - 1];
    if d.subcategory.Some? {
      var rest := d.subcategory.value + "/" + d.slug;
      assert path == d.category + "/" + rest;
      SplitConcat(d.category, rest, '/');
      SplitConcat(d.subcategory.value, d.slug, '/');
    } else {
      SplitConcat(d.category, d.slug, '/');
    }
  }

  /** What parsing gives back always has a category and, unless nothing was left to parse, a slug that
      survive printing. */
  lemma {:induction false} ParsedIsPlain(path: string)
    ensures Plain(ParsePath(path).category)
    ensures Trim(path, '/') != "" ==> Plain(ParsePath(path).slug)
  {
    var t := Trim(path, '/');
    TrimEnds(path, '/');
    JoinSplit(t, '/');
    if t != "" {
      SplitEnds(t, '/');
    }
  }

  /** Printing and then parsing gives the path back exactly when category and slug are plain; the
      subcategory may hold anything, slashes included. */
  lemma {:induction false} ParseAfterBuild(d: DocPath)
    ensures ParsePath(BuildPath(d)) == d <==> Plain(d.category) && Plain(d.slug)
  {
    if Plain(d.category) && Plain(d.slug) {
      BuildIsSegments(d);
      var parts := Segments(d);
      if d.subcategory.Some? {
        JoinSplit(d.subcategory.value, '/');
        assert parts[1..|parts| - 1] == Split(d.subcategory.value, '/');
        if |parts| == 3 {
          assert Split(d.subcategory.value, '/') == [parts[1]];
        }
      }
    } else {
      ParsedIsPlain(BuildPath(d));
      if Trim(BuildPath(d), '/') == "" {
        TrimEmpty(BuildPath(d), '/');
        assert BuildPath(d)[0] in BuildPath(d);
      }
    }
  }

  /** Every triple the write contract accepts round-trips, so distinct documents have distinct paths. */
  lemma {:induction false} ValidRoundTrips(d: DocPath, e: DocPath)
    requires ValidPath(d)
    ensures ParsePath(BuildPath(d)) == d
    ensures ValidPath(e) && BuildPath(e) == BuildPath(d) ==> e == d
  {
    ParseAfterBuild(d);
    ParseAfterBuild(e);
  }

  /** Parsing and then printing gives the trimmed path back exactly when that has a slash in it. */
  lemma {:induction false} BuildAfterParse(path: string)
    ensures BuildPath(ParsePath(path)) == Trim(path, '/') <==> '/' in Trim(path, '/')
  {
    var t := Trim(path, '/');
    var parts := Split(t, '/');
    JoinSplit(t, '/');
    assert parts[0] in parts;
    if '/' !in t {
      SplitPlain(t, '/');
    } else if |parts| >= 3 {
      JoinMiddle(parts, '/');
    }
  }

  /** Parsing is stable under a further print and parse exactly for paths that are not all slashes. */
  lemma {:induction false} ParseIsStable(path: string)
    ensures ParsePath(BuildPath(ParsePath(path))) == ParsePath(path) <==> Trim(path, '/') != ""
  {
    ParsedIsPlain(path);
    ParseAfterBuild(ParsePath(path));
  }
}
