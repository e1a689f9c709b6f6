/** Prefix filters of list queries: the escaping of internal/service/list_options.go against the meaning of
    the LIKE patterns that internal/repository/document.go builds from it. */
module LikeEscape {

  /** strings.ReplaceAll for a one-character search string. */
  function ReplaceAll(s: string, c: char, with: string): string {
    if s == "" then "" else (if s[0] == c then with else [s[0]]) + ReplaceAll(s[1..], c, with)
  }

  function EscapeLikePrefix(s: string): string {
    ReplaceAll(ReplaceAll(ReplaceAll(s, '\\', "\\\\"), '%', "\\%"), '_', "\\_")
  }

  /** PostgreSQL's LIKE with backslash as the escape character; a pattern that ends in a lone backslash is
      an error there and matches nothing here. */
  predicate Like(p: string, t: string)
    decreases |p| + |t|
  {
    if p == "" then t == ""
    else if p[0] == '\\' then |p| >= 2 && t != "" && t[0] == p[1] && Like(p[2..], t[1..])
    else if p[0] == '%' then Like(p[1..], t) || (t != "" && Like(p, t[1..]))
    else if p[0] == '_' then t != "" && Like(p[1..], t[1..])
    else t != "" && t[0] == p[0] && Like(p[1..], t[1..])
  }

  /** What the four kinds of pattern characters stand for. */
  lemma {:induction false} LikeMeans(c: char, q: string, t: string)
    ensures Like("", t) <==> t == ""
    ensures Like("%" + q, t) <==> exists i :: 0 <= i <= |t| && Like(q, t[i..])
    ensures Like("_" + q, t) <==> t != "" && Like(q, t[1..])
    ensures Like("\\" + [c] + q, t) <==> t != "" && t[0] == c && Like(q, t[1..])
    ensures c != '%' && c != '_' && c != '\\' ==> (Like([c] + q, t) <==> t != "" && t[0] == c && Like(q, t[1..]))
  {
    assert ("%" + q)[1..] == q && ("_" + q)[1..] == q && ([c] + q)[1..] == q && ("\\" + [c] + q)[2..] == q;
    PercentSkips(q, t);
  }

  lemma {:induction false} PercentSkips(q: string, t: string)
    ensures Like("%" + q, t) <==> exists i :: 0 <= i <= |t| && Like(q, t[i..])
    decreases |t|
  {
    assert ("%" + q)[1..] == q && t[0..] == t;
    if t != "" {
      PercentSkips(q, t[1..]);
      assert forall i :: 1 <= i <= |t| ==> t[i..] == t[1..][i - 1..];
      if Like("%" + q, t[1..]) {
        var i :| 0 <= i <= |t[1..]| && Like(q, t[1..][i..]);
        assert Like(q, t[i + 1..]);
      }
    }
  }

  function Escaped(c: char): string {
    if c in "\\%_" then ['\\', c] else [c]
  }

  lemma {:induction false} ReplaceAllAppends(s: string, t: string, c: char, with: string)
    ensures ReplaceAll(s + t, c, with) == ReplaceAll(s, c, with) + ReplaceAll(t, c, with)
  {
    if s == "" {
      assert s + t == t;
    } else {
      assert (s + t)[1..] == s[1..] + t;
      ReplaceAllAppends(s[1..], t, c, with);
    }
  }

  lemma {:induction false} ReplaceAllShort(a: char, b: char, c: char, with: string)
    ensures ReplaceAll([a], c, with) == if a == c then with else [a]
    ensures ReplaceAll([a, b], c, with) == (if a == c then with else [a]) + (if b == c then with else [b])
  {
    assert [a][1..] == "" && [a, b][1..] == [b] && [b][1..] == "";
  }

  /** One pass over the text. */
  ghost function OnePass(s: string): string {
    if s == "" then "" else Escaped(s[0]) + OnePass(s[1..])
  }

  /** The three passes escape each character once: the later ones never touch the backslashes of the earlier. */
  lemma {:induction false} EscapesOnce(s: string)
    ensures EscapeLikePrefix(s) == OnePass(s)
  {
    if s != "" {
      EscapesFirst(s);
      EscapesOnce(s[1..]);
    }
  }

  lemma {:induction false} EscapesFirst(s: string)
    requires s != ""
    ensures EscapeLikePrefix(s) == Escaped(s[0]) + EscapeLikePrefix(s[1..])
  {
    var c, one := s[0], ReplaceAll([s[0]], '\\', "\\\\");
    ReplaceAllShort(c, c, '\\', "\\\\");
    var two := ReplaceAll(one, '%', "\\%");
    ReplaceAllShort('\\', c, '%', "\\%");
    ReplaceAllShort(c, c, '%', "\\%");
    ReplaceAllShort('\\', c, '_', "\\_");
    ReplaceAllShort(c, c, '_', "\\_");
    assert ReplaceAll(two, '_', "\\_") == Escaped(c);
    var rest := ReplaceAll(s[1..], '\\', "\\\\");
    ReplaceAllAppends(one, rest, '%', "\\%");
    ReplaceAllAppends(two, ReplaceAll(rest, '%', "\\%"), '_', "\\_");
    assert ReplaceAll(s, '\\', "\\\\") == one + rest;
  }

  lemma {:induction false} EscapedChar(c: char, p: string, t: string)
    ensures Like(Escaped(c) + p, t) <==> t != "" && t[0] == c && Like(p, t[1..])
  {
    assert c in "\\%_" ==> (Escaped(c) + p)[2..] == p;
    assert c !in "\\%_" ==> (Escaped(c) + p)[1..] == p;
    assert '\\' in "\\%_" && '%' in "\\%_" && '_' in "\\%_";
  }

  lemma {:induction false} PrefixStep(s: string, t: string)
    requires s != "" && t != "" && t[0] == s[0]
    ensures s <= t <==> s[1..] <= t[1..]
    ensures s <= t ==> t[1..][|s| - 1..] == t[|s|..]
  {
    assert s == [s[0]] + s[1..] && t == [t[0]] + t[1..];
  }

  lemma {:induction false} OnePassPrefix(s: string, q: string, t: string)
    ensures Like(OnePass(s) + q, t) <==> s <= t && Like(q, t[|s|..])
  {
    if s == "" {
      assert OnePass(s) + q == q && t[0..] == t;
    } else {
      var rest := OnePass(s[1..]) + q;
      assert OnePass(s) + q == Escaped(s[0]) + rest;
      EscapedChar(s[0], rest, t);
      if t != "" && t[0] == s[0] {
        OnePassPrefix(s[1..], q, t[1..]);
        PrefixStep(s, t);
      }
    }
  }

  /** An escaped prefix matches itself and nothing else, and leaves the rest of the pattern to the rest of
      the text. */
  lemma {:induction false} EscapedPrefix(s: string, q: string, t: string)
    ensures Like(EscapeLikePrefix(s) + q, t) <==> s <= t && Like(q, t[|s|..])
  {
    EscapesOnce(s);
    OnePassPrefix(s, q, t);
  }

  lemma {:induction false} PercentMatchesAll(t: string)
    ensures Like("%", t)
  {
    if t != "" {
      PercentMatchesAll(t[1..]);
    }
  }

  /** The slug filter finds exactly the slugs that start with the text given, wildcards and all. */
  lemma {:induction false} SlugFilter(prefix: string, slug: string)
    ensures Like(EscapeLikePrefix(prefix) + "%", slug) <==> prefix <= slug
  {
    EscapedPrefix(prefix, "%", slug);
    if prefix <= slug {
      PercentMatchesAll(slug[|prefix|..]);
    }
  }

  /** The subcategory filter finds exactly the subcategory given and those nested under it. */
  lemma {:induction false} SubcategoryFilter(prefix: string, sub: string)
    ensures Like(EscapeLikePrefix(prefix), sub) || Like(EscapeLikePrefix(prefix) + "/%", sub) <==>
              sub == prefix || prefix + "/" <= sub
  {
    assert EscapeLikePrefix(prefix) + "" == EscapeLikePrefix(prefix);
    EscapedPrefix(prefix, "", sub);
    EscapedPrefix(prefix, "/%", sub);
    if prefix <= sub {
      var rest := sub[|prefix|..];
      assert "/%"[1..] == "%";
      if rest != "" {
        PercentMatchesAll(rest[1..]);
      }
      assert Like("/%", rest) <==> rest != "" && rest[0] == '/';
      assert rest == "" ==> sub == prefix;
      assert rest != "" && rest[0] == '/' <==> prefix + "/" <= sub;
    }
  }

  /** The order of the passes matters: with the backslash pass last, a percent sign given as a prefix would
      match a text that does not start with it. */
  lemma {:induction false} BackslashLastFails()
    ensures var late := ReplaceAll(ReplaceAll("%", '%', "\\%"), '\\', "\\\\");
            Like(late + "%", "\\x") && !("%" <= "\\x")
  {
    ReplaceAllShort('%', '%', '%', "\\%");
    ReplaceAllShort('\\', '%', '\\', "\\\\");
    var late := ReplaceAll(ReplaceAll("%", '%', "\\%"), '\\', "\\\\");
    assert late == ['\\', '\\', '%'];
    var p := late + "%";
    assert p[2..] == "%%" && "\\x"[1..] == "x" && "%%"[1..] == "%";
    PercentMatchesAll("x");
    assert Like("%%", "x");
  }
}
