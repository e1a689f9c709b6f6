/** Splitting, joining and trimming of separated strings. */
module Strings {

  /** The parts of a string with one more character in front. */
  function Grown(a: char, c: char, parts: seq<string>): seq<string>
    requires parts != []
  {
    if a == c then [""] + parts else [[a] + parts[0]] + parts[1..]
  }

  function Split(s: string, c: char): (parts: seq<string>)
    ensures parts != []
  {
    if s == "" then [""] else Grown(s[0], c, Split(s[1..], c))
  }

  function Join(parts: seq<string>, c: char): string {
    if |parts| == 0 then ""
    else if |parts| == 1 then parts[0]
    else parts[0] + [c] + Join(parts[1..], c)
  }

  lemma {:induction false} JoinSplit(s: string, c: char)
    ensures Join(Split(s, c), c) == s
    ensures forall p :: p in Split(s, c) ==> c !in p
  {
    if s != "" {
      JoinSplit(s[1..], c);
      var rest := Split(s[1..], c);
      if s[0] == c {
        assert ([""] + rest)[1..] == rest;
      } else {
        var parts := [[s[0]] + rest[0]] + rest[1..];
        assert parts[1..] == rest[1..];
        assert rest == [rest[0]] + rest[1..];
      }
    }
  }

  lemma {:induction false} SplitPlain(s: string, c: char)
    requires c !in s
    ensures Split(s, c) == [s]
  {
    if s != "" {
      SplitPlain(s[1..], c);
      assert s == [s[0]] + s[1..];
    }
  }

  lemma {:induction false} Prepend(a: char, c: char, r: seq<string>, q: seq<string>)
    requires r != []
    ensures Grown(a, c, r + q) == Grown(a, c, r) + q
  {
    assert (r + q)[1..] == r[1..] + q;
  }

  /** Parts join up at a separator only. */
  lemma {:induction false} SplitConcat(s: string, t: string, c: char)
    ensures Split(s + [c] + t, c) == Split(s, c) + Split(t, c)
  {
    var whole := s + [c] + t;
    if s == "" {
      assert whole[1..] == t;
    } else {
      assert whole[0] == s[0] && whole[1..] == s[1..] + [c] + t;
      SplitConcat(s[1..], t, c);
      Prepend(s[0], c, Split(s[1..], c), Split(t, c));
    }
  }

  /** A join has at least as many parts as were joined, and more when one of them has a separator. */
  lemma {:induction false} PartsOfJoin(parts: seq<string>, c: char)
    requires parts != []
    ensures |Split(Join(parts, c), c)| >= |parts|
    ensures |Split(Join(parts, c), c)| == |parts| ==> forall p :: p in parts ==> c !in p
  {
    JoinSplit(parts[0], c);
    var first := Split(parts[0], c);
    if |first| == 1 {
      assert first == [first[0]];
      assert Join(first, c) == first[0];
      assert first[0] in first;
    }
    if |parts| > 1 {
      PartsOfJoin(parts[1..], c);
      SplitConcat(parts[0], Join(parts[1..], c), c);
      assert parts == [parts[0]] + parts[1..];
    }
  }

  lemma {:induction false} SplitJoin(parts: seq<string>, c: char)
    requires parts != [] && forall p :: p in parts ==> c !in p
    ensures Split(Join(parts, c), c) == parts
  {
    if |parts| == 1 {
      SplitPlain(parts[0], c);
    } else {
      var rest := Join(parts[1..], c);
      SplitJoin(parts[1..], c);
      SplitPlain(parts[0], c);
      SplitConcat(parts[0], rest, c);
      assert parts == [parts[0]] + parts[1..];
    }
  }

  lemma {:induction false} JoinSnoc(parts: seq<string>, last: string, c: char)
    requires parts != []
    ensures Join(parts + [last], c) == Join(parts, c) + [c] + last
  {
    if |parts| > 1 {
      JoinSnoc(parts[1..], last, c);
      assert (parts + [last])[1..] == parts[1..] + [last];
    }
  }

  lemma {:induction false} JoinMiddle(parts: seq<string>, c: char)
    requires |parts| >= 3
    ensures Join(parts, c) == parts[0] + [c] + Join(parts[1..|parts| - 1], c) + [c] + parts[|parts| - 1]
  {
    var mid := parts[1..|parts| - 1];
    assert parts[1..] == mid + [parts[|parts| - 1]];
    JoinSnoc(mid, parts[|parts| - 1], c);
  }

  function TrimLeft(s: string, c: char): string {
    if s != "" && s[0] == c then TrimLeft(s[1..], c) else s
  }

  function TrimRight(s: string, c: char): string {
    if s != "" && s[|s| - 1] == c then TrimRight(s[..|s| - 1], c) else s
  }

  /** s without its leading and trailing occurrences of c. */
  function Trim(s: string, c: char): string {
    TrimRight(TrimLeft(s, c), c)
  }

  lemma {:induction false} TrimLeftIs(s: string, c: char)
    ensures TrimLeft(s, c) != "" ==> TrimLeft(s, c)[0] != c
    ensures TrimLeft(s, c) == "" ==> forall x :: x in s ==> x == c
  {
    if s != "" && s[0] == c {
      TrimLeftIs(s[1..], c);
      assert s == [c] + s[1..];
    }
  }

  lemma {:induction false} TrimRightIs(s: string, c: char)
    ensures TrimRight(s, c) <= s
    ensures TrimRight(s, c) != "" ==> TrimRight(s, c)[|TrimRight(s, c)| - 1] != c
    ensures TrimRight(s, c) == "" ==> forall x :: x in s ==> x == c
  {
    if s != "" && s[|s| - 1] == c {
      TrimRightIs(s[..|s| - 1], c);
      assert s == s[..|s| - 1] + [c];
    }
  }

  /** One more c at the end makes no difference. */
  lemma {:induction false} TrimBehind(s: string, c: char)
    ensures Trim(s + [c], c) == Trim(s, c)
  {
    if s == "" {
      assert (s + [c])[1..] == "";
    } else if s[0] == c {
      assert (s + [c])[1..] == s[1..] + [c];
      TrimBehind(s[1..], c);
    } else {
      assert (s + [c])[..|s|] == s;
    }
  }

  lemma {:induction false} TrimEnds(s: string, c: char)
    ensures Trim(s, c) != "" ==> Trim(s, c)[0] != c && Trim(s, c)[|Trim(s, c)| - 1] != c
  {
    TrimLeftIs(s, c);
    TrimRightIs(TrimLeft(s, c), c);
  }

  lemma {:induction false} TrimEmpty(s: string, c: char)
    requires Trim(s, c) == ""
    ensures forall x :: x in s ==> x == c
  {
    var l := TrimLeft(s, c);
    TrimLeftIs(s, c);
    assert l != "" ==> l[0] in l;
    TrimRightIs(l, c);
  }

  /** The first and last parts of a string that neither starts nor ends with c are not empty. */
  lemma {:induction false} SplitEnds(s: string, c: char)
    requires s != ""
    ensures s[0] != c ==> Split(s, c)[0] != ""
    ensures s[|s| - 1] != c ==> Split(s, c)[|Split(s, c)| - 1] != ""
  {
    if |s| > 1 {
      SplitEnds(s[1..], c);
    }
  }

  /** The whitespace-separated fields of s. */
  function Fields(space: char -> bool, s: string): seq<string> {
    FieldsFrom(space, "", s)
  }

  function FieldsFrom(space: char -> bool, word: string, s: string): seq<string>
    decreases |s|
  {
    if s == "" then (if word == "" then [] else [word])
    else if space(s[0]) then (if word == "" then [] else [word]) + FieldsFrom(space, "", s[1..])
    else FieldsFrom(space, word + [s[0]], s[1..])
  }

  lemma {:induction false} FieldsFromWord(space: char -> bool, word: string, s: string)
    requires forall x :: x in s ==> !space(x)
    ensures FieldsFrom(space, word, s) == if word + s == "" then [] else [word + s]
    decreases |s|
  {
    if s == "" {
      assert word + s == word;
    } else {
      assert s == [s[0]] + s[1..];
      FieldsFromWord(space, word + [s[0]], s[1..]);
      assert word + [s[0]] + s[1..] == word + s;
    }
  }

  lemma {:induction false} FieldsFromApart(space: char -> bool, word: string, a: string, c: char, b: string)
    requires space(c)
    ensures FieldsFrom(space, word, a + [c] + b) == FieldsFrom(space, word, a) + Fields(space, b)
    decreases |a|
  {
    var s := a + [c] + b;
    if a == "" {
      assert s[1..] == b;
    } else {
      assert s[0] == a[0] && s[1..] == a[1..] + [c] + b;
      if space(a[0]) {
        FieldsFromApart(space, "", a[1..], c, b);
      } else {
        FieldsFromApart(space, word + [a[0]], a[1..], c, b);
      }
    }
  }

  /** Text without white space is one field, or none when empty; white space keeps fields apart. */
  lemma {:induction false} FieldsAre(space: char -> bool, a: string, c: char, b: string)
    ensures (forall x :: x in a ==> !space(x)) ==> Fields(space, a) == if a == "" then [] else [a]
    ensures space(c) ==> Fields(space, a + [c] + b) == Fields(space, a) + Fields(space, b)
  {
    if forall x :: x in a ==> !space(x) {
      FieldsFromWord(space, "", a);
      assert "" + a == a;
    }
    if space(c) {
      FieldsFromApart(space, "", a, c, b);
    }
  }
}
