/** The snippet window of internal/service/snippet.go over runes: cut around the first match before the
    highlight sentinels are stripped, and never longer than asked for. */
module Snippet {

  const START: char := '\U{E000}'
  const STOP: char := '\U{E001}'

  predicate Sentinel(c: char) {
    c == START || c == STOP
  }

  /** The two removal passes. */
  function Remove(s: seq<char>, c: char): seq<char> {
    if s == [] then [] else (if s[0] == c then [] else [s[0]]) + Remove(s[1..], c)
  }

  function StripSentinels(s: seq<char>): seq<char> {
    Remove(Remove(s, START), STOP)
  }

  function TrimToRunes(s: seq<char>, n: nat): seq<char> {
    if |s| <= n then s else s[..n]
  }

  function Index(s: seq<char>, c: char): (i: int)
    ensures i < 0 ==> c !in s
    ensures i >= 0 ==> i < |s| && s[i] == c && forall k :: 0 <= k < i ==> s[k] != c
  {
    if s == [] then -1
    else if s[0] == c then 0
    else
      var rest := Index(s[1..], c);
      if rest < 0 then rest else rest + 1
  }

  /** Bounds of the window of a raw highlight whose first match starts at m. */
  function Window(len: nat, m: nat, chars: nat): (w: (nat, nat))
    requires m < len && chars > 0
  {
    var lo := if m < chars / 2 then 0 else m - chars / 2;
    var hi := lo + chars;
    if hi > len then (if len < chars then 0 else len - chars, len) else (lo, hi)
  }

  lemma {:induction false} CutFrom(raw: seq<char>, lo: nat, hi: nat)
    requires lo <= hi <= |raw|
    ensures forall c :: c in raw[lo..hi] ==> c in raw
  {
  }

  method SnippetWindow(raw: seq<char>, chars: int) returns (s: seq<char>)
    ensures chars <= 0 ==> s == []
    ensures chars > 0 && START !in raw ==>
              var text := StripSentinels(raw);
              s == if |text| <= chars then text else text[..chars]
    ensures chars > 0 && START in raw ==>
              var w := Window(|raw|, Index(raw, START), chars);
              w.0 <= w.1 <= |raw| && s == StripSentinels(raw[w.0..w.1])
    ensures |s| <= if chars <= 0 then 0 else chars
    ensures forall c :: c in s ==> !Sentinel(c) && c in raw
  {
    if chars <= 0 {
      return [];
    }
    var start := Index(raw, START);
    if start < 0 {
      Stripped(raw);
      return TrimToRunes(StripSentinels(raw), chars);
    }
    var lo := start - chars / 2;
    if lo < 0 {
      lo := 0;
    }
    var hi := lo + chars;
    if hi > |raw| {
      hi := |raw|;
      lo := hi - chars;
      if lo < 0 {
        lo := 0;
      }
    }
    Stripped(raw[lo..hi]);
    CutFrom(raw, lo, hi);
    return TrimToRunes(StripSentinels(raw[lo..hi]), chars);
  }

  lemma {:induction false} RemoveIs(s: seq<char>, c: char)
    ensures |Remove(s, c)| <= |s|
    ensures forall x :: x in Remove(s, c) <==> x in s && x != c
    ensures c !in s ==> Remove(s, c) == s
  {
    if s != [] {
      RemoveIs(s[1..], c);
      assert s == [s[0]] + s[1..];
    }
  }

  /** Stripping only removes sentinels, and all of them. */
  lemma {:induction false} Stripped(s: seq<char>)
    ensures |StripSentinels(s)| <= |s|
    ensures forall x :: x in StripSentinels(s) <==> x in s && !Sentinel(x)
  {
    RemoveIs(s, START);
    RemoveIs(Remove(s, START), STOP);
  }

  /** Stripping takes the two sentinels out and leaves every other rune in its place. */
  lemma {:induction false} StripAppends(a: seq<char>, c: char, b: seq<char>)
    ensures StripSentinels(a + [c] + b) ==
            StripSentinels(a) + (if c == '\U{E000}' || c == '\U{E001}' then [] else [c]) + StripSentinels(b)
    ensures StripSentinels([]) == []
  {
    RemoveAppends(a, c, b, START);
    var first := Remove(a, START);
    if c == START {
      assert Remove(a + [c] + b, START) == first + Remove(b, START);
      RemoveJoins(first, Remove(b, START), STOP);
    } else {
      RemoveAppends(first, c, Remove(b, START), STOP);
    }
  }

  lemma {:induction false} RemoveAppends(a: seq<char>, c: char, b: seq<char>, x: char)
    ensures Remove(a + [c] + b, x) == Remove(a, x) + (if c == x then [] else [c]) + Remove(b, x)
  {
    assert ([c] + b)[1..] == b;
    RemoveJoins(a, [c] + b, x);
    assert a + [c] + b == a + ([c] + b);
  }

  lemma {:induction false} RemoveJoins(a: seq<char>, b: seq<char>, x: char)
    ensures Remove(a + b, x) == Remove(a, x) + Remove(b, x)
  {
    if a == [] {
      assert a + b == b;
    } else {
      assert (a + b)[1..] == a[1..] + b;
      RemoveJoins(a[1..], b, x);
    }
  }

  /** The window always holds the start of the match, and as many runes as asked for when there are that many; the match
      starts in the middle of it unless the text begins or ends too soon. */
  lemma {:induction false} WindowHoldsMatch(len: nat, m: nat, chars: nat)
    requires m < len && chars > 0
    ensures var w := Window(len, m, chars); w.0 <= m < w.1 <= len && w.1 - w.0 == if len < chars then len else chars
    ensures var w, before := Window(len, m, chars), chars / 2;
            && (m < before ==> w.0 == 0)
            && (m >= before && m - before + chars <= len ==> w.0 == m - before)
            && (m >= before && m - before + chars > len ==> w.1 == len)
  {
  }

  /** The first rune of the match itself, which follows its sentinel, is in the window exactly when three
      runes are asked for, or two and the text starts with the match. Smaller windows lose the match. */
  lemma {:induction false} MatchKeptIff(len: nat, m: nat, chars: nat)
    requires m + 1 < len && chars > 0
    ensures var w := Window(len, m, chars); w.0 <= m + 1 < w.1 <==> chars >= 3 || (chars == 2 && m == 0)
  {
  }
}
