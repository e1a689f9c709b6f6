/** Hierarchical "/"-globs (internal/service/includes.go): a two-pointer matcher that remembers one
    "**" only, against the recursive meaning of a pattern. */
module Glob {
  import opened Strings

  const STARS := "**"

  /** "**" takes any number of segments, every other segment takes one that `ok` accepts. */
  ghost predicate Matches(ok: (string, string) -> bool, pat: seq<string>, seg: seq<string>)
    decreases |pat|, |seg|
  {
    if pat == [] then seg == []
    else if pat[0] == STARS then Matches(ok, pat[1..], seg) || (seg != [] && Matches(ok, pat, seg[1..]))
    else seg != [] && ok(pat[0], seg[0]) && Matches(ok, pat[1..], seg[1..])
  }

  ghost predicate From(ok: (string, string) -> bool, pat: seq<string>, p: nat, seg: seq<string>, s: nat)
    requires p <= |pat| && s <= |seg|
  {
    Matches(ok, pat[p..], seg[s..])
  }

  lemma Unfold(ok: (string, string) -> bool, pat: seq<string>, p: nat, seg: seq<string>, s: nat)
    requires p <= |pat| && s <= |seg|
    ensures p == |pat| ==> (From(ok, pat, p, seg, s) <==> s == |seg|)
    ensures p < |pat| && pat[p] != STARS ==>
              (From(ok, pat, p, seg, s) <==> s < |seg| && ok(pat[p], seg[s]) && From(ok, pat, p + 1, seg, s + 1))
    ensures p < |pat| && pat[p] == STARS ==>
              (From(ok, pat, p, seg, s) <==> From(ok, pat, p + 1, seg, s) || (s < |seg| && From(ok, pat, p, seg, s + 1)))
  {
    if p < |pat| {
      assert pat[p..][1..] == pat[p + 1..];
    }
    if s < |seg| {
      assert seg[s..][1..] == seg[s + 1..];
    }
  }

  /** "**" at p gives up the segments up to some t. */
  lemma {:induction false} StarsTake(ok: (string, string) -> bool, pat: seq<string>, p: nat, next: nat, seg: seq<string>, s: nat)
    requires p < |pat| && pat[p] == STARS && next == p + 1 && s <= |seg|
    ensures From(ok, pat, p, seg, s) <==> exists t :: s <= t <= |seg| && From(ok, pat, next, seg, t)
    decreases |seg| - s
  {
    Unfold(ok, pat, p, seg, s);
    if s < |seg| {
      StarsTake(ok, pat, p, next, seg, s + 1);
    }
  }

  // ----- what a pattern means, without recursion

  /** A pattern without "**" matches segment by segment. */
  lemma {:induction false} PlainMatches(ok: (string, string) -> bool, pat: seq<string>, seg: seq<string>)
    requires "**" !in pat
    ensures Matches(ok, pat, seg) <==> |pat| == |seg| && forall i :: 0 <= i < |pat| ==> ok(pat[i], seg[i])
  {
    if pat != [] && seg != [] {
      PlainMatches(ok, pat[1..], seg[1..]);
      assert forall i :: 0 < i < |pat| ==> pat[i] == pat[1..][i - 1];
      assert forall i :: 0 < i < |seg| ==> seg[i] == seg[1..][i - 1];
    }
  }

  ghost predicate Around(ok: (string, string) -> bool, l: seq<string>, r: seq<string>, seg: seq<string>, i: int, j: int) {
    0 <= i <= j <= |seg| && Matches(ok, l, seg[..i]) && Matches(ok, r, seg[j..])
  }

  lemma {:induction false} StarsTakeIn(ok: (string, string) -> bool, l: seq<string>, r: seq<string>, seg: seq<string>)
    requires Matches(ok, l + ["**"] + r, seg)
    ensures exists i, j :: Around(ok, l, r, seg, i, j)
    decreases |l|, |seg|
  {
    var pat := l + ["**"] + r;
    if l == [] {
      StarsTake(ok, pat, 0, 1, seg, 0);
      assert pat[0..] == pat && seg[0..] == seg && pat[1..] == r && seg[..0] == [];
      var t :| 0 <= t <= |seg| && From(ok, pat, 1, seg, t);
      assert Around(ok, l, r, seg, 0, t);
    } else {
      assert pat[1..] == l[1..] + ["**"] + r;
      if l[0] == STARS && Matches(ok, pat[1..], seg) {
        StarsTakeIn(ok, l[1..], r, seg);
        var i, j :| Around(ok, l[1..], r, seg, i, j);
        assert Around(ok, l, r, seg, i, j);
      } else {
        var rest := if l[0] == STARS then l else l[1..];
        StarsTakeIn(ok, rest, r, seg[1..]);
        var i, j :| Around(ok, rest, r, seg[1..], i, j);
        assert seg[1..][..i] == seg[..i + 1][1..] && seg[1..][j..] == seg[j + 1..];
        assert Around(ok, l, r, seg, i + 1, j + 1);
      }
    }
  }

  lemma {:induction false} StarsGiveBack(ok: (string, string) -> bool, l: seq<string>, r: seq<string>, seg: seq<string>,
                                         i: int, j: int)
    requires Around(ok, l, r, seg, i, j)
    ensures Matches(ok, l + ["**"] + r, seg)
    decreases |l|, |seg|
  {
    var pat := l + ["**"] + r;
    if l == [] {
      StarsTake(ok, pat, 0, 1, seg, 0);
      assert pat[0..] == pat && seg[0..] == seg && pat[1..] == r;
      assert From(ok, pat, 1, seg, j);
    } else {
      assert pat[1..] == l[1..] + ["**"] + r;
      if l[0] == STARS && Matches(ok, l[1..], seg[..i]) {
        StarsGiveBack(ok, l[1..], r, seg, i, j);
      } else {
        var rest := if l[0] == STARS then l else l[1..];
        assert seg[1..][..i - 1] == seg[..i][1..] && seg[1..][j - 1..] == seg[j..];
        StarsGiveBack(ok, rest, r, seg[1..], i - 1, j - 1);
      }
    }
  }

  /** "**" stands for any number of segments between what the two sides of it match. */
  lemma {:induction false} StarsMatch(ok: (string, string) -> bool, l: seq<string>, r: seq<string>, seg: seq<string>)
    ensures Matches(ok, l + ["**"] + r, seg) <==>
            exists i, j :: 0 <= i <= j <= |seg| && Matches(ok, l, seg[..i]) && Matches(ok, r, seg[j..])
  {
    if Matches(ok, l + ["**"] + r, seg) {
      StarsTakeIn(ok, l, r, seg);
      var i, j :| Around(ok, l, r, seg, i, j);
    }
    if i, j :| 0 <= i <= j <= |seg| && Matches(ok, l, seg[..i]) && Matches(ok, r, seg[j..]) {
      StarsGiveBack(ok, l, r, seg, i, j);
    }
  }

  // ----- the loop

  /** Plain segments take exactly as many segments as they are. */
  lemma {:induction false} PlainTake(ok: (string, string) -> bool, pat: seq<string>, p: nat, q: nat, seg: seq<string>, s: nat)
    requires p <= q <= |pat| && s <= |seg| && STARS !in pat[p..q] && From(ok, pat, p, seg, s)
    ensures s + (q - p) <= |seg| && From(ok, pat, q, seg, s + (q - p))
    decreases q - p
  {
    if p < q {
      assert pat[p..q][0] == pat[p] && pat[p + 1..q] == pat[p..q][1..];
      Unfold(ok, pat, p, seg, s);
      PlainTake(ok, pat, p + 1, q, seg, s + 1);
    }
  }

  /** The alternatives left to a remembered "**" that has given up the segments before s; `after` is
      the position behind it, 0 when there is none. */
  ghost predicate Later(ok: (string, string) -> bool, pat: seq<string>, after: int, seg: seq<string>, s: int)
    requires after <= |pat|
  {
    after > 0 && exists t :: 0 <= t && s < t <= |seg| && From(ok, pat, after, seg, t)
  }

  /** Once a second "**" is reached the first one never needs to be revisited. */
  lemma OlderStarsAreSpent(ok: (string, string) -> bool, pat: seq<string>, star: nat, p: nat, seg: seq<string>, s: nat, sx: nat)
    requires star < p < |pat| && pat[p] == STARS && STARS !in pat[star + 1..p]
    requires s <= sx <= |seg| && sx - s == p - (star + 1)
    ensures Later(ok, pat, star + 1, seg, s) ==> From(ok, pat, p, seg, sx)
  {
    if Later(ok, pat, star + 1, seg, s) {
      var t :| s < t <= |seg| && From(ok, pat, star + 1, seg, t);
      PlainTake(ok, pat, star + 1, p, seg, t);
      StarsTake(ok, pat, p, p + 1, seg, t + (p - star - 1));
      StarsTake(ok, pat, p, p + 1, seg, sx);
    }
  }

  lemma LaterStep(ok: (string, string) -> bool, pat: seq<string>, star: nat, seg: seq<string>, s: nat)
    requires star < |pat| && s < |seg|
    ensures Later(ok, pat, star + 1, seg, s) <==> From(ok, pat, star + 1, seg, s + 1) || Later(ok, pat, star + 1, seg, s + 1)
  {
  }

  /** The remembered "**" and the plain segments matched since. */
  ghost predicate Resumable(pat: seq<string>, star: int, px: int, s: int, sx: int) {
    -1 <= star < |pat| && (star >= 0 ==> star < px <= |pat| && STARS !in pat[star + 1..px] && 0 <= s && sx - s == px - (star + 1))
  }

  /** The rest of the pattern matches from here, or from a later start of the remembered "**". */
  ghost predicate Open(ok: (string, string) -> bool, pat: seq<string>, px: int, seg: seq<string>, sx: int, star: int, s: int)
    requires 0 <= px <= |pat| && 0 <= sx <= |seg| && star < |pat|
  {
    From(ok, pat, px, seg, sx) || Later(ok, pat, star + 1, seg, s)
  }

  /** A new "**" takes over from the remembered one. */
  lemma {:induction false} TakeOver(ok: (string, string) -> bool, pat: seq<string>, px: nat, seg: seq<string>, sx: nat,
                                    star: int, s: int)
    requires px < |pat| && pat[px] == STARS && sx <= |seg| && Resumable(pat, star, px, s, sx)
    ensures Open(ok, pat, px, seg, sx, star, s) <==> Open(ok, pat, px + 1, seg, sx, px, sx)
  {
    if star >= 0 {
      OlderStarsAreSpent(ok, pat, star, px, seg, s, sx);
    }
    StarsTake(ok, pat, px, px + 1, seg, sx);
  }

  lemma {:induction false} Advance(ok: (string, string) -> bool, pat: seq<string>, px: nat, seg: seq<string>, sx: nat,
                                   star: int, s: int)
    requires px < |pat| && pat[px] != STARS && sx < |seg| && ok(pat[px], seg[sx]) && Resumable(pat, star, px, s, sx)
    ensures Open(ok, pat, px, seg, sx, star, s) <==> Open(ok, pat, px + 1, seg, sx + 1, star, s)
    ensures Resumable(pat, star, px + 1, s, sx + 1)
  {
    Unfold(ok, pat, px, seg, sx);
    if star >= 0 {
      assert pat[star + 1..px + 1] == pat[star + 1..px] + [pat[px]];
    }
  }

  lemma {:induction false} Backtrack(ok: (string, string) -> bool, pat: seq<string>, px: nat, seg: seq<string>, sx: nat,
                                     star: nat, s: nat)
    requires px <= |pat| && sx < |seg| && (px < |pat| ==> pat[px] != STARS && !ok(pat[px], seg[sx]))
    requires star < |pat| && s < |seg|
    ensures Open(ok, pat, px, seg, sx, star, s) <==> Open(ok, pat, star + 1, seg, s + 1, star, s + 1)
  {
    Unfold(ok, pat, px, seg, sx);
    LaterStep(ok, pat, star, seg, s);
  }

  lemma {:induction false} DeadEnd(ok: (string, string) -> bool, pat: seq<string>, px: nat, seg: seq<string>, sx: nat,
                                   star: int, s: int)
    requires px <= |pat| && sx < |seg| && (px < |pat| ==> pat[px] != STARS && !ok(pat[px], seg[sx])) && star == -1
    ensures !Open(ok, pat, px, seg, sx, star, s)
  {
    Unfold(ok, pat, px, seg, sx);
  }

  /** With the name used up no later start can fit the segments matched since. */
  lemma {:induction false} NoLaterStart(ok: (string, string) -> bool, pat: seq<string>, px: nat, seg: seq<string>,
                                        star: int, s: int)
    requires px <= |pat| && Resumable(pat, star, px, s, |seg|)
    ensures Open(ok, pat, px, seg, |seg|, star, s) <==> From(ok, pat, px, seg, |seg|)
  {
    if Later(ok, pat, star + 1, seg, s) {
      var t :| 0 <= t && s < t <= |seg| && From(ok, pat, star + 1, seg, t);
      PlainTake(ok, pat, star + 1, px, seg, t);
    }
  }

  method GlobMatch(ok: (string, string) -> bool, pattern: string, name: string) returns (matched: bool)
    ensures matched <==> Matches(ok, Split(pattern, '/'), Split(name, '/'))
  {
    matched := MatchSegments(ok, Split(pattern, '/'), Split(name, '/'));
  }

  /** What the loop knows: the positions are in range and the goal is what is still open. */
  ghost predicate At(ok: (string, string) -> bool, pat: seq<string>, px: int, seg: seq<string>, sx: int, star: int,
                     s: int, goal: bool) {
    && 0 <= px <= |pat| && 0 <= sx <= |seg| && -1 <= s <= |seg| && Resumable(pat, star, px, s, sx)
    && (goal <==> Open(ok, pat, px, seg, sx, star, s))
  }

  lemma {:induction false} AtStars(ok: (string, string) -> bool, pat: seq<string>, px: int, seg: seq<string>, sx: int,
                                   star: int, s: int, goal: bool)
    requires At(ok, pat, px, seg, sx, star, s, goal) && px < |pat| && pat[px] == STARS
    ensures star < px && At(ok, pat, px + 1, seg, sx, px, sx, goal)
  {
    TakeOver(ok, pat, px, seg, sx, star, s);
  }

  lemma {:induction false} AtPlain(ok: (string, string) -> bool, pat: seq<string>, px: int, seg: seq<string>, sx: int,
                                   star: int, s: int, goal: bool)
    requires At(ok, pat, px, seg, sx, star, s, goal) && px < |pat| && pat[px] != STARS && sx < |seg| && ok(pat[px], seg[sx])
    ensures At(ok, pat, px + 1, seg, sx + 1, star, s, goal)
  {
    Advance(ok, pat, px, seg, sx, star, s);
  }

  lemma {:induction false} AtDeadEnd(ok: (string, string) -> bool, pat: seq<string>, px: int, seg: seq<string>, sx: int,
                                     star: int, s: int, goal: bool)
    requires At(ok, pat, px, seg, sx, star, s, goal) && sx < |seg| && (px < |pat| ==> pat[px] != STARS && !ok(pat[px], seg[sx]))
    ensures star < 0 ==> !goal
    ensures star >= 0 ==> s < |seg| && At(ok, pat, star + 1, seg, s + 1, star, s + 1, goal)
  {
    if star < 0 {
      DeadEnd(ok, pat, px, seg, sx, star, s);
    } else {
      Backtrack(ok, pat, px, seg, sx, star, s);
    }
  }

  method MatchSegments(ok: (string, string) -> bool, pat: seq<string>, seg: seq<string>) returns (matched: bool)
    ensures matched <==> Matches(ok, pat, seg)
  {
    var px, sx, starPx, starSx := 0, 0, -1, -1;
    ghost var goal := Matches(ok, pat, seg);
    assert pat[0..] == pat && seg[0..] == seg;
    while sx < |seg|
      invariant At(ok, pat, px, seg, sx, starPx, starSx, goal)
      decreases |pat| - starPx, |seg| - starSx, |seg| - sx
    {
      if px < |pat| && pat[px] == STARS {
        AtStars(ok, pat, px, seg, sx, starPx, starSx, goal);
        starPx, starSx := px, sx;
        px := px + 1;
      } else if px < |pat| && ok(pat[px], seg[sx]) {
        AtPlain(ok, pat, px, seg, sx, starPx, starSx, goal);
        px, sx := px + 1, sx + 1;
      } else if starPx >= 0 {
        AtDeadEnd(ok, pat, px, seg, sx, starPx, starSx, goal);
        starSx := starSx + 1;
        px, sx := starPx + 1, starSx;
      } else {
        AtDeadEnd(ok, pat, px, seg, sx, starPx, starSx, goal);
        return false;
      }
    }
    NoLaterStart(ok, pat, px, seg, starPx, starSx);
    matched := OnlyStarsLeft(ok, pat, px, seg, goal);
  }

  /** With the name used up, what is left of the pattern matches exactly when it is all double stars. */
  method OnlyStarsLeft(ok: (string, string) -> bool, pat: seq<string>, start: nat, seg: seq<string>, ghost goal: bool)
    returns (matched: bool)
    requires start <= |pat| && (goal <==> From(ok, pat, start, seg, |seg|))
    ensures matched <==> goal
  {
    var px := start;
    while px < |pat| && pat[px] == STARS
      invariant 0 <= px <= |pat|
      invariant goal <==> From(ok, pat, px, seg, |seg|)
    {
      Unfold(ok, pat, px, seg, |seg|);
      px := px + 1;
    }
    Unfold(ok, pat, px, seg, |seg|);
    return px == |pat|;
  }

  // ----- scopes

  /** Some value of the read-time scope is selected by some pattern of the document's scope. */
  ghost predicate Selects(ok: (string, string) -> bool, pats: seq<string>, vals: seq<string>) {
    exists val, pat :: val in vals && pat in pats && (pat == val || Matches(ok, Split(pat, '/'), Split(val, '/')))
  }

  method ScopeMatches(ok: (string, string) -> bool, space: char -> bool, patterns: string, values: string) returns (matched: bool)
    ensures matched <==> exists pat, val :: pat in Fields(space, patterns) && val in Fields(space, values)
                                            && (pat == val || Matches(ok, Split(pat, '/'), Split(val, '/')))
  {
    var pats, vals := Fields(space, patterns), Fields(space, values);
    var i := 0;
    while i < |vals|
      invariant 0 <= i <= |vals|
      invariant !Selects(ok, pats, vals[..i])
    {
      var j := 0;
      while j < |pats|
        invariant 0 <= j <= |pats|
        invariant forall k :: 0 <= k < j ==> pats[k] != vals[i] && !Matches(ok, Split(pats[k], '/'), Split(vals[i], '/'))
      {
        if pats[j] == vals[i] {
          assert vals[i] in vals && pats[j] in pats;
          return true;
        }
        var selected := GlobMatch(ok, pats[j], vals[i]);
        if selected {
          assert vals[i] in vals && pats[j] in pats;
          return true;
        }
        j := j + 1;
      }
      assert vals[..i + 1] == vals[..i] + [vals[i]];
      i := i + 1;
    }
    assert vals[..i] == vals;
    return false;
  }
}
