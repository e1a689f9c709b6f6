/** Refresh-token rotation with family revocation (internal/authletstore/refresh.go, section 10.4 of RFC 6749).
    Times are in days on one nondecreasing clock. */
module RefreshTokens {
  import opened Wrappers

  type Hash = string
  type Family = string

  const TOMBSTONE_RETENTION := 90

  datatype Token = Token(familyID: Family, replacedBy: string, expiresAt: int, payload: string)

  datatype Error = AlreadyExists | NotFound | AlreadyConsumed | FamilyRevoked | DbFailed

  /** The two tables: tokens by hash, revocation time by family. */
  datatype Tables = Tables(tokens: map<Hash, Token>, revoked: map<Family, int>)

  datatype Event =
    | Save(now: int, hash: Hash, token: Token)
    | MarkUsed(hash: Hash, replacedBy: string)
    | RevokeFamily(now: int, family: Family)
    | DeleteExpired(before: int, purgeOk: bool, pruneOk: bool)

  // ----- what each call does to the tables

  function Saved(s: Tables, hash: Hash, token: Token): Tables {
    if hash in s.tokens then s else s.(tokens := s.tokens[hash := token])
  }

  predicate Active(s: Tables, hash: Hash) {
    hash in s.tokens && s.tokens[hash].replacedBy == ""
  }

  function Marked(s: Tables, hash: Hash, replacedBy: string): Tables {
    if Active(s, hash) then s.(tokens := s.tokens[hash := s.tokens[hash].(replacedBy := replacedBy)]) else s
  }

  function Revoked(s: Tables, family: Family, now: int): Tables {
    if family in s.revoked then s else s.(revoked := s.revoked[family := now])
  }

  function Purged(s: Tables, before: int): Tables {
    s.(tokens := map h | h in s.tokens && s.tokens[h].expiresAt >= before :: s.tokens[h])
  }

  function Pruned(s: Tables, before: int): Tables {
    s.(revoked := map f | f in s.revoked && s.revoked[f] >= before - TOMBSTONE_RETENTION :: s.revoked[f])
  }

  /** Either statement of the sweep can fail without the other. */
  function Swept(s: Tables, before: int, purgeOk: bool, pruneOk: bool): Tables {
    var t := if purgeOk then Purged(s, before) else s;
    if pruneOk then Pruned(t, before) else t
  }

  function Apply(s: Tables, e: Event): Tables {
    match e
    case Save(_, hash, token) => Saved(s, hash, token)
    case MarkUsed(hash, replacedBy) => Marked(s, hash, replacedBy)
    case RevokeFamily(now, family) => Revoked(s, family, now)
    case DeleteExpired(before, purgeOk, pruneOk) => Swept(s, before, purgeOk, pruneOk)
  }

  /** Get reads the token and then its family's revocation, each in a statement of its own. */
  function Got(first: Tables, second: Tables, hash: Hash): Result<Token, Error> {
    if hash !in first.tokens then Failure(NotFound)
    else if first.tokens[hash].familyID in second.revoked then Failure(FamilyRevoked)
    else Success(first.tokens[hash])
  }

  /** Get with nothing in between. */
  function Lookup(s: Tables, hash: Hash): Result<Token, Error> {
    Got(s, s, hash)
  }

  class RefreshStore {
    var tokens: map<Hash, Token>
    var revoked: map<Family, int>

    ghost function State(): Tables
      reads this
    {
      Tables(tokens, revoked)
    }

    constructor ()
      ensures State() == Tables(map[], map[])
    {
      tokens, revoked := map[], map[];
    }

    method Save(hash: Hash, token: Token) returns (err: Option<Error>)
      modifies this
      ensures State() == Saved(old(State()), hash, token)
      ensures tokens == (if hash in old(tokens) then old(tokens) else old(tokens)[hash := token]) && revoked == old(revoked)
      ensures err == if hash in old(tokens) then Some(AlreadyExists) else None
    {
      if hash in tokens {
        return Some(AlreadyExists);
      }
      tokens := tokens[hash := token];
      return None;
    }

    method Get(hash: Hash) returns (r: Result<Token, Error>)
      ensures r == Lookup(State(), hash)
      ensures r == if hash !in tokens then Failure(NotFound) else if tokens[hash].familyID in revoked then Failure(FamilyRevoked)
                   else Success(tokens[hash])
    {
      if hash !in tokens {
        return Failure(NotFound);
      }
      var row := tokens[hash];
      if row.familyID in revoked {
        return Failure(FamilyRevoked);
      }
      return Success(row);
    }

    /** The conditional update, then the read that tells a consumed token from an unknown one. */
    method MarkUsed(hash: Hash, replacedBy: string) returns (err: Option<Error>)
      modifies this
      ensures State() == Marked(old(State()), hash, replacedBy)
      ensures hash in old(tokens) && old(tokens)[hash].replacedBy == "" ==>
                err == None && tokens == old(tokens)[hash := old(tokens)[hash].(replacedBy := replacedBy)]
      ensures hash in old(tokens) && old(tokens)[hash].replacedBy != "" ==> err == Some(AlreadyConsumed) && tokens == old(tokens)
      ensures hash !in old(tokens) ==> err == Some(NotFound) && tokens == old(tokens)
      ensures revoked == old(revoked)
    {
      var affected := 0;
      if hash in tokens && tokens[hash].replacedBy == "" {
        tokens := tokens[hash := tokens[hash].(replacedBy := replacedBy)];
        affected := 1;
      }
      if affected == 0 {
        if hash !in tokens {
          return Some(NotFound);
        }
        return Some(AlreadyConsumed);
      }
      return None;
    }

    method RevokeFamily(family: Family, now: int)
      modifies this
      ensures State() == Revoked(old(State()), family, now)
      ensures tokens == old(tokens) && revoked == if family in old(revoked) then old(revoked) else old(revoked)[family := now]
    {
      if family !in revoked {
        revoked := revoked[family := now];
      }
    }

    /** Purges expired tokens, then prunes old tombstones whether or not the purge succeeded. */
    method DeleteExpired(before: int, purgeOk: bool, pruneOk: bool) returns (r: Result<int, Error>)
      modifies this
      ensures State() == Swept(old(State()), before, purgeOk, pruneOk)
      ensures forall h :: h in tokens <==> h in old(tokens) && !(purgeOk && old(tokens)[h].expiresAt < before)
      ensures forall h :: h in tokens ==> tokens[h] == old(tokens)[h]
      ensures forall f :: f in revoked <==> f in old(revoked) && !(pruneOk && old(revoked)[f] < before - 90)
      ensures forall f :: f in revoked ==> revoked[f] == old(revoked)[f]
      ensures r == if purgeOk then Success(|old(tokens)| - |tokens|) else Failure(DbFailed)
    {
      r := Failure(DbFailed);
      if purgeOk {
        var kept := map h | h in tokens && tokens[h].expiresAt >= before :: tokens[h];
        r := Success(|tokens| - |kept|);
        tokens := kept;
      }
      if pruneOk {
        revoked := map f | f in revoked && revoked[f] >= before - TOMBSTONE_RETENTION :: revoked[f];
      }
    }
  }

  // ----- runs

  ghost predicate Run(states: seq<Tables>, events: seq<Event>) {
    |states| == |events| + 1 && forall i {:trigger events[i]} :: 0 <= i < |events| ==>
              states[i + 1] == Apply(states[i], events[i])
  }

  /** A revoked family none of whose tokens outlives its tombstone. */
  ghost predicate Buried(s: Tables, f: Family) {
    forall h :: h in s.tokens && s.tokens[h].familyID == f ==>
              f in s.revoked && s.tokens[h].expiresAt <= s.revoked[f] + TOMBSTONE_RETENTION
  }

  /** The sweep forgets a revocation while tokens of the family survive: the purge failed, the prune did
      not, and the tombstone was due. */
  ghost predicate Exposes(s: Tables, f: Family, e: Event) {
    && e.DeleteExpired? && !e.purgeOk && e.pruneOk
    && f in s.revoked && s.revoked[f] < e.before - TOMBSTONE_RETENTION
    && exists h :: h in s.tokens && s.tokens[h].familyID == f
  }

  /** A token saved into the family that outlives its tombstone, or finds none. */
  predicate LateSave(s: Tables, f: Family, e: Event) {
    && e.Save? && e.token.familyID == f && e.hash !in s.tokens
    && (f !in s.revoked || e.token.expiresAt > s.revoked[f] + TOMBSTONE_RETENTION)
  }

  /** Exactly that sweep and such a save undo a burial. */
  lemma {:induction false} BuriedIff(s: Tables, f: Family, e: Event)
    requires Buried(s, f)
    ensures Buried(Apply(s, e), f) <==> !Exposes(s, f, e) && !LateSave(s, f, e)
  {
    var t := Apply(s, e);
    if Exposes(s, f, e) {
      var h :| h in s.tokens && s.tokens[h].familyID == f;
      assert h in t.tokens && f !in t.revoked;
    } else if LateSave(s, f, e) {
      assert e.hash in t.tokens && t.tokens[e.hash] == e.token;
    } else {
      forall h | h in t.tokens && t.tokens[h].familyID == f
        ensures f in t.revoked && t.tokens[h].expiresAt <= t.revoked[f] + TOMBSTONE_RETENTION
      {
        assert h in s.tokens ==> s.tokens[h].familyID == f;
      }
    }
  }

  /** Tokens live at most as long as tombstones: the clock at each save bounds every expiry. */
  ghost predicate Lifetimes(s: Tables, now: int) {
    forall h :: h in s.tokens ==> s.tokens[h].expiresAt <= now + TOMBSTONE_RETENTION
  }

  /** Times of a run: saves and revocations happen at a nondecreasing clock, tokens live at most 90 days. */
  ghost predicate Timed(events: seq<Event>, clock: seq<int>) {
    && |clock| == |events|
    && (forall i, j :: 0 <= i <= j < |clock| ==> clock[i] <= clock[j])
    && forall i :: 0 <= i < |events| ==>
         && (events[i].Save? ==> events[i].now == clock[i] && events[i].token.expiresAt <= clock[i] + TOMBSTONE_RETENTION)
         && (events[i].RevokeFamily? ==> events[i].now == clock[i])
  }

  lemma {:induction false} LifetimesKept(states: seq<Tables>, events: seq<Event>, clock: seq<int>, n: nat)
    requires Run(states, events) && Timed(events, clock) && states[0] == Tables(map[], map[])
    requires n < |events|
    ensures Lifetimes(states[n], clock[n])
  {
    if n > 0 {
      LifetimesKept(states, events, clock, n - 1);
      assert states[n] == Apply(states[n - 1], events[n - 1]);
    }
  }

  /** Revoking a family that is not revoked yet buries it. */
  lemma {:induction false} RevocationBuries(states: seq<Tables>, events: seq<Event>, clock: seq<int>, i: nat)
    requires Run(states, events) && Timed(events, clock) && states[0] == Tables(map[], map[])
    requires i < |events| && events[i].RevokeFamily? && events[i].family !in states[i].revoked
    ensures Buried(states[i + 1], events[i].family)
  {
    LifetimesKept(states, events, clock, i);
    assert states[i + 1] == Apply(states[i], events[i]);
  }

  /** No save after step i is late for the family. */
  ghost predicate NoLateSave(states: seq<Tables>, events: seq<Event>, f: Family, i: nat) {
    |states| == |events| + 1 && forall j :: i < j < |events| ==> !LateSave(states[j], f, events[j])
  }

  ghost predicate NeverExposed(states: seq<Tables>, events: seq<Event>, f: Family, i: nat) {
    |states| == |events| + 1 && forall j :: i < j < |events| ==> !Exposes(states[j], f, events[j])
  }

  lemma {:induction false} StaysBuried(states: seq<Tables>, events: seq<Event>, f: Family, i: nat, n: nat)
    requires Run(states, events) && NoLateSave(states, events, f, i) && NeverExposed(states, events, f, i)
    requires i < n < |states| && Buried(states[i + 1], f)
    ensures Buried(states[n], f)
    decreases n
  {
    if n > i + 1 {
      StaysBuried(states, events, f, i, n - 1);
      BuriedIff(states[n - 1], f, events[n - 1]);
      assert states[n] == Apply(states[n - 1], events[n - 1]);
    }
  }

  /** Once revoked, a family's tokens are never returned again, even after its tombstone is pruned. */
  lemma {:induction false} RevokedForGood(states: seq<Tables>, events: seq<Event>, clock: seq<int>, i: nat, n: nat, hash: Hash)
    requires Run(states, events) && Timed(events, clock) && states[0] == Tables(map[], map[])
    requires i < |events| && events[i].RevokeFamily? && events[i].family !in states[i].revoked
    requires NoLateSave(states, events, events[i].family, i) && NeverExposed(states, events, events[i].family, i)
    requires i < n < |states|
    ensures var r := Lookup(states[n], hash); r.Success? ==> r.value.familyID != events[i].family
  {
    RevocationBuries(states, events, clock, i);
    StaysBuried(states, events, events[i].family, i, n);
  }

  /** A failed purge beside a successful prune hands a revoked token out again. */
  lemma {:induction false} FailedPurgeExposes(f: Family, h: Hash, payload: string)
    ensures var token := Token(f, "", 90, payload);
            var s0 := Tables(map[], map[]);
            var s1 := Apply(s0, Save(0, h, token));
            var s2 := Apply(s1, RevokeFamily(0, f));
            var s3 := Apply(s2, DeleteExpired(91, false, true));
            && Buried(s2, f) && Lookup(s2, h) == Failure(FamilyRevoked)
            && Exposes(s2, f, DeleteExpired(91, false, true))
            && Lookup(s3, h) == Success(token)
  {
    var token := Token(f, "", 90, payload);
    var s2 := Tables(map[h := token], map[f := 0]);
    assert Apply(Apply(Tables(map[], map[]), Save(0, h, token)), RevokeFamily(0, f)) == s2;
    assert h in s2.tokens && s2.tokens[h].familyID == f;
  }

  /** So does a late save, with every statement succeeding: the new token outlives the tombstone. */
  lemma {:induction false} LateSaveRevives(f: Family, h: Hash, payload: string)
    ensures var token := Token(f, "", 150, payload);
            var s1 := Apply(Tables(map[], map[]), RevokeFamily(0, f));
            var s2 := Apply(s1, Save(60, h, token));
            var s3 := Apply(s2, DeleteExpired(91, true, true));
            && Buried(s1, f) && LateSave(s1, f, Save(60, h, token)) && Lookup(s2, h) == Failure(FamilyRevoked)
            && Lookup(s3, h) == Success(token)
  {
    var token := Token(f, "", 150, payload);
    var s1 := Tables(map[], map[f := 0]);
    var s2 := Tables(map[h := token], map[f := 0]);
    assert Apply(Tables(map[], map[]), RevokeFamily(0, f)) == s1;
    assert Apply(s1, Save(60, h, token)) == s2;
    assert Apply(s2, DeleteExpired(91, true, true)) == Tables(map[h := token], map[]);
  }

  // ----- failed purges and interrupted reads

  /** Sweeps are not run ahead of the clock. */
  ghost predicate OnTime(events: seq<Event>, clock: seq<int>) {
    |clock| == |events| && forall i :: 0 <= i < |events| && events[i].DeleteExpired? ==> events[i].before <= clock[i]
  }

  /** A token of family f with this expiry is covered by the tombstone, or has expired. */
  predicate Covered(s: Tables, f: Family, expiresAt: int, now: int) {
    (f in s.revoked && expiresAt <= s.revoked[f] + TOMBSTONE_RETENTION) || expiresAt < now
  }

  lemma {:induction false} StaysCovered(states: seq<Tables>, events: seq<Event>, clock: seq<int>, f: Family,
                                        expiresAt: int, m: nat, n: nat)
    requires Run(states, events) && Timed(events, clock) && OnTime(events, clock)
    requires 0 < m <= n < |states| && Covered(states[m], f, expiresAt, clock[m - 1])
    ensures Covered(states[n], f, expiresAt, clock[n - 1])
    decreases n
  {
    if m < n {
      StaysCovered(states, events, clock, f, expiresAt, m, n - 1);
      assert states[n] == Apply(states[n - 1], events[n - 1]);
    }
  }

  /** One call later a token of the family is covered: a stored one as before, a new one unless it is late. */
  lemma {:induction false} TokenCoveredNext(s: Tables, e: Event, h: Hash, f: Family, before: int, now: int)
    requires h in Apply(s, e).tokens && Apply(s, e).tokens[h].familyID == f && !LateSave(s, f, e)
    requires h in s.tokens ==> Covered(s, f, s.tokens[h].expiresAt, before)
    requires before <= now && (e.DeleteExpired? ==> e.before <= now)
    ensures Covered(Apply(s, e), f, Apply(s, e).tokens[h].expiresAt, now)
  {
    if h in s.tokens {
      TokenStays(s, e, h);
    }
  }

  lemma {:induction false} TokensCovered(states: seq<Tables>, events: seq<Event>, clock: seq<int>, i: nat, n: nat, h: Hash)
    requires Run(states, events) && Timed(events, clock) && OnTime(events, clock) && states[0] == Tables(map[], map[])
    requires i < |events| && events[i].RevokeFamily? && events[i].family !in states[i].revoked
    requires NoLateSave(states, events, events[i].family, i) && i < n < |states|
    requires h in states[n].tokens && states[n].tokens[h].familyID == events[i].family
    ensures Covered(states[n], events[i].family, states[n].tokens[h].expiresAt, clock[n - 1])
    decreases n
  {
    var f, s, e := events[i].family, states[n - 1], events[n - 1];
    assert states[n] == Apply(s, e);
    if n == i + 1 {
      LifetimesKept(states, events, clock, i);
      assert states[n] == Revoked(s, f, clock[i]);
    } else {
      if h in s.tokens {
        TokenStays(s, e, h);
        TokensCovered(states, events, clock, i, n - 1, h);
      }
      TokenCoveredNext(s, e, h, f, clock[n - 2], clock[n - 1]);
    }
  }

  /** Whatever purges fail, and however long a Get takes between its two reads: if the second one comes after
      the revocation, a token of the family that is still handed out has already expired. */
  lemma {:induction false} ReadableIsExpired(states: seq<Tables>, events: seq<Event>, clock: seq<int>, i: nat, m: nat,
                                             n: nat, hash: Hash)
    requires Run(states, events) && Timed(events, clock) && OnTime(events, clock) && states[0] == Tables(map[], map[])
    requires i < |events| && events[i].RevokeFamily? && events[i].family !in states[i].revoked
    requires NoLateSave(states, events, events[i].family, i) && i < n < |states| && m <= n
    ensures var r := Got(states[m], states[n], hash);
            r.Success? && r.value.familyID == events[i].family ==> r.value.expiresAt < clock[n - 1]
  {
    var f := events[i].family;
    if hash in states[m].tokens && states[m].tokens[hash].familyID == f {
      var x := states[m].tokens[hash].expiresAt;
      if m <= i {
        LifetimesKept(states, events, clock, m);
        assert states[i + 1] == Apply(states[i], events[i]);
        StaysCovered(states, events, clock, f, x, i + 1, n);
      } else {
        TokensCovered(states, events, clock, i, m, hash);
        StaysCovered(states, events, clock, f, x, m, n);
      }
    }
  }

  // ----- rotation

  /** A token once replaced keeps its successor, and everything else, for as long as it is stored. */
  lemma {:induction false} ReplacementIsFinal(states: seq<Tables>, events: seq<Event>, m: nat, n: nat, h: Hash)
    requires Run(states, events) && m <= n < |states|
    requires forall k :: m <= k <= n ==> h in states[k].tokens
    requires states[m].tokens[h].replacedBy != ""
    ensures states[n].tokens[h] == states[m].tokens[h]
    decreases n
  {
    if m < n {
      ReplacementIsFinal(states, events, m, n - 1, h);
      assert states[n] == Apply(states[n - 1], events[n - 1]);
    }
  }

  /** A stored token goes exactly when a sweep after its expiry purges, and only rotation changes it. */
  lemma {:induction false} TokenStays(s: Tables, e: Event, h: Hash)
    requires h in s.tokens
    ensures h in Apply(s, e).tokens <==> !(e.DeleteExpired? && e.purgeOk && s.tokens[h].expiresAt < e.before)
    ensures h in Apply(s, e).tokens ==>
              Apply(s, e).tokens[h] ==
              if e.MarkUsed? && e.hash == h && Active(s, h) then s.tokens[h].(replacedBy := e.replacedBy) else s.tokens[h]
  {
  }

  /** The successful saves and the successful rotations of a hash over a run. */
  ghost function SaveCount(states: seq<Tables>, events: seq<Event>, h: Hash, n: nat): nat
    requires |states| == |events| + 1 && n <= |events|
  {
    if n == 0 then 0
    else SaveCount(states, events, h, n - 1) + if events[n - 1].Save? && events[n - 1].hash == h && h !in states[n - 1].tokens then 1 else 0
  }

  ghost function RotationCount(states: seq<Tables>, events: seq<Event>, h: Hash, n: nat): nat
    requires |states| == |events| + 1 && n <= |events|
  {
    if n == 0 then 0
    else RotationCount(states, events, h, n - 1) +
         if events[n - 1].MarkUsed? && events[n - 1].hash == h && Active(states[n - 1], h) then 1 else 0
  }

  /** Each rotation uses up one save: a token saved once is rotated at most once, when successors are named. */
  lemma {:induction false} RotatedOnce(states: seq<Tables>, events: seq<Event>, h: Hash, n: nat)
    requires Run(states, events) && states[0] == Tables(map[], map[]) && n <= |events|
    requires forall j :: 0 <= j < |events| && events[j].MarkUsed? ==> events[j].replacedBy != ""
    ensures RotationCount(states, events, h, n) + (if Active(states[n], h) then 1 else 0) <= SaveCount(states, events, h, n)
  {
    if n > 0 {
      RotatedOnce(states, events, h, n - 1);
      assert states[n] == Apply(states[n - 1], events[n - 1]);
    }
  }

  /** Marking keeps a token active, and so rotatable again, exactly when it names no successor. */
  lemma {:induction false} MarkKeepsActiveIff(s: Tables, h: Hash, replacedBy: string)
    requires Active(s, h)
    ensures Active(Marked(s, h, replacedBy), h) <==> replacedBy == ""
  {
  }
}
