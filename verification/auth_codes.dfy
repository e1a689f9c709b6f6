/** Single-use authorization codes (internal/authletstore/codes.go, section 4.1.2 of RFC 6749): ConsumeOnce
    as the separate statements of concurrent READ COMMITTED transactions. */
module AuthCodes {

  type Hash = string

  datatype Code = Code(payload: string, expiresAt: int)

  datatype Outcome = Consumed(code: Code, at: int) | NotFound | AlreadyConsumed | Aborted

  datatype Tx =
    | Started(hash: Hash)
    | HasRow(hash: Hash, row: Code)
    | Deleted(hash: Hash, row: Code) // deleted but not committed: holds the row's lock
    | Finished(hash: Hash, outcome: Outcome)

  /** rows is the committed table; saves counts the successful inserts of each hash. */
  datatype State = State(rows: map<Hash, Code>, txs: map<int, Tx>, saves: map<Hash, nat>)

  datatype Step =
    | Save(hash: Hash, code: Code)
    | DeleteExpired(before: int)
    | Begin(tx: int, hash: Hash)
    | ReadRow(tx: int)
    | DeleteRow(tx: int)
    | Finish(tx: int, now: int)
    | Abort(tx: int) // a statement or the commit fails: everything is rolled back

  predicate Locked(s: State, h: Hash) {
    exists t :: t in s.txs && s.txs[t].Deleted? && s.txs[t].hash == h
  }

  function Saves(s: State, h: Hash): nat {
    if h in s.saves then s.saves[h] else 0
  }

  predicate Enabled(s: State, st: Step) {
    match st
    case Save(h, _) => !Locked(s, h)
    case DeleteExpired(before) => forall h :: h in s.rows && s.rows[h].expiresAt < before ==> !Locked(s, h)
    case Begin(t, _) => t !in s.txs
    case ReadRow(t) => t in s.txs && s.txs[t].Started?
    case DeleteRow(t) => t in s.txs && s.txs[t].HasRow? && !Locked(s, s.txs[t].hash) // waits for the lock
    case Finish(t, _) => t in s.txs && s.txs[t].Deleted?
    case Abort(t) => t in s.txs && !s.txs[t].Finished?
  }

  function Apply(s: State, st: Step): State
    requires Enabled(s, st)
  {
    match st
    case Save(h, code) =>
      if h in s.rows then s else s.(rows := s.rows[h := code], saves := s.saves[h := Saves(s, h) + 1])
    case DeleteExpired(before) =>
      s.(rows := map h | h in s.rows && s.rows[h].expiresAt >= before :: s.rows[h])
    case Begin(t, h) =>
      s.(txs := s.txs[t := Started(h)])
    case ReadRow(t) =>
      var h := s.txs[t].hash;
      s.(txs := s.txs[t := if h in s.rows then HasRow(h, s.rows[h]) else Finished(h, NotFound)])
    case DeleteRow(t) =>
      var h := s.txs[t].hash;
      s.(txs := s.txs[t := if h in s.rows then Deleted(h, s.txs[t].row) else Finished(h, NotFound)])
    case Finish(t, now) =>
      var h, row := s.txs[t].hash, s.txs[t].row;
      if now > row.expiresAt then
        s.(txs := s.txs[t := Finished(h, AlreadyConsumed)]) // the error rolls the delete back
      else
        s.(rows := s.rows - {h}, txs := s.txs[t := Finished(h, Consumed(row, now))])
    case Abort(t) =>
      s.(txs := s.txs[t := Finished(s.txs[t].hash, Aborted)])
  }

  // ----- every interleaving

  predicate Won(x: Tx, h: Hash) {
    x.Finished? && x.hash == h && x.outcome.Consumed?
  }

  /** The transactions granted code h. */
  function Winners(txs: map<int, Tx>, h: Hash): set<int> {
    set t | t in txs && Won(txs[t], h)
  }

  /** One deleter per row, and its row is still in the committed table. */
  ghost predicate OneDeleter(s: State) {
    && (forall t, u :: t in s.txs && u in s.txs && s.txs[t].Deleted? && s.txs[u].Deleted? && s.txs[t].hash == s.txs[u].hash ==> t == u)
    && (forall t :: t in s.txs && s.txs[t].Deleted? ==> s.txs[t].hash in s.rows)
  }

  ghost predicate Inv(s: State) {
    // a grant uses up a saved row
    && (forall h {:trigger Winners(s.txs, h)} :: |Winners(s.txs, h)| + (if h in s.rows then 1 else 0) <= Saves(s, h))
    && OneDeleter(s)
    // a grant is given on an unexpired row
    && (forall t :: t in s.txs && s.txs[t].Finished? && s.txs[t].outcome.Consumed? ==>
              s.txs[t].outcome.at <= s.txs[t].outcome.code.expiresAt)
  }

  lemma {:induction false} WinnersFrame(txs: map<int, Tx>, t: int, x: Tx, h: Hash)
    requires t !in txs || !Won(txs[t], h)
    ensures Winners(txs[t := x], h) == (if Won(x, h) then Winners(txs, h) + {t} else Winners(txs, h))
    ensures t !in Winners(txs, h)
  {
  }

  lemma {:induction false} TxKeepsCount(s: State, st: Step, h: Hash)
    requires Enabled(s, st) && !st.Save? && !st.DeleteExpired? && (st.Finish? ==> s.txs[st.tx].hash in s.rows)
    requires |Winners(s.txs, h)| + (if h in s.rows then 1 else 0) <= Saves(s, h)
    ensures var s' := Apply(s, st); |Winners(s'.txs, h)| + (if h in s'.rows then 1 else 0) <= Saves(s', h)
  {
    var s' := Apply(s, st);
    var x := s'.txs[st.tx];
    assert s'.txs == s.txs[st.tx := x];
    WinnersFrame(s.txs, st.tx, x, h);
    assert s'.saves == s.saves;
    if Won(x, h) {
      assert st.Finish? && h in s.rows && s'.rows == s.rows - {h};
    } else {
      assert h in s'.rows <==> h in s.rows;
    }
  }

  lemma {:induction false} TxKeepsDeleter(s: State, st: Step)
    requires Inv(s) && Enabled(s, st) && !st.Save? && !st.DeleteExpired?
    ensures OneDeleter(Apply(s, st))
  {
    var s' := Apply(s, st);
    assert forall t :: t in s.txs && t != st.tx ==> s'.txs[t] == s.txs[t];
    if st.DeleteRow? {
      assert forall t :: t in s.txs && s.txs[t].Deleted? ==> s.txs[t].hash != s.txs[st.tx].hash;
    }
  }

  lemma {:induction false} TxKeeps(s: State, st: Step)
    requires Inv(s) && Enabled(s, st) && !st.Save? && !st.DeleteExpired?
    ensures Inv(Apply(s, st))
  {
    var s' := Apply(s, st);
    forall h
      ensures |Winners(s'.txs, h)| + (if h in s'.rows then 1 else 0) <= Saves(s', h)
    {
      TxKeepsCount(s, st, h);
    }
    TxKeepsDeleter(s, st);
    assert forall t :: t in s.txs && t != st.tx ==> s'.txs[t] == s.txs[t];
  }

  lemma {:induction false} TableKeeps(s: State, st: Step)
    requires Inv(s) && Enabled(s, st) && (st.Save? || st.DeleteExpired?)
    ensures Inv(Apply(s, st))
  {
    var s' := Apply(s, st);
    forall h
      ensures |Winners(s'.txs, h)| + (if h in s'.rows then 1 else 0) <= Saves(s', h)
    {
      assert |Winners(s.txs, h)| + (if h in s.rows then 1 else 0) <= Saves(s, h);
      assert Winners(s'.txs, h) == Winners(s.txs, h);
    }
    forall t | t in s.txs && s.txs[t].Deleted?
      ensures s.txs[t].hash in s'.rows
    {
      assert Locked(s, s.txs[t].hash);
    }
  }

  ghost predicate Initial(s: State) {
    s.rows == map[] && s.txs == map[] && s.saves == map[]
  }

  ghost predicate Run(states: seq<State>, steps: seq<Step>) {
    |states| == |steps| + 1 && Initial(states[0])
    && forall i {:trigger steps[i]} :: 0 <= i < |steps| ==>
              Enabled(states[i], steps[i]) && states[i + 1] == Apply(states[i], steps[i])
  }

  lemma {:induction false} RunKeeps(states: seq<State>, steps: seq<Step>, n: nat)
    requires Run(states, steps) && n < |states|
    ensures Inv(states[n])
  {
    if n == 0 {
      forall h
        ensures Winners(states[0].txs, h) == {}
      {
      }
    } else {
      RunKeeps(states, steps, n - 1);
      var st := steps[n - 1];
      if st.Save? || st.DeleteExpired? {
        TableKeeps(states[n - 1], st);
      } else {
        TxKeeps(states[n - 1], st);
      }
    }
  }

  /** Grants use up saves: no interleaving gives more grants of a code than it was saved times. */
  lemma {:induction false} GrantsWithinSaves(states: seq<State>, steps: seq<Step>, n: nat, h: Hash)
    requires Run(states, steps) && n < |states|
    ensures |Winners(states[n].txs, h)| + (if h in states[n].rows then 1 else 0) <= Saves(states[n], h)
  {
    RunKeeps(states, steps, n);
  }

  /** A code saved once is granted at most once, and then before it expires, whatever the interleaving. */
  lemma {:induction false} SingleUse(states: seq<State>, steps: seq<Step>, n: nat, t: int, u: int)
    requires Run(states, steps) && n < |states|
    requires var s := states[n];
             && t in s.txs && u in s.txs && s.txs[t].Finished? && s.txs[u].Finished? && s.txs[t].hash == s.txs[u].hash
             && s.txs[t].outcome.Consumed? && s.txs[u].outcome.Consumed?
             && Saves(s, s.txs[t].hash) == 1
    ensures t == u
    ensures states[n].txs[t].outcome.at <= states[n].txs[t].outcome.code.expiresAt
  {
    RunKeeps(states, steps, n);
    var s := states[n];
    var winners := Winners(s.txs, s.txs[t].hash);
    assert |winners| <= 1;
    assert t in winners && u in winners;
    var rest := winners - {t};
    assert |rest| == |winners| - 1;
    assert rest == {} && u !in rest;
  }

  /** An expired code is refused, but its row stays: the error return undoes the delete. */
  lemma {:induction false} ExpiredRowStays(s: State, t: int, now: int)
    requires Inv(s) && Enabled(s, Finish(t, now)) && now > s.txs[t].row.expiresAt
    ensures var s' := Apply(s, Finish(t, now));
            s'.txs[t].outcome == AlreadyConsumed && s'.rows == s.rows && s.txs[t].hash in s'.rows
  {
    assert s.txs[t].hash in s.rows;
  }

  /** What a step does to one stored code: a sweep after its expiry removes it, so does the grant of it, and only its
      first save adds it. */
  lemma {:induction false} RowAfter(s: State, st: Step, h: Hash)
    requires Inv(s) && Enabled(s, st)
    ensures h in s.rows ==>
              (h in Apply(s, st).rows <==>
               && !(st.DeleteExpired? && s.rows[h].expiresAt < st.before)
               && !(st.Finish? && s.txs[st.tx].hash == h && st.now <= s.txs[st.tx].row.expiresAt))
    ensures h in s.rows && h in Apply(s, st).rows ==> Apply(s, st).rows[h] == s.rows[h]
    ensures h !in s.rows ==> (h in Apply(s, st).rows <==> st.Save? && st.hash == h)
    ensures h !in s.rows && st.Save? && st.hash == h ==> Apply(s, st).rows[h] == st.code
    ensures Saves(Apply(s, st), h) == Saves(s, h) + if h !in s.rows && st.Save? && st.hash == h then 1 else 0
  {
  }

  ghost predicate Follows(s: State, st: Step, t: State) {
    Enabled(s, st) && t == Apply(s, st)
  }

  /** The statements of one redemption always run to their end on a code nobody else is redeeming. A stored code that has
      not expired is granted and gone; an expired one is refused and stays; an unknown one is not found. */
  lemma {:induction false} RedemptionDecides(s: State, t: int, h: Hash, now: int)
    returns (begun: State, read: State, deleted: State, done: State)
    requires Inv(s) && t !in s.txs && forall u :: u in s.txs && s.txs[u].Deleted? ==> s.txs[u].hash != h
    ensures Follows(s, Begin(t, h), begun) && Follows(begun, ReadRow(t), read)
    ensures if h in s.rows then Follows(read, DeleteRow(t), deleted) && Follows(deleted, Finish(t, now), done) else done == read
    ensures h in s.rows && now <= s.rows[h].expiresAt ==>
              done.rows == s.rows - {h} && done.txs == s.txs[t := Finished(h, Consumed(s.rows[h], now))]
    ensures h in s.rows && now > s.rows[h].expiresAt ==>
              done.rows == s.rows && done.txs == s.txs[t := Finished(h, AlreadyConsumed)]
    ensures h !in s.rows ==> done.rows == s.rows && done.txs == s.txs[t := Finished(h, NotFound)]
  {
    begun := Apply(s, Begin(t, h));
    read := Apply(begun, ReadRow(t));
    deleted, done := read, read;
    if h in s.rows {
      assert !Locked(read, h);
      deleted := Apply(read, DeleteRow(t));
      done := Apply(deleted, Finish(t, now));
    }
  }

  /** Of two redemptions that both read the row, the one that deletes after the other's grant finds nothing. */
  lemma {:induction false} LoserFindsNothing(s: State, t: int, u: int, now: int)
    requires Inv(s) && t != u && t in s.txs && u in s.txs && s.txs[t].Deleted? && s.txs[u].HasRow?
    requires s.txs[u].hash == s.txs[t].hash && now <= s.txs[t].row.expiresAt
    ensures !Enabled(s, DeleteRow(u))
    ensures var s' := Apply(s, Finish(t, now));
            && s'.txs[t].outcome == Consumed(s.txs[t].row, now)
            && Enabled(s', DeleteRow(u)) && Apply(s', DeleteRow(u)).txs[u] == Finished(s.txs[u].hash, NotFound)
  {
    assert Locked(s, s.txs[u].hash);
    var s' := Apply(s, Finish(t, now));
    assert forall x :: x in s'.txs && s'.txs[x].Deleted? ==> x != t && s.txs[x] == s'.txs[x];
  }
}
