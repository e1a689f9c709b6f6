/** The import queue shared by worker replicas (internal/repository/import_job.go, with the worker of
    internal/service/import_worker.go): status-guarded row updates, and the protocol of claims, progress
    writes, finishes, crashes and start-up sweeps over one nondecreasing clock (in minutes). */
module ImportQueue {
  import opened Wrappers

  const STALE_RUNNING_THRESHOLD := 60

  type JobId = string

  datatype Status = Queued | Running | Succeeded | Failed

  datatype Counts = Counts(total: int, imported: int, skipped: int, failed: int)

  /** The error column of a job, one constructor per message. */
  datatype JobError =
    | NoError
    | Interrupted
    | OpenArchive
    | TooManyEntries(entries: nat)
    | OpenEntry(name: string)
    | ReadEntry(name: string)
    | ArchiveTooBig(name: string)
    | AllFailed(documents: nat)

  datatype Job = Job(status: Status, createdAt: int, updatedAt: int, counts: Counts, error: JobError)

  type Rows = map<JobId, Job>

  datatype Error = NotFound

  // ----- what each statement does to the rows

  predicate IsRunning(rows: Rows, j: JobId) {
    j in rows && rows[j].status == Running
  }

  function Claimed(rows: Rows, j: JobId, now: int): Rows {
    if j in rows then rows[j := rows[j].(status := Running, updatedAt := now)] else rows
  }

  function Progressed(rows: Rows, j: JobId, c: Counts, now: int): Rows {
    if IsRunning(rows, j) then rows[j := rows[j].(counts := c, updatedAt := now)] else rows
  }

  function Ended(rows: Rows, j: JobId, status: Status, error: JobError, c: Counts, now: int): Rows {
    if IsRunning(rows, j) then rows[j := rows[j].(status := status, error := error, counts := c, updatedAt := now)] else rows
  }

  predicate Stale(job: Job, now: int) {
    job.status == Running && job.updatedAt < now - STALE_RUNNING_THRESHOLD
  }

  function Swept(rows: Rows, now: int): Rows {
    map j | j in rows :: if Stale(rows[j], now) then rows[j].(status := Failed, error := Interrupted, updatedAt := now) else rows[j]
  }

  class ImportJobs {
    var rows: Rows

    constructor ()
      ensures rows == map[]
    {
      rows := map[];
    }

    /** Claims a queued job of the earliest creation time; nothing when none is queued. */
    method ClaimNext(now: int) returns (job: Option<JobId>)
      modifies this
      ensures job.None? ==> rows == old(rows) && forall j :: j in rows ==> rows[j].status != Queued
      ensures job.Some? ==>
                && job.value in old(rows) && old(rows)[job.value].status == Queued
                && (forall j :: j in old(rows) && old(rows)[j].status == Queued ==>
                          old(rows)[job.value].createdAt <= old(rows)[j].createdAt)
                && rows == old(rows)[job.value := old(rows)[job.value].(status := Running, updatedAt := now)]
                && rows == Claimed(old(rows), job.value, now)
    {
      job := None;
      var rest := rows.Keys;
      while rest != {}
        invariant rest <= rows.Keys && rows == old(rows)
        invariant job.None? ==> forall j :: j in rows.Keys - rest ==> rows[j].status != Queued
        invariant job.Some? ==> job.value in rows && rows[job.value].status == Queued
        invariant job.Some? ==> forall j :: j in rows.Keys - rest && rows[j].status == Queued ==>
                  rows[job.value].createdAt <= rows[j].createdAt
        decreases rest
      {
        var j :| j in rest;
        if rows[j].status == Queued && (job.None? || rows[j].createdAt < rows[job.value].createdAt) {
          job := Some(j);
        }
        rest := rest - {j};
      }
      if job.Some? {
        rows := rows[job.value := rows[job.value].(status := Running, updatedAt := now)];
      }
    }

    method UpdateProgress(j: JobId, c: Counts, now: int) returns (err: Option<Error>)
      modifies this
      ensures rows == Progressed(old(rows), j, c, now)
      ensures j in old(rows) && old(rows)[j].status == Running ==>
                err == None && rows == old(rows)[j := old(rows)[j].(counts := c, updatedAt := now)]
      ensures j !in old(rows) || old(rows)[j].status != Running ==> err == Some(NotFound) && rows == old(rows)
    {
      if j in rows && rows[j].status == Running {
        rows := rows[j := rows[j].(counts := c, updatedAt := now)];
        return None;
      }
      return Some(NotFound);
    }

    method Finish(j: JobId, status: Status, error: JobError, c: Counts, now: int) returns (err: Option<Error>)
      modifies this
      ensures rows == Ended(old(rows), j, status, error, c, now)
      ensures j in old(rows) && old(rows)[j].status == Running ==>
                err == None && rows == old(rows)[j := Job(status, old(rows)[j].createdAt, now, c, error)]
      ensures j !in old(rows) || old(rows)[j].status != Running ==> err == Some(NotFound) && rows == old(rows)
    {
      if j in rows && rows[j].status == Running {
        rows := rows[j := rows[j].(status := status, error := error, counts := c, updatedAt := now)];
        return None;
      }
      return Some(NotFound);
    }

    method SweepRunningToFailed(now: int)
      modifies this
      ensures rows == Swept(old(rows), now)
      ensures rows.Keys == old(rows).Keys
      ensures forall j :: j in old(rows) && old(rows)[j].status == Running && old(rows)[j].updatedAt < now - 60 ==>
                rows[j] == old(rows)[j].(status := Failed, error := Interrupted, updatedAt := now)
      ensures forall j :: j in old(rows) && !(old(rows)[j].status == Running && old(rows)[j].updatedAt < now - 60) ==>
                rows[j] == old(rows)[j]
    {
      rows := map j | j in rows :: if Stale(rows[j],
                now) then rows[j].(status := Failed, error := Interrupted, updatedAt := now) else rows[j];
    }
  }

  // ----- the protocol

  datatype Worker =
    | Idle
    | Selecting(job: JobId) // inside the claim transaction, holding the row lock
    | Processing(job: JobId, lastWrite: int)

  /** claims counts the committed claims of each job. */
  datatype State = State(rows: Rows, workers: map<int, Worker>, now: int, claims: map<JobId, nat>)

  datatype Step =
    | Tick(minutes: nat)
    | Enqueue(j: JobId)
    | Join(w: int)                              // a replica's worker starts
    | Select(w: int, j: JobId)                  // SELECT ... FOR UPDATE SKIP LOCKED
    | CommitClaim(w: int)
    | AbortClaim(w: int)
    | Progress(w: int, c: Counts)
    | Finish(w: int, status: Status, error: JobError, c: Counts)
    | GiveUp(w: int)                            // the finish write itself fails
    | Crash(w: int)
    | Sweep

  predicate Fits(c: Counts) {
    c.imported + c.skipped + c.failed <= c.total
  }

  predicate Locked(s: State, j: JobId) {
    exists w :: w in s.workers && s.workers[w] == Selecting(j)
  }

  predicate Open(s: State, j: JobId) {
    j in s.rows && s.rows[j].status == Queued && !Locked(s, j)
  }

  predicate Enabled(s: State, st: Step) {
    match st
    case Tick(_) => true
    case Enqueue(j) => j !in s.rows
    case Join(w) => w !in s.workers
    case Select(w, j) => w in s.workers && s.workers[w] == Idle && Open(s, j)
                         && forall k :: k in s.rows && Open(s, k) ==> s.rows[j].createdAt <= s.rows[k].createdAt
    case CommitClaim(w) => w in s.workers && s.workers[w].Selecting?
    case AbortClaim(w) => w in s.workers && s.workers[w].Selecting?
    case Progress(w, c) => w in s.workers && s.workers[w].Processing? && Fits(c)
    case Finish(w, status, _, c) => w in s.workers && s.workers[w].Processing? && status in {Succeeded, Failed} && Fits(c)
    case GiveUp(w) => w in s.workers && s.workers[w].Processing?
    case Crash(w) => w in s.workers
    case Sweep => true
  }

  function Claims(s: State, j: JobId): nat {
    if j in s.claims then s.claims[j] else 0
  }

  function Apply(s: State, st: Step): State
    requires Enabled(s, st)
  {
    match st
    case Tick(minutes) => s.(now := s.now + minutes)
    case Enqueue(j) => s.(rows := s.rows[j := Job(Queued, s.now, s.now, Counts(0, 0, 0, 0), NoError)])
    case Join(w) => s.(workers := s.workers[w := Idle])
    case Select(w, j) => s.(workers := s.workers[w := Selecting(j)])
    case CommitClaim(w) =>
      var j := s.workers[w].job;
      s.(rows := Claimed(s.rows, j, s.now), workers := s.workers[w := Processing(j, s.now)],
                claims := s.claims[j := Claims(s, j) + 1])
    case AbortClaim(w) => s.(workers := s.workers[w := Idle])
    case Progress(w, c) =>
      var j := s.workers[w].job;
      s.(rows := Progressed(s.rows, j, c, s.now), workers := s.workers[w := if IsRunning(s.rows, j) then Processing(j, s.now) else Idle])
    case Finish(w, status, error, c) =>
      s.(rows := Ended(s.rows, s.workers[w].job, status, error, c, s.now), workers := s.workers[w := Idle])
    case GiveUp(w) => s.(workers := s.workers[w := Idle])
    case Crash(w) => s.(workers := s.workers - {w})
    case Sweep => s.(rows := Swept(s.rows, s.now))
  }

  predicate Terminal(s: Status) {
    s == Succeeded || s == Failed
  }

  /** A worker's job is running as the worker last wrote it, or was swept after an hour of silence. */
  ghost predicate Owns(s: State, w: Worker) {
    match w
    case Idle => true
    case Selecting(j) => j in s.rows && s.rows[j].status == Queued
    case Processing(j, t) =>
      && j in s.rows && t <= s.now
      && var row := s.rows[j];
         || (row.status == Running && row.updatedAt == t)
         || (row.status == Failed && row.error == Interrupted && s.now > t + STALE_RUNNING_THRESHOLD)
  }

  ghost predicate Inv(s: State) {
    && (forall j :: Claims(s, j) == if j in s.rows && s.rows[j].status != Queued then 1 else 0)
    && (forall w :: w in s.workers ==> Owns(s, s.workers[w]))
    && Exclusive(s)
    && (forall j :: j in s.rows ==> Fits(s.rows[j].counts))
  }

  lemma {:induction false} StepKeepsRows(s: State, st: Step)
    requires Inv(s) && Enabled(s, st)
    ensures var t := Apply(s, st);
            && (forall j :: Claims(t, j) == if j in t.rows && t.rows[j].status != Queued then 1 else 0)
            && (forall j :: j in t.rows ==> Fits(t.rows[j].counts))
  {
    assert st.CommitClaim? ==> Owns(s, s.workers[st.w]);
  }

  predicate SameJob(a: Worker, b: Worker) {
    !a.Idle? && !b.Idle? && a.job == b.job
  }

  /** No two workers are on one job. */
  ghost predicate Exclusive(s: State) {
    forall w, v :: w in s.workers && v in s.workers && SameJob(s.workers[w], s.workers[v]) ==> w == v
  }

  lemma {:induction false} StepKeepsOwners(s: State, st: Step, v: int)
    requires Inv(s) && Enabled(s, st) && v in Apply(s, st).workers
    ensures var t := Apply(s, st); Owns(t, t.workers[v])
  {
    if v in s.workers {
      assert Owns(s, s.workers[v]);
    }
    if st.CommitClaim? && v != st.w {
      assert Owns(s, s.workers[st.w]);
    }
  }

  lemma {:induction false} StepKeepsExclusive(s: State, st: Step)
    requires Inv(s) && Enabled(s, st)
    ensures Exclusive(Apply(s, st))
  {
    if st.Select? {
      forall v | v in s.workers && !s.workers[v].Idle?
        ensures s.workers[v].job != st.j
      {
        assert Owns(s, s.workers[v]);
        assert s.workers[v].Selecting? ==> Locked(s, s.workers[v].job);
      }
    }
  }

  lemma {:induction false} StepKeeps(s: State, st: Step)
    requires Inv(s) && Enabled(s, st)
    ensures Inv(Apply(s, st))
  {
    StepKeepsRows(s, st);
    StepKeepsExclusive(s, st);
    forall v | v in Apply(s, st).workers
      ensures Owns(Apply(s, st), Apply(s, st).workers[v])
    {
      StepKeepsOwners(s, st, v);
    }
  }

  /** A terminal row never changes again. */
  lemma {:induction false} TerminalIsFinal(s: State, st: Step, j: JobId)
    requires Enabled(s, st) && Inv(s) && j in s.rows && Terminal(s.rows[j].status)
    ensures j in Apply(s, st).rows && Apply(s, st).rows[j] == s.rows[j]
  {
  }

  ghost predicate Run(states: seq<State>, steps: seq<Step>) {
    |states| == |steps| + 1
    && states[0].rows == map[] && states[0].workers == map[] && states[0].claims == map[]
    && forall i {:trigger steps[i]} :: 0 <= i < |steps| ==>
              Enabled(states[i], steps[i]) && states[i + 1] == Apply(states[i], steps[i])
  }

  lemma {:induction false} RunKeeps(states: seq<State>, steps: seq<Step>, n: nat)
    requires Run(states, steps) && n < |states|
    ensures Inv(states[n])
  {
    if n > 0 {
      RunKeeps(states, steps, n - 1);
      StepKeeps(states[n - 1], steps[n - 1]);
    }
  }

  /** Over any interleaving a job is claimed at most once, no two workers have it at a time, and its counters stay within its
      total. */
  lemma {:induction false} ClaimedOnce(states: seq<State>, steps: seq<Step>, n: nat, j: JobId)
    requires Run(states, steps) && n < |states|
    ensures Claims(states[n], j) <= 1
    ensures j in states[n].rows ==>
              var c := states[n].rows[j].counts; c.imported + c.skipped + c.failed <= c.total
    ensures forall w, v :: Has(states[n], w, j) && Has(states[n], v, j) ==> w == v
  {
    RunKeeps(states, steps, n);
    assert Exclusive(states[n]);
  }

  /** The worker is claiming or processing the job. */
  predicate Has(s: State, w: int, j: JobId) {
    w in s.workers && (s.workers[w] == Selecting(j) || (s.workers[w].Processing? && s.workers[w].job == j))
  }

  /** What a terminal row holds it holds at every later time. */
  lemma {:induction false} TerminalForGood(states: seq<State>, steps: seq<Step>, m: nat, n: nat, j: JobId)
    requires Run(states, steps) && m <= n < |states|
    requires j in states[m].rows && (states[m].rows[j].status == Succeeded || states[m].rows[j].status == Failed)
    ensures j in states[n].rows && states[n].rows[j] == states[m].rows[j]
    decreases n
  {
    if m < n {
      TerminalForGood(states, steps, m, n - 1, j);
      RunKeeps(states, steps, n - 1);
      TerminalIsFinal(states[n - 1], steps[n - 1], j);
    }
  }

  /** A worker that finishes within an hour of its last write always decides the row. */
  lemma {:induction false} TimelyFinishWins(states: seq<State>, steps: seq<Step>, n: nat)
    requires Run(states, steps) && n < |steps| && steps[n].Finish?
    requires states[n].now <= states[n].workers[steps[n].w].lastWrite + STALE_RUNNING_THRESHOLD
    ensures var j := states[n].workers[steps[n].w].job;
            && IsRunning(states[n].rows, j)
            && states[n + 1].rows[j].status == steps[n].status && states[n + 1].rows[j].counts == steps[n].c
            && states[n + 1].rows[j].error == steps[n].error
  {
    RunKeeps(states, steps, n);
    var s, st := states[n], steps[n];
    assert Enabled(s, st) && states[n + 1] == Apply(s, st);
    assert Owns(s, s.workers[st.w]);
  }

  /** A late one loses exactly when a sweep came first: the row it finds is the swept one, and stays. */
  lemma {:induction false} LateFinishLosesToSweep(states: seq<State>, steps: seq<Step>, n: nat)
    requires Run(states, steps) && n < |steps| && steps[n].Finish?
    ensures var s, j := states[n], states[n].workers[steps[n].w].job;
            && j in s.rows
            && (!IsRunning(s.rows, j) ==>
                  s.rows[j].status == Failed && s.rows[j].error == Interrupted && states[n + 1].rows == s.rows)
  {
    RunKeeps(states, steps, n);
    var s, st := states[n], steps[n];
    assert Enabled(s, st) && states[n + 1] == Apply(s, st);
    assert Owns(s, s.workers[st.w]);
  }

  /** A job whose worker has just written is safe from every sweep for the next hour. */
  lemma {:induction false} SweepSparesFresh(s: State, w: int)
    requires Inv(s) && w in s.workers && s.workers[w].Processing?
    requires IsRunning(s.rows, s.workers[w].job)
    ensures var j := s.workers[w].job;
            Apply(s, Sweep).rows[j] == s.rows[j] <==> s.now <= s.workers[w].lastWrite + STALE_RUNNING_THRESHOLD
  {
    assert Owns(s, s.workers[w]);
  }

  /** What a step does to one job: it appears queued, untouched and empty; a claim, a progress write or a finish by the
      worker that has it, or a sweep after an hour, changes it; nothing else does. */
  lemma {:induction false} RowAfter(s: State, st: Step, j: JobId)
    requires Inv(s) && Enabled(s, st)
    ensures Claims(Apply(s, st), j) == Claims(s, j) + if st.CommitClaim? && s.workers[st.w].job == j then 1 else 0
    ensures j !in s.rows ==> (j in Apply(s, st).rows <==> st == Enqueue(j))
    ensures j !in s.rows && st == Enqueue(j) ==>
              Apply(s, st).rows[j] == Job(Queued, s.now, s.now, Counts(0, 0, 0, 0), NoError)
    ensures j in s.rows ==> j in Apply(s, st).rows
    ensures j in s.rows ==>
              var row := s.rows[j];
              Apply(s, st).rows[j] ==
              if st.CommitClaim? && s.workers[st.w].job == j then row.(status := Running, updatedAt := s.now)
              else if st.Progress? && s.workers[st.w].job == j && row.status == Running then row.(counts := st.c, updatedAt := s.now)
              else if st.Finish? && s.workers[st.w].job == j && row.status == Running then
                Job(st.status, row.createdAt, s.now, st.c, st.error)
              else if st.Sweep? && row.status == Running && s.now - row.updatedAt > 60 then
                row.(status := Failed, error := Interrupted, updatedAt := s.now)
              else row
  {
    if st.CommitClaim? || st.Progress? || st.Finish? {
      assert Owns(s, s.workers[st.w]);
    }
  }

  // ----- what a worker can do

  /** The older of two queued jobs is passed over only while another worker is claiming it. */
  lemma {:induction false} OldestFirst(s: State, w: int, j: JobId, older: JobId)
    requires Inv(s) && Enabled(s, Select(w, j))
    requires older in s.rows && s.rows[older].status == Queued && s.rows[older].createdAt < s.rows[j].createdAt
    ensures exists v :: v in s.workers && v != w && s.workers[v] == Selecting(older)
  {
    assert !Open(s, older);
    var v :| v in s.workers && s.workers[v] == Selecting(older);
  }

  ghost predicate Follows(s: State, st: Step, t: State) {
    Enabled(s, st) && t == Apply(s, st)
  }

  lemma {:induction false} OldestOpen(s: State, keys: set<JobId>) returns (j: JobId)
    requires keys != {} && forall k :: k in keys ==> k in s.rows
    ensures j in keys && forall k :: k in keys ==> s.rows[j].createdAt <= s.rows[k].createdAt
    decreases keys
  {
    j :| j in keys;
    if keys != {j} {
      var rest := keys - {j};
      var k := OldestOpen(s, rest);
      if s.rows[k].createdAt < s.rows[j].createdAt {
        j := k;
      }
    }
  }

  predicate Claimable(s: State, j: JobId) {
    j in s.rows && s.rows[j].status == Queued && forall v :: v in s.workers ==> s.workers[v] != Selecting(j)
  }

  lemma {:induction false} SelectsOldest(s: State, w: int) returns (j: JobId)
    requires w in s.workers && s.workers[w] == Idle
    requires exists k :: Claimable(s, k)
    ensures Enabled(s, Select(w, j)) && Claimable(s, j)
  {
    var keys := set k | k in s.rows && Open(s, k);
    var k0 :| Claimable(s, k0);
    assert k0 in keys;
    j := OldestOpen(s, keys);
    assert Open(s, j);
  }

  lemma {:induction false} Claiming(s: State, w: int, j: JobId) returns (selected: State, claimed: State)
    requires Enabled(s, Select(w, j))
    ensures Follows(s, Select(w, j), selected) && Follows(selected, CommitClaim(w), claimed)
    ensures claimed.rows == s.rows[j := s.rows[j].(status := Running, updatedAt := s.now)]
    ensures claimed.workers == s.workers[w := Processing(j, s.now)] && claimed.now == s.now
  {
    selected := Apply(s, Select(w, j));
    claimed := Apply(selected, CommitClaim(w));
  }

  lemma {:induction false} Finishing(s: State, w: int, j: JobId, status: Status, error: JobError, c: Counts) returns (done: State)
    requires w in s.workers && s.workers[w] == Processing(j, s.now) && j in s.rows && s.rows[j].status == Running
    requires (status == Succeeded || status == Failed) && c.imported + c.skipped + c.failed <= c.total
    ensures Follows(s, Finish(w, status, error, c), done)
    ensures done.rows == s.rows[j := Job(status, s.rows[j].createdAt, s.now, c, error)] && done.workers == s.workers[w := Idle]
  {
    done := Apply(s, Finish(w, status, error, c));
  }

  /** An idle worker can always take a queued job nobody is claiming, and carry it to any terminal state with any
      counters that fit: nothing but that row changes. */
  lemma {:induction false} JobCanBeDone(s: State, w: int, status: Status, error: JobError, c: Counts)
    returns (j: JobId, selected: State, claimed: State, done: State)
    requires w in s.workers && s.workers[w] == Idle && exists k :: Claimable(s, k)
    requires (status == Succeeded || status == Failed) && c.imported + c.skipped + c.failed <= c.total
    ensures Claimable(s, j)
    ensures Follows(s, Select(w, j), selected) && Follows(selected, CommitClaim(w), claimed)
    ensures Follows(claimed, Finish(w, status, error, c), done)
    ensures claimed.workers == s.workers[w := Processing(j, s.now)]
    ensures done.rows == s.rows[j := Job(status, s.rows[j].createdAt, s.now, c, error)] && done.workers == s.workers
  {
    j := SelectsOldest(s, w);
    selected, claimed := Claiming(s, w, j);
    done := Finishing(claimed, w, j, status, error, c);
  }
}
