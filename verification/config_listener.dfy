/** Replicated config caches kept current by LISTEN/NOTIFY (internal/pgnotify/listener.go, with the
    caches of internal/globalconfig and internal/staleness), as a protocol of explicit steps.

    A load is two steps, reading the committed value and storing the snapshot, so that commits fall
    between them. The listener of a replica runs one load at a time; loads by other goroutines of the
    replica (the initial load, write-through refreshes) are the steps ExtRead and ExtStore. */
module ConfigListener {

  type Channel = string
  type Value = int

  datatype Phase = Down | Connecting | Reloading(todo: set<Channel>) | Live

  datatype Work = Idle | Due(ch: Channel) | Got(ch: Channel, value: Value)

  datatype Replica = Replica(
    phase: Phase,
    alive: bool,                  // the connection is up: notifications arrive
    listening: set<Channel>,
    queue: seq<Channel>,          // notifications not yet taken
    work: Work,                   // the load in progress in the listener
    snap: map<Channel, Value>,
    failed: set<Channel>,         // channels whose last listener reload failed (it is only logged)
    ext: multiset<(Channel, Value)>) // loads of other goroutines that have read but not stored

  datatype State = State(regs: set<Channel>, db: map<Channel, Value>, replicas: map<int, Replica>)

  datatype Step =
    | Commit(ch: Channel, v: Value)
    | Connect(r: int)
    | Listen(r: int, ch: Channel)
    | Establish(r: int)
    | Pick(r: int, ch: Channel)
    | Read(r: int)
    | Store(r: int)
    | LoadFails(r: int)
    | GoLive(r: int)
    | Take(r: int)
    | Drop(r: int)
    | EndSession(r: int)
    | ExtRead(r: int, ch: Channel)
    | ExtStore(r: int, ch: Channel, v: Value)

  // ----- the steps

  /** A committed change notifies every live connection that listens on the channel. */
  function Notify(p: Replica, ch: Channel): Replica {
    if p.alive && ch in p.listening then p.(queue := p.queue + [ch]) else p
  }

  predicate Enabled(s: State, st: Step) {
    match st
    case Commit(ch, _) => ch in s.regs
    case _ =>
      st.r in s.replicas &&
      var p := s.replicas[st.r];
      match st
      case Commit(_, _) => false
      case Connect(_) => p.phase == Down
      case Listen(_, ch) => p.phase == Connecting && p.alive && ch in s.regs - p.listening
      case Establish(_) => p.phase == Connecting && p.listening == s.regs
      case Pick(_, ch) => p.phase.Reloading? && p.work == Idle && ch in p.phase.todo
      case Read(_) => p.work.Due? && p.work.ch in s.db
      case Store(_) => p.work.Got?
      case LoadFails(_) => p.work.Due? || p.work.Got?
      case GoLive(_) => p.phase == Reloading({}) && p.work == Idle
      case Take(_) => p.phase == Live && p.alive && p.work == Idle && p.queue != []
      case Drop(_) => p.alive
      case EndSession(_) => p.phase in {Connecting, Live} && !p.alive && p.work == Idle
      case ExtRead(_, ch) => ch in s.db
      case ExtStore(_, ch, v) => (ch, v) in p.ext
  }

  function Move(s: State, p: Replica, st: Step): Replica
    requires st.Commit? || (st.r in s.replicas && s.replicas[st.r] == p)
    requires Enabled(s, st)
  {
    match st
    case Commit(ch, _) => Notify(p, ch)
    case Connect(_) => p.(phase := Connecting, alive := true, listening := {}, queue := [])
    case Listen(_, ch) => p.(listening := p.listening + {ch})
    case Establish(_) => p.(phase := Reloading(s.regs))
    case Pick(_, ch) => p.(phase := Reloading(p.phase.todo - {ch}), work := Due(ch))
    case Read(_) => p.(work := Got(p.work.ch, s.db[p.work.ch]))
    case Store(_) => p.(work := Idle, snap := p.snap[p.work.ch := p.work.value], failed := p.failed - {p.work.ch})
    case LoadFails(_) => p.(work := Idle, failed := p.failed + {p.work.ch})
    case GoLive(_) => p.(phase := Live)
    case Take(_) => p.(queue := p.queue[1..], work := if p.queue[0] in s.regs then Due(p.queue[0]) else Idle)
    case Drop(_) => p.(alive := false, queue := [])
    case EndSession(_) => p.(phase := Down, queue := [])
    case ExtRead(_, ch) => p.(ext := p.ext + multiset{(ch, s.db[ch])})
    case ExtStore(_, ch, v) => p.(ext := p.ext - multiset{(ch, v)}, snap := p.snap[ch := v])
  }

  function Apply(s: State, st: Step): State
    requires Enabled(s, st)
  {
    if st.Commit? then
      s.(db := s.db[st.ch := st.v], replicas := map r | r in s.replicas :: Notify(s.replicas[r], st.ch))
    else
      s.(replicas := s.replicas[st.r := Move(s, s.replicas[st.r], st)])
  }

  // ----- what every run keeps

  /** The listener has reloaded ch in this session and has nothing about it left to do. */
  predicate Settled(regs: set<Channel>, p: Replica, ch: Channel) {
    && p.alive && ch in regs
    && (p.phase == Live || (p.phase.Reloading? && ch !in p.phase.todo))
    && (p.work == Idle || p.work.ch != ch)
    && ch !in p.queue && ch !in p.failed
  }

  predicate Current(db: map<Channel, Value>, p: Replica, ch: Channel) {
    ch in db && ch in p.snap && p.snap[ch] == db[ch]
  }

  ghost predicate ReplicaInv(regs: set<Channel>, db: map<Channel, Value>, p: Replica) {
    && p.listening <= regs
    && (p.phase.Reloading? || p.phase == Live ==> p.listening == regs)
    && (p.phase.Reloading? ==> p.phase.todo <= regs)
    && (p.phase in {Down, Connecting} ==> p.work == Idle)
    && (p.alive ==> p.phase != Down)
    // a value read but not stored is the committed one unless a newer notification waits
    && (p.work.Got? && p.alive && p.work.ch in regs ==>
              (p.work.ch in db && p.work.value == db[p.work.ch]) || p.work.ch in p.queue)
    && (p.work.Due? || p.work.Got? ==> p.work.ch in regs)
    // a settled channel is current
    && (forall ch :: Settled(regs, p, ch) ==> Current(db, p, ch))
  }

  ghost predicate Inv(s: State) {
    s.regs <= s.db.Keys && forall r :: r in s.replicas ==> ReplicaInv(s.regs, s.db, s.replicas[r])
  }

  /** An outside load that stores an outdated value after the listener is done with the channel. */
  predicate Overtaken(s: State, st: Step) {
    st.ExtStore? && st.r in s.replicas && Settled(s.regs, s.replicas[st.r], st.ch)
    && !(st.ch in s.db && s.db[st.ch] == st.v)
  }

  lemma {:induction false} CommitKeeps(regs: set<Channel>, db: map<Channel, Value>, p: Replica, ch: Channel, v: Value)
    requires ReplicaInv(regs, db, p) && ch in regs
    ensures ReplicaInv(regs, db[ch := v], Notify(p, ch))
  {
    var q := Notify(p, ch);
    forall c | Settled(regs, q, c)
      ensures Current(db[ch := v], q, c)
    {
      if c == ch {
        assert q.queue == p.queue + [ch] ==> ch in q.queue;
      } else {
        assert Settled(regs, p, c);
      }
    }
  }

  lemma {:induction false} MoveKeeps(s: State, st: Step)
    requires Inv(s) && Enabled(s, st) && !st.Commit? && !st.ExtStore?
    ensures ReplicaInv(s.regs, s.db, Move(s, s.replicas[st.r], st))
  {
    var p := s.replicas[st.r];
    var q := Move(s, p, st);
    assert ReplicaInv(s.regs, s.db, p);
    if st.Take? {
      assert p.queue == [p.queue[0]] + p.queue[1..];
    }
    forall c | Settled(s.regs, q, c)
      ensures Current(s.db, q, c)
    {
      if !Settled(s.regs, p, c) {
        assert st.Store? && p.work.ch == c;
      }
    }
  }

  lemma {:induction false} ExtStoreKeepsIff(regs: set<Channel>, db: map<Channel, Value>, p: Replica, q: Replica,
                                            ch: Channel, v: Value)
    requires ReplicaInv(regs, db, p) && q == p.(ext := p.ext - multiset{(ch, v)}, snap := p.snap[ch := v])
    ensures ReplicaInv(regs, db, q) <==> !(Settled(regs, p, ch) && !(ch in db && db[ch] == v))
  {
    assert forall c :: Settled(regs, q, c) <==> Settled(regs, p, c);
    assert forall c :: c != ch ==> (Current(db, q, c) <==> Current(db, p, c));
    assert Current(db, q, ch) <==> ch in db && db[ch] == v;
  }

  /** Exactly the overtaken stores of outside loads break the invariant. */
  lemma {:induction false} StepKeepsIff(s: State, st: Step)
    requires Inv(s) && Enabled(s, st)
    ensures Inv(Apply(s, st)) <==> !Overtaken(s, st)
  {
    var t := Apply(s, st);
    match st
    case Commit(ch, v) =>
      forall r | r in s.replicas
        ensures ReplicaInv(t.regs, t.db, t.replicas[r])
      {
        CommitKeeps(s.regs, s.db, s.replicas[r], ch, v);
      }
    case ExtStore(r, ch, v) =>
      ExtStoreKeepsIff(s.regs, s.db, s.replicas[r], t.replicas[r], ch, v);
    case _ =>
      MoveKeeps(s, st);
  }

  // ----- runs

  ghost predicate Initial(s: State) {
    s.regs <= s.db.Keys && forall r :: r in s.replicas ==>
      var p := s.replicas[r];
      p.phase == Down && !p.alive && p.listening == {} && p.queue == [] && p.work == Idle && p.ext == multiset{}
  }

  /** states[i + 1] follows from states[i] by steps[i]. */
  ghost predicate Run(states: seq<State>, steps: seq<Step>) {
    |states| == |steps| + 1 && Initial(states[0])
    && forall i {:trigger steps[i]} :: 0 <= i < |steps| ==> Follows(states[i], steps[i], states[i + 1])
  }

  ghost predicate Follows(s: State, st: Step, t: State) {
    Enabled(s, st) && t == Apply(s, st)
  }

  ghost predicate NeverOvertaken(states: seq<State>, steps: seq<Step>) {
    |states| == |steps| + 1 && forall i {:trigger steps[i]} :: 0 <= i < |steps| ==> !Overtaken(states[i], steps[i])
  }

  lemma {:induction false} RunKeeps(states: seq<State>, steps: seq<Step>, n: nat)
    requires Run(states, steps) && NeverOvertaken(states, steps) && n < |states|
    ensures Inv(states[n])
  {
    if n > 0 {
      RunKeeps(states, steps, n - 1);
      assert Follows(states[n - 1], steps[n - 1], states[n]);
      StepKeepsIff(states[n - 1], steps[n - 1]);
    }
  }

  // ----- when outside loads are harmless

  predicate InFlight(s: State, r: int, ch: Channel, v: Value) {
    r in s.replicas && (ch, v) in s.replicas[r].ext
  }

  /** No change is committed while a load of its channel by another goroutine is under way. */
  ghost predicate LoadsApart(states: seq<State>, steps: seq<Step>) {
    |states| == |steps| + 1 && forall i {:trigger steps[i]} :: 0 <= i < |steps| && steps[i].Commit? ==>
      forall r, v :: !InFlight(states[i], r, steps[i].ch, v)
  }

  /** A value read by an outside load is the committed one until its channel changes. */
  lemma {:induction false} InFlightIsCurrent(states: seq<State>, steps: seq<Step>, n: nat, r: int, ch: Channel, v: Value)
    requires Run(states, steps) && n < |states| && InFlight(states[n], r, ch, v)
    requires forall j {:trigger steps[j]} :: 0 <= j < n && steps[j].Commit? && steps[j].ch == ch ==>
              !InFlight(states[j], r, ch, v)
    ensures ch in states[n].db && states[n].db[ch] == v
  {
    if n > 0 {
      var s, st := states[n - 1], steps[n - 1];
      assert Follows(s, st, states[n]);
      if InFlight(s, r, ch, v) {
        InFlightIsCurrent(states, steps, n - 1, r, ch, v);
      } else {
        FirstInFlight(s, st, r, ch, v);
      }
    }
  }

  lemma {:induction false} FirstInFlight(s: State, st: Step, r: int, ch: Channel, v: Value)
    requires Enabled(s, st) && !InFlight(s, r, ch, v) && InFlight(Apply(s, st), r, ch, v)
    ensures st == ExtRead(r, ch) && ch in s.db && s.db[ch] == v
  {
  }

  /** A store is overtaken only when its channel was committed between its read and its store. */
  lemma {:induction false} OvertakenMeansOverlap(states: seq<State>, steps: seq<Step>, n: nat)
    requires Run(states, steps) && n < |steps| && Overtaken(states[n], steps[n])
    ensures exists j {:trigger steps[j]} ::
              && 0 <= j < n && steps[j].Commit? && steps[j].ch == steps[n].ch
              && InFlight(states[j], steps[n].r, steps[n].ch, steps[n].v)
  {
    var st := steps[n];
    assert Follows(states[n], st, states[n + 1]);
    if forall j {:trigger steps[j]} :: 0 <= j < n && steps[j].Commit? && steps[j].ch == st.ch ==>
              !InFlight(states[j], st.r, st.ch, st.v) {
      InFlightIsCurrent(states, steps, n, st.r, st.ch, st.v);
    }
  }

  lemma {:induction false} ApartNeverOvertaken(states: seq<State>, steps: seq<Step>)
    requires Run(states, steps) && LoadsApart(states, steps)
    ensures NeverOvertaken(states, steps)
  {
    forall n {:trigger steps[n]} | 0 <= n < |steps|
      ensures !Overtaken(states[n], steps[n])
    {
      if Overtaken(states[n], steps[n]) {
        OvertakenMeansOverlap(states, steps, n);
      }
    }
  }

  /** The step after the read of an outside load is its store. */
  ghost predicate AtomicLoads(steps: seq<Step>) {
    forall i, j {:trigger steps[i], steps[j]} :: 0 <= i && j == i + 1 && j < |steps| && steps[i].ExtRead? ==>
      steps[j].ExtStore? && steps[j].r == steps[i].r && steps[j].ch == steps[i].ch
  }

  /** How many outside loads of r are under way. */
  ghost function Pending(s: State, r: int): nat {
    if r in s.replicas then |s.replicas[r].ext| else 0
  }

  predicate Reads(st: Step, r: int) {
    st.ExtRead? && st.r == r
  }

  predicate Stores(st: Step, r: int) {
    st.ExtStore? && st.r == r
  }

  /** A read raises the count, a store lowers it, and there is something to store. */
  predicate Counted(before: nat, st: Step, r: int, after: nat) {
    && (Stores(st, r) ==> before > 0)
    && after == before + (if Reads(st, r) then 1 else 0) - (if Stores(st, r) then 1 else 0)
  }

  lemma {:induction false} PendingNext(s: State, st: Step, r: int)
    requires Enabled(s, st)
    ensures Counted(Pending(s, r), st, r, Pending(Apply(s, st), r))
  {
  }

  ghost predicate Counts(pending: seq<nat>, steps: seq<Step>, r: int) {
    && |pending| == |steps| + 1 && pending[0] == 0
    && forall i {:trigger steps[i]} :: 0 <= i < |steps| ==> Counted(pending[i], steps[i], r, pending[i + 1])
  }

  /** With a store right after each read the count is 1 after a read and 0 otherwise. */
  lemma {:induction false} Alternate(pending: seq<nat>, steps: seq<Step>, r: int, n: nat)
    requires Counts(pending, steps, r) && AtomicLoads(steps) && n < |pending|
    ensures pending[n] == if n > 0 && Reads(steps[n - 1], r) then 1 else 0
  {
    if n > 0 {
      Alternate(pending, steps, r, n - 1);
      assert Counted(pending[n - 1], steps[n - 1], r, pending[n]);
    }
  }

  lemma {:induction false} NothingPending(states: seq<State>, steps: seq<Step>, n: nat, r: int)
    requires Run(states, steps) && AtomicLoads(steps) && n < |steps| && steps[n].Commit?
    ensures Pending(states[n], r) == 0
  {
    var pending := seq(|states|, i requires 0 <= i < |states| => Pending(states[i], r));
    forall i {:trigger steps[i]} | 0 <= i < |steps|
      ensures Counted(pending[i], steps[i], r, pending[i + 1])
    {
      assert Follows(states[i], steps[i], states[i + 1]);
      PendingNext(states[i], steps[i], r);
    }
    Alternate(pending, steps, r, n);
  }

  /** Atomic loads never overlap a commit, so every run of them converges. */
  lemma {:induction false} AtomicLoadsAreSafe(states: seq<State>, steps: seq<Step>)
    requires Run(states, steps) && AtomicLoads(steps)
    ensures LoadsApart(states, steps) && NeverOvertaken(states, steps)
  {
    forall i, r, v {:trigger InFlight(states[i], r, steps[i].ch, v)} | 0 <= i < |steps| && steps[i].Commit?
      ensures !InFlight(states[i], r, steps[i].ch, v)
    {
      NothingPending(states, steps, i, r);
    }
    ApartNeverOvertaken(states, steps);
  }

  // ----- convergence

  /** A replica whose listener is up, has finished its reloads and has nothing waiting or in progress. */
  predicate Quiet(s: State, r: int) {
    r in s.replicas && var p := s.replicas[r];
    p.alive && p.phase == Live && p.work == Idle && p.queue == []
  }

  /** The channels whose last reload by the listener of r did not fail. */
  function Loaded(s: State, r: int): set<Channel>
    requires r in s.replicas
  {
    s.regs - s.replicas[r].failed
  }

  /** A quiet replica serves the last committed value of every channel whose last reload did not fail. */
  lemma {:induction false} QuietWhenNotOvertaken(states: seq<State>, steps: seq<Step>, n: nat, r: int)
    requires Run(states, steps) && NeverOvertaken(states, steps)
    requires n < |states| && Quiet(states[n], r)
    ensures var t := states[n]; forall ch :: ch in Loaded(t, r) ==> Current(t.db, t.replicas[r], ch)
  {
    RunKeeps(states, steps, n);
    var t := states[n];
    assert ReplicaInv(t.regs, t.db, t.replicas[r]);
    forall ch | ch in Loaded(t, r)
      ensures Current(t.db, t.replicas[r], ch)
    {
      assert Settled(t.regs, t.replicas[r], ch);
    }
  }

  /** Convergence: so it is after any run of commits, disconnects, reconnects and loads in which no change is
      committed while another goroutine loads its channel. */
  lemma {:induction false} QuietIsCurrent(states: seq<State>, steps: seq<Step>, n: nat, r: int)
    requires Run(states, steps) && LoadsApart(states, steps)
    requires n < |states| && Quiet(states[n], r)
    ensures var t := states[n]; forall ch :: ch in Loaded(t, r) ==> Current(t.db, t.replicas[r], ch)
  {
    ApartNeverOvertaken(states, steps);
    QuietWhenNotOvertaken(states, steps, n, r);
  }

  /** The database holds what was committed last. */
  lemma {:induction false} LastCommitStays(states: seq<State>, steps: seq<Step>, j: nat, n: nat, ch: Channel, v: Value)
    requires Run(states, steps) && j < n < |states| && steps[j] == Commit(ch, v)
    requires forall k {:trigger steps[k]} :: j < k < n ==> !(steps[k].Commit? && steps[k].ch == ch)
    ensures ch in states[n].db && states[n].db[ch] == v
  {
    assert Follows(states[n - 1], steps[n - 1], states[n]);
    if j < n - 1 {
      LastCommitStays(states, steps, j, n - 1, ch, v);
    }
  }

  /** So the value a quiet replica serves is the one that was committed last. */
  lemma {:induction false} QuietServesLastCommit(states: seq<State>, steps: seq<Step>, j: nat, n: nat, r: int,
                                                 ch: Channel, v: Value)
    requires Run(states, steps) && LoadsApart(states, steps)
    requires j < n < |states| && steps[j] == Commit(ch, v)
    requires forall k {:trigger steps[k]} :: j < k < n ==> !(steps[k].Commit? && steps[k].ch == ch)
    requires r in states[n].replicas && ch in states[n].regs
    requires var p := states[n].replicas[r]; p.alive && p.phase == Live && p.work == Idle && p.queue == [] && ch !in p.failed
    ensures ch in states[n].replicas[r].snap && states[n].replicas[r].snap[ch] == v
  {
    LastCommitStays(states, steps, j, n, ch, v);
    assert Quiet(states[n], r) && ch in Loaded(states[n], r);
    QuietIsCurrent(states, steps, n, r);
    assert Current(states[n].db, states[n].replicas[r], ch);
  }

  // ----- recovery

  ghost predicate Runs(s: State, steps: seq<Step>, t: State)
    decreases |steps|
  {
    if steps == [] then s == t else Enabled(s, steps[0]) && Runs(Apply(s, steps[0]), steps[1..], t)
  }

  lemma {:induction false} RunsOn(s: State, a: seq<Step>, t: State, b: seq<Step>, u: State)
    requires Runs(s, a, t) && Runs(t, b, u)
    ensures Runs(s, a + b, u)
    decreases |a|
  {
    if a == [] {
      assert a + b == b;
    } else {
      assert (a + b)[1..] == a[1..] + b;
      RunsOn(Apply(s, a[0]), a[1..], t, b, u);
    }
  }

  /** Some steps lead from s to t. */
  ghost predicate CanReach(s: State, t: State) {
    exists steps :: Runs(s, steps, t)
  }

  lemma {:induction false} CanReachOn(s: State, t: State, u: State)
    requires CanReach(s, t) && CanReach(t, u)
    ensures CanReach(s, u)
  {
    var a :| Runs(s, a, t);
    var b :| Runs(t, b, u);
    RunsOn(s, a, t, b, u);
  }

  function At(s: State, r: int, p: Replica): State {
    s.(replicas := s.replicas[r := p])
  }

  lemma {:induction false} StayAt(s: State)
    ensures CanReach(s, s)
  {
    assert Runs(s, [], s);
  }

  lemma {:induction false} MoveOn(s: State, t: State, r: int, p: Replica, st: Step, q: Replica)
    requires CanReach(s, At(t, r, p)) && !st.Commit? && st.r == r
    requires Enabled(At(t, r, p), st) && Move(At(t, r, p), p, st) == q
    ensures CanReach(s, At(t, r, q))
  {
    var u := At(t, r, q);
    assert Apply(At(t, r, p), st).replicas == u.replicas;
    StepRuns(At(t, r, p), st, u);
    CanReachOn(s, At(t, r, p), u);
  }

  lemma {:induction false} StepRuns(s: State, st: Step, t: State)
    requires Enabled(s, st) && Apply(s, st) == t
    ensures CanReach(s, t)
  {
    assert Runs(t, [], t) && [st][1..] == [];
    assert Runs(s, [st], t);
  }

  /** Gives up the reloads that are left. */
  lemma {:induction false} GiveUp(s: State, t: State, r: int, p: Replica, todo: set<Channel>) returns (q: Replica)
    requires CanReach(s, At(t, r, p)) && p.phase == Reloading(todo) && p.work == Idle && !p.alive
    ensures CanReach(s, At(t, r, q)) && q.phase == Reloading({}) && q.work == Idle && !q.alive
    decreases todo
  {
    q := p;
    if todo != {} {
      var ch :| ch in todo;
      q := p.(phase := Reloading(todo - {ch}), work := Due(ch));
      MoveOn(s, t, r, p, Pick(r, ch), q);
      var idle := q.(work := Idle, failed := q.failed + {ch});
      MoveOn(s, t, r, q, LoadFails(r), idle);
      q := GiveUp(s, t, r, idle, todo - {ch});
    }
  }

  /** The connection can go down and a load in progress can fail. */
  lemma {:induction false} LosesConnection(s: State, t: State, r: int, p: Replica) returns (q: Replica)
    requires CanReach(s, At(t, r, p))
    ensures CanReach(s, At(t, r, q)) && q.work == Idle && !q.alive
  {
    q := p;
    if p.alive {
      q := p.(alive := false, queue := []);
      MoveOn(s, t, r, p, Drop(r), q);
    }
    if q.work != Idle {
      var idle := q.(work := Idle, failed := q.failed + {q.work.ch});
      MoveOn(s, t, r, q, LoadFails(r), idle);
      q := idle;
    }
  }

  /** A session without a connection comes to its end. */
  lemma {:induction false} EndsSession(s: State, t: State, r: int, p: Replica) returns (q: Replica)
    requires CanReach(s, At(t, r, p)) && p.work == Idle && !p.alive
    ensures CanReach(s, At(t, r, q)) && q.phase == Down && q.work == Idle
  {
    q := p;
    if p.phase.Reloading? {
      var idle := GiveUp(s, t, r, p, p.phase.todo);
      q := idle.(phase := Live);
      MoveOn(s, t, r, idle, GoLive(r), q);
    }
    if q.phase != Down {
      var down := q.(phase := Down, queue := []);
      MoveOn(s, t, r, q, EndSession(r), down);
      q := down;
    }
  }

  lemma {:induction false} ListensAll(s: State, t: State, r: int, p: Replica) returns (q: Replica)
    requires CanReach(s, At(t, r, p)) && p.phase == Connecting && p.alive && p.listening <= t.regs
    ensures CanReach(s, At(t, r, q)) && q == p.(listening := t.regs)
    decreases t.regs - p.listening
  {
    q := p;
    if left :| left in t.regs && left !in p.listening {
      q := p.(listening := p.listening + {left});
      MoveOn(s, t, r, p, Listen(r, left), q);
      q := ListensAll(s, t, r, q);
    } else {
      assert p.listening == t.regs;
    }
  }

  lemma {:induction false} ReloadsOne(s: State, t: State, r: int, p: Replica, todo: set<Channel>, ch: Channel)
    requires CanReach(s, At(t, r, p)) && p.phase == Reloading(todo) && p.work == Idle && ch in todo && ch in t.db
    ensures CanReach(s, At(t, r, p.(phase := Reloading(todo - {ch}), snap := p.snap[ch := t.db[ch]], failed := p.failed - {ch})))
  {
    var due := p.(phase := Reloading(todo - {ch}), work := Due(ch));
    MoveOn(s, t, r, p, Pick(r, ch), due);
    var got := due.(work := Got(ch, t.db[ch]));
    MoveOn(s, t, r, due, Read(r), got);
    MoveOn(s, t, r, got, Store(r), got.(work := Idle, snap := p.snap[ch := t.db[ch]], failed := p.failed - {ch}));
  }

  /** The reloads that are left all succeed. */
  lemma {:induction false} ReloadsAll(s: State, t: State, r: int, p: Replica, todo: set<Channel>) returns (q: Replica)
    requires CanReach(s, At(t, r, p)) && p.phase == Reloading(todo) && p.work == Idle && todo <= t.db.Keys
    ensures CanReach(s, At(t, r, q)) && q.phase == Reloading({}) && q.work == Idle
    ensures q.alive == p.alive && q.queue == p.queue && q.failed == p.failed - todo
    ensures forall ch :: ch in todo || Current(t.db, p, ch) ==> Current(t.db, q, ch)
    decreases todo
  {
    q := p;
    if todo != {} {
      var ch :| ch in todo;
      ReloadsOne(s, t, r, p, todo, ch);
      q := p.(phase := Reloading(todo - {ch}), snap := p.snap[ch := t.db[ch]], failed := p.failed - {ch});
      q := ReloadsAll(s, t, r, q, todo - {ch});
    }
  }

  /** From every state every replica can get back to serving the committed value of every channel, and nothing else
      need change. */
  lemma {:induction false} Recovers(s: State, r: int) returns (p: Replica)
    requires r in s.replicas && s.regs <= s.db.Keys
    ensures CanReach(s, s.(replicas := s.replicas[r := p]))
    ensures p.alive && p.phase == Live && p.work == Idle && p.queue == []
    ensures forall ch :: ch in s.regs ==> ch !in p.failed && ch in p.snap && p.snap[ch] == s.db[ch]
  {
    assert At(s, r, s.replicas[r]).replicas == s.replicas;
    StayAt(s);
    p := LosesConnection(s, s, r, s.replicas[r]);
    p := EndsSession(s, s, r, p);
    var next := p.(phase := Connecting, alive := true, listening := {}, queue := []);
    MoveOn(s, s, r, p, Connect(r), next);
    p := ListensAll(s, s, r, next);
    next := p.(phase := Reloading(s.regs));
    MoveOn(s, s, r, p, Establish(r), next);
    next := ReloadsAll(s, s, r, next, s.regs);
    p := next.(phase := Live);
    MoveOn(s, s, r, next, GoLive(r), p);
    assert forall ch :: ch in s.regs ==> Current(s.db, next, ch);
  }

  function One(v: Value, p: Replica): State {
    State({"c"}, map["c" := v], map[0 := p])
  }

  const OFF := Replica(Down, false, {}, [], Idle, map[], {}, multiset{})
  const ON := Replica(Connecting, true, {"c"}, [], Idle, map[], {}, multiset{})
  const LOADING := ON.(phase := Reloading({}), ext := multiset{("c", 0)})
  const SERVING := LOADING.(phase := Live, snap := map["c" := 0])

  lemma {:induction false} MoveOne(v: Value, p: Replica, st: Step, q: Replica)
    requires !st.Commit? && Enabled(One(v, p), st) && Move(One(v, p), p, st) == q
    ensures Follows(One(v, p), st, One(v, q))
  {
    assert Apply(One(v, p), st).replicas == One(v, q).replicas;
  }

  lemma {:induction false} CommitOne(v: Value, p: Replica, w: Value, q: Replica)
    requires Notify(p, "c") == q
    ensures Follows(One(v, p), Commit("c", w), One(w, q))
  {
    assert Apply(One(v, p), Commit("c", w)).replicas == One(w, q).replicas;
    assert Apply(One(v, p), Commit("c", w)).db == One(w, q).db;
  }

  lemma {:induction false} LateConnecting()
    ensures Follows(One(0, OFF), Connect(0), One(0, ON.(listening := {})))
    ensures Follows(One(0, ON.(listening := {})), Listen(0, "c"), One(0, ON))
    ensures Follows(One(0, ON), Establish(0), One(0, ON.(phase := Reloading({"c"}))))
    ensures Follows(One(0, ON.(phase := Reloading({"c"}))), ExtRead(0, "c"), One(0, LOADING.(phase := Reloading({"c"}))))
  {
    assert {} + {"c"} == {"c"} && multiset{} + multiset{("c", 0)} == multiset{("c", 0)};
    MoveOne(0, OFF, Connect(0), ON.(listening := {}));
    MoveOne(0, ON.(listening := {}), Listen(0, "c"), ON);
    MoveOne(0, ON, Establish(0), ON.(phase := Reloading({"c"})));
    MoveOne(0, ON.(phase := Reloading({"c"})), ExtRead(0, "c"), LOADING.(phase := Reloading({"c"})));
  }

  lemma {:induction false} LateReading()
    ensures Follows(One(0, LOADING.(phase := Reloading({"c"}))), Pick(0, "c"), One(0, LOADING.(work := Due("c"))))
    ensures Follows(One(0, LOADING.(work := Due("c"))), Read(0), One(0, LOADING.(work := Got("c", 0))))
  {
    assert {"c"} - {"c"} == {};
    MoveOne(0, LOADING.(phase := Reloading({"c"})), Pick(0, "c"), LOADING.(work := Due("c")));
    MoveOne(0, LOADING.(work := Due("c")), Read(0), LOADING.(work := Got("c", 0)));
  }

  lemma {:induction false} LateLoading()
    ensures Follows(One(0, LOADING.(work := Got("c", 0))), Store(0), One(0, LOADING.(snap := map["c" := 0])))
    ensures Follows(One(0, LOADING.(snap := map["c" := 0])), GoLive(0), One(0, SERVING))
  {
    assert map[]["c" := 0] == map["c" := 0];
    MoveOne(0, LOADING.(work := Got("c", 0)), Store(0), LOADING.(snap := map["c" := 0]));
    MoveOne(0, LOADING.(snap := map["c" := 0]), GoLive(0), SERVING);
  }

  lemma {:induction false} LateServing()
    ensures Follows(One(0, SERVING), Commit("c", 1), One(1, SERVING.(queue := ["c"])))
    ensures Follows(One(1, SERVING.(queue := ["c"])), Take(0), One(1, SERVING.(work := Due("c"))))
    ensures Follows(One(1, SERVING.(work := Due("c"))), Read(0), One(1, SERVING.(work := Got("c", 1))))
  {
    assert ["c"][1..] == [] && [] + ["c"] == ["c"];
    CommitOne(0, SERVING, 1, SERVING.(queue := ["c"]));
    MoveOne(1, SERVING.(queue := ["c"]), Take(0), SERVING.(work := Due("c")));
    MoveOne(1, SERVING.(work := Due("c")), Read(0), SERVING.(work := Got("c", 1)));
  }

  lemma {:induction false} LateStoring()
    ensures Follows(One(1, SERVING.(work := Got("c", 1))), Store(0), One(1, SERVING.(snap := map["c" := 1])))
    ensures Follows(One(1, SERVING.(snap := map["c" := 1])), ExtStore(0, "c", 0), One(1, SERVING.(ext := multiset{})))
  {
    assert map["c" := 0]["c" := 1] == map["c" := 1] && map["c" := 1]["c" := 0] == map["c" := 0];
    assert multiset{("c", 0)} - multiset{("c", 0)} == multiset{};
    MoveOne(1, SERVING.(work := Got("c", 1)), Store(0), SERVING.(snap := map["c" := 1]));
    MoveOne(1, SERVING.(snap := map["c" := 1]), ExtStore(0, "c", 0), SERVING.(ext := multiset{}));
  }

  lemma {:induction false} Extend(states: seq<State>, steps: seq<Step>, st: Step, t: State)
    returns (states': seq<State>, steps': seq<Step>)
    requires Run(states, steps) && Follows(states[|steps|], st, t)
    ensures Run(states', steps') && steps' == steps + [st] && states'[|steps'|] == t
  {
    states', steps' := states + [t], steps + [st];
    forall i {:trigger steps'[i]} | 0 <= i < |steps'|
      ensures Follows(states'[i], steps'[i], states'[i + 1])
    {
      if i < |steps| {
        assert steps'[i] == steps[i];
      }
    }
  }

  /** The listener comes up while the start-up load has read but not stored. */
  lemma {:induction false} LateServed() returns (states: seq<State>, steps: seq<Step>)
    ensures Run(states, steps) && states[|steps|] == One(0, SERVING)
  {
    states, steps := [One(0, OFF)], [];
    LateConnecting();
    states, steps := Extend(states, steps, Connect(0), One(0, ON.(listening := {})));
    states, steps := Extend(states, steps, Listen(0, "c"), One(0, ON));
    states, steps := Extend(states, steps, Establish(0), One(0, ON.(phase := Reloading({"c"}))));
    states, steps := Extend(states, steps, ExtRead(0, "c"), One(0, LOADING.(phase := Reloading({"c"}))));
    LateReading();
    states, steps := Extend(states, steps, Pick(0, "c"), One(0, LOADING.(work := Due("c"))));
    states, steps := Extend(states, steps, Read(0), One(0, LOADING.(work := Got("c", 0))));
    LateLoading();
    states, steps := Extend(states, steps, Store(0), One(0, LOADING.(snap := map["c" := 0])));
    states, steps := Extend(states, steps, GoLive(0), One(0, SERVING));
  }

  /** The start-up load reads, a change is committed and reloaded, then the start-up load stores: the replica
      is quiet, the last reload did not fail, and the snapshot is outdated for good. */
  lemma {:induction false} LateStoreLeavesStale() returns (states: seq<State>, steps: seq<Step>)
    ensures Run(states, steps)
    ensures var t := states[|steps|]; Quiet(t, 0) && "c" in Loaded(t, 0) && !Current(t.db, t.replicas[0], "c")
  {
    states, steps := LateServed();
    LateServing();
    states, steps := Extend(states, steps, Commit("c", 1), One(1, SERVING.(queue := ["c"])));
    states, steps := Extend(states, steps, Take(0), One(1, SERVING.(work := Due("c"))));
    states, steps := Extend(states, steps, Read(0), One(1, SERVING.(work := Got("c", 1))));
    LateStoring();
    states, steps := Extend(states, steps, Store(0), One(1, SERVING.(snap := map["c" := 1])));
    states, steps := Extend(states, steps, ExtStore(0, "c", 0), One(1, SERVING.(ext := multiset{})));
  }
}
