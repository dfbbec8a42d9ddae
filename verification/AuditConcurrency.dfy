/** The database-backed audit chain under concurrency. */
module AuditConcurrency {
  // `record_event` (app/audit.py) in any number of interleaved transactions (app/db.py) with the per-team
  // transaction lock, at the isolation level READ COMMITTED

  import opened Audit

  type Tx = nat

  datatype Status = Pending | Committed | Aborted

  /** An inserted row. Its place in the log is its id: ids are drawn at insertion and never reused. */
  datatype Row = Row(team: string, event: Event, tx: Tx, status: Status)

  /** How far a transaction is in `record_event`. A broken one can only be rolled back. */
  datatype Pc = Idle | Locked(team: string) | Read(team: string, prev: string) | Broken

  /** `locks` holds the owner of every advisory lock taken. */
  datatype State = State(log: seq<Row>, locks: map<int, Tx>, pcs: map<Tx, Pc>)

  /** `hashtext`: teams may share a lock. `aborts` says whether a failed statement breaks its transaction, as
      in PostgreSQL; a backend without advisory locks may let it go on. */
  datatype Db = Db(hashing: Hashing, lockKey: string -> int, aborts: bool)

  /** One statement of one transaction. `FailLock` is a lock request that raises; the source ignores that. */
  datatype Action =
    | Lock(tx: Tx, team: string)
    | FailLock(tx: Tx, team: string)
    | ReadLast(tx: Tx)
    | Insert(tx: Tx, payload: Payload)
    | Commit(tx: Tx)
    | Rollback(tx: Tx)

  const EMPTY := State([], map[], map[])

  // ---- what a statement sees ---------------------------------------------------------

  /** Committed rows and the transaction's own. */
  predicate Sees(r: Row, team: string, tx: Tx) {
    r.team == team && (r.status.Committed? || (r.status.Pending? && r.tx == tx))
  }

  function View(log: seq<Row>, team: string, tx: Tx): seq<Event> {
    if log == [] then []
    else
      var n := |log| - 1;
      View(log[..n], team, tx) + if Sees(log[n], team, tx) then [log[n].event] else []
  }

  /** The team's chain in id order, as `verify_chain` reads it. */
  function Chain(log: seq<Row>, team: string): seq<Event> {
    if log == [] then []
    else
      var n := |log| - 1;
      Chain(log[..n], team) + if log[n].team == team && log[n].status.Committed? then [log[n].event] else []
  }

  // ---- steps -------------------------------------------------------------------------

  function PcOf(s: State, tx: Tx): Pc { if tx in s.pcs then s.pcs[tx] else Idle }

  predicate Holds(d: Db, s: State, tx: Tx, team: string) {
    d.lockKey(team) in s.locks && s.locks[d.lockKey(team)] == tx
  }

  predicate Enabled(d: Db, s: State, a: Action) {
    match a
    case Lock(tx, team) => PcOf(s, tx).Idle? && (d.lockKey(team) in s.locks ==> s.locks[d.lockKey(team)] == tx)
    case FailLock(tx, team) => PcOf(s, tx).Idle?
    case ReadLast(tx) => PcOf(s, tx).Locked?
    case Insert(tx, payload) => PcOf(s, tx).Read? && payload.team == PcOf(s, tx).team
    case Commit(tx) => PcOf(s, tx).Idle?
    case Rollback(tx) => true
  }

  /** All pending rows of a transaction get a final status. */
  function Finish(log: seq<Row>, tx: Tx, status: Status): (r: seq<Row>)
    ensures |r| == |log|
  {
    if log == [] then []
    else
      var n := |log| - 1;
      Finish(log[..n], tx, status) + [if log[n].tx == tx && log[n].status.Pending? then log[n].(status := status) else log[n]]
  }

  function Release(locks: map<int, Tx>, tx: Tx): map<int, Tx> {
    map k | k in locks && locks[k] != tx :: locks[k]
  }

  function Step(d: Db, s: State, a: Action): State
    requires Enabled(d, s, a)
  {
    match a
    case Lock(tx, team) => State(s.log, s.locks[d.lockKey(team) := tx], s.pcs[tx := Locked(team)])
    case FailLock(tx, team) => s.(pcs := s.pcs[tx := if d.aborts then Broken else Locked(team)])
    case ReadLast(tx) =>
      var team := PcOf(s, tx).team;
      s.(pcs := s.pcs[tx := Read(team, LastHash(View(s.log, team, tx)))])
    case Insert(tx, payload) =>
      var e := Link(d.hashing, PcOf(s, tx).prev, payload);
      State(s.log + [Row(payload.team, e, tx, Pending)], s.locks, s.pcs[tx := Idle])
    case Commit(tx) => State(Finish(s.log, tx, Committed), Release(s.locks, tx), s.pcs[tx := Idle])
    case Rollback(tx) => State(Finish(s.log, tx, Aborted), Release(s.locks, tx), s.pcs[tx := Idle])
  }

  ghost predicate Run(d: Db, ss: seq<State>, acts: seq<Action>) {
    && |ss| == |acts| + 1 && ss[0] == EMPTY
    && forall i | 0 <= i < |acts| :: Enabled(d, ss[i], acts[i]) && ss[i + 1] == Step(d, ss[i], acts[i])
  }

  /** No transaction goes on without its lock. */
  predicate Locks(d: Db, a: Action) { a.FailLock? ==> d.aborts }

  predicate AlwaysLocks(d: Db, acts: seq<Action>) { forall a | a in acts :: Locks(d, a) }

  // ---- the invariant -----------------------------------------------------------------

  /** A pending row's transaction holds the lock of its team. */
  predicate PendingLocked(d: Db, s: State) {
    forall i | 0 <= i < |s.log| && s.log[i].status.Pending? :: Holds(d, s, s.log[i].tx, s.log[i].team)
  }

  /** What the holder of a team's lock sees is a chain that extends the committed one. */
  ghost predicate HolderSees(d: Db, s: State, tx: Tx, team: string) {
    Chain(s.log, team) <= View(s.log, team, tx) && Verifies(d.hashing, View(s.log, team, tx))
  }

  ghost predicate PcOk(d: Db, s: State, tx: Tx) {
    var pc := PcOf(s, tx);
    && (pc.Locked? || pc.Read? ==> Holds(d, s, tx, pc.team))
    && (pc.Read? ==> pc.prev == LastHash(View(s.log, pc.team, tx)))
  }

  ghost predicate Inv(d: Db, s: State) {
    && PendingLocked(d, s)
    && (forall team :: Verifies(d.hashing, Chain(s.log, team)))
    && (forall tx, team | Holds(d, s, tx, team) :: HolderSees(d, s, tx, team))
    && (forall tx :: PcOk(d, s, tx))
  }

  // ---- views under each change -------------------------------------------------------

  predicate NoPendingOf(log: seq<Row>, team: string, tx: Tx) {
    forall i | 0 <= i < |log| :: log[i].team == team && log[i].status.Pending? ==> log[i].tx != tx
  }

  /** Without pending rows of its own a transaction sees the committed chain. */
  lemma {:induction false} NothingPending(log: seq<Row>, team: string, tx: Tx)
    requires NoPendingOf(log, team, tx)
    ensures View(log, team, tx) == Chain(log, team)
  {
    if log != [] { NothingPending(log[..|log| - 1], team, tx); }
  }

  /** Ending another transaction that has no pending rows of the team changes neither view nor chain. */
  lemma {:induction false} OthersFinish(log: seq<Row>, done: Tx, status: Status, team: string, tx: Tx)
    requires NoPendingOf(log, team, done) && !status.Pending?
    ensures View(Finish(log, done, status), team, tx) == View(log, team, tx)
    ensures Chain(Finish(log, done, status), team) == Chain(log, team)
  {
    if log != [] {
      var n := |log| - 1;
      OthersFinish(log[..n], done, status, team, tx);
      assert Finish(log, done, status)[..n] == Finish(log[..n], done, status);
    }
  }

  /** A commit turns what the transaction saw into the chain. */
  lemma {:induction false} CommitShows(log: seq<Row>, tx: Tx, team: string)
    ensures Chain(Finish(log, tx, Committed), team) == View(log, team, tx)
  {
    if log != [] {
      var n := |log| - 1;
      CommitShows(log[..n], tx, team);
      assert Finish(log, tx, Committed)[..n] == Finish(log[..n], tx, Committed);
    }
  }

  /** A rollback leaves the chain. */
  lemma {:induction false} AbortHides(log: seq<Row>, tx: Tx, team: string)
    ensures Chain(Finish(log, tx, Aborted), team) == Chain(log, team)
  {
    if log != [] {
      var n := |log| - 1;
      AbortHides(log[..n], tx, team);
      assert Finish(log, tx, Aborted)[..n] == Finish(log[..n], tx, Aborted);
    }
  }

  lemma {:induction false} FinishAt(log: seq<Row>, tx: Tx, status: Status, i: nat)
    requires i < |log|
    ensures Finish(log, tx, status)[i] == if log[i].tx == tx && log[i].status.Pending? then log[i].(status := status) else log[i]
  {
    if i < |log| - 1 { FinishAt(log[..|log| - 1], tx, status, i); }
  }

  lemma Appended(log: seq<Row>, r: Row, team: string, tx: Tx)
    ensures View(log + [r], team, tx) == View(log, team, tx) + if Sees(r, team, tx) then [r.event] else []
    ensures Chain(log + [r], team) == Chain(log, team) + if r.team == team && r.status.Committed? then [r.event] else []
  {
    assert (log + [r])[..|log|] == log;
  }

  // ---- every step keeps the invariant ------------------------------------------------

  lemma LockKeeps(d: Db, s: State, a: Action)
    requires Inv(d, s) && Enabled(d, s, a) && a.Lock?
    ensures Inv(d, Step(d, s, a))
  {
    var s' := Step(d, s, a);
    forall i | 0 <= i < |s'.log| && s'.log[i].status.Pending? ensures Holds(d, s', s'.log[i].tx, s'.log[i].team) {
      assert Holds(d, s, s.log[i].tx, s.log[i].team);
    }
    forall tx, team | Holds(d, s', tx, team) ensures HolderSees(d, s', tx, team) {
      if !Holds(d, s, tx, team) {
        assert NoPendingOf(s.log, team, tx);
        NothingPending(s.log, team, tx);
      } else {
        assert HolderSees(d, s, tx, team);
      }
    }
    forall tx ensures PcOk(d, s', tx) { assert PcOk(d, s, tx); }
  }

  lemma FailKeeps(d: Db, s: State, a: Action)
    requires Inv(d, s) && Enabled(d, s, a) && a.FailLock? && d.aborts
    ensures Inv(d, Step(d, s, a))
  {
    var s' := Step(d, s, a);
    forall tx, team | Holds(d, s', tx, team) ensures HolderSees(d, s', tx, team) {
      assert Holds(d, s, tx, team) && HolderSees(d, s, tx, team);
    }
    forall tx ensures PcOk(d, s', tx) { assert PcOk(d, s, tx); }
  }

  lemma ReadKeeps(d: Db, s: State, a: Action)
    requires Inv(d, s) && Enabled(d, s, a) && a.ReadLast?
    ensures Inv(d, Step(d, s, a))
  {
    var s' := Step(d, s, a);
    forall tx, team | Holds(d, s', tx, team) ensures HolderSees(d, s', tx, team) {
      assert Holds(d, s, tx, team) && HolderSees(d, s, tx, team);
    }
    forall tx ensures PcOk(d, s', tx) { assert PcOk(d, s, tx); }
  }

  lemma HolderAfterInsert(d: Db, s: State, who: Tx, payload: Payload, tx: Tx, team: string)
    requires HolderSees(d, s, tx, team) && PcOk(d, s, who) && Enabled(d, s, Insert(who, payload))
    ensures HolderSees(d, Step(d, s, Insert(who, payload)), tx, team)
  {
    var e := Link(d.hashing, PcOf(s, who).prev, payload);
    Appended(s.log, Row(payload.team, e, who, Pending), team, tx);
    RecordVerifies(d.hashing, View(s.log, team, tx), payload);
    assert View(s.log, team, tx) + [] == View(s.log, team, tx) && Chain(s.log, team) + [] == Chain(s.log, team);
  }

  lemma InsertKeeps(d: Db, s: State, a: Action)
    requires Inv(d, s) && Enabled(d, s, a) && a.Insert?
    ensures Inv(d, Step(d, s, a))
    ensures forall team :: Chain(Step(d, s, a).log, team) == Chain(s.log, team)
  {
    var s' := Step(d, s, a);
    var r := s'.log[|s.log|];
    assert PcOk(d, s, a.tx);
    forall team ensures Chain(s'.log, team) == Chain(s.log, team) { Appended(s.log, r, team, a.tx); }
    forall tx, team | Holds(d, s', tx, team) ensures HolderSees(d, s', tx, team) {
      assert Holds(d, s, tx, team);
      HolderAfterInsert(d, s, a.tx, a.payload, tx, team);
    }
    forall tx ensures PcOk(d, s', tx) {
      assert PcOk(d, s, tx);
      PcAfterInsert(d, s, a, tx);
    }
  }

  lemma PcAfterInsert(d: Db, s: State, a: Action, tx: Tx)
    requires a.Insert? && Enabled(d, s, a) && PcOk(d, s, a.tx) && PcOk(d, s, tx)
    ensures PcOk(d, Step(d, s, a), tx)
  {
    if tx != a.tx && PcOf(s, tx).Read? { Appended(s.log, Step(d, s, a).log[|s.log|], PcOf(s, tx).team, tx); }
  }

  /** Only the holder of a team's lock has pending rows of it. */
  lemma OnlyHolderPends(d: Db, s: State, done: Tx, team: string)
    requires PendingLocked(d, s) && !Holds(d, s, done, team)
    ensures NoPendingOf(s.log, team, done)
  {
  }

  lemma FinishKeeps(d: Db, s: State, done: Tx, status: Status)
    requires Inv(d, s) && !status.Pending? && (forall team :: Verifies(d.hashing, Chain(Finish(s.log, done, status), team)))
    ensures Inv(d, State(Finish(s.log, done, status), Release(s.locks, done), s.pcs[done := Idle]))
  {
    var s' := State(Finish(s.log, done, status), Release(s.locks, done), s.pcs[done := Idle]);
    forall i | 0 <= i < |s'.log| && s'.log[i].status.Pending? ensures Holds(d, s', s'.log[i].tx, s'.log[i].team) {
      FinishAt(s.log, done, status, i);
      assert Holds(d, s, s.log[i].tx, s.log[i].team);
    }
    forall tx, team | Holds(d, s', tx, team) ensures HolderSees(d, s', tx, team) {
      assert Holds(d, s, tx, team) && HolderSees(d, s, tx, team);
      OnlyHolderPends(d, s, done, team);
      OthersFinish(s.log, done, status, team, tx);
    }
    forall tx ensures PcOk(d, s', tx) {
      assert PcOk(d, s, tx);
      if tx != done && (PcOf(s, tx).Locked? || PcOf(s, tx).Read?) {
        OnlyHolderPends(d, s, done, PcOf(s, tx).team);
        OthersFinish(s.log, done, status, PcOf(s, tx).team, tx);
      }
    }
  }

  ghost predicate Grows(s: State, s': State, team: string) { Chain(s.log, team) <= Chain(s'.log, team) }

  /** A step keeps the invariant, and a team's committed chain only ever grows at its end. */
  lemma StepKeeps(d: Db, s: State, a: Action)
    requires Inv(d, s) && Enabled(d, s, a) && Locks(d, a)
    ensures Inv(d, Step(d, s, a))
    ensures forall team :: Grows(s, Step(d, s, a), team)
  {
    match a
    case Lock(tx, team) => LockKeeps(d, s, a);
    case FailLock(tx, team) => FailKeeps(d, s, a);
    case ReadLast(tx) => ReadKeeps(d, s, a);
    case Insert(tx, payload) => InsertKeeps(d, s, a);
    case Commit(tx) =>
      forall team
        ensures Verifies(d.hashing, Chain(Finish(s.log, tx, Committed), team))
        ensures Chain(s.log, team) <= Chain(Finish(s.log, tx, Committed), team)
      {
        CommitShows(s.log, tx, team);
        if Holds(d, s, tx, team) {
          assert HolderSees(d, s, tx, team);
        } else {
          OnlyHolderPends(d, s, tx, team);
          NothingPending(s.log, team, tx);
        }
      }
      FinishKeeps(d, s, tx, Committed);
    case Rollback(tx) =>
      forall team ensures Chain(Finish(s.log, tx, Aborted), team) == Chain(s.log, team) { AbortHides(s.log, tx, team); }
      FinishKeeps(d, s, tx, Aborted);
  }

  lemma {:induction false} RunInv(d: Db, ss: seq<State>, acts: seq<Action>, i: nat)
    requires Run(d, ss, acts) && AlwaysLocks(d, acts) && i <= |acts|
    ensures Inv(d, ss[i])
  {
    if i > 0 {
      RunInv(d, ss, acts, i - 1);
      StepKeeps(d, ss[i - 1], acts[i - 1]);
    }
  }

  /** In every reachable state of every interleaving each team's committed chain verifies, as long as no
      transaction goes on without its lock. */
  lemma NoFork(d: Db, ss: seq<State>, acts: seq<Action>, i: nat, team: string)
    requires Run(d, ss, acts) && AlwaysLocks(d, acts) && i <= |acts|
    ensures Verifies(d.hashing, Chain(ss[i].log, team))
  {
    RunInv(d, ss, acts, i);
  }

  /** What was committed stays, in its place. */
  lemma {:induction false} AppendOnly(d: Db, ss: seq<State>, acts: seq<Action>, i: nat, j: nat, team: string)
    requires Run(d, ss, acts) && AlwaysLocks(d, acts) && i <= j <= |acts|
    ensures Chain(ss[i].log, team) <= Chain(ss[j].log, team)
    decreases j
  {
    if i < j {
      AppendOnly(d, ss, acts, i, j - 1, team);
      RunInv(d, ss, acts, j - 1);
      StepKeeps(d, ss[j - 1], acts[j - 1]);
      assert Grows(ss[j - 1], ss[j], team);
    }
  }

  // ---- a recorded event is recorded --------------------------------------------------

  /** The four statements of one recording. */
  function Recording(tx: Tx, x: Payload): seq<Action> { [Lock(tx, x.team), ReadLast(tx), Insert(tx, x), Commit(tx)] }

  /** Nobody holds the lock of the team, and the transaction has nothing open. */
  predicate Free(d: Db, s: State, tx: Tx, team: string) {
    && d.lockKey(team) !in s.locks && PcOf(s, tx).Idle?
    && forall i | 0 <= i < |s.log| :: s.log[i].tx == tx ==> !s.log[i].status.Pending?
  }

  lemma {:induction false} NothingToFinish(log: seq<Row>, tx: Tx, status: Status)
    requires forall i | 0 <= i < |log| :: log[i].tx == tx ==> !log[i].status.Pending?
    ensures Finish(log, tx, status) == log
  {
    if log != [] { NothingToFinish(log[..|log| - 1], tx, status); }
  }

  /** A transaction that takes the free lock, reads, inserts and commits has appended the next event to its team's
      chain, linked to the last one, and left the lock free. */
  lemma RecordingAppends(d: Db, s: State, tx: Tx, x: Payload) returns (ss: seq<State>)
    requires Free(d, s, tx, x.team)
    ensures |ss| == 5 && ss[0] == s
    ensures forall i | 0 <= i < 4 :: Enabled(d, ss[i], Recording(tx, x)[i]) && ss[i + 1] == Step(d, ss[i], Recording(tx, x)[i])
    ensures Chain(ss[4].log, x.team) == Chain(s.log, x.team) + [Link(d.hashing, LastHash(Chain(s.log, x.team)), x)]
    ensures Free(d, ss[4], tx, x.team)
  {
    var acts := Recording(tx, x);
    var s1 := Step(d, s, acts[0]);
    var s2 := Step(d, s1, acts[1]);
    NothingPending(s.log, x.team, tx);
    var s3 := Step(d, s2, acts[2]);
    var s4 := Step(d, s3, acts[3]);
    ss := [s, s1, s2, s3, s4];
    var e := Link(d.hashing, LastHash(Chain(s.log, x.team)), x);
    CommittedRow(s.log, tx, x.team, e);
    forall i | 0 <= i < |s4.log| ensures s4.log[i].tx == tx ==> !s4.log[i].status.Pending? { FinishAt(s3.log, tx, Committed, i); }
  }

  lemma CommittedRow(log: seq<Row>, tx: Tx, team: string, e: Event)
    requires forall i | 0 <= i < |log| :: log[i].tx == tx ==> !log[i].status.Pending?
    ensures Chain(Finish(log + [Row(team, e, tx, Pending)], tx, Committed), team) == Chain(log, team) + [e]
  {
    var row := Row(team, e, tx, Pending);
    NothingToFinish(log, tx, Committed);
    assert (log + [row])[..|log|] == log;
    assert Finish(log + [row], tx, Committed) == log + [row.(status := Committed)];
    Appended(log, row.(status := Committed), team, tx);
  }

  /** Ending a transaction frees its locks and nobody else's. */
  lemma EndingFrees(d: Db, s: State, a: Action, k: int)
    requires Enabled(d, s, a) && (a.Commit? || a.Rollback?)
    ensures k in Step(d, s, a).locks <==> k in s.locks && s.locks[k] != a.tx
    ensures k in Step(d, s, a).locks ==> Step(d, s, a).locks[k] == s.locks[k]
  {
  }

  // ---- teams do not affect each other ------------------------------------------------

  /** Whether a step can change the committed chain of a team. */
  predicate Touches(s: State, a: Action, team: string) {
    a.Commit? && exists i | 0 <= i < |s.log| :: s.log[i].team == team && s.log[i].status.Pending? && s.log[i].tx == a.tx
  }

  /** Only the commit of a transaction that recorded for the team changes the team's chain. */
  lemma TeamsIndependent(d: Db, s: State, a: Action, team: string)
    requires Enabled(d, s, a) && !Touches(s, a, team)
    ensures Chain(Step(d, s, a).log, team) == Chain(s.log, team)
  {
    match a
    case Lock(tx, t) =>
    case FailLock(tx, t) =>
    case ReadLast(tx) =>
    case Insert(tx, payload) => Appended(s.log, Step(d, s, a).log[|s.log|], team, tx);
    case Commit(tx) => OthersFinish(s.log, tx, Committed, team, tx);
    case Rollback(tx) => AbortHides(s.log, tx, team);
  }

  // ---- why the lock matters ----------------------------------------------------------

  /** Two transactions that go on although their lock request failed, interleaved. */
  function UnlockedActs(x: Payload, y: Payload): seq<Action> {
    [FailLock(0, x.team), FailLock(1, x.team), ReadLast(0), ReadLast(1), Insert(0, x), Insert(1, y), Commit(0), Commit(1)]
  }

  /** Both read the genesis value and both insert. */
  lemma BothInsert(d: Db, x: Payload, y: Payload) returns (ss: seq<State>)
    requires x.team == y.team && !d.aborts
    ensures Run(d, ss, UnlockedActs(x, y)[..6])
    ensures ss[6].log == ForkedLog(d.hashing, x, y, Pending) && PcOf(ss[6], 0).Idle? && PcOf(ss[6], 1).Idle?
  {
    var acts := UnlockedActs(x, y);
    var s1 := Step(d, EMPTY, acts[0]);
    var s2 := Step(d, s1, acts[1]);
    var s3 := Step(d, s2, acts[2]);
    var s4 := Step(d, s3, acts[3]);
    assert PcOf(s4, 0) == Read(x.team, GENESIS) && PcOf(s4, 1) == Read(x.team, GENESIS);
    var s5 := Step(d, s4, acts[4]);
    var s6 := Step(d, s5, acts[5]);
    ss := [EMPTY, s1, s2, s3, s4, s5, s6];
    assert acts[..6] == [acts[0], acts[1], acts[2], acts[3], acts[4], acts[5]];
  }

  /** The log of two rows that were both linked to the genesis value. */
  function ForkedLog(h: Hashing, x: Payload, y: Payload, status: Status): seq<Row> {
    [Row(x.team, Link(h, GENESIS, x), 0, status), Row(y.team, Link(h, GENESIS, y), 1, status)]
  }

  lemma BothCommit(h: Hashing, x: Payload, y: Payload)
    ensures Finish(Finish(ForkedLog(h, x, y, Pending), 0, Committed), 1, Committed) == ForkedLog(h, x, y, Committed)
  {
    var log := ForkedLog(h, x, y, Pending);
    var once := Finish(log, 0, Committed);
    FinishAt(log, 0, Committed, 0);
    FinishAt(log, 0, Committed, 1);
    FinishAt(once, 1, Committed, 0);
    FinishAt(once, 1, Committed, 1);
  }

  lemma ForkedChain(h: Hashing, x: Payload, y: Payload)
    requires Audit.Ideal(h) && x.team == y.team
    ensures !Verifies(h, Chain(ForkedLog(h, x, y, Committed), x.team))
  {
    var log := ForkedLog(h, x, y, Committed);
    var one, none := log[..1], log[..1][..0];
    assert none == [] && one == [log[0]];
    assert Chain(none, x.team) == [] && Chain(one, x.team) == Chain(none, x.team) + [log[0].event];
    var chain := Chain(log, x.team);
    assert chain == [log[0].event, log[1].event];
    var tail := chain[1..];
    assert tail == [log[1].event] && tail[0].prevHash == GENESIS;
    assert chain[0].eventHash == h.mac(GENESIS + h.canonical(x));
    assert !VerifiesFrom(h, chain[0].eventHash, tail);
  }

  lemma RunSnoc(d: Db, ss: seq<State>, acts: seq<Action>, a: Action)
    requires Run(d, ss, acts) && Enabled(d, ss[|acts|], a)
    ensures Run(d, ss + [Step(d, ss[|acts|], a)], acts + [a])
  {
    var ss', acts' := ss + [Step(d, ss[|acts|], a)], acts + [a];
    forall i | 0 <= i < |acts'| ensures Enabled(d, ss'[i], acts'[i]) && ss'[i + 1] == Step(d, ss'[i], acts'[i]) {
      if i < |acts| { assert ss'[i] == ss[i] && ss'[i + 1] == ss[i + 1] && acts'[i] == acts[i]; }
    }
  }

  /** Where a failed lock request leaves the transaction usable, the chain can fork: it no longer verifies
      although nobody tampered with it. */
  lemma ForkWithoutLock(d: Db, x: Payload, y: Payload)
    requires Audit.Ideal(d.hashing) && x.team == y.team && !d.aborts
    ensures exists ss: seq<State> :: Run(d, ss, UnlockedActs(x, y)) && !Verifies(d.hashing, Chain(ss[8].log, x.team))
  {
    var acts := UnlockedActs(x, y);
    var ss := BothInsert(d, x, y);
    var all := CommitTwo(d, ss, acts[..6], 0, 1);
    BothCommit(d.hashing, x, y);
    ForkedChain(d.hashing, x, y);
    assert acts[..6] + [Commit(0)] + [Commit(1)] == acts;
    assert Run(d, all, acts);
  }

  lemma CommitTwo(d: Db, ss: seq<State>, acts: seq<Action>, tx: Tx, ty: Tx) returns (all: seq<State>)
    requires Run(d, ss, acts) && tx != ty && PcOf(ss[|acts|], tx).Idle? && PcOf(ss[|acts|], ty).Idle?
    ensures Run(d, all, acts + [Commit(tx)] + [Commit(ty)])
    ensures all[|acts| + 2].log == Finish(Finish(ss[|acts|].log, tx, Committed), ty, Committed)
  {
    RunSnoc(d, ss, acts, Commit(tx));
    var s := Step(d, ss[|acts|], Commit(tx));
    RunSnoc(d, ss + [s], acts + [Commit(tx)], Commit(ty));
    all := ss + [s] + [Step(d, s, Commit(ty))];
  }

  ghost predicate AlwaysVerifies(d: Db) {
    forall ss: seq<State>, acts, i: nat, team | Run(d, ss, acts) && i <= |acts| ::
      Verifies(d.hashing, Chain(ss[i].log, team))
  }

  /** Exactly when no interleaving can fork a chain: a failed lock request breaks its transaction. */
  lemma NoForkIff(d: Db)
    requires Audit.Ideal(d.hashing)
    ensures AlwaysVerifies(d) <==> d.aborts
  {
    if d.aborts {
      forall ss: seq<State>, acts, i: nat, team | Run(d, ss, acts) && i <= |acts|
        ensures Verifies(d.hashing, Chain(ss[i].log, team))
      {
        NoFork(d, ss, acts, i, team);
      }
    } else {
      var x := Payload("team", "key", "session", "route", "provider", map[], false, 0, 0, 0);
      ForkWithoutLock(d, x, x);
    }
  }
}
