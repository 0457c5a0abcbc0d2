/**
 * Execution: each operation is tried a bounded number of times against the ports, and a success
 * moves the merge base of its path.
 */
module ExecutePhase {
  import opened Collections
  import opened Paths
  import opened Types
  import opened Store
  import opened Limits
  import opened DeltaPhase
  import Retry

  // ---------------------------------------------------------------- one attempt

  datatype LocalError =
    | LocalNotFound | PermissionDenied | NotMounted | DiskFull | QuotaExceeded | AlreadyRunning
    | CrossVolumeRename | InvalidPath | Raced | Io

  datatype GraphError =
    | Unauthorized | ReAuthRequired | Forbidden | RemoteNotFound | NameConflict | ResyncRequired | Stale
    | InvalidRange | Throttled(retryAfterS: nat) | Transient | Network | Decode | HashMismatch | TooLarge

  datatype ExecError = LocalFailed(local: LocalError) | RemoteFailed(remote: GraphError) | NotImplemented | InvalidOp

  predicate IsRetriable(e: ExecError)
  {
    match e
    case LocalFailed(l) => l == Raced || l == Io
    case RemoteFailed(g) => g.Throttled? || g == Transient || g == Network
    case _ => false
  }

  /**
   * How the ports answer in one attempt: the error of the local and of the remote call, if any.
   * `landed` says of a local call that reports an error whether it has left its work done all the
   * same: the file is replaced or gone, or a whole copy of it is at its new name.
   */
  datatype Attempt = Attempt(local: Option<LocalError>, remote: Option<GraphError>, landed: bool)

  function LocalResult(a: Attempt): Option<ExecError>
  {
    if a.local.Some? then Some(LocalFailed(a.local.value)) else None
  }

  function RemoteResult(a: Attempt): Option<ExecError>
  {
    if a.remote.Some? then Some(RemoteFailed(a.remote.value)) else None
  }

  function Then(first: Option<ExecError>, second: Option<ExecError>): Option<ExecError>
  {
    if first.Some? then first else second
  }

  function JoinResult(root: string, rel: string): Option<ExecError>
  {
    if Joins(root, rel) then None else Some(LocalFailed(InvalidPath))
  }

  /** One execution of an operation: none on success, otherwise the first error met. */
  function Execute(root: string, op: FileOp, a: Attempt): Option<ExecError>
  {
    match op.kind
    case OpLocalMkdir => Then(JoinResult(root, op.path), LocalResult(a))
    case OpLocalDelete =>
      Then(JoinResult(root, op.path), if a.local == Some(LocalNotFound) then None else LocalResult(a))
    case OpDownload => Then(RemoteResult(a), Then(JoinResult(root, op.path), LocalResult(a)))
    case OpUpload => Then(JoinResult(root, op.path), Then(LocalResult(a), RemoteResult(a)))
    case OpRemoteMkdir => if op.meta.parentRemoteId.None? then Some(InvalidOp) else RemoteResult(a)
    case OpRemoteDelete =>
      if op.meta.remoteItemId.None? then Some(InvalidOp)
      else if a.remote == Some(RemoteNotFound) then None else RemoteResult(a)
    case OpLocalRename =>
      if op.meta.newPath.None? then Some(InvalidOp)
      else Then(JoinResult(root, op.path), Then(JoinResult(root, op.meta.newPath.value), LocalResult(a)))
    case OpRemoteRename =>
      if op.meta.remoteItemId.None? || (op.meta.newName.None? && op.meta.newPath.None?) then Some(InvalidOp)
      else RemoteResult(a)
  }

  /** The drive item that an operation asks for: without metadata, the one with the empty id. */
  function ItemAsked(op: FileOp): Option<string>
  {
    match op.kind
    case OpDownload => Some(if op.meta.remoteItemId.Some? then op.meta.remoteItemId.value else "")
    case OpUpload => Some(if op.meta.parentRemoteId.Some? then op.meta.parentRemoteId.value else "")
    case OpRemoteMkdir => op.meta.parentRemoteId
    case OpRemoteDelete => op.meta.remoteItemId
    case OpRemoteRename => op.meta.remoteItemId
    case _ => None
  }

  /** The drive turns the operation down in every attempt it gets. */
  predicate IsTurnedDown(s: Script)
  {
    forall k: nat :: k < RETRY_MAX_ATTEMPTS ==> s.attempts(k).remote.Some?
  }

  /** A transfer that the drive turns down does not succeed. */
  lemma TurnedDownFails(root: string, op: FileOp, s: Script)
    requires (op.kind == OpDownload || op.kind == OpUpload) && IsTurnedDown(s)
    ensures !Succeeds(root, op, s)
  {
    hide RunFrom, IsRetriable;
    SucceedsIff(root, op, s, 0);
    forall k: nat ensures !SucceedsAt(root, op, s, 0, k) {
      if k < RETRY_MAX_ATTEMPTS {
        ExecutionSucceedsIff(root, op, s.attempts(k));
      }
    }
  }

  /** The local paths that an operation uses are valid below the root. */
  predicate PathsAreValid(root: string, op: FileOp)
  {
    && (op.kind in {OpLocalMkdir, OpLocalDelete, OpDownload, OpUpload, OpLocalRename} ==> Joins(root, op.path))
    && (op.kind == OpLocalRename && op.meta.newPath.Some? ==> Joins(root, op.meta.newPath.value))
  }

  /** The metadata an operation cannot do without are there. */
  predicate IsComplete(op: FileOp)
  {
    && (op.kind == OpRemoteMkdir ==> op.meta.parentRemoteId.Some?)
    && (op.kind in {OpRemoteDelete, OpRemoteRename} ==> op.meta.remoteItemId.Some?)
    && (op.kind == OpLocalRename ==> op.meta.newPath.Some?)
    && (op.kind == OpRemoteRename ==> op.meta.newName.Some? || op.meta.newPath.Some?)
  }

  /** The sides an operation works on answer well; a delete may find nothing to delete. */
  predicate PortsAreFine(op: FileOp, a: Attempt)
  {
    && (op.kind in {OpLocalMkdir, OpLocalDelete, OpDownload, OpUpload, OpLocalRename} ==>
          a.local.None? || (op.kind == OpLocalDelete && a.local.value == LocalNotFound))
    && (op.kind in {OpRemoteMkdir, OpRemoteDelete, OpDownload, OpUpload, OpRemoteRename} ==>
          a.remote.None? || (op.kind == OpRemoteDelete && a.remote.value == RemoteNotFound))
  }

  /** What it takes for an execution to succeed, across all kinds. */
  lemma ExecutionSucceedsIff(root: string, op: FileOp, a: Attempt)
    ensures Execute(root, op, a).None? <==> PathsAreValid(root, op) && IsComplete(op) && PortsAreFine(op, a)
  {
    hide Joins;
  }

  /** Which error an execution reports: incomplete metadata first, then that of the call made first. */
  lemma ExecutionErrorIs(root: string, op: FileOp, a: Attempt)
    ensures !IsComplete(op) ==> Execute(root, op, a) == Some(InvalidOp)
    ensures IsComplete(op) && PathsAreValid(root, op) && !PortsAreFine(op, a) ==>
      Execute(root, op, a)
      == Some(if op.kind in {OpRemoteMkdir, OpRemoteDelete, OpRemoteRename} || (op.kind == OpDownload && a.remote.Some?)
                 || (op.kind == OpUpload && a.local.None?)
              then RemoteFailed(a.remote.value) else LocalFailed(a.local.value))
    ensures IsComplete(op) && !PathsAreValid(root, op) ==>
      Execute(root, op, a)
      == Some(if op.kind == OpDownload && a.remote.Some? then RemoteFailed(a.remote.value) else LocalFailed(InvalidPath))
  {
    hide Joins;
  }

  // ---------------------------------------------------------------- all attempts

  /** What happens to one operation: the store's and the ports' answers, and the jitter drawn. */
  datatype Script = Script(
    inserts: bool,
    attempts: nat -> Attempt,
    jitter: nat -> real,
    rowRead: bool,
    rowStored: bool)

  datatype OpRun = OpRun(success: bool, executions: nat, backoffMs: nat, throttleS: nat)

  function ThrottleWait(e: ExecError): nat
  {
    if e.RemoteFailed? && e.remote.Throttled? then e.remote.retryAfterS else 0
  }

  /** The attempts from number `a` on. */
  function RunFrom(root: string, op: FileOp, s: Script, a: nat): OpRun
    decreases RETRY_MAX_ATTEMPTS - a
  {
    if a >= RETRY_MAX_ATTEMPTS then OpRun(false, 0, 0, 0)
    else
      var wait := Retry.WaitMs(a, s.jitter(a));
      match Execute(root, op, s.attempts(a))
      case None => OpRun(true, 1, wait, 0)
      case Some(e) =>
        if IsRetriable(e) then
          var rest := RunFrom(root, op, s, a + 1);
          OpRun(rest.success, 1 + rest.executions, wait + rest.backoffMs, ThrottleWait(e) + rest.throttleS)
        else OpRun(false, 1, wait, 0)
  }

  lemma {:induction false} RunExhausted(root: string, op: FileOp, s: Script)
    ensures RunFrom(root, op, s, RETRY_MAX_ATTEMPTS) == OpRun(false, 0, 0, 0)
  {
  }

  lemma RunNext(root: string, op: FileOp, s: Script, a: nat)
    requires a < RETRY_MAX_ATTEMPTS
    ensures
      var wait, e, rest := Retry.WaitMs(a, s.jitter(a)), Execute(root, op, s.attempts(a)), RunFrom(root, op, s, a + 1);
      RunFrom(root, op, s, a)
      == if e.None? then OpRun(true, 1, wait, 0)
         else if !IsRetriable(e.value) then OpRun(false, 1, wait, 0)
         else OpRun(rest.success, 1 + rest.executions, wait + rest.backoffMs, ThrottleWait(e.value) + rest.throttleS)
  {
    hide Execute, IsRetriable, ThrottleWait, Retry.WaitMs;
  }

  lemma {:induction false} RunIsBounded(root: string, op: FileOp, s: Script, a: nat)
    requires a <= RETRY_MAX_ATTEMPTS
    ensures RunFrom(root, op, s, a).executions <= RETRY_MAX_ATTEMPTS - a
    ensures RunFrom(root, op, s, a).backoffMs <= Retry.WorstMs(a)
    decreases RETRY_MAX_ATTEMPTS - a
  {
    hide Execute, RunFrom, IsRetriable, Retry.WaitMs, Retry.CeilingMs;
    if a < RETRY_MAX_ATTEMPTS {
      RunIsBounded(root, op, s, a + 1);
      RunNext(root, op, s, a);
      Retry.WaitIsAtMost(a, s.jitter(a));
    } else {
      RunExhausted(root, op, s);
    }
  }

  /** An operation is executed at most five times and backs off for at most 14,996 ms in all. */
  lemma {:induction false} OperationIsBounded(root: string, op: FileOp, s: Script)
    ensures RunFrom(root, op, s, 0).executions <= RETRY_MAX_ATTEMPTS
    ensures RunFrom(root, op, s, 0).backoffMs <= 14_996
  {
    RunIsBounded(root, op, s, 0);
    Retry.WorstTotal();
  }

  /** Both bounds are reached by an operation that always fails retriably and draws the most jitter. */
  lemma {:induction false} BoundsAreReached(root: string, op: FileOp, s: Script, a: nat)
    requires a <= RETRY_MAX_ATTEMPTS
    requires forall k: nat :: k < RETRY_MAX_ATTEMPTS ==>
      && Execute(root, op, s.attempts(k)).Some? && IsRetriable(Execute(root, op, s.attempts(k)).value)
      && s.jitter(k) >= 1.0
    ensures RunFrom(root, op, s, a).executions == RETRY_MAX_ATTEMPTS - a && !RunFrom(root, op, s, a).success
    ensures RunFrom(root, op, s, a).backoffMs == Retry.WorstMs(a)
    ensures a == 0 ==> RunFrom(root, op, s, a).backoffMs == 14_996
    decreases RETRY_MAX_ATTEMPTS - a
  {
    hide Execute, IsRetriable, RunFrom, Retry.Delay, Retry.CeilingMs;
    Retry.WorstTotal();
    if a < RETRY_MAX_ATTEMPTS {
      BoundsAreReached(root, op, s, a + 1);
      RunNext(root, op, s, a);
      if a > 0 {
        Retry.WaitIsReached(a, s.jitter(a));
      }
    } else {
      RunExhausted(root, op, s);
    }
  }

  /** Attempt `k` succeeds, and all those before it from `a` on failed with retriable errors. */
  ghost predicate SucceedsAt(root: string, op: FileOp, s: Script, a: nat, k: nat)
  {
    && a <= k < RETRY_MAX_ATTEMPTS && Execute(root, op, s.attempts(k)).None?
    && forall j :: a <= j < k ==>
         Execute(root, op, s.attempts(j)).Some? && IsRetriable(Execute(root, op, s.attempts(j)).value)
  }

  /** It succeeds exactly when some attempt in the budget does, after retriable errors only. */
  lemma {:induction false} SucceedsIff(root: string, op: FileOp, s: Script, a: nat)
    requires a <= RETRY_MAX_ATTEMPTS
    ensures RunFrom(root, op, s, a).success <==> exists k: nat :: SucceedsAt(root, op, s, a, k)
    decreases RETRY_MAX_ATTEMPTS - a
  {
    hide Execute, IsRetriable, RunFrom, Retry.WaitMs;
    if a < RETRY_MAX_ATTEMPTS {
      SucceedsIff(root, op, s, a + 1);
      RunNext(root, op, s, a);
      if Execute(root, op, s.attempts(a)).None? {
        assert SucceedsAt(root, op, s, a, a);
      } else if IsRetriable(Execute(root, op, s.attempts(a)).value) {
        var next := a + 1;
        if k: nat :| SucceedsAt(root, op, s, next, k) {
          assert SucceedsAt(root, op, s, a, k);
        }
        if k: nat :| SucceedsAt(root, op, s, a, k) {
          assert SucceedsAt(root, op, s, next, k);
        }
      } else {
        forall k: nat ensures !SucceedsAt(root, op, s, a, k) {
        }
      }
    } else {
      RunExhausted(root, op, s);
    }
  }

  /** The number of the last attempt executed, from number `a` on. */
  function LastAttempt(root: string, op: FileOp, s: Script, a: nat): (k: nat)
    requires a < RETRY_MAX_ATTEMPTS
    decreases RETRY_MAX_ATTEMPTS - a
  {
    var e := Execute(root, op, s.attempts(a));
    if e.Some? && IsRetriable(e.value) && a + 1 < RETRY_MAX_ATTEMPTS then LastAttempt(root, op, s, a + 1) else a
  }

  /** The last attempt decides. */
  lemma {:induction false} LastDecides(root: string, op: FileOp, s: Script, a: nat)
    requires a < RETRY_MAX_ATTEMPTS
    ensures
      var k := LastAttempt(root, op, s, a);
      && a <= k < RETRY_MAX_ATTEMPTS && RunFrom(root, op, s, a).executions == k - a + 1
      && (RunFrom(root, op, s, a).success <==> Execute(root, op, s.attempts(k)).None?)
    decreases RETRY_MAX_ATTEMPTS - a
  {
    hide Execute, IsRetriable, RunFrom, Retry.WaitMs;
    RunNext(root, op, s, a);
    if a + 1 < RETRY_MAX_ATTEMPTS {
      LastDecides(root, op, s, a + 1);
    } else {
      RunExhausted(root, op, s);
    }
  }

  /** The errors that may pass: races and I/O errors, throttling, and what the drive or the network calls transient. */
  predicate MayPass(e: ExecError)
  {
    || e == LocalFailed(Raced) || e == LocalFailed(Io)
    || e == RemoteFailed(Transient) || e == RemoteFailed(Network) || (e.RemoteFailed? && e.remote.Throttled?)
  }

  /** The attempt failed with an error that may pass. */
  predicate MayRetry(root: string, op: FileOp, s: Script, k: nat)
  {
    Execute(root, op, s.attempts(k)).Some? && MayPass(Execute(root, op, s.attempts(k)).value)
  }

  /** The waits that the drive announced in attempts `a` to `k`. */
  function AnnouncedS(root: string, op: FileOp, s: Script, a: nat, k: nat): nat
    decreases k - a
  {
    if a > k then 0
    else
      AnnouncedS(root, op, s, a + 1, k)
      + match Execute(root, op, s.attempts(a))
        case Some(RemoteFailed(Throttled(seconds))) => seconds
        case _ => 0
  }

  /** The backoff before attempts `a` to `k`. */
  function BackoffMs(s: Script, a: nat, k: nat): nat
    decreases k - a
  {
    if a > k then 0 else Retry.WaitMs(a, s.jitter(a)) + BackoffMs(s, a + 1, k)
  }

  /**
   * An operation is tried again exactly after errors that may pass. If `k` is the first attempt
   * from `a` on that succeeds, fails for good or is the last one allowed, then the attempts up to
   * it are made, it decides on success, and every wait announced on the way is kept, in addition
   * to the backoff.
   */
  lemma {:induction false} RetriesIff(root: string, op: FileOp, s: Script, a: nat, k: nat)
    requires a <= k < RETRY_MAX_ATTEMPTS && forall j :: a <= j < k ==> MayRetry(root, op, s, j)
    requires MayRetry(root, op, s, k) ==> k == RETRY_MAX_ATTEMPTS - 1
    ensures
      var run := RunFrom(root, op, s, a);
      && run.executions == k - a + 1 && (run.success <==> Execute(root, op, s.attempts(k)).None?)
      && run.throttleS == AnnouncedS(root, op, s, a, k) && run.backoffMs == BackoffMs(s, a, k)
    decreases k - a
  {
    hide Execute, Retry.WaitMs, RunFrom;
    RunNext(root, op, s, a);
    if a < k {
      assert MayRetry(root, op, s, a);
      RetriesIff(root, op, s, a + 1, k);
    } else if MayRetry(root, op, s, k) {
      RunExhausted(root, op, s);
    }
  }

  /** The first two attempts: the second one is made exactly if the error of the first may pass. */
  lemma {:induction false} SecondChanceIff(root: string, op: FileOp, s: Script)
    requires Execute(root, op, s.attempts(0)).Some? && Execute(root, op, s.attempts(1)).None?
    ensures
      var run := RunFrom(root, op, s, 0);
      if MayPass(Execute(root, op, s.attempts(0)).value) then run.success && run.executions == 2
      else !run.success && run.executions == 1
  {
    hide Execute, RunFrom;
    RetriesIff(root, op, s, 0, if MayRetry(root, op, s, 0) then 1 else 0);
  }

  /** The remote directories that the planner asks for lack their parent, so none is ever made. */
  lemma {:induction false} PlannedRemoteMkdirFails(root: string, op: FileOp, s: Script)
    requires op.kind == OpRemoteMkdir && op.meta == NO_META
    ensures !RunFrom(root, op, s, 0).success && RunFrom(root, op, s, 0).executions == 1
  {
  }

  /** The retry loop: what it executes and how long it sleeps is what the recursion says. */
  method RunOp(root: string, op: FileOp, s: Script) returns (run: OpRun)
    ensures run == RunFrom(root, op, s, 0)
  {
    hide Execute, IsRetriable, ThrottleWait, Retry.Delay, RunFrom;
    assert RunFrom(root, op, s, RETRY_MAX_ATTEMPTS) == OpRun(false, 0, 0, 0) by { RunExhausted(root, op, s); }
    var attempt: nat, backoffMs: nat, throttleS: nat := 0, 0, 0;
    while true
      invariant attempt <= RETRY_MAX_ATTEMPTS
      invariant
        var rest := RunFrom(root, op, s, attempt);
        RunFrom(root, op, s, 0)
        == OpRun(rest.success, attempt + rest.executions, backoffMs + rest.backoffMs, throttleS + rest.throttleS)
      decreases RETRY_MAX_ATTEMPTS - attempt
    {
      if attempt < RETRY_MAX_ATTEMPTS {
        RunNext(root, op, s, attempt);
      }
      match Retry.Decide(attempt, s.jitter(attempt)) {
        case Exhausted => return OpRun(false, attempt, backoffMs, throttleS);
        case Immediate =>
        case Backoff(delayMs) => backoffMs := backoffMs + delayMs;
      }
      match Execute(root, op, s.attempts(attempt)) {
        case None => return OpRun(true, attempt + 1, backoffMs, throttleS);
        case Some(e) =>
          if !IsRetriable(e) {
            return OpRun(false, attempt + 1, backoffMs, throttleS);
          }
          throttleS := throttleS + ThrottleWait(e);
      }
      attempt := attempt + 1;
    }
  }

  // ---------------------------------------------------------------- after a success

  function SyncedAfter(kind: OpKind, e: FileEntry, now: Timestamp): Option<FileSide>
  {
    match kind
    case OpUpload => e.local
    case OpDownload => e.remote
    case OpLocalMkdir => Some(FileSide(Directory, 0, None, now, None, None))
    case OpRemoteMkdir => Some(FileSide(Directory, 0, None, now, None, None))
    case OpLocalDelete => None
    case OpRemoteDelete => None
    case OpLocalRename => e.synced
    case OpRemoteRename => e.synced
  }

  function Settled(kind: OpKind, e: FileEntry, now: Timestamp): FileEntry
  {
    e.(synced := SyncedAfter(kind, e, now), state := Clean, pendingOp := None, updatedAt := now)
  }

  /** The row stored after a successful operation; none for conflict renames, missing rows and store errors. */
  function PostOp(entry: Option<FileEntry>, op: FileOp, s: Script, now: Timestamp): Option<FileEntry>
  {
    if op.meta.fromConflict || !s.rowRead || !s.rowStored then None
    else match entry
      case None => None
      case Some(e) => Some(Settled(op.kind, e, now))
  }

  predicate Succeeds(root: string, op: FileOp, s: Script)
  {
    s.inserts && RunFrom(root, op, s, 0).success
  }

  datatype ExecAcc = ExecAcc(db: Db, log: seq<Write>, applied: nat, failed: nat)

  function ExecRow(root: string, db: Db, op: FileOp, s: Script, now: Timestamp): Option<FileEntry>
  {
    if Succeeds(root, op, s) then PostOp(Row(db, op.path), op, s, now) else None
  }

  function ExecStep(root: string, acc: ExecAcc, op: FileOp, s: Script, now: Timestamp): ExecAcc
  {
    var row := ExecRow(root, acc.db, op, s, now);
    var won := if Succeeds(root, op, s) then 1 else 0;
    ExecAcc(Put(acc.db, row), acc.log + Writes(row), acc.applied + won, acc.failed + (1 - won))
  }

  type Scripts = nat -> Script

  function ExecWalk(root: string, db: Db, ops: seq<FileOp>, scripts: Scripts, clock: Clock, n: nat): ExecAcc
    requires n <= |ops|
  {
    if n == 0 then ExecAcc(db, [], 0, 0)
    else ExecStep(root, ExecWalk(root, db, ops, scripts, clock, n - 1), ops[n - 1], scripts(n - 1), clock(n - 1))
  }

  /** Execution leaves both sides of every row and the pair's row alone. */
  predicate ExecRule(db: Db, w: Write)
  {
    KeepsLocal(db, w) && KeepsRemote(db, w) && KeepsPair(db, w) && (w.PutEntry? ==> w.entry.path in db.rows)
  }

  /** Every operation is counted once; the writes are those of execution. */
  lemma {:induction false} ExecWalkFacts(root: string, db: Db, ops: seq<FileOp>, scripts: Scripts, clock: Clock, n: nat)
    requires n <= |ops| && WellKeyed(db)
    ensures
      var acc := ExecWalk(root, db, ops, scripts, clock, n);
      acc.applied + acc.failed == n && Leads(db, acc.log, acc.db, ExecRule) && acc.db.conflicts == db.conflicts
  {
    hide Succeeds, Leads, PostOp;
    if n > 0 {
      ExecWalkFacts(root, db, ops, scripts, clock, n - 1);
      var before := ExecWalk(root, db, ops, scripts, clock, n - 1);
      var row := ExecRow(root, before.db, ops[n - 1], scripts(n - 1), clock(n - 1));
      if row.Some? {
        RowKeepsSides(root, db, before.log, before.db, ops[n - 1], scripts(n - 1), clock(n - 1));
        LeadsOn(db, before.log, before.db, PutEntry(row.value), ExecRule);
      } else {
        assert before.log + [] == before.log;
      }
    } else {
      LeadsNowhere(db, ExecRule);
    }
  }

  lemma RowKeepsSides(root: string, base: Db, log: seq<Write>, db: Db, op: FileOp, s: Script, now: Timestamp)
    requires Leads(base, log, db, ExecRule)
    ensures
      var row := ExecRow(root, db, op, s, now);
      row.Some? ==>
        ExecRule(db, PutEntry(row.value)) && row.value.path == op.path && op.path in db.rows && !op.meta.fromConflict
  {
    hide RunFrom;
  }

  lemma {:induction false} ExecLogGrows(root: string, db: Db, ops: seq<FileOp>, scripts: Scripts, clock: Clock,
                                        m: nat, n: nat)
    requires m <= n <= |ops|
    ensures ExecWalk(root, db, ops, scripts, clock, m).log <= ExecWalk(root, db, ops, scripts, clock, n).log
    decreases n
  {
    hide ExecRow, Succeeds;
    if m < n {
      ExecLogGrows(root, db, ops, scripts, clock, m, n - 1);
    }
  }

  /** An operation that is not a conflict rename, at `p`. */
  predicate Settles(op: FileOp, p: RelPath)
  {
    op.path == p && !op.meta.fromConflict
  }

  lemma StepElsewhere(root: string, base: Db, acc: ExecAcc, op: FileOp, s: Script, now: Timestamp, p: RelPath)
    requires Leads(base, acc.log, acc.db, ExecRule) && !Settles(op, p)
    ensures Row(ExecStep(root, acc, op, s, now).db, p) == Row(acc.db, p)
  {
    hide Leads, ExecRow, ExecRule, Succeeds;
    RowKeepsSides(root, base, acc.log, acc.db, op, s, now);
  }

  /** Rows change only at paths of operations that are not conflict renames. */
  lemma {:induction false} UntouchedRow(root: string, db: Db, ops: seq<FileOp>, scripts: Scripts, clock: Clock,
                                        m: nat, n: nat, p: RelPath)
    requires m <= n <= |ops| && WellKeyed(db)
    requires forall i :: m <= i < n ==> !Settles(ops[i], p)
    ensures Row(ExecWalk(root, db, ops, scripts, clock, n).db, p) ==
        Row(ExecWalk(root, db, ops, scripts, clock, m).db, p)
    decreases n
  {
    hide Leads, ExecStep, Settles, Row;
    if m < n {
      UntouchedRow(root, db, ops, scripts, clock, m, n - 1, p);
      ExecWalkFacts(root, db, ops, scripts, clock, n - 1);
      var before := ExecWalk(root, db, ops, scripts, clock, n - 1);
      StepElsewhere(root, db, before, ops[n - 1], scripts(n - 1), clock(n - 1), p);
    }
  }

  /** The row at the end, for a path with one operation that can settle it. */
  lemma {:induction false} SettledRow(root: string, db: Db, ops: seq<FileOp>, scripts: Scripts, clock: Clock, i: nat)
    requires i < |ops| && WellKeyed(db)
    requires forall j :: 0 <= j < |ops| && j != i ==> !Settles(ops[j], ops[i].path)
    ensures
      var p := ops[i].path;
      Row(ExecWalk(root, db, ops, scripts, clock, |ops|).db, p) ==
      (var after := ExecRow(root, db, ops[i], scripts(i), clock(i));
       if after.Some? then after else Row(db, p))
  {
    hide Succeeds, Leads;
    var p := ops[i].path;
    UntouchedRow(root, db, ops, scripts, clock, 0, i, p);
    UntouchedRow(root, db, ops, scripts, clock, i + 1, |ops|, p);
    ExecWalkFacts(root, db, ops, scripts, clock, i);
    var before := ExecWalk(root, db, ops, scripts, clock, i);
    RowKeepsSides(root, db, before.log, before.db, ops[i], scripts(i), clock(i));
    assert Row(before.db, p) == Row(db, p);
  }

  // ---------------------------------------------------------------- prefixes of execution

  /** Every prefix of the writes of execution is all that some number of operations write. */
  lemma {:induction false} ExecLogAt(root: string, db: Db, ops: seq<FileOp>, scripts: Scripts, clock: Clock, n: nat,
                                     k: nat)
    returns (m: nat)
    requires n <= |ops| && k <= |ExecWalk(root, db, ops, scripts, clock, n).log|
    ensures m <= n
    ensures ExecWalk(root, db, ops, scripts, clock, m).log == ExecWalk(root, db, ops, scripts, clock, n).log[..k]
    decreases n
  {
    hide ExecRow;
    var log := ExecWalk(root, db, ops, scripts, clock, n).log;
    if k == |log| {
      m := n;
      assert log[..k] == log;
    } else {
      var before := ExecWalk(root, db, ops, scripts, clock, n - 1).log;
      m := ExecLogAt(root, db, ops, scripts, clock, n - 1, k);
      assert before[..k] == log[..k];
    }
  }

  predicate IsDirectoryBase(base: Option<FileSide>)
  {
    && base.Some? && base.value.kind == Directory && base.value.size == 0
    && base.value.hash.None? && base.value.etag.None? && base.value.remoteId.None?
  }

  /** The merge base that a successful operation makes of a row. */
  predicate BaseFrom(kind: OpKind, e: FileEntry, base: Option<FileSide>)
  {
    match kind
    case OpUpload => base == e.local
    case OpDownload => base == e.remote
    case OpLocalMkdir => IsDirectoryBase(base)
    case OpRemoteMkdir => IsDirectoryBase(base)
    case OpLocalDelete => base == None
    case OpRemoteDelete => base == None
    case _ => false
  }

  /** The operation succeeded, and made `base` the merge base of the row that `db` has for `p`. */
  predicate MovesBase(root: string, db: Db, op: FileOp, s: Script, p: RelPath, base: Option<FileSide>)
  {
    Settles(op, p) && Succeeds(root, op, s) && p in db.rows && BaseFrom(op.kind, db.rows[p], base)
  }

  lemma ExecStepBase(root: string, first: Db, db: Db, op: FileOp, s: Script, now: Timestamp, p: RelPath)
    requires WellKeyed(db) && SameSides(Row(first, p), Row(db, p))
    ensures
      var after := Put(db, ExecRow(root, db, op, s, now));
      && SameSides(Row(first, p), Row(after, p))
      && (BaseOf(after, p) == BaseOf(db, p) || MovesBase(root, first, op, s, p, BaseOf(after, p)))
  {
    hide Succeeds;
  }

  /** A merge base that execution changed is the one made by some successful operation. */
  lemma {:induction false} ExecBase(root: string, db: Db, ops: seq<FileOp>, scripts: Scripts, clock: Clock, n: nat,
                                    p: RelPath)
    requires n <= |ops| && WellKeyed(db)
    ensures
      var after := ExecWalk(root, db, ops, scripts, clock, n).db;
      && SameSides(Row(db, p), Row(after, p))
      && (BaseOf(after, p) == BaseOf(db, p)
          || exists i :: 0 <= i < n && MovesBase(root, db, ops[i], scripts(i), p, BaseOf(after, p)))
  {
    hide MovesBase, SameSides, ExecRow, Leads, Row, BaseOf;
    if n > 0 {
      ExecBase(root, db, ops, scripts, clock, n - 1, p);
      ExecWalkFacts(root, db, ops, scripts, clock, n - 1);
      var before := ExecWalk(root, db, ops, scripts, clock, n - 1);
      LeadsKeyed(db, before.log, before.db, ExecRule);
      ExecStepBase(root, db, before.db, ops[n - 1], scripts(n - 1), clock(n - 1), p);
    } else {
      assert SameSides(Row(db, p), Row(db, p)) by { SidesReflexive(Row(db, p)); }
    }
  }

  /** Nothing failed exactly when every operation succeeded. */
  lemma {:induction false} NothingFailedIff(root: string, db: Db, ops: seq<FileOp>, scripts: Scripts, clock: Clock,
                                            n: nat)
    requires n <= |ops|
    ensures ExecWalk(root, db, ops, scripts, clock, n).failed == 0 <==>
            forall i :: 0 <= i < n ==> Succeeds(root, ops[i], scripts(i))
  {
    hide Succeeds, ExecRow;
    if n > 0 {
      NothingFailedIff(root, db, ops, scripts, clock, n - 1);
    }
  }

  function ClassifyOutcome(applied: nat, failed: nat): RunOutcome
  {
    if failed == 0 then RunSuccess else PartialFailure
  }

  // ---------------------------------------------------------------- the phase

  /** Reflects a successful operation on the row of its path. */
  method UpdateFileEntryPostOp(store: StateStore, op: FileOp, s: Script, now: Timestamp)
    requires store.Valid()
    modifies store
    ensures store.Valid()
    ensures
      var row := PostOp(Row(old(store.Value()), op.path), op, s, now);
      store.Value() == Put(old(store.Value()), row) && store.log == old(store.log) + Writes(row)
    ensures store.failures == old(store.failures)
  {
    if op.meta.fromConflict || !s.rowRead {
      return;
    }
    var entry := store.Read(op.path);
    if entry.None? || !s.rowStored {
      return;
    }
    store.Upsert(entry.value.(synced := SyncedAfter(op.kind, entry.value, now), state := Clean,
                              pendingOp := None, updatedAt := now));
  }

  lemma {:induction false} ExecFirst(root: string, db: Db, ops: seq<FileOp>, scripts: Scripts, clock: Clock)
    ensures ExecWalk(root, db, ops, scripts, clock, 0) == ExecAcc(db, [], 0, 0)
  {
  }

  lemma ExecNext(root: string, db: Db, ops: seq<FileOp>, scripts: Scripts, clock: Clock, n: nat)
    requires n < |ops|
    ensures ExecWalk(root, db, ops, scripts, clock, n + 1)
            == ExecStep(root, ExecWalk(root, db, ops, scripts, clock, n), ops[n], scripts(n), clock(n))
  {
    hide ExecStep;
  }

  /** Executes the operations in order; no failure of one of them stops the others. */
  method PhaseExecute(root: string, store: StateStore, ops: seq<FileOp>, scripts: Scripts, clock: Clock)
    returns (applied: nat, failed: nat)
    requires store.Valid()
    modifies store
    ensures store.Valid()
    ensures
      var acc := ExecWalk(root, old(store.Value()), ops, scripts, clock, |ops|);
      && store.Value() == acc.db && store.log == old(store.log) + acc.log
      && applied == acc.applied && failed == acc.failed
    ensures applied + failed == |ops| && store.failures == old(store.failures)
  {
    hide RunFrom, PostOp, Leads, ExecWalk;
    ExecFirst(root, store.Value(), ops, scripts, clock);
    ghost var db, log0 := store.Value(), store.log;
    applied, failed := 0, 0;
    var i := 0;
    while i < |ops|
      invariant 0 <= i <= |ops| && store.Valid() && store.failures == old(store.failures)
      invariant
        var acc := ExecWalk(root, db, ops, scripts, clock, i);
        && store.Value() == acc.db && store.log == log0 + acc.log
        && applied == acc.applied && failed == acc.failed
    {
      ExecNext(root, db, ops, scripts, clock, i);
      var op, s := ops[i], scripts(i);
      if !s.inserts {
        failed := failed + 1;
      } else {
        var run := RunOp(root, op, s);
        if run.success {
          UpdateFileEntryPostOp(store, op, s, clock(i));
          applied := applied + 1;
        } else {
          failed := failed + 1;
        }
      }
      i := i + 1;
    }
    ExecWalkFacts(root, db, ops, scripts, clock, |ops|);
  }
}
