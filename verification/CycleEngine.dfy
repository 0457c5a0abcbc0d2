/** A cycle as the engine runs it, against the trace of `Cycle`. */
module CycleEngine {
  import opened Collections
  import opened Types
  import opened Store
  import opened Collisions
  import opened DeltaPhase
  import opened DeltaEngine
  import opened LocalPhase
  import opened ConflictPhase
  import opened ResolvePhase
  import opened ExecutePhase
  import opened Planner
  import opened Cycle
  import opened CycleOps

  datatype CycleSummary = CycleSummary(
    remoteItemsSeen: nat,
    localEventsSeen: nat,
    opsApplied: nat,
    conflictsDetected: nat,
    deltaToken: Option<string>)

  function SummaryOf(t: Trace, page: Page): CycleSummary
  {
    CycleSummary(|page.items|, t.local.seen, t.exec.applied, ConflictsDetected(t), page.token)
  }

  /** Moves the stored cursor to the page's token. */
  method AdvanceCursor(store: StateStore, token: Option<string>, now: Timestamp) returns (ok: bool)
    requires store.Valid()
    modifies store
    ensures store.Valid()
    ensures
      var moves := CursorMove(old(store.Value()), token, now);
      && old(store.log) <= store.log <= old(store.log) + moves
      && (ok ==> store.log == old(store.log) + moves && store.Value() == Replay(old(store.Value()), moves))
    ensures store.failures == old(store.failures) + if ok then 0 else 1
  {
    var pair;
    ok, pair := store.PairGet();
    if !ok || pair.None? || pair.value.deltaToken == token {
      return;
    }
    var row := pair.value.(deltaToken := token, updatedAt := now);
    ReplayOne(store.Value(), [], PutPair(row));
    assert [] + [PutPair(row)] == [PutPair(row)];
    ok := store.PairUpsert(row);
  }

  method BuildRemoteRenameOps(rs: seq<Rename>, now: Timestamp) returns (ops: seq<FileOp>)
    ensures ops == RenameOps(rs, now)
  {
    ops := [];
    var i := 0;
    while i < |rs|
      invariant 0 <= i <= |rs| && ops == RenameOps(rs, now)[..i]
    {
      ops := ops + [RenameOp(rs[i], now)];
      i := i + 1;
    }
  }

  /** The last phases of `t` are those that follow from its promotion phase. */
  ghost predicate EndsRight(env: Env, c: Input, t: Trace)
  {
    && t.resolve == ResolveOf(env, c, t.overlap)
    && t.planned == PlannedOf(c, t.resolve) && t.renames == RenamesOf(c, t.delta)
    && t.exec == ExecOf(env, c, t.resolve, t.Ops())
  }

  /** From the promoted decisions on. */
  method ResolveAndExecute(env: Env, store: StateStore, decisions: seq<Decision>, collisionRenames: seq<Rename>,
                           clocks: Clocks, scripts: Scripts, ghost c: Input, ghost t: Trace)
    returns (ok: bool, applied: nat)
    requires store.Valid() && EndsRight(env, c, t) && !t.local.failed
    requires c.clocks == clocks && c.scripts == scripts
    requires store.Value() == t.overlap.db && decisions == t.overlap.decisions && collisionRenames == t.delta.renames
    modifies store
    ensures store.Valid()
    ensures old(store.log) <= store.log <= old(store.log) + (t.resolve.log + Ending(t))
    ensures ok ==> Reaches(t) && store.log == old(store.log) + (t.resolve.log + Ending(t)) && applied == t.exec.applied
    ensures ok <==> store.failures == old(store.failures) && Reaches(t)
    ensures store.failures >= old(store.failures)
  {
    hide ResolveWalk, ExecWalk, Planned, RenameOps, Replay, WellKeyed;
    ok, applied := false, 0;
    var resolved := PhaseResolveConflicts(env, store, decisions, clocks.resolve);
    if resolved.Err? {
      return;
    }
    var planned := Plan(resolved.value.0, clocks.start);
    var ops := planned + resolved.value.1;
    var renames := BuildRemoteRenameOps(collisionRenames, clocks.start);
    ops := ops + renames;
    var failed;
    applied, failed := PhaseExecute(env.root, store, ops, scripts, clocks.exec);
    ok := store.RunRecord(RunRow(ClassifyOutcome(applied, failed), applied));
  }

  /** From the scan on: the rest of a cycle whose page has been handled and whose cursor has moved. */
  method FinishCycle(env: Env, store: StateStore, d: DeltaOutcome, scan: seq<ScanEntry>, clocks: Clocks,
                     scripts: Scripts,
                     ghost db: Db, ghost c: Input, ghost t: Trace)
    returns (r: Result<CycleSummary, EngineError>)
    requires store.Valid() && WellFormed(env, c) && WellKeyed(db) && t == TraceOf(env, db, c)
    requires c.scan == scan && c.clocks == clocks && c.scripts == scripts
    requires d == Outcome(t.delta, c.page) && store.Value() == Moved(t)
    modifies store
    ensures store.Valid()
    ensures old(store.log) <= store.log <= old(store.log) + (Middle(t) + Ending(t))
    ensures r.Ok? ==>
      Reaches(t) && store.log == old(store.log) + (Middle(t) + Ending(t)) && r.value == SummaryOf(t, c.page)
    ensures r.Ok? <==> store.failures == old(store.failures) && Reaches(t)
    ensures store.failures >= old(store.failures)
  {
    hide WellFormed, DeltaOf, LocalWalk, OverlapWalk, ResolveOf, ExecOf, PlannedOf, RenamesOf, LiveDistinct, Replay,
         WellKeyed, Ending;
    DeltaIsDistinct(env, db, c);
    var local := PhaseLocalUploads(env, store, PathsDecided(d.decisions), d.remoteItemsByPath, scan, clocks.local);
    if local.Err? {
      return Err(Port);
    }
    var decisions := d.decisions + local.value.decisions;
    var conflictsDetected := d.conflictsDetected + local.value.collisionsRecorded;
    var promoted := ApplyInitialSyncCollisions(store, decisions, local.value.overlaps, clocks.overlap);
    if promoted.Err? {
      return Err(Port);
    }
    conflictsDetected := conflictsDetected + promoted.value.1;
    var ok, applied := ResolveAndExecute(env, store, promoted.value.0, d.collisionRenames, clocks, scripts, c, t);
    if !ok {
      return Err(Port);
    }
    return Ok(CycleSummary(d.remoteItemsSeen, local.value.localEventsSeen, applied, conflictsDetected, d.deltaToken));
  }

  /** The cycle has made the first `k` of its writes. */
  ghost predicate Made(log0: seq<Write>, log: seq<Write>, t: Trace, k: nat)
  {
    k <= |CycleLog(t)| && log == log0 + CycleLog(t)[..k]
  }

  lemma MadePart(log0: seq<Write>, log: seq<Write>, t: Trace)
    requires log0 <= log <= log0 + CycleLog(t)
    ensures Made(log0, log, t, |log| - |log0|)
  {
    assert log == (log0 + CycleLog(t))[..|log|];
  }

  /** A prefix of one part of the writes, after all those before it, is a prefix of all. */
  lemma PrefixOfAll(log0: seq<Write>, log: seq<Write>, t: Trace)
    ensures log0 <= log <= log0 + t.delta.log ==> log0 <= log <= log0 + CycleLog(t)
    ensures log0 + t.delta.log <= log <= log0 + t.delta.log + t.cursor ==> log0 <= log <= log0 + CycleLog(t)
    ensures log0 + t.delta.log + t.cursor <= log <= log0 + t.delta.log + t.cursor + (Middle(t) + Ending(t)) ==>
      log0 <= log <= log0 + CycleLog(t)
    ensures log0 + t.delta.log + t.cursor + (Middle(t) + Ending(t)) == log0 + CycleLog(t)
  {
    hide Middle, Ending;
    var a, b, m, e := t.delta.log, t.cursor, Middle(t), Ending(t);
    assert log0 + CycleLog(t) == log0 + a + b + (m + e);
    assert log0 + CycleLog(t) == log0 + a + (b + (m + e));
  }

  /**
   * One cycle: whatever fails, the writes made are the first few of those of its trace; if it
   * returns a summary, they are all of them. It returns one exactly if no call that it cannot go
   * on without has failed, and no new name has turned out to be invalid.
   */
  method RunCycle(env: Env, store: StateStore, page: Page, scan: seq<ScanEntry>, clocks: Clocks, scripts: Scripts)
    returns (r: Result<CycleSummary, EngineError>, ghost c: Input, ghost k: nat)
    requires store.Valid() && CoarserThanAscii(env.fold)
    modifies store
    ensures store.Valid()
    ensures WellFormed(env, c) && c == Input(page, c.colls, c.renames, scan, clocks, scripts)
    ensures
      var t := TraceOf(env, old(store.Value()), c);
      && Made(old(store.log), store.log, t, k) && store.Value() == After(old(store.Value()), t, k)
      && (r.Ok? ==> k == |CycleLog(t)| && r.value == SummaryOf(t, page))
      && (r.Ok? <==> store.failures == old(store.failures) && Reaches(t))
    ensures store.failures >= old(store.failures)
  {
    hide WellFormed, LocalOf, OverlapOf, ResolveOf, PlannedOf, RenamesOf, ExecOf, Middle, Ending, CycleLog,
         SummaryOf, Replay, WellKeyed, DeltaResult;
    ghost var db, log0 := store.Value(), store.log;
    var page1: Result<DeltaOutcome, EngineError>;
    ghost var colls, renames0;
    page1, colls, renames0 := PhaseDeltaReconcile(env, store, page, clocks.delta);
    c := Input(page, colls, renames0, scan, clocks, scripts);
    assert WellFormed(env, c) by { IsWellFormed(env, c); }
    ghost var t := TraceOf(env, db, c);
    PrefixOfAll(log0, store.log, t);
    r := Err(Port);
    if page1.Ok? {
      var ok := AdvanceCursor(store, page1.value.deltaToken, clocks.cursor);
      PrefixOfAll(log0, store.log, t);
      if ok {
        r := FinishCycle(env, store, page1.value, scan, clocks, scripts, db, c, t);
        PrefixOfAll(log0, store.log, t);
      }
    }
    MadePart(log0, store.log, t);
    k := |store.log| - |log0|;
    StoreFollows(store.base, log0, store.log, t, k);
  }

  lemma IsWellFormed(env: Env, c: Input)
    requires IsCollisionMap(env.fold, PathsOf(c.page.items), c.colls)
    requires RenamesFor(env, c.page.items, c.colls, c.renames)
    requires CoarserThanAscii(env.fold)
    ensures WellFormed(env, c)
  {
  }

  lemma {:induction false} StoreFollows(base: Db, log0: seq<Write>, log: seq<Write>, t: Trace, k: nat)
    requires Made(log0, log, t, k)
    ensures Replay(base, log) == After(Replay(base, log0), t, k)
  {
    hide CycleLog;
    ReplayAppend(base, log0, CycleLog(t)[..k]);
  }
}
