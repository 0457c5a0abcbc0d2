/**
 * One sync cycle as a whole: what each phase hands to the next, the operations it ends up with,
 * and the sequence of its writes to the store.
 */
module Cycle {
  import opened Collections
  import opened Paths
  import opened Types
  import opened Store
  import opened Collisions
  import opened DeltaPhase
  import opened DeltaEngine
  import opened LocalPhase
  import opened ConflictPhase
  import opened ResolvePhase
  import opened ExecutePhase
  import opened Planner

  /** The clock readings of the phases. */
  datatype Clocks = Clocks(
    start: Timestamp, delta: Clock, cursor: Timestamp, local: Clock, overlap: Clock, resolve: Clock, exec: Clock)

  /**
   * What a cycle meets: the page, the collision map found on it with the renames made for it, the
   * scan, the clock, and the answers of the ports during execution.
   */
  datatype Input = Input(
    page: Page,
    colls: map<RelPath, RelPath>,
    renames: seq<Rename>,
    scan: seq<ScanEntry>,
    clocks: Clocks,
    scripts: Scripts)

  ghost predicate WellFormed(env: Env, c: Input)
  {
    && IsCollisionMap(env.fold, PathsOf(c.page.items), c.colls)
    && RenamesFor(env, c.page.items, c.colls, c.renames)
    && CoarserThanAscii(env.fold)
  }

  /** The pair's row to store after the page, if there is a row and its cursor moves. */
  function CursorMove(db: Db, token: Option<string>, now: Timestamp): seq<Write>
  {
    if db.pair.None? || db.pair.value.deltaToken == token then []
    else [PutPair(db.pair.value.(deltaToken := token, updatedAt := now))]
  }

  function PathsDecided(ds: seq<Decision>): set<RelPath>
  {
    set d | d in ds :: d.path
  }

  /** The remote rename of a case-collision loser. */
  function RenameOp(r: Rename, now: Timestamp): FileOp
  {
    FileOp(r.path, OpRemoteRename,
           NO_META.(remoteItemId := Some(r.itemId), newName := Some(r.newLeaf), fromConflict := true), now)
  }

  function RenameOps(rs: seq<Rename>, now: Timestamp): seq<FileOp>
  {
    seq(|rs|, i requires 0 <= i < |rs| => RenameOp(rs[i], now))
  }

  /** The phases of one cycle. */
  datatype Trace = Trace(
    delta: DeltaAcc,
    cursor: seq<Write>,
    local: LocalAcc,
    overlap: OverlapAcc,
    resolve: ResolveAcc,
    planned: seq<FileOp>,
    renames: seq<FileOp>,
    exec: ExecAcc)
  {
    function Ops(): seq<FileOp>
    {
      planned + resolve.ops + renames
    }
  }

  ghost function DeltaOf(env: Env, db: Db, c: Input): DeltaAcc
  {
    DeltaResult(env, c.colls, db, c.renames, c.page, c.clocks.delta)
  }

  ghost function LocalOf(env: Env, c: Input, d: DeltaAcc): LocalAcc
  {
    LocalWalk(env, PathsDecided(d.decisions), d.live, Replay(d.db, CursorMove(d.db, c.page.token, c.clocks.cursor)),
              c.scan, c.clocks.local, |c.scan|)
  }

  ghost function OverlapOf(c: Input, d: DeltaAcc, l: LocalAcc): OverlapAcc
  {
    OverlapWalk(l.db, d.decisions + l.decisions, l.overlaps, c.clocks.overlap, |l.overlaps|)
  }

  ghost function ResolveOf(env: Env, c: Input, o: OverlapAcc): ResolveAcc
  {
    ResolveWalk(env, o.db, o.decisions, c.clocks.resolve, |o.decisions|)
  }

  function PlannedOf(c: Input, r: ResolveAcc): seq<FileOp>
  {
    Planned(r.kept, c.clocks.start)
  }

  function RenamesOf(c: Input, d: DeltaAcc): seq<FileOp>
  {
    RenameOps(d.renames, c.clocks.start)
  }

  function ExecOf(env: Env, c: Input, r: ResolveAcc, ops: seq<FileOp>): ExecAcc
  {
    ExecWalk(env.root, r.db, ops, c.scripts, c.clocks.exec, |ops|)
  }

  ghost function TraceOf(env: Env, db: Db, c: Input): Trace
  {
    var d := DeltaOf(env, db, c);
    var l := LocalOf(env, c, d);
    var o := OverlapOf(c, d, l);
    var r := ResolveOf(env, c, o);
    Trace(d, CursorMove(d.db, c.page.token, c.clocks.cursor), l, o, r, PlannedOf(c, r), RenamesOf(c, d),
          ExecOf(env, c, r, PlannedOf(c, r) + r.ops + RenamesOf(c, d)))
  }

  // ---------------------------------------------------------------- the writes of a cycle

  /** The writes between the cursor and execution. */
  function Middle(t: Trace): seq<Write>
  {
    t.local.log + if t.local.failed then [] else t.overlap.log + t.resolve.log
  }

  /** A cycle gets to its execution phase unless a new name turns out to be invalid. */
  predicate Reaches(t: Trace)
  {
    !t.local.failed && !t.resolve.failed
  }

  function RunOf(t: Trace): RunRow
  {
    RunRow(ClassifyOutcome(t.exec.applied, t.exec.failed), t.exec.applied)
  }

  function Ending(t: Trace): seq<Write>
  {
    if Reaches(t) then t.exec.log + [AddRun(RunOf(t))] else []
  }

  /** All writes of a cycle during which the store and the other fatal ports do not fail. */
  function CycleLog(t: Trace): seq<Write>
  {
    t.delta.log + t.cursor + Middle(t) + Ending(t)
  }

  // ---------------------------------------------------------------- how the phases link up

  /** Writes to the pair's row only. */
  predicate CursorRule(db: Db, w: Write)
  {
    w.PutPair?
  }

  lemma {:induction false} CursorLeads(db: Db, token: Option<string>, now: Timestamp)
    requires WellKeyed(db)
    ensures
      var log := CursorMove(db, token, now);
      Leads(db, log, Replay(db, log), CursorRule)
  {
    LeadsNowhere(db, CursorRule);
    var log := CursorMove(db, token, now);
    if log != [] {
      LeadsOn(db, [], db, log[0], CursorRule);
      assert [] + [log[0]] == log;
    }
  }

  /** The store after the cursor moved. */
  ghost function Moved(t: Trace): Db
  {
    Replay(t.delta.db, t.cursor)
  }

  lemma {:induction false} CursorKeeps(db: Db, token: Option<string>, now: Timestamp)
    ensures
      var after := Replay(db, CursorMove(db, token, now));
      after.rows == db.rows && after.conflicts == db.conflicts
  {
    var log := CursorMove(db, token, now);
    hide Replay;
    assert Replay(db, []) == db by { ReplayNothing(db); }
    if log != [] {
      ReplaySingle(db, log[0]);
    }
  }

  /** The store when the middle of the cycle is over. */
  function Resolved(t: Trace): Db
  {
    if t.local.failed then t.local.db else t.resolve.db
  }

  /** Each part of a cycle's writes keeps to its rule. */
  ghost predicate Linked(db: Db, t: Trace)
  {
    && Leads(db, t.delta.log, t.delta.db, DeltaRule)
    && Leads(t.delta.db, t.cursor, Moved(t), CursorRule)
    && Leads(Moved(t), Middle(t), Resolved(t), Gentle)
    && Leads(t.resolve.db, t.exec.log, t.exec.db, ExecRule)
  }

  lemma CycleIsLinked(env: Env, db: Db, c: Input)
    requires WellKeyed(db)
    ensures Linked(db, TraceOf(env, db, c))
  {
    hide Leads, DeltaRule, Gentle, ExecRule;
    var t := TraceOf(env, db, c);
    WalkIsLegal(env, c.colls, db, c.renames, c.page.items, c.clocks.delta, |c.page.items|, |c.page.items|);
    LeadsKeyed(db, t.delta.log, t.delta.db, DeltaRule);
    CursorLeads(t.delta.db, c.page.token, c.clocks.cursor);
    LeadsKeyed(t.delta.db, t.cursor, Moved(t), CursorRule);
    LocalWalkIsGentle(env, PathsDecided(t.delta.decisions), t.delta.live, Moved(t), c.scan, c.clocks.local, |c.scan|,
                      |c.scan|);
    LeadsKeyed(Moved(t), t.local.log, t.local.db, Gentle);
    OverlapWalkIsGentle(t.local.db, t.delta.decisions + t.local.decisions, t.local.overlaps, c.clocks.overlap,
                        |t.local.overlaps|, |t.local.overlaps|);
    LeadsKeyed(t.local.db, t.overlap.log, t.overlap.db, Gentle);
    ResolveWalkIsGentle(env, t.overlap.db, t.overlap.decisions, c.clocks.resolve, |t.overlap.decisions|,
                        |t.overlap.decisions|);
    LeadsKeyed(t.overlap.db, t.resolve.log, t.resolve.db, Gentle);
    LeadsVia(t.local.db, t.overlap.log, t.overlap.db, t.resolve.log, t.resolve.db, Gentle);
    LeadsVia(Moved(t), t.local.log, t.local.db, t.overlap.log + t.resolve.log, t.resolve.db, Gentle);
    assert t.local.log + [] == t.local.log;
    ExecWalkFacts(env.root, t.resolve.db, t.Ops(), c.scripts, c.clocks.exec, |t.Ops()|);
  }

  // ---------------------------------------------------------------- cutting the log

  /** Where a cycle's writes stop when it is cut after `k` of them. */
  datatype Cut = InDelta(n: nat) | InCursor(n: nat) | InMiddle(n: nat) | InEnding(n: nat)

  function CutAt(t: Trace, k: nat): Cut
    requires k <= |CycleLog(t)|
  {
    var a, b, m := |t.delta.log|, |t.cursor|, |Middle(t)|;
    if k < a then InDelta(k)
    else if k < a + b then InCursor(k - a)
    else if k <= a + b + m then InMiddle(k - a - b)
    else InEnding(k - a - b - m)
  }

  /** The store after the first `k` writes of a cycle. */
  ghost function After(db: Db, t: Trace, k: nat): Db
    requires k <= |CycleLog(t)|
  {
    Replay(db, CycleLog(t)[..k])
  }

  ghost predicate CutFits(t: Trace, cut: Cut)
  {
    match cut
    case InDelta(n) => n <= |t.delta.log|
    case InCursor(n) => n <= |t.cursor|
    case InMiddle(n) => n <= |Middle(t)|
    case InEnding(n) => n <= |Ending(t)|
  }

  /** The store at a cut, from the start of the part it falls into. */
  ghost function StoreAt(db: Db, t: Trace, cut: Cut): Db
    requires CutFits(t, cut)
  {
    match cut
    case InDelta(n) => Replay(db, t.delta.log[..n])
    case InCursor(n) => Replay(t.delta.db, t.cursor[..n])
    case InMiddle(n) => Replay(Moved(t), Middle(t)[..n])
    case InEnding(n) => Replay(Resolved(t), Ending(t)[..n])
  }

  lemma AfterCut(db: Db, t: Trace, k: nat)
    requires k <= |CycleLog(t)| && Linked(db, t)
    ensures CutFits(t, CutAt(t, k)) && After(db, t, k) == StoreAt(db, t, CutAt(t, k))
  {
    hide Every, Replay, Middle, Ending;
    var log, a, b, m := CycleLog(t), t.delta.log, t.cursor, Middle(t);
    match CutAt(t, k) {
      case InDelta(n) =>
        assert log[..k] == a[..n];
      case InCursor(n) =>
        assert log[..k] == a + b[..n];
        ReplayAppend(db, a, b[..n]);
      case InMiddle(n) =>
        assert log[..k] == a + (b + m[..n]);
        ReplayAppend(db, a, b + m[..n]);
        ReplayAppend(t.delta.db, b, m[..n]);
      case InEnding(n) =>
        assert log[..k] == a + (b + (m + Ending(t)[..n]));
        ReplayAppend(db, a, b + (m + Ending(t)[..n]));
        ReplayAppend(t.delta.db, b, m + Ending(t)[..n]);
        ReplayAppend(Moved(t), m, Ending(t)[..n]);
    }
  }
}
