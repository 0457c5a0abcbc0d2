/** What holds of the store after any number of a cycle's writes. */
module CycleSafety {
  import opened Collections
  import opened Paths
  import opened Types
  import opened Store
  import opened DeltaPhase
  import opened LocalPhase
  import opened ConflictPhase
  import opened ResolvePhase
  import opened ExecutePhase
  import opened Cycle
  import opened CycleOps

  // ---------------------------------------------------------------- the parts of the log

  /** The writes of the ending keep to the rule of execution. */
  lemma EndingLeads(db: Db, t: Trace)
    requires Linked(db, t)
    ensures Leads(Resolved(t), Ending(t), Replay(Resolved(t), Ending(t)), ExecRule)
  {
    LeadsKeyed(Moved(t), Middle(t), Resolved(t), Gentle);
    if Reaches(t) {
      LeadsOn(t.resolve.db, t.exec.log, t.exec.db, AddRun(RunOf(t)), ExecRule);
      LeadsKeyed(t.resolve.db, Ending(t), Apply(t.exec.db, AddRun(RunOf(t))), ExecRule);
    } else {
      LeadsNowhere(Resolved(t), ExecRule);
    }
  }

  /** What the writes after the cursor have in common. */
  predicate RemoteRule(db: Db, w: Write)
  {
    KeepsRemote(db, w) && KeepsPair(db, w)
  }

  /** After the cursor has moved, the remote sides and the pair's row stay. */
  lemma RemoteStays(db: Db, t: Trace, k: nat, p: RelPath)
    requires k <= |CycleLog(t)| && Linked(db, t) && |t.delta.log| + |t.cursor| <= k
    ensures After(db, t, k).pair == Moved(t).pair
    ensures p in Moved(t).rows ==>
      p in After(db, t, k).rows && After(db, t, k).rows[p].remote == Moved(t).rows[p].remote
  {
    hide Leads, Linked, Middle, Ending, Replay, CycleLog, Reaches;
    AfterCut(db, t, k);
    MiddleAndEnding(db, t);
    match CutAt(t, k) {
      case InMiddle(n) =>
        PrefixKeepsRemote(Moved(t), Middle(t), Resolved(t), n, p);
      case InEnding(n) =>
        PrefixKeepsRemote(Moved(t), Middle(t), Resolved(t), |Middle(t)|, p);
        WholePrefix(Moved(t), Middle(t), Resolved(t));
        PrefixKeepsRemote(Resolved(t), Ending(t), Replay(Resolved(t), Ending(t)), n, p);
      case _ =>
    }
  }

  lemma MiddleAndEnding(db: Db, t: Trace)
    requires Linked(db, t)
    ensures Leads(Moved(t), Middle(t), Resolved(t), RemoteRule)
    ensures Leads(Resolved(t), Ending(t), Replay(Resolved(t), Ending(t)), RemoteRule)
  {
    hide Leads, Middle, Ending;
    EndingLeads(db, t);
    LeadsWeaken(Moved(t), Middle(t), Resolved(t), Gentle, RemoteRule);
    LeadsWeaken(Resolved(t), Ending(t), Replay(Resolved(t), Ending(t)), ExecRule, RemoteRule);
  }

  lemma {:induction false} WholePrefix(db: Db, log: seq<Write>, after: Db)
    requires Leads(db, log, after, RemoteRule)
    ensures Replay(db, log[..|log|]) == after
  {
    assert log[..|log|] == log;
  }

  lemma {:induction false} PrefixKeepsRemote(db: Db, log: seq<Write>, after: Db, n: nat, p: RelPath)
    requires Leads(db, log, after, RemoteRule) && n <= |log|
    ensures Replay(db, log[..n]).pair == db.pair
    ensures p in db.rows ==> p in Replay(db, log[..n]).rows && Replay(db, log[..n]).rows[p].remote == db.rows[p].remote
  {
    EveryPrefix(db, log, n, RemoteRule);
    EveryWeaken(db, log[..n], RemoteRule, KeepsRemote);
    EveryWeaken(db, log[..n], RemoteRule, KeepsPair);
    PairIsKept(db, log[..n]);
    if p in db.rows {
      RemoteIsKept(db, log[..n], p);
    }
  }

  // ---------------------------------------------------------------- cursor crash safety

  /** The pair's row with the page's token as cursor. */
  function Advanced(pair: Option<PairRow>, token: Option<string>, now: Timestamp): Option<PairRow>
  {
    if pair.None? || pair.value.deltaToken == token then pair
    else Some(pair.value.(deltaToken := token, updatedAt := now))
  }

  /** An item that the page must leave a mark for: kept, not skipped, and live or already tracked. */
  predicate MustBeRecorded(db: Db, colls: map<RelPath, RelPath>, item: RemoteItem)
  {
    && Survives(colls, item)
    && !IsSkipped(db, ItemPath(item).value, item)
    && (!item.deleted || ItemPath(item).value in db.rows)
  }

  /** The stored row of the item's path shows what the page said. */
  predicate IsRecorded(db: Db, item: RemoteItem, at: Timestamp)
    requires ItemPath(item).Some?
  {
    var p := ItemPath(item).value;
    && p in db.rows
    && db.rows[p].remote == if item.deleted then None else Some(RemoteSideOf(item, at))
  }

  lemma RecordedByPage(env: Env, db: Db, c: Input, t: Trace, i: nat)
    requires WellFormed(env, c) && WellKeyed(db) && t == TraceOf(env, db, c)
    requires i < |c.page.items| && MustBeRecorded(db, c.colls, c.page.items[i])
    ensures IsRecorded(t.delta.db, c.page.items[i], c.clocks.delta(i)) && t.delta.db.pair == db.pair
  {
    hide WellFormed, DeltaOf, LocalOf, OverlapOf, ResolveOf, PlannedOf, RenamesOf, ExecOf, LiveSummary, DecisionFor,
         IsSkipped, ItemPath;
    DeltaSummary(env, db, c);
    var item, at := c.page.items[i], c.clocks.delta(i);
    var p := ItemPath(item).value;
    assert Row(t.delta.db, p) == RowAfter(db, item, at);
  }

  /**
   * Whatever number of a cycle's writes have been made: the pair's row has either not been
   * touched, or has the page's token; and once it is touched, or could have been, every item that
   * the page must leave a mark for is recorded.
   */
  lemma CursorCrashSafety(env: Env, db: Db, c: Input, t: Trace, k: nat)
    requires WellFormed(env, c) && WellKeyed(db) && t == TraceOf(env, db, c) && k <= |CycleLog(t)|
    ensures
      var now, ready := After(db, t, k), |t.delta.log|;
      && now.pair == (if k < ready + |t.cursor| then db.pair else Advanced(db.pair, c.page.token, c.clocks.cursor))
      && (k >= ready || now.pair != db.pair ==>
            forall i :: 0 <= i < |c.page.items| && MustBeRecorded(db, c.colls, c.page.items[i]) ==>
              IsRecorded(now, c.page.items[i], c.clocks.delta(i)))
  {
    hide WellFormed, TraceOf, ItemPath, Linked;
    CycleIsLinked(env, db, c);
    PairBefore(env, db, c, t, k);
    if k >= |t.delta.log| {
      forall i | 0 <= i < |c.page.items| && MustBeRecorded(db, c.colls, c.page.items[i])
        ensures IsRecorded(After(db, t, k), c.page.items[i], c.clocks.delta(i))
      {
        RecordedAfter(env, db, c, t, k, i);
      }
    }
  }

  lemma PairBefore(env: Env, db: Db, c: Input, t: Trace, k: nat)
    requires WellFormed(env, c) && WellKeyed(db) && t == TraceOf(env, db, c) && k <= |CycleLog(t)|
    requires Linked(db, t)
    ensures After(db, t, k).pair
            == (if k < |t.delta.log| + |t.cursor| then db.pair else Advanced(db.pair, c.page.token, c.clocks.cursor))
    ensures |t.cursor| <= 1
  {
    hide WellFormed, DeltaOf, LocalOf, OverlapOf, ResolveOf, PlannedOf, RenamesOf, ExecOf, Middle, Ending, CycleLog,
         Leads;
    DeltaKeepsPair(env, db, c);
    if k < |t.delta.log| + |t.cursor| {
      AfterCut(db, t, k);
      if k < |t.delta.log| {
        DeltaPrefixKeepsPair(db, t.delta.log, t.delta.db, k);
      } else {
        assert t.cursor[..0] == [];
      }
    } else {
      RemoteStays(db, t, k, "");  // any path will do
      CursorAdvances(t.delta.db, c.page.token, c.clocks.cursor);
    }
  }

  lemma {:induction false} DeltaPrefixKeepsPair(db: Db, log: seq<Write>, after: Db, n: nat)
    requires Leads(db, log, after, DeltaRule) && n <= |log|
    ensures Replay(db, log[..n]).pair == db.pair
  {
    EveryPrefix(db, log, n, DeltaRule);
    EveryWeaken(db, log[..n], DeltaRule, KeepsPair);
    PairIsKept(db, log[..n]);
  }

  lemma {:induction false} CursorAdvances(db: Db, token: Option<string>, now: Timestamp)
    ensures Replay(db, CursorMove(db, token, now)).pair == Advanced(db.pair, token, now)
  {
    var log := CursorMove(db, token, now);
    hide Replay;
    assert Replay(db, []) == db by { ReplayNothing(db); }
    if log != [] {
      ReplaySingle(db, log[0]);
    }
  }

  lemma DeltaKeepsPair(env: Env, db: Db, c: Input)
    requires WellFormed(env, c) && WellKeyed(db)
    ensures DeltaOf(env, db, c).db.pair == db.pair
  {
    hide WellFormed, DeltaOf, DecisionFor, FoldDistinct, LiveSummary;
    DeltaSummary(env, db, c);
  }

  lemma RecordedAfter(env: Env, db: Db, c: Input, t: Trace, k: nat, i: nat)
    requires WellFormed(env, c) && WellKeyed(db) && t == TraceOf(env, db, c) && k <= |CycleLog(t)|
    requires Linked(db, t) && k >= |t.delta.log|
    requires i < |c.page.items| && MustBeRecorded(db, c.colls, c.page.items[i])
    ensures IsRecorded(After(db, t, k), c.page.items[i], c.clocks.delta(i))
  {
    hide WellFormed, DeltaOf, LocalOf, OverlapOf, ResolveOf, PlannedOf, RenamesOf, ExecOf, Middle, Ending, CycleLog,
         Leads, ItemPath;
    RecordedByPage(env, db, c, t, i);
    CursorKeeps(t.delta.db, c.page.token, c.clocks.cursor);
    if k < |t.delta.log| + |t.cursor| {
      PairBefore(env, db, c, t, k);
      AfterCut(db, t, k);
      assert t.cursor[..0] == [];
    } else {
      RemoteStays(db, t, k, ItemPath(c.page.items[i]).value);
    }
  }

  // ---------------------------------------------------------------- parking is absorbing

  lemma ParkedByPage(env: Env, db: Db, c: Input, x: Decision)
    requires WellFormed(env, c) && WellKeyed(db) && IsParked(db, x.path) && NoTombstone(c, x.path)
    requires x in DeltaOf(env, db, c).decisions
    ensures x.kind == NoOp
  {
    hide WellFormed, DeltaOf, FoldDistinct, LiveSummary, Summary, ItemPath, IsSkipped;
    DeltaSummary(env, db, c);
    var ds := DeltaOf(env, db, c).decisions;
    var i :| 0 <= i < |ds| && ds[i] == x;
    var a := FilterMapSource(DecisionFor(db, c.colls), c.page.items, i);
  }

  lemma ParkedThroughPage(env: Env, db: Db, c: Input, t: Trace, p: RelPath)
    requires WellKeyed(db) && t == TraceOf(env, db, c) && IsParked(db, p)
    ensures IsParked(t.delta.db, p) && IsParked(Moved(t), p)
  {
    hide DeltaOf, LocalOf, OverlapOf, ResolveOf, PlannedOf, RenamesOf, ExecOf, Leads;
    CycleIsLinked(env, db, c);
    PrefixKeepsParked(db, t.delta.log, t.delta.db, DeltaRule, |t.delta.log|, p);
    assert t.delta.log[..|t.delta.log|] == t.delta.log;
    LeadsKeyed(db, t.delta.log, t.delta.db, DeltaRule);
    CursorKeeps(t.delta.db, c.page.token, c.clocks.cursor);
  }

  lemma {:induction false} PrefixKeepsParked(db: Db, log: seq<Write>, after: Db, rule: (Db, Write) -> bool, n: nat,
                                             p: RelPath)
    requires Leads(db, log, after, rule) && n <= |log| && IsParked(db, p)
    requires forall d, w :: rule(d, w) ==> KeepsParked(d, w)
    ensures IsParked(Replay(db, log[..n]), p)
  {
    EveryPrefix(db, log, n, rule);
    EveryWeaken(db, log[..n], rule, KeepsParked);
    ParkedIsKept(db, log[..n], p);
  }

  /** Nothing but doing nothing is decided about a parked path without a tombstone. */
  lemma ParkedDecidesNothing(env: Env, db: Db, c: Input, t: Trace, x: Decision)
    requires WellFormed(env, c) && WellKeyed(db) && t == TraceOf(env, db, c)
    requires IsParked(db, x.path) && NoTombstone(c, x.path) && x in t.overlap.decisions
    ensures x.kind == NoOp
  {
    hide WellFormed, DeltaOf, LocalOf, OverlapWalk, ResolveOf, PlannedOf, RenamesOf, ExecOf, NoTombstone,
         DistinctScan, IsParked, NoDownloadAt, Conflicts;
    MergedIsDistinct(env, db, c, t);
    OverlapWalkFacts(t.local.db, Merged(t), t.local.overlaps, c.clocks.overlap, |t.local.overlaps|);
    var i :| 0 <= i < |t.overlap.decisions| && t.overlap.decisions[i] == x;
    var y := Merged(t)[i];
    if i < |t.delta.decisions| {
      ParkedByPage(env, db, c, y);
    } else {
      ScanDecides(env, db, c, t, y);
      ParkedThroughPage(env, db, c, t, y.path);
    }
  }

  /** The only operations at such a path are remote renames of case-collision losers. */
  lemma ParkedGetsNoAction(env: Env, db: Db, c: Input, t: Trace, p: RelPath, i: nat)
    requires WellFormed(env, c) && WellKeyed(db) && t == TraceOf(env, db, c) && Reaches(t)
    requires IsParked(db, p) && NoTombstone(c, p) && i < |t.Ops()| && t.Ops()[i].path == p
    ensures i >= |t.planned| + |t.resolve.ops|
    ensures t.Ops()[i].kind == OpRemoteRename && t.Ops()[i].meta.fromConflict
  {
    hide WellFormed, TraceOf, NoTombstone, IsParked, InGroup;
    var n, m := |t.planned|, |t.resolve.ops|;
    if i < n {
      var d := PlannedSource(env, db, c, t, t.planned[i]);
      ParkedDecidesNothing(env, db, c, t, d);
    } else if i < n + m {
      KeptAre(env, db, c, t);
      assert t.resolve.ops[i - n] in t.resolve.ops;
      var d :| d in t.overlap.decisions && d.kind.IsConflict() && d.path == t.resolve.ops[i - n].path;
      ParkedDecidesNothing(env, db, c, t, d);
    } else {
      RenamesAre(env, db, c, t, i - n - m);
    }
  }

  /** The store during execution, without the run's own row. */
  lemma ExecutionAt(env: Env, db: Db, c: Input, t: Trace, n: nat) returns (m: nat)
    requires WellKeyed(db) && t == TraceOf(env, db, c) && Linked(db, t) && Reaches(t) && n <= |Ending(t)|
    ensures m <= |t.Ops()|
    ensures Replay(Resolved(t), Ending(t)[..n]).rows
            == ExecWalk(env.root, t.resolve.db, t.Ops(), c.scripts, c.clocks.exec, m).db.rows
    ensures WellKeyed(t.resolve.db)
    ensures n == |Ending(t)| ==> m == |t.Ops()|
  {
    hide DeltaOf, LocalOf, OverlapOf, ResolveOf, PlannedOf, RenamesOf, ExecWalk, Every, Succeeds;
    var ops := t.Ops();
    LeadsKeyed(Moved(t), Middle(t), Resolved(t), Gentle);
    var ending := Ending(t);
    if n <= |t.exec.log| {
      m := ExecLogAt(env.root, t.resolve.db, ops, c.scripts, c.clocks.exec, |ops|, n);
      assert ending[..n] == t.exec.log[..n];
      ExecWalkFacts(env.root, t.resolve.db, ops, c.scripts, c.clocks.exec, m);
    } else {
      m := |ops|;
      assert ending[..n] == t.exec.log + [AddRun(RunOf(t))];
      ReplayOne(t.resolve.db, t.exec.log, AddRun(RunOf(t)));
      ExecWalkFacts(env.root, t.resolve.db, ops, c.scripts, c.clocks.exec, m);
    }
  }

  /** However many writes of a cycle are made, a parked path without a tombstone stays parked. */
  lemma ParkedStaysParked(env: Env, db: Db, c: Input, t: Trace, k: nat, p: RelPath)
    requires WellFormed(env, c) && WellKeyed(db) && t == TraceOf(env, db, c) && k <= |CycleLog(t)|
    requires IsParked(db, p) && NoTombstone(c, p)
    ensures IsParked(After(db, t, k), p)
  {
    hide WellFormed, DeltaOf, LocalOf, OverlapOf, ResolveOf, PlannedOf, RenamesOf, ExecOf, NoTombstone, Leads,
         Middle, Ending, CycleLog, ExecRule;
    CycleIsLinked(env, db, c);
    AfterCut(db, t, k);
    ParkedThroughPage(env, db, c, t, p);
    match CutAt(t, k) {
      case InDelta(n) => PrefixKeepsParked(db, t.delta.log, t.delta.db, DeltaRule, n, p);
      case InCursor(n) =>
        PairBefore(env, db, c, t, k);
        assert t.cursor[..0] == [];
      case InMiddle(n) => PrefixKeepsParked(Moved(t), Middle(t), Resolved(t), Gentle, n, p);
      case InEnding(n) => ParkedThroughExecution(env, db, c, t, n, p);
    }
  }

  lemma ParkedThroughExecution(env: Env, db: Db, c: Input, t: Trace, n: nat, p: RelPath)
    requires WellFormed(env, c) && WellKeyed(db) && t == TraceOf(env, db, c) && Linked(db, t) && n <= |Ending(t)|
    requires IsParked(db, p) && NoTombstone(c, p)
    ensures IsParked(Replay(Resolved(t), Ending(t)[..n]), p)
  {
    hide WellFormed, DeltaOf, LocalOf, OverlapOf, ResolveOf, PlannedOf, RenamesOf, NoTombstone, Leads, Middle,
         ExecRule, Succeeds;
    ParkedThroughPage(env, db, c, t, p);
    PrefixKeepsParked(Moved(t), Middle(t), Resolved(t), Gentle, |Middle(t)|, p);
    assert Middle(t)[..|Middle(t)|] == Middle(t);
    LeadsKeyed(Moved(t), Middle(t), Resolved(t), Gentle);
    if Reaches(t) {
      var m := ExecutionAt(env, db, c, t, n);
      forall i | 0 <= i < m ensures !Settles(t.Ops()[i], p) {
        if t.Ops()[i].path == p {
          ParkedGetsNoAction(env, db, c, t, p, i);
        }
      }
      UntouchedRow(env.root, t.resolve.db, t.Ops(), c.scripts, c.clocks.exec, 0, m, p);
      SameRowSameParking(t.resolve.db, ExecWalk(env.root, t.resolve.db, t.Ops(), c.scripts, c.clocks.exec, m).db, p);
    } else {
      assert Ending(t)[..n] == [];
    }
  }

  lemma SameRowSameParking(a: Db, b: Db, p: RelPath)
    requires Row(a, p) == Row(b, p)
    ensures IsParked(a, p) == IsParked(b, p)
  {
  }

  // ---------------------------------------------------------------- the merge base

  lemma {:induction false} PrefixKeepsBase(db: Db, log: seq<Write>, after: Db, rule: (Db, Write) -> bool, n: nat,
                                           p: RelPath)
    requires Leads(db, log, after, rule) && n <= |log|
    requires forall d, w :: rule(d, w) ==> KeepsBase(d, w)
    ensures BaseOf(Replay(db, log[..n]), p) == BaseOf(db, p)
    ensures n == |log| ==> BaseOf(after, p) == BaseOf(db, p)
  {
    EveryPrefix(db, log, n, rule);
    EveryWeaken(db, log[..n], rule, KeepsBase);
    BaseIsKept(db, log[..n], p);
    assert n == |log| ==> log[..n] == log;
  }

  lemma BaseUntilExecution(env: Env, db: Db, c: Input, t: Trace, p: RelPath)
    requires WellKeyed(db) && t == TraceOf(env, db, c)
    ensures BaseOf(t.delta.db, p) == BaseOf(Moved(t), p) == BaseOf(Resolved(t), p) == BaseOf(db, p)
  {
    hide DeltaOf, LocalOf, OverlapOf, ResolveOf, PlannedOf, RenamesOf, ExecOf, Leads, ExecRule, Middle;
    CycleIsLinked(env, db, c);
    PrefixKeepsBase(db, t.delta.log, t.delta.db, DeltaRule, |t.delta.log|, p);
    CursorKeeps(t.delta.db, c.page.token, c.clocks.cursor);
    PrefixKeepsBase(Moved(t), Middle(t), Resolved(t), Gentle, |Middle(t)|, p);
  }

  /**
   * However many writes of a cycle are made: the merge base of a path is that of before, or some
   * operation at the path, not a conflict rename, succeeded and made it what it is.
   */
  lemma BaseMovesOnlyOnSuccess(env: Env, db: Db, c: Input, t: Trace, k: nat, p: RelPath)
    requires WellKeyed(db) && t == TraceOf(env, db, c) && k <= |CycleLog(t)|
    ensures
      var base := BaseOf(After(db, t, k), p);
      || base == BaseOf(db, p)
      || exists i :: 0 <= i < |t.Ops()| && MovesBase(env.root, t.resolve.db, t.Ops()[i], c.scripts(i), p, base)
  {
    hide DeltaOf, LocalOf, OverlapOf, ResolveOf, PlannedOf, RenamesOf, ExecWalk, Leads, ExecRule, Middle, Ending,
         CycleLog, MovesBase;
    CycleIsLinked(env, db, c);
    BaseUntilExecution(env, db, c, t, p);
    AfterCut(db, t, k);
    match CutAt(t, k) {
      case InDelta(n) => PrefixKeepsBase(db, t.delta.log, t.delta.db, DeltaRule, n, p);
      case InCursor(n) =>
        CursorIsShort(t, c, n);
      case InMiddle(n) => PrefixKeepsBase(Moved(t), Middle(t), Resolved(t), Gentle, n, p);
      case InEnding(n) =>
        if Reaches(t) {
          var m := ExecutionAt(env, db, c, t, n);
          ExecBase(env.root, t.resolve.db, t.Ops(), c.scripts, c.clocks.exec, m, p);
        } else {
          NoEnding(t, n);
        }
    }
  }

  lemma CursorIsShort(t: Trace, c: Input, n: nat)
    requires t.cursor == CursorMove(t.delta.db, c.page.token, c.clocks.cursor) && n < |t.cursor|
    ensures t.cursor[..n] == []
  {
  }

  lemma NoEnding(t: Trace, n: nat)
    requires !Reaches(t) && n <= |Ending(t)|
    ensures Ending(t)[..n] == []
  {
  }

  /**
   * Conversely, with every path scanned at most once: at the end of a cycle the base of the path
   * of a planned operation, or of the download of a conflict winner, is the one the operation
   * makes if it succeeded and its row was there to be updated, and that of before otherwise.
   */
  lemma BaseAtTheEnd(env: Env, db: Db, c: Input, t: Trace, i: nat)
    requires WellFormed(env, c) && WellKeyed(db) && t == TraceOf(env, db, c) && Reaches(t) && DistinctScan(env, c.scan)
    requires i < |t.Ops()| && !t.Ops()[i].meta.fromConflict
    ensures
      var op, s := t.Ops()[i], c.scripts(i);
      var moved := Succeeds(env.root, op, s) && s.rowRead && s.rowStored && op.path in t.resolve.db.rows;
      BaseOf(After(db, t, |CycleLog(t)|), op.path)
      == if moved then SyncedAfter(op.kind, t.resolve.db.rows[op.path], c.clocks.exec(i)) else BaseOf(db, op.path)
  {
    hide WellFormed, DistinctScan, DeltaOf, LocalOf, OverlapOf, ResolveOf, PlannedOf, RenamesOf, ExecWalk, Leads,
         ExecRule, Middle, Succeeds, SyncedAfter;
    var p := t.Ops()[i].path;
    CycleIsLinked(env, db, c);
    BaseUntilExecution(env, db, c, t, p);
    AfterCut(db, t, |CycleLog(t)|);
    var m := ExecutionAt(env, db, c, t, |Ending(t)|);
    forall j | 0 <= j < |t.Ops()| && j != i ensures !Settles(t.Ops()[j], p) {
      OneSettlesAPath(env, db, c, t, i, j);
    }
    SettledRow(env.root, t.resolve.db, t.Ops(), c.scripts, c.clocks.exec, i);
  }

  lemma OneSettlesAPath(env: Env, db: Db, c: Input, t: Trace, i: nat, j: nat)
    requires WellFormed(env, c) && WellKeyed(db) && t == TraceOf(env, db, c) && Reaches(t) && DistinctScan(env, c.scan)
    requires i < |t.Ops()| && !t.Ops()[i].meta.fromConflict && j < |t.Ops()| && j != i
    ensures !Settles(t.Ops()[j], t.Ops()[i].path)
  {
    hide WellFormed, DistinctScan, TraceOf, LoserFor;
    var n, m := |t.planned|, |t.resolve.ops|;
    if i >= n + m {
      RenamesAre(env, db, c, t, i - n - m);
    } else if j >= n + m {
      RenamesAre(env, db, c, t, j - n - m);
    } else if t.Ops()[i].path == t.Ops()[j].path {
      var first := if i < j then i else j;
      OneActionPerPath(env, db, c, t, first, i + j - first);
      KeptAre(env, db, c, t);
      OpsSplit(t, first);
      assert InGroup(env, t.resolve.ops, first - n);
    }
  }

  // ---------------------------------------------------------------- the outcome of a run

  /** Every operation is counted once, and the run is a success exactly when all of them succeeded. */
  lemma OutcomeIsHonest(env: Env, db: Db, c: Input, t: Trace)
    requires WellKeyed(db) && t == TraceOf(env, db, c) && Reaches(t)
    ensures t.exec.applied + t.exec.failed == |t.Ops()|
    ensures CycleLog(t)[|CycleLog(t)| - 1] == AddRun(RunOf(t)) && RunOf(t).localOps == t.exec.applied
    ensures RunOf(t).outcome == RunSuccess <==>
            forall i :: 0 <= i < |t.Ops()| ==> Succeeds(env.root, t.Ops()[i], c.scripts(i))
  {
    hide DeltaOf, LocalOf, OverlapOf, ResolveOf, PlannedOf, RenamesOf, ExecWalk, Leads, Middle, Succeeds;
    CycleIsLinked(env, db, c);
    LeadsKeyed(Moved(t), Middle(t), Resolved(t), Gentle);
    ExecWalkFacts(env.root, t.resolve.db, t.Ops(), c.scripts, c.clocks.exec, |t.Ops()|);
    NothingFailedIff(env.root, t.resolve.db, t.Ops(), c.scripts, c.clocks.exec, |t.Ops()|);
  }

  /**
   * The planner gives a remote directory no parent, so it is never made: a cycle that asks for one
   * never counts as a success.
   */
  lemma RemoteMkdirSpoilsTheRun(env: Env, db: Db, c: Input, t: Trace, i: nat)
    requires WellKeyed(db) && t == TraceOf(env, db, c) && Reaches(t)
    requires i < |t.planned| && t.planned[i].kind == OpRemoteMkdir
    ensures RunOf(t).outcome == PartialFailure
  {
    hide TraceOf, RunFrom;
    var op := t.planned[i];
    var _ := PlannedSource(env, db, c, t, op);
    PlannedRemoteMkdirFails(env.root, op, c.scripts(i));
    assert t.Ops()[i] == op;
    OutcomeIsHonest(env, db, c, t);
  }

  /** Nor does a cycle with a planned transfer, if the drive does not answer to the empty id it asks for. */
  lemma NamelessTransferSpoilsTheRun(env: Env, db: Db, c: Input, t: Trace, i: nat)
    requires WellKeyed(db) && t == TraceOf(env, db, c) && Reaches(t)
    requires i < |t.planned| && (t.planned[i].kind == OpDownload || t.planned[i].kind == OpUpload)
    ensures ItemAsked(t.planned[i]) == Some("")
    ensures IsTurnedDown(c.scripts(i)) ==> RunOf(t).outcome == PartialFailure
  {
    hide TraceOf, RunFrom, IsTurnedDown;
    assert t.Ops()[i] == t.planned[i];
    PlannedNamesNoItem(env, db, c, t, i);
    if IsTurnedDown(c.scripts(i)) {
      TurnedDownFails(env.root, t.planned[i], c.scripts(i));
      OutcomeIsHonest(env, db, c, t);
    }
  }
}
