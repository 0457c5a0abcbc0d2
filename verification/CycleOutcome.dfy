/** What the rows of a cycle's operations look like in the end, in terms of its scan and its page. */
module CycleOutcome {
  import opened Collections
  import opened Paths
  import opened Types
  import opened Store
  import opened Reconcile
  import opened DeltaPhase
  import opened LocalPhase
  import opened ConflictPhase
  import opened ResolvePhase
  import opened ExecutePhase
  import opened Cycle
  import opened CycleOps
  import opened CycleSafety

  /** The operation succeeded, and its success was written to the row of its path. */
  predicate Took(env: Env, c: Input, t: Trace, i: nat)
    requires i < |t.Ops()|
  {
    Succeeds(env.root, t.Ops()[i], c.scripts(i)) && c.scripts(i).rowRead && c.scripts(i).rowStored
  }

  /** The row is clean, and its base is `side`. */
  predicate IsSettled(db: Db, p: RelPath, side: Option<FileSide>)
  {
    && p in db.rows && db.rows[p].state == Clean && db.rows[p].pendingOp.None?
    && db.rows[p].synced == side
  }

  /** At the end, the row of an operation that took is the one before execution, settled. */
  lemma TakenIsSettled(env: Env, db: Db, c: Input, t: Trace, i: nat)
    requires WellFormed(env, c) && WellKeyed(db) && t == TraceOf(env, db, c) && Reaches(t) && DistinctScan(env, c.scan)
    requires i < |t.Ops()| && !t.Ops()[i].meta.fromConflict && Took(env, c, t, i)
    requires t.Ops()[i].path in t.resolve.db.rows
    ensures
      var op := t.Ops()[i];
      Row(After(db, t, |CycleLog(t)|), op.path)
      == Some(Settled(op.kind, t.resolve.db.rows[op.path], c.clocks.exec(i)))
  {
    hide WellFormed, DistinctScan, DeltaOf, LocalOf, OverlapOf, ResolveOf, PlannedOf, RenamesOf, ExecWalk, Leads,
         ExecRule, Middle, Succeeds, SyncedAfter;
    var p := t.Ops()[i].path;
    CycleIsLinked(env, db, c);
    AfterCut(db, t, |CycleLog(t)|);
    var m := ExecutionAt(env, db, c, t, |Ending(t)|);
    forall j | 0 <= j < |t.Ops()| && j != i ensures !Settles(t.Ops()[j], p) {
      OneSettlesAPath(env, db, c, t, i, j);
    }
    SettledRow(env.root, t.resolve.db, t.Ops(), c.scripts, c.clocks.exec, i);
  }

  /**
   * At the end, the base of the path of an operation that took is the local side after an upload,
   * the remote side after a download, a directory after one was made, and nothing after a delete.
   */
  lemma TakenMovesBase(env: Env, db: Db, c: Input, t: Trace, i: nat)
    requires WellFormed(env, c) && WellKeyed(db) && t == TraceOf(env, db, c) && Reaches(t) && DistinctScan(env, c.scan)
    requires i < |t.Ops()| && !t.Ops()[i].meta.fromConflict && Took(env, c, t, i)
    requires t.Ops()[i].kind != OpLocalRename && t.Ops()[i].kind != OpRemoteRename
    requires t.Ops()[i].path in t.resolve.db.rows
    ensures
      var op := t.Ops()[i];
      BaseFrom(op.kind, t.resolve.db.rows[op.path], BaseOf(After(db, t, |CycleLog(t)|), op.path))
  {
    hide WellFormed, TraceOf, DistinctScan, CycleLog, Took, After;
    TakenIsSettled(env, db, c, t, i);
  }

  // ---------------------------------------------------------------- uploads

  /** Conflicts are about paths that the page decided about. */
  lemma ConflictsAreDecided(env: Env, db: Db, c: Input, t: Trace)
    requires WellFormed(env, c) && WellKeyed(db) && t == TraceOf(env, db, c)
    ensures forall d :: d in t.overlap.decisions && d.kind.IsConflict() ==> d.path in Decided(t)
  {
    hide WellFormed, DeltaOf, LocalOf, OverlapWalk, ResolveOf, PlannedOf, RenamesOf, ExecOf, DistinctScan,
         NoDownloadAt, Conflicts;
    MergedIsDistinct(env, db, c, t);
    OverlapWalkFacts(t.local.db, Merged(t), t.local.overlaps, c.clocks.overlap, |t.local.overlaps|);
    forall d | d in t.overlap.decisions && d.kind.IsConflict() ensures d.path in Decided(t) {
      var k :| 0 <= k < |t.overlap.decisions| && t.overlap.decisions[k] == d;
      var y := Merged(t)[k];
      if y in t.local.decisions {
        ScanDecides(env, db, c, t, y);
      }
      assert y in Merged(t) && y.path == d.path;
    }
  }

  /** So the scan's decisions are not about conflict paths. */
  lemma ScanMeetsNoConflict(env: Env, db: Db, c: Input, t: Trace, x: Decision)
    requires WellFormed(env, c) && WellKeyed(db) && t == TraceOf(env, db, c)
    requires x in t.local.decisions
    ensures !ConflictAt(t.overlap.decisions, x.path)
  {
    hide WellFormed, TraceOf;
    ConflictsAreDecided(env, db, c, t);
    ScanDecides(env, db, c, t, x);
  }

  /** What the scan stored for an upload is still there when execution starts. */
  lemma UploadRowWaits(env: Env, db: Db, c: Input, t: Trace, x: Decision)
    requires WellFormed(env, c) && WellKeyed(db) && t == TraceOf(env, db, c) && x in t.local.decisions
    ensures ShowsScan(env, c.scan, |c.scan|, t.resolve.db, x.path)
  {
    hide WellFormed, DeltaOf, LocalWalk, OverlapWalk, ResolveWalk, PlannedOf, RenamesOf, ExecOf, ScannedSide,
         ConflictAt, HasRival, Leads, IsMoveRow, IsGone;
    var p := x.path;
    CycleIsLinked(env, db, c);
    LeadsKeyed(t.delta.db, t.cursor, Moved(t), CursorRule);
    LocalWalkStores(env, Decided(t), t.delta.live, Moved(t), c.scan, c.clocks.local, |c.scan|);
    LocalWalkIsGentle(env, Decided(t), t.delta.live, Moved(t), c.scan, c.clocks.local, |c.scan|, |c.scan|);
    LeadsKeyed(Moved(t), t.local.log, t.local.db, Gentle);
    NoOverlapAt(env, db, c, t, x);
    OverlapWalkAttaches(t.local.db, Merged(t), t.local.overlaps, c.clocks.overlap, |t.local.overlaps|, p);
    OverlapWalkIsGentle(t.local.db, Merged(t), t.local.overlaps, c.clocks.overlap, |t.local.overlaps|,
                        |t.local.overlaps|);
    LeadsKeyed(t.local.db, t.overlap.log, t.overlap.db, Gentle);
    ScanMeetsNoConflict(env, db, c, t, x);
    ResolveLeavesAlone(env, c, t, p);
  }

  lemma NoOverlapAt(env: Env, db: Db, c: Input, t: Trace, x: Decision)
    requires WellKeyed(db) && t == TraceOf(env, db, c) && x in t.local.decisions
    ensures LastAt(t.local.overlaps, |t.local.overlaps|, x.path) == None
  {
    hide DeltaOf, LocalOf, OverlapOf, ResolveOf, PlannedOf, RenamesOf, ExecOf, ScannedAt, DistinctScan, ScanByDepth;
    LocalSummary(env, db, c, t);
    ScanDecides(env, db, c, t, x);
    forall k | 0 <= k < |t.local.overlaps| ensures t.local.overlaps[k].path != x.path {
      assert t.local.overlaps[k] in t.local.overlaps;
    }
    NoneIsLast(t.local.overlaps, |t.local.overlaps|, x.path);
  }

  lemma {:induction false} NoneIsLast(overlaps: seq<Overlap>, n: nat, q: RelPath)
    requires n <= |overlaps| && forall k :: 0 <= k < n ==> overlaps[k].path != q
    ensures LastAt(overlaps, n, q) == None
  {
    if n > 0 {
      NoneIsLast(overlaps, n - 1, q);
    }
  }

  lemma ResolveLeavesAlone(env: Env, c: Input, t: Trace, p: RelPath)
    requires t.resolve == ResolveOf(env, c, t.overlap) && WellKeyed(t.overlap.db)
    requires !ConflictAt(t.overlap.decisions, p)
    ensures Row(t.resolve.db, p) == Row(t.overlap.db, p)
  {
    hide ResolveWalk, ConflictAt, OpsFollowRows, AllRecorded;
    var ds := t.overlap.decisions;
    ResolveRecords(env, t.overlap.db, ds, c.clocks.resolve, |ds|);
    assert ds[..|ds|] == ds;
  }

  /**
   * After an upload that the scan asked for took, the row is clean, and its base and its local
   * side are what the scan saw.
   */
  lemma UploadSettles(env: Env, db: Db, c: Input, t: Trace, i: nat)
    requires WellFormed(env, c) && WellKeyed(db) && t == TraceOf(env, db, c) && Reaches(t) && DistinctScan(env, c.scan)
    requires i < |t.planned| && t.planned[i].kind == OpUpload && t.planned[i].path !in Decided(t)
    requires Took(env, c, t, i)
    ensures
      var p, now := t.planned[i].path, After(db, t, |CycleLog(t)|);
      && p in now.rows && IsSettled(now, p, now.rows[p].local)
      && now.rows[p].local.Some? && ScannedSide(env, c.scan, |c.scan|, p, now.rows[p].local.value)
  {
    hide WellFormed, DeltaOf, LocalOf, OverlapWalk, ResolveOf, PlannedOf, RenamesOf, ExecOf, DistinctScan,
         NoDownloadAt, ScannedSide, CycleLog, Took;
    var op := t.planned[i];
    assert t.Ops()[i] == op;
    var d := PlannedSource(env, db, c, t, op);
    MergedIsDistinct(env, db, c, t);
    OverlapWalkFacts(t.local.db, Merged(t), t.local.overlaps, c.clocks.overlap, |t.local.overlaps|);
    var k :| 0 <= k < |t.overlap.decisions| && t.overlap.decisions[k] == d;
    ScanDecisionsAreLast(t, k);
    UploadRowWaits(env, db, c, t, t.local.decisions[k - |t.delta.decisions|]);
    TakenIsSettled(env, db, c, t, i);
  }

  // ---------------------------------------------------------------- downloads

  /** Downloads and conflicts go back to a download or a conflict that the page decided on. */
  lemma PageBehind(env: Env, db: Db, c: Input, t: Trace, x: Decision) returns (y: Decision)
    requires WellFormed(env, c) && WellKeyed(db) && t == TraceOf(env, db, c)
    requires x in t.overlap.decisions && (x.kind == Download || x.kind.IsConflict())
    ensures y in t.delta.decisions && y.path == x.path && (y.kind == Download || y.kind.IsConflict())
  {
    hide WellFormed, DeltaOf, LocalOf, OverlapWalk, ResolveOf, PlannedOf, RenamesOf, ExecOf, DistinctScan,
         NoDownloadAt, Conflicts, DistinctPaths, ScannedAt, Decided;
    MergedIsDistinct(env, db, c, t);
    OverlapWalkFacts(t.local.db, Merged(t), t.local.overlaps, c.clocks.overlap, |t.local.overlaps|);
    var k :| 0 <= k < |t.overlap.decisions| && t.overlap.decisions[k] == x;
    y := Merged(t)[k];
    if y in t.local.decisions {
      ScanDecides(env, db, c, t, y);
    }
    assert y in Merged(t);
  }

  lemma DecidedAboutLive(db: Db, colls: map<RelPath, RelPath>, item: RemoteItem)
    ensures
      var d := DecisionFor(db, colls)(item);
      d.Some? && (d.value.kind == Download || d.value.kind.IsConflict()) ==>
        !item.deleted && MustBeRecorded(db, colls, item) && ItemPath(item) == Some(d.value.path)
  {
    hide ItemPath, IsSkipped;
  }

  /** Downloads and conflicts are decided about live items that the page must leave a mark for. */
  lemma LiveBehind(env: Env, db: Db, c: Input, t: Trace, x: Decision) returns (a: nat)
    requires WellFormed(env, c) && WellKeyed(db) && t == TraceOf(env, db, c)
    requires x in t.overlap.decisions && (x.kind == Download || x.kind.IsConflict())
    ensures a < |c.page.items| && !c.page.items[a].deleted
    ensures MustBeRecorded(db, c.colls, c.page.items[a]) && ItemPath(c.page.items[a]) == Some(x.path)
  {
    hide WellFormed, DeltaOf, LocalOf, OverlapOf, ResolveOf, PlannedOf, RenamesOf, ExecOf, Summary, FoldDistinct,
         LiveSummary, ItemPath, MustBeRecorded, DecisionFor, FilterMap;
    var y := PageBehind(env, db, c, t, x);
    DeltaSummary(env, db, c);
    var j :| 0 <= j < |t.delta.decisions| && t.delta.decisions[j] == y;
    a := FilterMapSource(DecisionFor(db, c.colls), c.page.items, j);
    DecidedAboutLive(db, c.colls, c.page.items[a]);
  }

  /** The page's observation is still there when execution starts. */
  lemma ObservationWaits(env: Env, db: Db, c: Input, t: Trace, a: nat)
    requires WellFormed(env, c) && WellKeyed(db) && t == TraceOf(env, db, c) && Reaches(t)
    requires a < |c.page.items| && MustBeRecorded(db, c.colls, c.page.items[a])
    ensures IsRecorded(t.resolve.db, c.page.items[a], c.clocks.delta(a))
  {
    hide WellFormed, TraceOf, MustBeRecorded, ItemPath, Middle, Ending, Leads;
    CycleIsLinked(env, db, c);
    var k := |t.delta.log| + |t.cursor| + |Middle(t)|;
    LeadsKeyed(Moved(t), Middle(t), Resolved(t), Gentle);
    AfterCut(db, t, k);
    assert Middle(t)[..|Middle(t)|] == Middle(t);
    RecordedAfter(env, db, c, t, k, a);
  }

  /** Where a download comes from: a download decision, or the conflict whose winner it brings. */
  lemma DownloadSource(env: Env, db: Db, c: Input, t: Trace, i: nat) returns (x: Decision)
    requires WellFormed(env, c) && WellKeyed(db) && t == TraceOf(env, db, c) && Reaches(t)
    requires i < |t.Ops()| && t.Ops()[i].kind == OpDownload
    ensures x in t.overlap.decisions && (x.kind == Download || x.kind.IsConflict()) && x.path == t.Ops()[i].path
    ensures !t.Ops()[i].meta.fromConflict
  {
    hide WellFormed, TraceOf, LoserFor, RenamesToLoser;
    var n, m := |t.planned|, |t.resolve.ops|;
    if i < n {
      assert t.Ops()[i] == t.planned[i];
      x := PlannedSource(env, db, c, t, t.planned[i]);
    } else if i < n + m {
      KeptAre(env, db, c, t);
      OpsSplit(t, i);
      assert InGroup(env, t.resolve.ops, i - n);
      RenameIsNoDownload(env, t.resolve.ops[i - n]);
      assert t.resolve.ops[i - n] in t.resolve.ops;
      x :| x in t.overlap.decisions && x.kind.IsConflict() && x.path == t.resolve.ops[i - n].path;
    } else {
      RenamesAre(env, db, c, t, i - n - m);
    }
  }

  /**
   * After a download that took, whether planned or of a conflict winner, the row is clean, and its
   * base and its remote side are what the page said of a live item there.
   */
  lemma DownloadSettles(env: Env, db: Db, c: Input, t: Trace, i: nat) returns (a: nat)
    requires WellFormed(env, c) && WellKeyed(db) && t == TraceOf(env, db, c) && Reaches(t) && DistinctScan(env, c.scan)
    requires i < |t.Ops()| && t.Ops()[i].kind == OpDownload && Took(env, c, t, i)
    ensures a < |c.page.items| && ItemPath(c.page.items[a]) == Some(t.Ops()[i].path) && !c.page.items[a].deleted
    ensures
      var p, now := t.Ops()[i].path, After(db, t, |CycleLog(t)|);
      var side := Some(RemoteSideOf(c.page.items[a], c.clocks.delta(a)));
      IsSettled(now, p, side) && now.rows[p].remote == side
  {
    hide WellFormed, TraceOf, DistinctScan, ItemPath, MustBeRecorded, CycleLog, Took;
    var x := DownloadSource(env, db, c, t, i);
    a := LiveBehind(env, db, c, t, x);
    ObservationWaits(env, db, c, t, a);
    TakenIsSettled(env, db, c, t, i);
  }

  /**
   * A settled first download leaves the row without a local side. So the next page that lists the
   * item makes a conflict if it changed, and an upload if it did not.
   */
  lemma NextPageAfterFirstDownload(e: FileEntry, now: Timestamp, item: RemoteItem)
    requires IsFresh(e) && e.kind == File
    ensures
      var settled := Settled(OpDownload, e, now);
      ReconcileBoth(settled, item)
      == if RemoteDiffersFromSynced(item, e.remote) then ConflictDetected else Upload
  {
  }

  // ---------------------------------------------------------------- conflicts

  /**
   * Every conflict decision whose row has both sides when it is resolved goes on record: a new
   * conflict row with these two sides, and a parked path. A remote winner has its operations.
   */
  lemma ConflictIsOnRecord(env: Env, db: Db, c: Input, t: Trace, x: Decision) returns (row: ConflictRow)
    requires WellFormed(env, c) && WellKeyed(db) && t == TraceOf(env, db, c) && Reaches(t)
    requires x in t.overlap.decisions && x.kind.IsConflict() && HasBothSides(Row(t.overlap.db, x.path))
    ensures t.overlap.db.conflicts <= t.resolve.db.conflicts
    ensures row in t.resolve.db.conflicts[|t.overlap.db.conflicts|..] && row.path == x.path
    ensures IsFaithful(env, t.overlap.db, t.overlap.decisions, row) && IsParked(t.resolve.db, x.path)
    ensures row.winner.RemoteSide? ==> exists i: nat :: IsGroupOf(t.resolve.ops, i, row)
  {
    hide WellFormed, DeltaOf, LocalOf, OverlapOf, ResolveWalk, PlannedOf, RenamesOf, ExecOf, IsFaithful, IsGroupOf,
         Leads;
    CycleIsLinked(env, db, c);
    CountsFollow(env, db, c, t);
    var ds, before := t.overlap.decisions, t.overlap.db;
    ResolveRecords(env, before, ds, c.clocks.resolve, |ds|);
    assert ds[..|ds|] == ds;
    assert ConflictAt(ds, x.path);
    var rows := t.resolve.db.conflicts[|before.conflicts|..];
    assert HasRow(rows, x.path);
    row :| row in rows && row.path == x.path;
  }

  /** Each rename of a conflict loser is on record with its new name. */
  lemma RenameIsOnRecord(env: Env, db: Db, c: Input, t: Trace, i: nat) returns (row: ConflictRow)
    requires WellFormed(env, c) && WellKeyed(db) && t == TraceOf(env, db, c) && Reaches(t)
    requires i < |t.resolve.ops| && t.resolve.ops[i].kind == OpLocalRename
    ensures row in t.resolve.db.conflicts && IsGroupOf(t.resolve.ops, i, row)
    ensures IsFaithful(env, t.overlap.db, t.overlap.decisions, row)
  {
    hide WellFormed, DeltaOf, LocalOf, OverlapOf, ResolveWalk, PlannedOf, RenamesOf, ExecOf, IsFaithful, IsGroupOf,
         AllRecorded, Leaves, Leads;
    CountsFollow(env, db, c, t);
    var ds, before := t.overlap.decisions, t.overlap.db;
    ResolveRecords(env, before, ds, c.clocks.resolve, |ds|);
    assert ds[..|ds|] == ds;
    row :| row in t.resolve.db.conflicts[|before.conflicts|..] && IsGroupOf(t.resolve.ops, i, row);
  }

  /** Resolving conflicts changes nothing of a row but its state. */
  lemma ResolveKeepsSides(env: Env, db: Db, c: Input, t: Trace, p: RelPath)
    requires WellFormed(env, c) && WellKeyed(db) && t == TraceOf(env, db, c)
    ensures SameSides(Row(t.overlap.db, p), Row(t.resolve.db, p))
  {
    hide WellFormed, DeltaOf, LocalOf, OverlapOf, ResolveWalk, PlannedOf, RenamesOf, ExecOf, OpsFollowRows, AllRecorded,
         ConflictAt, IsFaithful;
    CountsFollow(env, db, c, t);
    var ds := t.overlap.decisions;
    ResolveRecords(env, t.overlap.db, ds, c.clocks.resolve, |ds|);
    assert ds[..|ds|] == ds;
  }

  /** Every conflict operation belongs to a conflict row at its path. */
  lemma GroupIsOnRecord(env: Env, db: Db, c: Input, t: Trace, i: nat) returns (row: ConflictRow)
    requires WellFormed(env, c) && WellKeyed(db) && t == TraceOf(env, db, c) && Reaches(t) && i < |t.resolve.ops|
    ensures row.path == t.resolve.ops[i].path && IsFaithful(env, t.overlap.db, t.overlap.decisions, row)
  {
    hide WellFormed, TraceOf, IsFaithful, LoserFor;
    KeptAre(env, db, c, t);
    assert InGroup(env, t.resolve.ops, i);
    row := RenameIsOnRecord(env, db, c, t, if t.resolve.ops[i].kind == OpLocalRename then i else i - 1);
  }

  /** The download of a conflict winner asks for the item that the page lists at its path. */
  lemma WinnerIsTheItem(env: Env, db: Db, c: Input, t: Trace, i: nat) returns (a: nat)
    requires WellFormed(env, c) && WellKeyed(db) && t == TraceOf(env, db, c) && Reaches(t)
    requires i < |t.resolve.ops| && t.resolve.ops[i].kind == OpDownload
    ensures a < |c.page.items| && !c.page.items[a].deleted && ItemPath(c.page.items[a]) == Some(t.resolve.ops[i].path)
    ensures t.resolve.ops[i].meta.remoteItemId == Some(c.page.items[a].id)
  {
    hide WellFormed, TraceOf, LoserFor, ItemPath, IsSkipped;
    KeptAre(env, db, c, t);
    assert InGroup(env, t.resolve.ops, i);
    var row := RenameIsOnRecord(env, db, c, t, i - 1);
    var x :| x in t.overlap.decisions && x.kind.IsConflict() && x.path == row.path;
    a := LiveBehind(env, db, c, t, x);
    ObservationWaits(env, db, c, t, a);
    ResolveKeepsSides(env, db, c, t, x.path);
  }

  /**
   * What a conflict row compares is the time at which the page was read, not the one at which the
   * file was changed on the drive: the local side wins if it is newer than that by 1001 ms.
   */
  lemma WinnerByObservation(env: Env, db: Db, c: Input, t: Trace, x: Decision) returns (row: ConflictRow, a: nat)
    requires WellFormed(env, c) && WellKeyed(db) && t == TraceOf(env, db, c) && Reaches(t)
    requires x in t.overlap.decisions && x.kind.IsConflict() && HasBothSides(Row(t.overlap.db, x.path))
    ensures row in t.resolve.db.conflicts && row.path == x.path
    ensures a < |c.page.items| && ItemPath(c.page.items[a]) == Some(x.path) && !c.page.items[a].deleted
    ensures row.winner.LocalSide? <==> row.local.mtime - c.clocks.delta(a) >= 1_001_000_000
  {
    hide WellFormed, TraceOf, LoserFor, ItemPath, IsSkipped, HasBothSides, IsGroupOf;
    row := ConflictIsOnRecord(env, db, c, t, x);
    a := LiveBehind(env, db, c, t, x);
    ObservationWaits(env, db, c, t, a);
    ResolveKeepsSides(env, db, c, t, x.path);
  }
}
