/**
 * What a cycle makes of the rows that the cycle before it left: when there is nothing to do, what
 * becomes of an uploaded file, and what becomes of a file after its first download.
 */
module NextCycle {
  import opened Collections
  import opened Paths
  import opened Types
  import opened Store
  import opened Collisions
  import opened Reconcile
  import opened DeltaPhase
  import opened LocalPhase
  import opened ConflictPhase
  import opened ResolvePhase
  import opened Cycle
  import opened CycleOps
  import opened CycleOutcome

  // ---------------------------------------------------------------- quiet cycles

  /** No scanned entry needs an upload over its row. */
  ghost predicate NothingToUpload(env: Env, db: Db, scan: seq<ScanEntry>)
  {
    forall k :: 0 <= k < |scan| && RelFromAbs(env.root, scan[k].abs).Some? ==>
      !NeedsUpload(Row(db, RelFromAbs(env.root, scan[k].abs).value), scan[k].side)
  }

  lemma EmptyPageDecidesNothing(env: Env, db: Db, c: Input, t: Trace)
    requires WellFormed(env, c) && WellKeyed(db) && t == TraceOf(env, db, c) && c.page.items == []
    ensures t.delta.decisions == [] && Decided(t) == {} && t.delta.live == map[] && t.renames == []
  {
    hide LocalOf, OverlapOf, ResolveOf, PlannedOf, ExecOf;
    assert PathsOf(c.page.items) == [];
    FirstIsMember(c.renames);
  }

  /** With nothing new from the drive, a cycle does nothing exactly if nothing scanned needs an upload. */
  lemma QuietIff(env: Env, db: Db, c: Input, t: Trace)
    requires WellFormed(env, c) && WellKeyed(db) && t == TraceOf(env, db, c) && Reaches(t) && c.page.items == []
    ensures t.Ops() == [] <==> NothingToUpload(env, db, c.scan)
  {
    hide WellFormed, TraceOf, RelFromAbs, NeedsUpload, InGroup, ScannedAt;
    EmptyPageDecidesNothing(env, db, c, t);
    ConflictsAreDecided(env, db, c, t);
    KeptAre(env, db, c, t);
    FirstIsMember(t.resolve.ops);
    if t.planned != [] {
      var d := PlannedSource(env, db, c, t, t.planned[0]);
      UndecidedIff(env, db, c, t, d);
    }
    forall k | 0 <= k < |c.scan| && RelFromAbs(env.root, c.scan[k].abs).Some?
      ensures t.planned == [] ==> !NeedsUpload(Row(db, RelFromAbs(env.root, c.scan[k].abs).value), c.scan[k].side)
    {
      var d := Decision(RelFromAbs(env.root, c.scan[k].abs).value, UploadKind(c.scan[k].side));
      ScanPlansIff(env, db, c, t, d);
      if NeedsUpload(Row(db, d.path), c.scan[k].side) {
        assert CallsFor(env, t.delta.live, db, c.scan[k], d);
      }
    }
  }

  // ---------------------------------------------------------------- after an upload

  /** The rows are those that the cycle `t` from `db` left. */
  ghost predicate Follows(db: Db, t: Trace, next: Db)
  {
    WellKeyed(next) && next.rows == After(db, t, |CycleLog(t)|).rows
  }

  lemma SideIsTheEntry(env: Env, scan: seq<ScanEntry>, k: nat, p: RelPath, side: FileSide)
    requires DistinctScan(env, scan) && k < |scan| && RelFromAbs(env.root, scan[k].abs) == Some(p)
    requires ScannedSide(env, scan, |scan|, p, side)
    ensures side == scan[k].side
  {
    hide RelFromAbs;
  }

  /**
   * The next cycle that scans an uploaded file, with no word of it from the drive and no rival,
   * plans the same upload again, unless the file was and is empty.
   */
  lemma UploadIsRepeatedIff(env: Env, db: Db, c: Input, t: Trace, i: nat, k: nat,
                            db2: Db, c2: Input, t2: Trace, k2: nat)
    requires WellFormed(env, c) && WellKeyed(db) && t == TraceOf(env, db, c) && Reaches(t) && DistinctScan(env, c.scan)
    requires i < |t.planned| && t.planned[i].kind == OpUpload && t.planned[i].path !in Decided(t)
    requires Took(env, c, t, i)
    requires k < |c.scan| && RelFromAbs(env.root, c.scan[k].abs) == Some(t.planned[i].path)
    requires Follows(db, t, db2)
    requires WellFormed(env, c2) && t2 == TraceOf(env, db2, c2) && Reaches(t2) && DistinctScan(env, c2.scan)
    requires k2 < |c2.scan| && RelFromAbs(env.root, c2.scan[k2].abs) == Some(t.planned[i].path)
    requires c.scan[k].side.kind.File? && c2.scan[k2].side.kind.File? && c2.scan[k2].side.hash.None?
    requires t.planned[i].path !in Decided(t2)
    ensures
      var p := t.planned[i].path;
      HasOp(t2.planned, p, OpUpload) <==>
      !HasRival(env, t2.delta.live, p) && !(c.scan[k].side.size == 0 && c2.scan[k2].side.size == 0)
  {
    hide WellFormed, TraceOf, DistinctScan, RelFromAbs, HasRival, HasOp, Took, CycleLog, ScannedSide, Decided;
    var p := t.planned[i].path;
    UploadSettles(env, db, c, t, i);
    SideIsTheEntry(env, c.scan, k, p, After(db, t, |CycleLog(t)|).rows[p].local.value);
    ScannedFileIsUploadedIff(env, db2, c2, t2, k2, p);
  }

  // ---------------------------------------------------------------- after a first download

  /** Where the last overlap at `q` comes from. */
  lemma {:induction false} LastIs(overlaps: seq<Overlap>, n: nat, q: RelPath)
    requires n <= |overlaps|
    ensures
      var last := LastAt(overlaps, n, q);
      if last.Some? then Overlap(q, last.value) in overlaps
      else forall k :: 0 <= k < n ==> overlaps[k].path != q
  {
    if n > 0 {
      LastIs(overlaps, n - 1, q);
    }
  }

  /** What a page makes of a tracked path with a live item. */
  lemma TrackedItem(env: Env, db: Db, c: Input, t: Trace, b: nat)
    requires WellFormed(env, c) && WellKeyed(db) && t == TraceOf(env, db, c)
    requires b < |c.page.items| && Survives(c.colls, c.page.items[b]) && !c.page.items[b].deleted
    requires ItemPath(c.page.items[b]).value in db.rows
    ensures
      var item := c.page.items[b];
      var p := ItemPath(item).value;
      && Decision(p, ReconcileBoth(db.rows[p], item)) in t.delta.decisions && p in Decided(t)
      && p in t.delta.live && t.delta.live[p] == item
      && Row(t.delta.db, p)
         == Some(db.rows[p].(remote := Some(RemoteSideOf(item, c.clocks.delta(b))), updatedAt := c.clocks.delta(b)))
  {
    hide WellFormed, DeltaOf, LocalOf, OverlapOf, ResolveOf, PlannedOf, RenamesOf, ExecOf, FoldDistinct, ItemPath,
         ReconcileBoth, RemoteSideOf;
    var item := c.page.items[b];
    DeltaSummary(env, db, c);
    FilterMapHits(DecisionFor(db, c.colls), c.page.items, item);
    LiveIsTheItem(env.fold, c.colls, db, c.page.items, t.delta.live, b);
    assert Row(t.delta.db, ItemPath(item).value) == RowAfter(db, item, c.clocks.delta(b));
  }

  /** The row of a decided path when conflicts are resolved: as the page left it, with the side the scan saw. */
  lemma {:induction false} DecidedRow(env: Env, db: Db, c: Input, t: Trace, p: RelPath)
    requires WellFormed(env, c) && WellKeyed(db) && t == TraceOf(env, db, c) && !t.local.failed && p in Decided(t)
    ensures
      var last := LastAt(t.local.overlaps, |t.local.overlaps|, p);
      && SameButLocal(Row(t.delta.db, p), Row(t.overlap.db, p), last)
      && (last.Some? ==> ScannedSide(env, c.scan, |c.scan|, p, last.value))
      && (ScannedAt(env, c.scan, |c.scan|, p) && p in t.delta.live && !t.delta.live[p].folder ==> last.Some?)
  {
    hide WellFormed, DeltaOf, LocalWalk, OverlapWalk, ResolveOf, PlannedOf, RenamesOf, ExecOf, Leads, ScannedSide,
         ScannedAt, SameButLocal, HasRival, DistinctScan, ScanByDepth;
    CycleIsLinked(env, db, c);
    LeadsKeyed(t.delta.db, t.cursor, Moved(t), CursorRule);
    CursorKeeps(t.delta.db, c.page.token, c.clocks.cursor);
    DecidedRowWalks(env, db, c, t, p);
    LocalWalkIsGentle(env, Decided(t), t.delta.live, Moved(t), c.scan, c.clocks.local, |c.scan|, |c.scan|);
    LeadsKeyed(Moved(t), t.local.log, t.local.db, Gentle);
    OverlapWalkAttaches(t.local.db, Merged(t), t.local.overlaps, c.clocks.overlap, |t.local.overlaps|, p);
    LocalSummary(env, db, c, t);
    LastIs(t.local.overlaps, |t.local.overlaps|, p);
  }

  lemma DecidedRowWalks(env: Env, db: Db, c: Input, t: Trace, p: RelPath)
    requires WellKeyed(Moved(t)) && t == TraceOf(env, db, c) && p in Decided(t)
    ensures Row(t.local.db, p) == Row(Moved(t), p)
  {
    hide DeltaOf, LocalWalk, OverlapOf, ResolveOf, PlannedOf, RenamesOf, ExecOf, HasRival, SameNeeds, CalledFor;
    LocalWalkAnswers(env, Decided(t), t.delta.live, Moved(t), c.scan, c.clocks.local, |c.scan|);
  }

  /** The row of a file that was downloaded and has no local side: its base is `base`. */
  predicate IsDownloaded(db: Db, p: RelPath, base: FileSide)
  {
    && p in db.rows && db.rows[p].kind.File? && db.rows[p].state == Clean
    && db.rows[p].local.None? && db.rows[p].synced == Some(base)
  }

  /** What a cycle leaves of an untracked live file that it downloads to a path where the scan saw nothing. */
  lemma FirstDownloadLeaves(env: Env, db: Db, c: Input, t: Trace, a: nat, i: nat)
    requires WellFormed(env, c) && WellKeyed(db) && t == TraceOf(env, db, c) && Reaches(t) && DistinctScan(env, c.scan)
    requires a < |c.page.items| && IsLive(db, c.colls, c.page.items[a]) && !c.page.items[a].folder
    requires i < |t.Ops()| && t.Ops()[i].kind == OpDownload && ItemPath(c.page.items[a]) == Some(t.Ops()[i].path)
    requires Took(env, c, t, i) && t.Ops()[i].path !in db.rows && !ScannedAt(env, c.scan, |c.scan|, t.Ops()[i].path)
    ensures IsDownloaded(After(db, t, |CycleLog(t)|), t.Ops()[i].path,
                         RemoteSideOf(c.page.items[a], c.clocks.delta(a)))
  {
    hide WellFormed, TraceOf, DistinctScan, ItemPath, CycleLog, Took, ScannedAt, ScannedSide, IsSkipped, Decided, After;
    var p := t.Ops()[i].path;
    var x := DownloadSource(env, db, c, t, i);
    UntrackedItem(env, db, c, t, a);
    DecidedRow(env, db, c, t, p);
    NotScannedNotAttached(env, c.scan, p);
    ResolveKeepsSides(env, db, c, t, p);
    ObservationWaits(env, db, c, t, a);
    TakenIsSettled(env, db, c, t, i);
  }

  lemma NotScannedNotAttached(env: Env, scan: seq<ScanEntry>, p: RelPath)
    ensures !ScannedAt(env, scan, |scan|, p) ==> forall side :: !ScannedSide(env, scan, |scan|, p, side)
  {
    hide RelFromAbs;
  }

  /** What a page makes of an untracked path with a live item. */
  lemma UntrackedItem(env: Env, db: Db, c: Input, t: Trace, a: nat)
    requires WellFormed(env, c) && WellKeyed(db) && t == TraceOf(env, db, c)
    requires a < |c.page.items| && IsLive(db, c.colls, c.page.items[a])
    requires ItemPath(c.page.items[a]).value !in db.rows
    ensures
      var item, at := c.page.items[a], c.clocks.delta(a);
      var p := ItemPath(item).value;
      && p in Decided(t)
      && Row(t.delta.db, p)
         == Some(FileEntry(p, ItemKind(item), PendingDownload, None, Some(RemoteSideOf(item, at)), None, None, at))
  {
    hide WellFormed, DeltaOf, LocalOf, OverlapOf, ResolveOf, PlannedOf, RenamesOf, ExecOf, FoldDistinct, ItemPath,
         ReconcileKind, RemoteSideOf, LiveSummary;
    var item := c.page.items[a];
    DeltaSummary(env, db, c);
    FilterMapHits(DecisionFor(db, c.colls), c.page.items, item);
    assert Row(t.delta.db, ItemPath(item).value) == RowAfter(db, item, c.clocks.delta(a));
  }

  /** No operation of the planner or of a conflict is at `p`. */
  ghost predicate NothingDoneAt(t: Trace, p: RelPath)
  {
    forall i :: 0 <= i < |t.planned| + |t.resolve.ops| ==> t.Ops()[i].path != p
  }

  /** A conflict of the cycle at `p` is on record, with the side the scan saw. */
  ghost predicate IsOnRecord(env: Env, c: Input, t: Trace, p: RelPath)
  {
    && IsParked(t.resolve.db, p)
    && exists row :: row in t.resolve.db.conflicts && row.path == p && ScannedSide(env, c.scan, |c.scan|, p, row.local)
  }

  /**
   * The drive lists a downloaded file again. If it has changed, that is a conflict: with the file
   * itself if the scan lists it, and otherwise one that is reported and dropped, so that the change
   * does not arrive. If it has not changed, an upload is planned, whether or not the file is there.
   */
  lemma ListedAgain(env: Env, db: Db, c: Input, t: Trace, b: nat, base: FileSide)
    requires WellFormed(env, c) && WellKeyed(db) && t == TraceOf(env, db, c) && Reaches(t) && DistinctScan(env, c.scan)
    requires b < |c.page.items| && Survives(c.colls, c.page.items[b])
    requires !c.page.items[b].deleted && !c.page.items[b].folder
    requires IsDownloaded(db, ItemPath(c.page.items[b]).value, base)
    ensures
      var p := ItemPath(c.page.items[b]).value;
      if !RemoteDiffersFromSynced(c.page.items[b], Some(base)) then HasOp(t.planned, p, OpUpload)
      else
        && Decision(p, ConflictDetected) in t.overlap.decisions
        && (if ScannedAt(env, c.scan, |c.scan|, p) then IsOnRecord(env, c, t, p) else NothingDoneAt(t, p))
  {
    hide WellFormed, TraceOf, DistinctScan, ItemPath, ScannedAt, ScannedSide, Decided, RemoteDiffersFromSynced;
    var item := c.page.items[b];
    var p := ItemPath(item).value;
    var x := Decision(p, ReconcileBoth(db.rows[p], item));
    TrackedItem(env, db, c, t, b);
    DecidedStays(env, db, c, t, x);
    if !RemoteDiffersFromSynced(item, Some(base)) {
      var j := DecidedIsPlanned(env, db, c, t, x);
    } else {
      DecidedRow(env, db, c, t, p);
      if ScannedAt(env, c.scan, |c.scan|, p) {
        var row := ConflictIsOnRecord(env, db, c, t, x);
      } else {
        NotScannedNotAttached(env, c.scan, p);
        DroppedDoesNothing(env, db, c, t, x);
      }
    }
  }

  /** A decision of the page that is no download stays as it is. */
  lemma DecidedStays(env: Env, db: Db, c: Input, t: Trace, x: Decision)
    requires WellFormed(env, c) && WellKeyed(db) && t == TraceOf(env, db, c)
    requires x in t.delta.decisions && x.kind != Download
    ensures x in t.overlap.decisions
  {
    hide WellFormed, DeltaOf, LocalOf, OverlapWalk, ResolveOf, PlannedOf, RenamesOf, ExecOf, DistinctScan, Promoted,
         NoDownloadAt, Conflicts, DistinctPaths;
    MergedIsDistinct(env, db, c, t);
    OverlapWalkFacts(t.local.db, Merged(t), t.local.overlaps, c.clocks.overlap, |t.local.overlaps|);
    assert x in Merged(t);
    OthersAreKept(Merged(t), t.overlap.decisions, x);
  }

  /** A conflict decision whose row lacks a side leads to no operation. */
  lemma DroppedDoesNothing(env: Env, db: Db, c: Input, t: Trace, x: Decision)
    requires WellFormed(env, c) && WellKeyed(db) && t == TraceOf(env, db, c) && Reaches(t) && DistinctScan(env, c.scan)
    requires x in t.overlap.decisions && x.kind.IsConflict() && !HasBothSides(Row(t.overlap.db, x.path))
    ensures NothingDoneAt(t, x.path)
  {
    hide WellFormed, TraceOf, DistinctScan, HasBothSides, DistinctPaths, IsGroupOf, InGroup, RenamesToLoser;
    var n := |t.planned|;
    forall i: nat | i < n + |t.resolve.ops| ensures t.Ops()[i].path != x.path {
      OpsSplit(t, i);
      if i < n {
        var d := PlannedSource(env, db, c, t, t.planned[i]);
        FinalIsDistinct(env, db, c, t);
        if d.path == x.path {
          SamePathSameDecision(t.overlap.decisions, d, x);
        }
      } else {
        var row := GroupIsOnRecord(env, db, c, t, i - n);
        FaithfulHasSides(env, t.overlap.db, t.overlap.decisions, row);
      }
    }
  }

  lemma FaithfulHasSides(env: Env, db: Db, ds: seq<Decision>, row: ConflictRow)
    requires IsFaithful(env, db, ds, row)
    ensures HasBothSides(Row(db, row.path))
  {
  }

  /**
   * A first download is not the end of it. Whatever cycle comes next, if the drive lists the file
   * again: unchanged, an upload of it is planned; changed, the cycle has a conflict, which stays without
   * any operation if the scan does not find the file.
   */
  lemma AfterFirstDownload(env: Env, db: Db, c: Input, t: Trace, a: nat, i: nat,
                           db2: Db, c2: Input, t2: Trace, b: nat)
    requires WellFormed(env, c) && WellKeyed(db) && t == TraceOf(env, db, c) && Reaches(t) && DistinctScan(env, c.scan)
    requires a < |c.page.items| && IsLive(db, c.colls, c.page.items[a]) && !c.page.items[a].folder
    requires i < |t.Ops()| && t.Ops()[i].kind == OpDownload && ItemPath(c.page.items[a]) == Some(t.Ops()[i].path)
    requires Took(env, c, t, i) && t.Ops()[i].path !in db.rows && !ScannedAt(env, c.scan, |c.scan|, t.Ops()[i].path)
    requires Follows(db, t, db2)
    requires WellFormed(env, c2) && t2 == TraceOf(env, db2, c2) && Reaches(t2) && DistinctScan(env, c2.scan)
    requires b < |c2.page.items| && Survives(c2.colls, c2.page.items[b])
    requires !c2.page.items[b].deleted && !c2.page.items[b].folder
    requires ItemPath(c2.page.items[b]) == ItemPath(c.page.items[a])
    ensures
      var p, base := t.Ops()[i].path, RemoteSideOf(c.page.items[a], c.clocks.delta(a));
      if !RemoteDiffersFromSynced(c2.page.items[b], Some(base)) then HasOp(t2.planned, p, OpUpload)
      else
        && Decision(p, ConflictDetected) in t2.overlap.decisions
        && (if ScannedAt(env, c2.scan, |c2.scan|, p) then IsOnRecord(env, c2, t2, p) else NothingDoneAt(t2, p))
  {
    hide WellFormed, TraceOf, DistinctScan, ItemPath, ScannedAt, Took, CycleLog, After, IsLive, HasOp, IsOnRecord,
         NothingDoneAt, RemoteDiffersFromSynced;
    FirstDownloadLeaves(env, db, c, t, a, i);
    ListedAgain(env, db2, c2, t2, b, RemoteSideOf(c.page.items[a], c.clocks.delta(a)));
  }
}
