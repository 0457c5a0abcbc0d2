/**
 * What a cycle does about items that it has no row for: new folders and files, and items whose
 * name differs only in case from another one.
 */
module FirstSight {
  import opened Collections
  import opened Paths
  import opened Types
  import opened Store
  import opened Collisions
  import opened DeltaPhase
  import opened DeltaEngine
  import opened LocalPhase
  import opened ConflictPhase
  import opened ResolvePhase
  import opened Cycle
  import opened CycleOps
  import opened CycleOutcome
  import opened NextCycle
  import CaseRename

  // ---------------------------------------------------------------- new items

  /** The page decides once about the path of a new item: to make a directory or to download a file. */
  lemma NewItemDecides(env: Env, db: Db, c: Input, t: Trace, a: nat, x: Decision)
    requires WellFormed(env, c) && WellKeyed(db) && t == TraceOf(env, db, c)
    requires a < |c.page.items| && IsLive(db, c.colls, c.page.items[a])
    requires ItemPath(c.page.items[a]).value !in db.rows && x.path == ItemPath(c.page.items[a]).value
    ensures x in t.delta.decisions <==> x.kind == if c.page.items[a].folder then LocalMkdir else Download
    ensures x.path in Decided(t)
  {
    hide WellFormed, DeltaOf, LocalOf, OverlapOf, ResolveOf, PlannedOf, RenamesOf, ExecOf, FoldDistinct, ItemPath,
         LiveSummary, RowsSummary;
    var item := c.page.items[a];
    var y := Decision(x.path, if item.folder then LocalMkdir else Download);
    DeltaSummary(env, db, c);
    FilterMapHits(DecisionFor(db, c.colls), c.page.items, item);
    assert y in t.delta.decisions;
    DeltaIsDistinct(env, db, c);
    if x in t.delta.decisions {
      SamePathSameDecision(t.delta.decisions, x, y);
    }
  }

  /** Promotion leaves downloads alone at paths that no overlap names. */
  lemma {:induction false} DownloadStays(db: Db, ds: seq<Decision>, overlaps: seq<Overlap>, clock: Clock, n: nat,
                                         p: RelPath)
    requires n <= |overlaps| && Decision(p, Download) in ds && forall k :: 0 <= k < n ==> overlaps[k].path != p
    ensures Decision(p, Download) in OverlapWalk(db, ds, overlaps, clock, n).decisions
  {
    hide Promote, Put, WithLocal;
    if n > 0 {
      DownloadStays(db, ds, overlaps, clock, n - 1, p);
      PromoteElsewhere(OverlapWalk(db, ds, overlaps, clock, n - 1).decisions, overlaps[n - 1].path, p);
    }
  }

  lemma PromoteElsewhere(ds: seq<Decision>, q: RelPath, p: RelPath)
    requires Decision(p, Download) in ds && q != p
    ensures Decision(p, Download) in Promote(ds, q)
  {
    hide FirstDownload;
    var i :| 0 <= i < |ds| && ds[i] == Decision(p, Download);
    assert Promote(ds, q)[i] == ds[i];
  }

  lemma UnscannedHasNoOverlap(env: Env, db: Db, c: Input, t: Trace, p: RelPath)
    requires WellKeyed(db) && t == TraceOf(env, db, c) && !ScannedAt(env, c.scan, |c.scan|, p)
    ensures forall k :: 0 <= k < |t.local.overlaps| ==> t.local.overlaps[k].path != p
  {
    hide DeltaOf, LocalOf, OverlapOf, ResolveOf, PlannedOf, RenamesOf, ExecOf, ScannedAt, ScannedSide, DecisionFacts;
    LocalSummary(env, db, c, t);
    NotScannedNotAttached(env, c.scan, p);
    forall k | 0 <= k < |t.local.overlaps| ensures t.local.overlaps[k].path != p {
      assert t.local.overlaps[k] in t.local.overlaps;
    }
  }

  /** What promotion makes of the decision about a new item. */
  lemma NewItemPromoted(env: Env, db: Db, c: Input, t: Trace, a: nat, x: Decision)
    requires WellFormed(env, c) && WellKeyed(db) && t == TraceOf(env, db, c) && !t.local.failed
    requires a < |c.page.items| && IsLive(db, c.colls, c.page.items[a])
    requires ItemPath(c.page.items[a]).value !in db.rows && x.path == ItemPath(c.page.items[a]).value
    requires x.kind == LocalMkdir || x.kind == Download
    ensures x in t.overlap.decisions <==>
            if x.kind == LocalMkdir then c.page.items[a].folder
            else !c.page.items[a].folder && !ScannedAt(env, c.scan, |c.scan|, x.path)
  {
    hide WellFormed, DeltaOf, LocalOf, OverlapWalk, ResolveOf, PlannedOf, RenamesOf, ExecOf, ScannedAt, Promoted,
         NoDownloadAt, DistinctPaths, DistinctScan, Conflicts, ItemPath, IsLive, Decided, DistinctDownloads;
    NewItemDecides(env, db, c, t, a, x);
    MergedIsDistinct(env, db, c, t);
    OverlapWalkFacts(t.local.db, Merged(t), t.local.overlaps, c.clocks.overlap, |t.local.overlaps|);
    if x in t.delta.decisions {
      assert x in Merged(t);
    }
    if x in t.local.decisions {
      ScanDecides(env, db, c, t, x);
    }
    if x in t.overlap.decisions {
      PromotedIsThere(Merged(t), t.overlap.decisions, x);
    }
    if x.kind == LocalMkdir {
      if x in Merged(t) {
        OthersAreKept(Merged(t), t.overlap.decisions, x);
      }
    } else if ScannedAt(env, c.scan, |c.scan|, x.path) {
      NoDownloadOntoScanned(env, db, c, t, x.path);
      NoDownloadMeans(t.overlap.decisions, x);
    } else if x in t.delta.decisions {
      UnscannedHasNoOverlap(env, db, c, t, x.path);
      DownloadStays(t.local.db, Merged(t), t.local.overlaps, c.clocks.overlap, |t.local.overlaps|, x.path);
    }
  }

  lemma PromotedIsThere(before: seq<Decision>, after: seq<Decision>, x: Decision)
    requires Promoted(before, after) && x in after && !x.kind.IsConflict()
    ensures x in before
  {
    var i :| 0 <= i < |after| && after[i] == x;
    assert before[i] in before;
  }

  lemma NoDownloadMeans(ds: seq<Decision>, x: Decision)
    requires NoDownloadAt(ds, x.path) && x.kind == Download
    ensures x !in ds
  {
    assert x == Decision(x.path, Download);
  }

  lemma PlannedIff(env: Env, db: Db, c: Input, t: Trace, p: RelPath, kind: OpKind)
    requires WellFormed(env, c) && WellKeyed(db) && t == TraceOf(env, db, c) && Reaches(t)
    requires kind == OpLocalMkdir || kind == OpDownload
    ensures HasOp(t.planned, p, kind) <==>
            Decision(p, if kind == OpLocalMkdir then LocalMkdir else Download) in t.overlap.decisions
  {
    hide WellFormed, TraceOf;
    var x := Decision(p, if kind == OpLocalMkdir then LocalMkdir else Download);
    if j :| 0 <= j < |t.planned| && t.planned[j].path == p && t.planned[j].kind == kind {
      var d := PlannedSource(env, db, c, t, t.planned[j]);
      assert d == x;
    }
    if x in t.overlap.decisions {
      var j := DecidedIsPlanned(env, db, c, t, x);
    }
  }

  /** Directories are made by the planner alone. */
  lemma MkdirIsPlanned(env: Env, db: Db, c: Input, t: Trace, p: RelPath)
    requires t == TraceOf(env, db, c) && Reaches(t)
    ensures HasOp(t.Ops(), p, OpLocalMkdir) <==> HasOp(t.planned, p, OpLocalMkdir)
  {
    hide TraceOf, Grouped;
    var n, m := |t.planned|, |t.resolve.ops|;
    if j :| 0 <= j < |t.Ops()| && t.Ops()[j].path == p && t.Ops()[j].kind == OpLocalMkdir {
      if n <= j < n + m {
        KeptAre(env, db, c, t);
        OpsSplit(t, j);
        GroupsRenameAndDownload(env, t.overlap.decisions, t.resolve.ops, j - n);
      } else if j >= n + m {
        RenamesAre(env, db, c, t, j - n - m);
      }
      assert t.planned[j] == t.Ops()[j];
    }
    if j :| 0 <= j < |t.planned| && t.planned[j].path == p && t.planned[j].kind == OpLocalMkdir {
      assert t.Ops()[j] == t.planned[j];
    }
  }

  /**
   * What a cycle that gets to its execution does about an item of the page that it has no row for,
   * unless the item is dropped or skipped for its case: it makes a directory exactly for a folder,
   * and plans a download exactly for a file that the scan does not find at its path. With a file
   * that it does find there is a conflict on record.
   */
  lemma NewItemIff(env: Env, db: Db, c: Input, t: Trace, a: nat)
    requires WellFormed(env, c) && WellKeyed(db) && t == TraceOf(env, db, c) && Reaches(t)
    requires a < |c.page.items| && IsLive(db, c.colls, c.page.items[a])
    requires ItemPath(c.page.items[a]).value !in db.rows
    ensures
      var item := c.page.items[a];
      var p := ItemPath(item).value;
      && (HasOp(t.Ops(), p, OpLocalMkdir) <==> item.folder)
      && (HasOp(t.planned, p, OpDownload) <==> !item.folder && !ScannedAt(env, c.scan, |c.scan|, p))
      && (!item.folder && ScannedAt(env, c.scan, |c.scan|, p) ==> IsOnRecord(env, c, t, p))
  {
    hide WellFormed, TraceOf, ItemPath, IsSkipped, ScannedAt, HasOp, IsOnRecord;
    var item := c.page.items[a];
    var p := ItemPath(item).value;
    MkdirIsPlanned(env, db, c, t, p);
    PlannedIff(env, db, c, t, p, OpLocalMkdir);
    PlannedIff(env, db, c, t, p, OpDownload);
    NewItemPromoted(env, db, c, t, a, Decision(p, LocalMkdir));
    NewItemPromoted(env, db, c, t, a, Decision(p, Download));
    if !item.folder && ScannedAt(env, c.scan, |c.scan|, p) {
      NewConflictIsOnRecord(env, db, c, t, a);
    }
  }

  lemma NewConflictIsOnRecord(env: Env, db: Db, c: Input, t: Trace, a: nat)
    requires WellFormed(env, c) && WellKeyed(db) && t == TraceOf(env, db, c) && Reaches(t)
    requires a < |c.page.items| && IsLive(db, c.colls, c.page.items[a]) && !c.page.items[a].folder
    requires ItemPath(c.page.items[a]).value !in db.rows
    requires ScannedAt(env, c.scan, |c.scan|, ItemPath(c.page.items[a]).value)
    ensures IsOnRecord(env, c, t, ItemPath(c.page.items[a]).value)
  {
    hide WellFormed, TraceOf, ItemPath, ScannedAt, ScannedSide, Decided, IsSkipped;
    var p := ItemPath(c.page.items[a]).value;
    NewItemDecides(env, db, c, t, a, Decision(p, Download));
    ScannedDownloadIsAConflict(env, db, c, t, p);
    UntrackedItem(env, db, c, t, a);
    LiveItem(env, db, c, t, a);
    DecidedRow(env, db, c, t, p);
    var row := ConflictIsOnRecord(env, db, c, t, Decision(p, ConflictDetected));
  }

  lemma LiveItem(env: Env, db: Db, c: Input, t: Trace, a: nat)
    requires WellFormed(env, c) && WellKeyed(db) && t == TraceOf(env, db, c)
    requires a < |c.page.items| && IsLive(db, c.colls, c.page.items[a])
    ensures
      var p := ItemPath(c.page.items[a]).value;
      p in t.delta.live && t.delta.live[p] == c.page.items[a]
  {
    hide WellFormed, DeltaOf, LocalOf, OverlapOf, ResolveOf, PlannedOf, RenamesOf, ExecOf, FoldDistinct, ItemPath;
    DeltaSummary(env, db, c);
    LiveIsTheItem(env.fold, c.colls, db, c.page.items, t.delta.live, a);
  }

  // ---------------------------------------------------------------- items that differ in case

  /** The texts of short hashes: of one length, and without separators. */
  ghost predicate PlainHashes(env: Env)
  {
    && (forall p, q :: |env.shortHash(p)| == |env.shortHash(q)|)
    && (forall p :: '.' !in env.shortHash(p) && '/' !in env.shortHash(p))
  }

  /** Where a remote rename leads: the new name, in the directory of the old one. */
  function NewPath(op: FileOp): RelPath
    requires op.meta.newName.Some?
  {
    op.path[..BaseStart(op.path)] + op.meta.newName.value
  }

  /** The path must give way because of its case: the page drops it, or skips an item there. */
  ghost predicate GivesWay(db: Db, c: Input, p: RelPath)
  {
    p in c.colls
    || exists a :: 0 <= a < |c.page.items| && Survives(c.colls, c.page.items[a]) && ItemPath(c.page.items[a]) == Some(p)
                   && IsSkipped(db, p, c.page.items[a])
  }

  /** The rename of some item of the page at its path, to the path's own target. */
  ghost predicate IsCaseRename(env: Env, items: seq<RemoteItem>, r: Rename)
  {
    && ValidRel(CaseRename.RenameTarget(r.path, env.shortHash(r.path)))
    && r.newLeaf == Leaf(CaseRename.RenameTarget(r.path, env.shortHash(r.path)))
    && exists a :: 0 <= a < |items| && ItemPath(items[a]) == Some(r.path) && items[a].id == r.itemId
  }

  lemma RenameForIs(env: Env, items: seq<RemoteItem>, a: nat, p: RelPath)
    requires a < |items| && ItemPath(items[a]) == Some(p)
    ensures
      var r := RenameFor(env, p, items[a]);
      if ValidRel(CaseRename.RenameTarget(p, env.shortHash(p))) then
        r.Some? && r.value.path == p && IsCaseRename(env, items, r.value)
      else r.None?
  {
    hide ValidRel, CaseRename.RenameTarget, ItemPath;
  }

  lemma SkippedRename(env: Env, db: Db, c: Input, r: Rename) returns (a: nat)
    requires r in FilterMap(SkipRenameFor(env, db, c.colls), c.page.items)
    ensures a < |c.page.items| && Survives(c.colls, c.page.items[a])
    ensures ItemPath(c.page.items[a]) == Some(r.path) && IsSkipped(db, r.path, c.page.items[a])
    ensures RenameFor(env, r.path, c.page.items[a]) == Some(r)
  {
    hide ItemPath, IsSkipped, CaseRename.RenameTarget, ValidRel;
    var rs := FilterMap(SkipRenameFor(env, db, c.colls), c.page.items);
    var i :| 0 <= i < |rs| && rs[i] == r;
    a := FilterMapSource(SkipRenameFor(env, db, c.colls), c.page.items, i);
  }

  /** The renames of a cycle, one by one. */
  lemma RenameIs(env: Env, db: Db, c: Input, t: Trace, r: Rename)
    requires WellFormed(env, c) && WellKeyed(db) && t == TraceOf(env, db, c) && r in t.delta.renames
    ensures IsCaseRename(env, c.page.items, r) && GivesWay(db, c, r.path)
  {
    hide DeltaOf, LocalOf, OverlapOf, ResolveOf, PlannedOf, RenamesOf, ExecOf, ItemPath, IsSkipped, RenameFor, ValidRel,
         IsCaseRename, LiveSummary, RowsSummary, FoldDistinct, DecisionFor, SkipRenameFor, CaseRename.RenameTarget,
         IsCollisionMap, CoarserThanAscii;
    DeltaSummary(env, db, c);
    if r in c.renames {
      var i: nat :| FirstAt(c.page.items, i, r.path) && RenameFor(env, r.path, c.page.items[i]) == Some(r);
      RenameForIs(env, c.page.items, i, r.path);
    } else {
      assert c.page.items[..|c.page.items|] == c.page.items;
      var a := SkippedRename(env, db, c, r);
      RenameForIs(env, c.page.items, a, r.path);
    }
  }

  lemma GivesWayIsRenamed(env: Env, db: Db, c: Input, t: Trace, p: RelPath)
    requires WellFormed(env, c) && WellKeyed(db) && t == TraceOf(env, db, c) && GivesWay(db, c, p)
    requires ValidRel(CaseRename.RenameTarget(p, env.shortHash(p)))
    ensures exists r :: r in t.delta.renames && r.path == p
  {
    hide DeltaOf, LocalOf, OverlapOf, ResolveOf, PlannedOf, RenamesOf, ExecOf, ItemPath, IsSkipped, RenameFor, ValidRel,
         IsCaseRename, LiveSummary, RowsSummary, FoldDistinct, DecisionFor, CaseRename.RenameTarget, IsCollisionMap,
         CoarserThanAscii, RenamesFirst;
    DeltaSummary(env, db, c);
    assert c.page.items[..|c.page.items|] == c.page.items;
    if p in c.colls {
      assert HasNewName(env, p);
      var k :| 0 <= k < |c.renames| && c.renames[k].path == p;
      assert c.renames[k] in t.delta.renames;
    } else {
      var a :| 0 <= a < |c.page.items| && Survives(c.colls, c.page.items[a]) && ItemPath(c.page.items[a]) == Some(p)
        && IsSkipped(db, p, c.page.items[a]);
      RenameForIs(env, c.page.items, a, p);
      var r := RenameFor(env, p, c.page.items[a]).value;
      FilterMapHits(SkipRenameFor(env, db, c.colls), c.page.items, c.page.items[a]);
      assert r in t.delta.renames;
    }
  }

  lemma RenameOpIs(env: Env, db: Db, c: Input, t: Trace, i: nat)
    requires t == TraceOf(env, db, c) && i < |t.renames|
    ensures i < |t.delta.renames|
    ensures
      var op, r := t.renames[i], t.delta.renames[i];
      && op.path == r.path && op.kind == OpRemoteRename
      && op.meta.newName == Some(r.newLeaf) && op.meta.remoteItemId == Some(r.itemId)
  {
    hide DeltaOf, LocalOf, OverlapOf, ResolveOf, PlannedOf, ExecOf;
  }

  /**
   * A path is renamed on the drive exactly if it must give way because of its case and the new
   * name is a valid path.
   */
  lemma RemoteRenameIff(env: Env, db: Db, c: Input, t: Trace, p: RelPath)
    requires WellFormed(env, c) && WellKeyed(db) && t == TraceOf(env, db, c)
    ensures HasOp(t.renames, p, OpRemoteRename) <==>
            GivesWay(db, c, p) && ValidRel(CaseRename.RenameTarget(p, env.shortHash(p)))
  {
    hide WellFormed, TraceOf, GivesWay, ValidRel, CaseRename.RenameTarget;
    if i :| 0 <= i < |t.renames| && t.renames[i].path == p && t.renames[i].kind == OpRemoteRename {
      RenameOpIs(env, db, c, t, i);
      assert t.delta.renames[i] in t.delta.renames;
      RenameIs(env, db, c, t, t.delta.renames[i]);
    }
    if GivesWay(db, c, p) && ValidRel(CaseRename.RenameTarget(p, env.shortHash(p))) {
      GivesWayIsRenamed(env, db, c, t, p);
      var r :| r in t.delta.renames && r.path == p;
      var i :| 0 <= i < |t.delta.renames| && t.delta.renames[i] == r;
      RenamesAreAsMany(env, db, c, t);
      RenameOpIs(env, db, c, t, i);
    }
  }

  lemma RenamesAreAsMany(env: Env, db: Db, c: Input, t: Trace)
    requires t == TraceOf(env, db, c)
    ensures |t.renames| == |t.delta.renames|
  {
    hide DeltaOf, LocalOf, OverlapOf, ResolveOf, PlannedOf, ExecOf;
  }

  lemma TargetIsBeside(p: RelPath, hash: string)
    requires '/' !in hash
    ensures p[..BaseStart(p)] + Leaf(CaseRename.RenameTarget(p, hash)) == CaseRename.RenameTarget(p, hash)
  {
    hide CaseRename.RenameTarget, BaseStart;
    CaseRename.TargetKeepsDirectory(p, hash);
    var target := CaseRename.RenameTarget(p, hash);
    assert target == target[..BaseStart(p)] + target[BaseStart(p)..];
  }

  /**
   * A remote rename asks for an item that the page lists at its path, and leads to the target of
   * that path, which is valid and, under a character-wise fold, does not collide with it any more.
   */
  lemma RemoteRenameLeadsTo(env: Env, db: Db, c: Input, t: Trace, i: nat)
    requires WellFormed(env, c) && WellKeyed(db) && t == TraceOf(env, db, c) && PlainHashes(env)
    requires i < |t.renames|
    ensures t.renames[i].meta.newName.Some?
    ensures
      var op := t.renames[i];
      && NewPath(op) == CaseRename.RenameTarget(op.path, env.shortHash(op.path)) && ValidRel(NewPath(op))
      && (CaseRename.CharacterWise(env.fold) ==> env.fold(NewPath(op)) != env.fold(op.path))
      && exists a :: 0 <= a < |c.page.items| && ItemPath(c.page.items[a]) == Some(op.path)
                     && op.meta.remoteItemId == Some(c.page.items[a].id)
  {
    hide WellFormed, TraceOf, GivesWay, ValidRel, CaseRename.RenameTarget, BaseStart, Leaf, ItemPath,
         CaseRename.CharacterWise;
    RenameOpIs(env, db, c, t, i);
    var r := t.delta.renames[i];
    assert r in t.delta.renames;
    RenameIs(env, db, c, t, r);
    TargetIsBeside(r.path, env.shortHash(r.path));
    if CaseRename.CharacterWise(env.fold) {
      CaseRename.TargetLeavesClass(r.path, env.shortHash(r.path), env.fold);
    }
  }

  /** No two remote renames are at one path. */
  lemma RenamesDiffer(env: Env, db: Db, c: Input, t: Trace, i: nat, j: nat)
    requires WellFormed(env, c) && WellKeyed(db) && t == TraceOf(env, db, c)
    requires i < j < |t.delta.renames|
    ensures t.delta.renames[i].path != t.delta.renames[j].path
  {
    hide DeltaOf, LocalOf, OverlapOf, ResolveOf, PlannedOf, RenamesOf, ExecOf, ItemPath, IsSkipped, RenameFor,
         LiveSummary, RowsSummary, DecisionFor, SkipRenameFor, IsCollisionMap, CoarserThanAscii, RenamesFirst,
         HasNewName, Renamed;
    DeltaSummary(env, db, c);
    assert c.page.items[..|c.page.items|] == c.page.items;
    var rs, n := FilterMap(SkipRenameFor(env, db, c.colls), c.page.items), |c.renames|;
    assert t.delta.renames == c.renames + rs;
    if n <= j {
      if i < n {
        assert rs[j - n] in rs && c.renames[i] in c.renames;
        var b := SkippedRename(env, db, c, rs[j - n]);
      } else {
        SkippedDiffer(env, db, c, i - n, j - n);
      }
    }
  }

  lemma SkippedDiffer(env: Env, db: Db, c: Input, i: nat, j: nat)
    requires FoldDistinct(env.fold, c.colls, c.page.items)
    requires i < j < |FilterMap(SkipRenameFor(env, db, c.colls), c.page.items)|
    ensures
      var rs := FilterMap(SkipRenameFor(env, db, c.colls), c.page.items);
      rs[i].path != rs[j].path
  {
    hide ItemPath, SkipRenameFor, FilterMap;
    var a, b := FilterMapOrder(SkipRenameFor(env, db, c.colls), c.page.items, i, j);
    SkipRenamePath(env, db, c.colls, c.page.items[a]);
    SkipRenamePath(env, db, c.colls, c.page.items[b]);
    assert env.fold(ItemPath(c.page.items[a]).value) != env.fold(ItemPath(c.page.items[b]).value);
  }

  lemma SkipRenamePath(env: Env, db: Db, colls: map<RelPath, RelPath>, item: RemoteItem)
    ensures
      var r := SkipRenameFor(env, db, colls)(item);
      r.Some? ==> Survives(colls, item) && ItemPath(item) == Some(r.value.path)
  {
    hide ItemPath, IsSkipped, CaseRename.RenameTarget, ValidRel;
  }

  /** Two remote renames lead to different paths. In one directory they have different new names. */
  lemma RemoteRenamesPart(env: Env, db: Db, c: Input, t: Trace, i: nat, j: nat)
    requires WellFormed(env, c) && WellKeyed(db) && t == TraceOf(env, db, c) && PlainHashes(env)
    requires i < j < |t.renames|
    ensures t.renames[i].meta.newName.Some? && t.renames[j].meta.newName.Some?
    ensures NewPath(t.renames[i]) != NewPath(t.renames[j])
  {
    hide WellFormed, TraceOf, CaseRename.RenameTarget, BaseStart, ItemPath, ValidRel;
    RemoteRenameLeadsTo(env, db, c, t, i);
    RemoteRenameLeadsTo(env, db, c, t, j);
    RenameOpIs(env, db, c, t, i);
    RenameOpIs(env, db, c, t, j);
    RenamesDiffer(env, db, c, t, i, j);
    var p, q := t.renames[i].path, t.renames[j].path;
    if NewPath(t.renames[i]) == NewPath(t.renames[j]) {
      CaseRename.TargetInjective(p, q, env.shortHash(p), env.shortHash(q));
    }
  }
}
