/** The operations a whole cycle ends up with. */
module CycleOps {
  import opened Collections
  import opened Paths
  import opened Types
  import opened Store
  import opened Reconcile
  import opened DeltaPhase
  import opened LocalPhase
  import opened ConflictPhase
  import opened ResolvePhase
  import opened ExecutePhase
  import opened Planner
  import opened Cycle

  // ---------------------------------------------------------------- the decisions of the page

  lemma DeltaSummary(env: Env, db: Db, c: Input)
    requires WellFormed(env, c) && WellKeyed(db)
    ensures FoldDistinct(env.fold, c.colls, c.page.items)
    ensures Summary(env, c.colls, db, c.renames, c.page.items, c.clocks.delta, |c.page.items|, DeltaOf(env, db, c))
    ensures DeltaOf(env, db, c).decisions == FilterMap(DecisionFor(db, c.colls), c.page.items)
    ensures LiveSummary(c.colls, db, c.page.items, |c.page.items|, DeltaOf(env, db, c).live)
  {
    SurvivorsAreDistinct(env.fold, c.colls, c.page.items);
    WalkSummary(env, c.colls, db, c.renames, c.page.items, c.clocks.delta, |c.page.items|);
    assert c.page.items[..|c.page.items|] == c.page.items;
  }

  lemma DeltaIsDistinct(env: Env, db: Db, c: Input)
    requires WellFormed(env, c) && WellKeyed(db)
    ensures DistinctPaths(DeltaOf(env, db, c).decisions)
    ensures LiveDistinct(env, DeltaOf(env, db, c).live)
  {
    hide WellFormed, DeltaOf, DecisionFor, FoldDistinct, LiveSummary, Summary;
    var d := DeltaOf(env, db, c);
    DeltaSummary(env, db, c);
    forall i: nat, j: nat | i < j < |d.decisions| ensures d.decisions[i].path != d.decisions[j].path {
      DecisionsAreDistinct(env.fold, db, c.colls, c.page.items, i, j);
    }
    forall r, s | r in d.live && s in d.live && env.fold(r) == env.fold(s) ensures r == s {
      LiveIsFoldDistinct(env.fold, c.colls, db, c.page.items, d.live, r, s);
    }
  }

  /** A download is decided by the page only for a live file. */
  lemma DownloadsAreLive(env: Env, db: Db, c: Input, x: Decision)
    requires WellFormed(env, c) && WellKeyed(db) && x in DeltaOf(env, db, c).decisions && x.kind == Download
    ensures x.path in DeltaOf(env, db, c).live && !DeltaOf(env, db, c).live[x.path].folder
  {
    hide WellFormed, DeltaOf, DecisionFor, FoldDistinct, LiveSummary, Summary, IsLive, ItemPath;
    DeltaSummary(env, db, c);
    var d := DeltaOf(env, db, c);
    var i :| 0 <= i < |d.decisions| && d.decisions[i] == x;
    var a := FilterMapSource(DecisionFor(db, c.colls), c.page.items, i);
    DownloadIsLive(db, c.colls, c.page.items[a]);
    LiveIsTheItem(env.fold, c.colls, db, c.page.items, d.live, a);
  }

  // ---------------------------------------------------------------- the decisions of the scan

  function Decided(t: Trace): set<RelPath>
  {
    PathsDecided(t.delta.decisions)
  }

  lemma LocalSummary(env: Env, db: Db, c: Input, t: Trace)
    requires WellKeyed(db) && t == TraceOf(env, db, c)
    ensures LocalFacts(env, Decided(t), t.delta.live, Moved(t), c.scan, |c.scan|, t.local)
  {
    hide LocalFacts, LocalWalk, DeltaOf, Leads;
    CycleIsLinked(env, db, c);
    LeadsKeyed(t.delta.db, t.cursor, Moved(t), CursorRule);
    LocalWalkFacts(env, Decided(t), t.delta.live, Moved(t), c.scan, c.clocks.local, |c.scan|);
  }

  /** The decisions before promotion. */
  function Merged(t: Trace): seq<Decision>
  {
    t.delta.decisions + t.local.decisions
  }

  /** A decision of the scan is an upload or a directory, at a path the page did not decide about. */
  lemma ScanDecides(env: Env, db: Db, c: Input, t: Trace, x: Decision)
    requires WellKeyed(db) && t == TraceOf(env, db, c) && x in t.local.decisions
    ensures (x.kind == Upload || x.kind == RemoteMkdir) && x.path !in Decided(t) && !IsParked(Moved(t), x.path)
    ensures ScannedAt(env, c.scan, |c.scan|, x.path)
  {
    hide LocalWalk, TraceOf, ScannedAt, IsParked;
    LocalSummary(env, db, c, t);
    assert LocalDecision(env, Decided(t), Moved(t), c.scan, |c.scan|, x);
  }

  lemma MergedIsDistinct(env: Env, db: Db, c: Input, t: Trace)
    requires WellFormed(env, c) && WellKeyed(db) && t == TraceOf(env, db, c)
    ensures DistinctDownloads(Merged(t))
    ensures DistinctScan(env, c.scan) ==> DistinctPaths(Merged(t))
  {
    hide WellFormed, DeltaOf, LocalOf, OverlapOf, ResolveOf, PlannedOf, RenamesOf, ExecOf, DistinctScan, LiveDistinct;
    DeltaIsDistinct(env, db, c);
    assert DistinctScan(env, c.scan) ==> DistinctPaths(t.local.decisions) by { LocalSummary(env, db, c, t); }
    forall y | y in t.local.decisions ensures y.kind != Download && y.path !in Decided(t) {
      ScanDecides(env, db, c, t, y);
    }
    BothDistinct(t.delta.decisions, t.local.decisions);
  }

  lemma BothDistinct(a: seq<Decision>, b: seq<Decision>)
    requires DistinctPaths(a) && forall y :: y in b ==> y.kind != Download && y.path !in PathsDecided(a)
    ensures DistinctDownloads(a + b)
    ensures DistinctPaths(b) ==> DistinctPaths(a + b)
  {
    forall i | 0 <= i < |a| ensures a[i].path in PathsDecided(a) {
      assert a[i] in a;
    }
    forall j | 0 <= j < |b| ensures b[j].kind != Download && b[j].path !in PathsDecided(a) {
      assert b[j] in b;
    }
  }

  // ---------------------------------------------------------------- downloads

  /** Every download of the merged decisions onto a scanned path has been met by the scan. */
  lemma DownloadsOverlap(env: Env, db: Db, c: Input, t: Trace, p: RelPath)
    requires WellFormed(env, c) && WellKeyed(db) && t == TraceOf(env, db, c)
    requires !t.local.failed && ScannedAt(env, c.scan, |c.scan|, p) && Decision(p, Download) in Merged(t)
    ensures OverlapsAt(t.local.overlaps, p)
  {
    hide WellFormed, DeltaOf, LocalOf, OverlapOf, ResolveOf, PlannedOf, RenamesOf, ExecOf, ScannedAt;
    var x := Decision(p, Download);
    LocalSummary(env, db, c, t);
    if x in t.local.decisions {
      ScanDecides(env, db, c, t, x);
    } else {
      DownloadsAreLive(env, db, c, x);
      assert p in Decided(t);
    }
  }

  /** After promotion, no download onto a scanned path is left. */
  lemma NoDownloadOntoScanned(env: Env, db: Db, c: Input, t: Trace, p: RelPath)
    requires WellFormed(env, c) && WellKeyed(db) && t == TraceOf(env, db, c)
    requires !t.local.failed && ScannedAt(env, c.scan, |c.scan|, p)
    ensures NoDownloadAt(t.overlap.decisions, p)
  {
    hide WellFormed, DeltaOf, LocalOf, ScannedAt, OverlapWalk, Promoted, NoDownloadAt, DistinctPaths, DistinctScan;
    MergedIsDistinct(env, db, c, t);
    OverlapWalkFacts(t.local.db, Merged(t), t.local.overlaps, c.clocks.overlap, |t.local.overlaps|);
    if !NoDownloadAt(t.overlap.decisions, p) {
      PromotedAddsNoDownload(Merged(t), t.overlap.decisions, p);
      DownloadsOverlap(env, db, c, t, p);
    }
  }

  lemma PromotedAddsNoDownload(before: seq<Decision>, after: seq<Decision>, p: RelPath)
    requires Promoted(before, after) && !NoDownloadAt(after, p)
    ensures Decision(p, Download) in before
  {
    var i :| 0 <= i < |after| && after[i] == Decision(p, Download);
    assert before[i] in before;
  }

  lemma PromotedDownload(before: seq<Decision>, after: seq<Decision>, x: Decision)
    requires Promoted(before, after) && x in before && x.kind == Download && NoDownloadAt(after, x.path)
    ensures Decision(x.path, ConflictDetected) in after
  {
    var i :| 0 <= i < |before| && before[i] == x;
    assert after[i] in after;
  }

  /**
   * Whatever made the page decide to download over a file, also an edit that passed for the base:
   * if the scan still lists the file, the decision ends up as a conflict.
   */
  lemma ScannedDownloadIsAConflict(env: Env, db: Db, c: Input, t: Trace, p: RelPath)
    requires WellFormed(env, c) && WellKeyed(db) && t == TraceOf(env, db, c)
    requires !t.local.failed && ScannedAt(env, c.scan, |c.scan|, p) && Decision(p, Download) in t.delta.decisions
    ensures Decision(p, ConflictDetected) in t.overlap.decisions && NoDownloadAt(t.overlap.decisions, p)
  {
    hide WellFormed, DeltaOf, LocalOf, ScannedAt, OverlapWalk, Promoted, NoDownloadAt, DistinctPaths, DistinctScan,
         Conflicts;
    MergedIsDistinct(env, db, c, t);
    OverlapWalkFacts(t.local.db, Merged(t), t.local.overlaps, c.clocks.overlap, |t.local.overlaps|);
    NoDownloadOntoScanned(env, db, c, t, p);
    assert Decision(p, Download) in Merged(t);
    PromotedDownload(Merged(t), t.overlap.decisions, Decision(p, Download));
  }

  // ---------------------------------------------------------------- where operations come from

  lemma KeptAre(env: Env, db: Db, c: Input, t: Trace)
    requires t == TraceOf(env, db, c) && !t.resolve.failed
    ensures t.resolve.kept == FilterMap(AsKept, t.overlap.decisions)
    ensures Grouped(env, t.overlap.decisions, t.resolve.ops)
    ensures DistinctPaths(t.overlap.decisions) ==> PathsPaired(t.resolve.ops)
    ensures Conflicts(t.overlap.decisions) == t.resolve.inserted + t.resolve.dropped
  {
    hide DeltaOf, LocalOf, OverlapOf, ResolveWalk, Grouped, DistinctPaths, PathsPaired;
    var ds := t.overlap.decisions;
    ResolveWalkFacts(env, t.overlap.db, ds, c.clocks.resolve, |ds|);
    assert ds[..|ds|] == ds;
  }

  /** A planned operation carries out a decision that is not a conflict. */
  ghost predicate CarriesOut(op: FileOp, d: Decision)
  {
    !d.kind.IsConflict() && d.kind.ToOpKind() == Some(op.kind) && d.path == op.path && op.meta == NO_META
  }

  lemma OpSource(ds: seq<Decision>, kept: seq<Decision>, now: Timestamp, op: FileOp) returns (d: Decision)
    requires kept == FilterMap(AsKept, ds) && op in FilterMap(OpOf(now), kept)
    ensures d in ds && CarriesOut(op, d)
  {
    var made := FilterMap(OpOf(now), kept);
    var i :| 0 <= i < |made| && made[i] == op;
    var a := FilterMapSource(OpOf(now), kept, i);
    var b := FilterMapSource(AsKept, ds, a);
    d := ds[b];
  }

  lemma PlannedSource(env: Env, db: Db, c: Input, t: Trace, op: FileOp) returns (d: Decision)
    requires t == TraceOf(env, db, c) && !t.resolve.failed && op in t.planned
    ensures d in t.overlap.decisions && CarriesOut(op, d)
  {
    hide DeltaOf, LocalOf, OverlapOf, ResolveOf, RenamesOf, ExecOf, Grouped, FilterMap, Planned, CarriesOut, OpOf;
    KeptAre(env, db, c, t);
    PlannedIsPermutation(t.resolve.kept, c.clocks.start);
    SameMembers(t.planned, FilterMap(OpOf(c.clocks.start), t.resolve.kept), op);
    d := OpSource(t.overlap.decisions, t.resolve.kept, c.clocks.start, op);
  }

  // ---------------------------------------------------------------- no overwrite without a rename

  /**
   * In the final list, a download onto a path that the scan saw comes right after the rename of
   * the local file there to a loser name; the planner makes no such download.
   */
  lemma NoOverwriteWithoutRename(env: Env, db: Db, c: Input, t: Trace, i: nat)
    requires WellFormed(env, c) && WellKeyed(db) && t == TraceOf(env, db, c) && Reaches(t)
    requires i < |t.Ops()| && t.Ops()[i].kind == OpDownload && ScannedAt(env, c.scan, |c.scan|, t.Ops()[i].path)
    ensures i > |t.planned| && RenamesToLoser(env, t.Ops()[i - 1], t.Ops()[i].path)
  {
    hide WellFormed, TraceOf, ScannedAt, RenamesToLoser;
    var op, n, m := t.Ops()[i], |t.planned|, |t.resolve.ops|;
    if i < n {
      assert op == t.planned[i];
      var d := PlannedSource(env, db, c, t, op);
      NoDownloadOntoScanned(env, db, c, t, op.path);
      assert false;
    } else if i < n + m {
      KeptAre(env, db, c, t);
      assert op == t.resolve.ops[i - n] && InGroup(env, t.resolve.ops, i - n);
      RenameIsNoDownload(env, op);
      assert t.Ops()[i - 1] == t.resolve.ops[i - n - 1];
    } else {
      RenamesAre(env, db, c, t, i - n - m);
      assert false;
    }
  }

  lemma RenameIsNoDownload(env: Env, op: FileOp)
    ensures op.kind == OpDownload ==> !RenamesToLoser(env, op, op.path)
  {
    hide LoserFor;
  }

  lemma RenamesAre(env: Env, db: Db, c: Input, t: Trace, i: nat)
    requires t == TraceOf(env, db, c) && i < |t.renames|
    ensures t.renames[i].kind == OpRemoteRename && t.renames[i].meta.fromConflict
  {
    hide DeltaOf, LocalOf, OverlapOf, ResolveOf, PlannedOf, ExecOf;
  }

  // ---------------------------------------------------------------- one action per path

  lemma PromotedKeepsPaths(before: seq<Decision>, after: seq<Decision>)
    requires Promoted(before, after) && DistinctPaths(before)
    ensures DistinctPaths(after)
  {
    forall i, j | 0 <= i < j < |after| ensures after[i].path != after[j].path {
      assert after[i].path == before[i].path && after[j].path == before[j].path;
    }
  }

  lemma FinalIsDistinct(env: Env, db: Db, c: Input, t: Trace)
    requires WellFormed(env, c) && WellKeyed(db) && t == TraceOf(env, db, c)
    ensures DistinctScan(env, c.scan) ==> DistinctPaths(t.overlap.decisions)
    ensures Conflicts(t.overlap.decisions) == Conflicts(Merged(t)) + t.overlap.upgraded
  {
    hide WellFormed, DeltaOf, LocalOf, OverlapWalk, Promoted, DistinctPaths, DistinctScan, DistinctDownloads,
         NoDownloadAt;
    MergedIsDistinct(env, db, c, t);
    OverlapWalkFacts(t.local.db, Merged(t), t.local.overlaps, c.clocks.overlap, |t.local.overlaps|);
    if DistinctScan(env, c.scan) {
      PromotedKeepsPaths(Merged(t), t.overlap.decisions);
    }
  }

  function OpPath(op: FileOp): RelPath
  {
    op.path
  }

  lemma {:induction false} MadeIsDistinct(ds: seq<Decision>, kept: seq<Decision>, now: Timestamp)
    requires kept == FilterMap(AsKept, ds) && DistinctPaths(ds)
    ensures DistinctBy(OpPath, FilterMap(OpOf(now), kept))
  {
    var made := FilterMap(OpOf(now), kept);
    forall i: nat, j: nat | i < j < |made| ensures made[i].path != made[j].path {
      var a, b := FilterMapOrder(OpOf(now), kept, i, j);
      var x, y := FilterMapOrder(AsKept, ds, a, b);
    }
  }

  lemma PlannedIsDistinct(env: Env, db: Db, c: Input, t: Trace)
    requires WellFormed(env, c) && WellKeyed(db) && t == TraceOf(env, db, c) && Reaches(t) && DistinctScan(env, c.scan)
    ensures DistinctBy(OpPath, t.planned)
  {
    hide WellFormed, DistinctScan, DistinctPaths, DistinctBy, DeltaOf, LocalOf, OverlapOf, ResolveOf, RenamesOf,
         ExecOf, Grouped, PathsPaired, OpOf, FilterMap;
    var made := FilterMap(OpOf(c.clocks.start), t.resolve.kept);
    FinalIsDistinct(env, db, c, t);
    KeptAre(env, db, c, t);
    PlannedIsPermutation(t.resolve.kept, c.clocks.start);
    MadeIsDistinct(t.overlap.decisions, t.resolve.kept, c.clocks.start);
    DistinctPermutes(OpPath, made, t.planned);
  }

  /** A planned operation and one of a conflict are not about the same path. */
  lemma PlannedOrConflict(env: Env, db: Db, c: Input, t: Trace, i: nat, j: nat)
    requires WellFormed(env, c) && WellKeyed(db) && t == TraceOf(env, db, c) && Reaches(t) && DistinctScan(env, c.scan)
    requires i < |t.planned| && j < |t.resolve.ops|
    ensures t.planned[i].path != t.resolve.ops[j].path
  {
    hide WellFormed, TraceOf, DistinctScan, DistinctPaths, PathsPaired, InGroup;
    FinalIsDistinct(env, db, c, t);
    KeptAre(env, db, c, t);
    var d := PlannedSource(env, db, c, t, t.planned[i]);
    assert t.resolve.ops[j] in t.resolve.ops;
    var x :| x in t.overlap.decisions && x.kind.IsConflict() && x.path == t.resolve.ops[j].path;
    if t.planned[i].path == t.resolve.ops[j].path {
      SamePathSameDecision(t.overlap.decisions, d, x);
    }
  }

  /**
   * With every path scanned at most once: the planner and the conflict groups never act on the
   * same path, the planner acts once on a path, and a conflict group is a rename with at most one
   * download right behind it.
   */
  lemma OneActionPerPath(env: Env, db: Db, c: Input, t: Trace, i: nat, j: nat)
    requires WellFormed(env, c) && WellKeyed(db) && t == TraceOf(env, db, c) && Reaches(t) && DistinctScan(env, c.scan)
    requires i < j < |t.planned| + |t.resolve.ops| && t.Ops()[i].path == t.Ops()[j].path
    ensures i >= |t.planned| && j == i + 1
    ensures t.Ops()[i].kind == OpLocalRename && t.Ops()[j].kind == OpDownload
  {
    hide WellFormed, TraceOf, DistinctScan, DistinctPaths, DistinctBy, Grouped;
    var n := |t.planned|;
    OpsSplit(t, i);
    OpsSplit(t, j);
    if j < n {
      PlannedIsDistinct(env, db, c, t);
      DistinctOpsAt(t.planned, i, j);
    } else if i < n {
      PlannedOrConflict(env, db, c, t, i, j - n);
    } else {
      FinalIsDistinct(env, db, c, t);
      KeptAre(env, db, c, t);
    }
  }

  lemma OpsSplit(t: Trace, i: nat)
    requires i < |t.planned| + |t.resolve.ops|
    ensures t.Ops()[i] == if i < |t.planned| then t.planned[i] else t.resolve.ops[i - |t.planned|]
  {
  }

  lemma DistinctOpsAt(ops: seq<FileOp>, i: nat, j: nat)
    requires DistinctBy(OpPath, ops) && i < j < |ops|
    ensures ops[i].path != ops[j].path
  {
  }

  lemma SamePathSameDecision(ds: seq<Decision>, x: Decision, y: Decision)
    requires DistinctPaths(ds) && x in ds && y in ds && x.path == y.path
    ensures x == y
  {
  }

  // ---------------------------------------------------------------- conflicts are conserved

  /** The number of conflicts a cycle reports. */
  function ConflictsDetected(t: Trace): nat
  {
    t.delta.conflicts + t.local.recorded + t.overlap.upgraded
  }

  lemma PageConflicts(env: Env, db: Db, c: Input)
    requires WellFormed(env, c) && WellKeyed(db)
    ensures DeltaOf(env, db, c).conflicts == Conflicts(DeltaOf(env, db, c).decisions)
  {
    hide WellFormed, DeltaOf, DecisionFor, FoldDistinct, LiveSummary, RowsSummary;
    DeltaSummary(env, db, c);
  }

  lemma {:induction false} NoConflictsCounted(ds: seq<Decision>)
    requires forall d :: d in ds ==> !d.kind.IsConflict()
    ensures Conflicts(ds) == 0
  {
    if ds != [] {
      NoConflictsCounted(ds[..|ds| - 1]);
    }
  }

  /**
   * The reported number is that of the conflict rows inserted, plus that of the conflict
   * decisions dropped because a side is missing from the stored row.
   */
  lemma ConflictsAreConserved(env: Env, db: Db, c: Input, t: Trace)
    requires WellFormed(env, c) && WellKeyed(db) && t == TraceOf(env, db, c) && Reaches(t)
    ensures
      ConflictsDetected(t) == |t.exec.db.conflicts| - |db.conflicts|
                              + |FilterMap(LacksASide(t.overlap.db), t.overlap.decisions)|
  {
    hide WellFormed, DeltaOf, LocalWalk, OverlapWalk, ResolveWalk, ExecWalk, Leads, LacksASide, DistinctScan, Grouped;
    var ds := t.overlap.decisions;
    PageConflicts(env, db, c);
    FinalIsDistinct(env, db, c, t);
    KeptAre(env, db, c, t);
    forall d | d in t.local.decisions ensures !d.kind.IsConflict() {
      ScanDecides(env, db, c, t, d);
    }
    NoConflictsCounted(t.local.decisions);
    FilterMapAppend(AsConflict, t.delta.decisions, t.local.decisions);
    CountsFollow(env, db, c, t);
    DroppedLackASide(env, t.overlap.db, ds, c.clocks.resolve, |ds|);
    assert ds[..|ds|] == ds;
  }

  lemma DeltaKeepsConflicts(env: Env, db: Db, c: Input)
    requires WellFormed(env, c) && WellKeyed(db)
    ensures DeltaOf(env, db, c).db.conflicts == db.conflicts
  {
    hide WellFormed, DeltaOf, DecisionFor, FoldDistinct, LiveSummary;
    DeltaSummary(env, db, c);
  }

  /** The conflict table grows by what each phase counts. */
  lemma CountsFollow(env: Env, db: Db, c: Input, t: Trace)
    requires WellFormed(env, c) && WellKeyed(db) && t == TraceOf(env, db, c)
    ensures |t.exec.db.conflicts| == |db.conflicts| + t.local.recorded + t.resolve.inserted
    ensures WellKeyed(t.overlap.db)
  {
    hide WellFormed, Leads, DeltaRule, Gentle, ExecRule, LocalWalk, OverlapWalk, ResolveWalk, ExecWalk, DeltaOf;
    CycleIsLinked(env, db, c);
    DeltaKeepsConflicts(env, db, c);
    CursorKeeps(t.delta.db, c.page.token, c.clocks.cursor);
    LeadsKeyed(t.delta.db, t.cursor, Moved(t), CursorRule);
    LocalWalkIsGentle(env, Decided(t), t.delta.live, Moved(t), c.scan, c.clocks.local, |c.scan|, |c.scan|);
    LeadsKeyed(Moved(t), t.local.log, t.local.db, Gentle);
    OverlapWalkIsGentle(t.local.db, Merged(t), t.local.overlaps, c.clocks.overlap, |t.local.overlaps|,
                        |t.local.overlaps|);
    LeadsKeyed(t.local.db, t.overlap.log, t.overlap.db, Gentle);
    var ds := t.overlap.decisions;
    ResolveWalkIsGentle(env, t.overlap.db, ds, c.clocks.resolve, |ds|, |ds|);
    LeadsKeyed(t.overlap.db, t.resolve.log, t.resolve.db, Gentle);
    ExecWalkFacts(env.root, t.resolve.db, t.Ops(), c.scripts, c.clocks.exec, |t.Ops()|);
  }

  // ---------------------------------------------------------------- the order of the plan

  /** A decision about a path the page did not decide about is one of the scan. */
  lemma ScanDecisionsAreLast(t: Trace, a: nat)
    requires Promoted(Merged(t), t.overlap.decisions) && a < |t.overlap.decisions|
    requires t.overlap.decisions[a].path !in Decided(t)
    ensures |t.delta.decisions| <= a && t.local.decisions[a - |t.delta.decisions|].path == t.overlap.decisions[a].path
  {
    forall k | 0 <= k < |t.delta.decisions| ensures t.overlap.decisions[k].path in Decided(t) {
      assert Merged(t)[k] == t.delta.decisions[k] && t.delta.decisions[k] in t.delta.decisions;
    }
  }

  lemma DecidedInDepthOrder(env: Env, db: Db, c: Input, t: Trace, a: nat, b: nat)
    requires WellFormed(env, c) && WellKeyed(db) && t == TraceOf(env, db, c) && ScanByDepth(env, c.scan)
    requires a < b < |t.overlap.decisions|
    requires t.overlap.decisions[a].path !in Decided(t) && t.overlap.decisions[b].path !in Decided(t)
    ensures Depth(t.overlap.decisions[a].path) <= Depth(t.overlap.decisions[b].path)
  {
    hide WellFormed, DeltaOf, LocalOf, OverlapWalk, ResolveOf, PlannedOf, RenamesOf, ExecOf, Depth, ScanByDepth,
         DistinctScan;
    LocalSummary(env, db, c, t);
    MergedIsDistinct(env, db, c, t);
    OverlapWalkFacts(t.local.db, Merged(t), t.local.overlaps, c.clocks.overlap, |t.local.overlaps|);
    ScanDecisionsAreLast(t, a);
    ScanDecisionsAreLast(t, b);
  }

  /**
   * If the scan lists level by level, a remote directory asked for by the scan comes before every
   * operation that the scan asks for beneath it.
   */
  lemma DirectoriesComeFirst(env: Env, db: Db, c: Input, t: Trace, i: nat, j: nat)
    requires WellFormed(env, c) && WellKeyed(db) && t == TraceOf(env, db, c) && Reaches(t) && ScanByDepth(env, c.scan)
    requires i < |t.planned| && j < |t.planned| && t.planned[i].kind == OpRemoteMkdir
    requires t.planned[i].path !in Decided(t) && t.planned[j].path !in Decided(t)
    requires Beneath(t.planned[i].path, t.planned[j].path)
    ensures i < j
  {
    hide WellFormed, DeltaOf, LocalOf, OverlapOf, ResolveOf, RenamesOf, ExecOf, Depth, ScanByDepth, Planned, OpOf,
         Grouped, FilterMap;
    if j < i {
      KeptAre(env, db, c, t);
      var a, b := MkdirsKeepOrder(t.resolve.kept, c.clocks.start, j, i);
      var x, y := FilterMapOrder(AsKept, t.overlap.decisions, a, b);
      OpKeepsPath(t.resolve.kept[a], c.clocks.start);
      OpKeepsPath(t.resolve.kept[b], c.clocks.start);
      DecidedInDepthOrder(env, db, c, t, x, y);
      BeneathIsDeeper(t.planned[i].path, t.planned[j].path);
    }
  }

  lemma OpKeepsPath(d: Decision, now: Timestamp)
    ensures OpOf(now)(d).Some? ==> OpOf(now)(d).value.path == d.path
  {
  }

  // ---------------------------------------------------------------- deletions

  /** The page has no surviving tombstone at `p`. */
  ghost predicate NoTombstone(c: Input, p: RelPath)
  {
    forall i ::
      (0 <= i < |c.page.items| && Survives(c.colls, c.page.items[i]) && ItemPath(c.page.items[i]).value == p) ==>
      !c.page.items[i].deleted
  }

  ghost predicate NeverDeleted(ops: seq<FileOp>, p: RelPath)
  {
    forall j :: 0 <= j < |ops| && ops[j].path == p ==> ops[j].kind != OpLocalDelete
  }

  /** The item that a decision to delete a local file comes from. */
  lemma DeletionSource(env: Env, db: Db, c: Input, t: Trace, x: Decision)
    requires WellFormed(env, c) && WellKeyed(db) && t == TraceOf(env, db, c)
    requires x in t.overlap.decisions && x.kind == LocalDelete
    ensures x.path in db.rows && !NoTombstone(c, x.path)
  {
    hide WellFormed, DeltaOf, LocalOf, OverlapWalk, ResolveOf, PlannedOf, RenamesOf, ExecOf, DistinctScan,
         NoDownloadAt, Conflicts, Summary, FoldDistinct, LiveSummary, ItemPath;
    MergedIsDistinct(env, db, c, t);
    OverlapWalkFacts(t.local.db, Merged(t), t.local.overlaps, c.clocks.overlap, |t.local.overlaps|);
    var k :| 0 <= k < |t.overlap.decisions| && t.overlap.decisions[k] == x;
    assert Merged(t)[k] == x;
    if k >= |t.delta.decisions| {
      ScanDecides(env, db, c, t, x);
    } else {
      DeltaSummary(env, db, c);
      var a := FilterMapSource(DecisionFor(db, c.colls), c.page.items, k);
      var item := c.page.items[a];
      assert item.deleted && Survives(c.colls, item) && ItemPath(item).value == x.path;
    }
  }

  lemma TombstoneDecides(env: Env, db: Db, c: Input, t: Trace, p: RelPath)
    requires WellFormed(env, c) && WellKeyed(db) && t == TraceOf(env, db, c)
    requires p in db.rows && !NoTombstone(c, p)
    ensures Decision(p, LocalDelete) in t.overlap.decisions
  {
    hide WellFormed, DeltaOf, LocalOf, OverlapWalk, ResolveOf, PlannedOf, RenamesOf, ExecOf, DistinctScan,
         NoDownloadAt, Conflicts, Summary, FoldDistinct, LiveSummary, ItemPath;
    MergedIsDistinct(env, db, c, t);
    OverlapWalkFacts(t.local.db, Merged(t), t.local.overlaps, c.clocks.overlap, |t.local.overlaps|);
    DeltaSummary(env, db, c);
    var i :| 0 <= i < |c.page.items| && Survives(c.colls, c.page.items[i]) && ItemPath(c.page.items[i]).value == p
      && c.page.items[i].deleted;
    FilterMapHits(DecisionFor(db, c.colls), c.page.items, c.page.items[i]);
    var x := Decision(p, LocalDelete);
    var k :| 0 <= k < |t.delta.decisions| && t.delta.decisions[k] == x;
    assert Merged(t)[k] == x && t.overlap.decisions[k] == x;
  }

  /** What is decided, and is no conflict, is planned if it is an action. */
  lemma DecidedIsPlanned(env: Env, db: Db, c: Input, t: Trace, x: Decision) returns (j: nat)
    requires t == TraceOf(env, db, c) && !t.resolve.failed
    requires x in t.overlap.decisions && !x.kind.IsConflict() && x.kind.ToOpKind().Some?
    ensures j < |t.planned| && CarriesOut(t.planned[j], x)
  {
    hide DeltaOf, LocalOf, OverlapOf, ResolveOf, RenamesOf, ExecOf, Grouped, FilterMap, Planned;
    var now := c.clocks.start;
    KeptAre(env, db, c, t);
    FilterMapHits(AsKept, t.overlap.decisions, x);
    FilterMapHits(OpOf(now), t.resolve.kept, x);
    PlannedIsPermutation(t.resolve.kept, now);
    var op := OpOf(now)(x).value;
    SameMembers(FilterMap(OpOf(now), t.resolve.kept), t.planned, op);
    j :| 0 <= j < |t.planned| && t.planned[j] == op;
  }

  /**
   * A local file is deleted exactly where a tracked path has a surviving tombstone in the page,
   * whatever the stored row says of the local side or of a conflict.
   */
  lemma DeletedIff(env: Env, db: Db, c: Input, t: Trace, p: RelPath)
    requires WellFormed(env, c) && WellKeyed(db) && t == TraceOf(env, db, c) && Reaches(t)
    ensures NeverDeleted(t.Ops(), p) <==> p !in db.rows || NoTombstone(c, p)
  {
    hide WellFormed, TraceOf, NoTombstone, InGroup;
    forall j: nat | j < |t.Ops()| && t.Ops()[j].path == p && t.Ops()[j].kind == OpLocalDelete
      ensures p in db.rows && !NoTombstone(c, p)
    {
      DeletionIsPlanned(env, db, c, t, j);
      var d := PlannedSource(env, db, c, t, t.planned[j]);
      DeletionSource(env, db, c, t, d);
    }
    if p in db.rows && !NoTombstone(c, p) {
      TombstoneDecides(env, db, c, t, p);
      var j := DecidedIsPlanned(env, db, c, t, Decision(p, LocalDelete));
      assert t.Ops()[j] == t.planned[j];
    }
  }

  lemma DeletionIsPlanned(env: Env, db: Db, c: Input, t: Trace, j: nat)
    requires t == TraceOf(env, db, c) && Reaches(t) && j < |t.Ops()| && t.Ops()[j].kind == OpLocalDelete
    ensures j < |t.planned| && t.Ops()[j] == t.planned[j]
  {
    hide TraceOf, Grouped;
    var n, m := |t.planned|, |t.resolve.ops|;
    if n <= j < n + m {
      KeptAre(env, db, c, t);
      OpsSplit(t, j);
      GroupsRenameAndDownload(env, t.overlap.decisions, t.resolve.ops, j - n);
    } else if j >= n + m {
      RenamesAre(env, db, c, t, j - n - m);
    }
  }

  lemma GroupsRenameAndDownload(env: Env, ds: seq<Decision>, ops: seq<FileOp>, i: nat)
    requires Grouped(env, ds, ops) && i < |ops|
    ensures ops[i].kind == OpLocalRename || ops[i].kind == OpDownload
  {
    hide LoserFor;
    assert InGroup(env, ops, i);
  }

  // ---------------------------------------------------------------- items asked for

  /**
   * No planned operation names a drive item; downloads of conflict winners and renames of
   * collision losers do. So what a planned transfer asks for is the item with the empty id.
   */
  lemma PlannedNamesNoItem(env: Env, db: Db, c: Input, t: Trace, i: nat)
    requires t == TraceOf(env, db, c) && !t.resolve.failed && i < |t.Ops()|
    ensures i < |t.planned| ==>
      (t.Ops()[i].kind == OpDownload || t.Ops()[i].kind == OpUpload ==> ItemAsked(t.Ops()[i]) == Some(""))
      && (t.Ops()[i].kind == OpRemoteMkdir ==> ItemAsked(t.Ops()[i]) == None)
    ensures t.Ops()[i].meta.remoteItemId.Some? <==> i >= |t.planned| && t.Ops()[i].kind != OpLocalRename
  {
    hide TraceOf, Grouped;
    var n, m := |t.planned|, |t.resolve.ops|;
    if i < n {
      assert t.Ops()[i] == t.planned[i];
      var d := PlannedSource(env, db, c, t, t.planned[i]);
    } else if i < n + m {
      KeptAre(env, db, c, t);
      OpsSplit(t, i);
      GroupNamesItem(env, t.overlap.decisions, t.resolve.ops, i - n);
    } else {
      RenameNamesItem(env, db, c, t, i - n - m);
    }
  }

  lemma RenameNamesItem(env: Env, db: Db, c: Input, t: Trace, i: nat)
    requires t == TraceOf(env, db, c) && i < |t.renames|
    ensures t.renames[i].kind == OpRemoteRename && t.renames[i].meta.remoteItemId.Some?
  {
    hide DeltaOf, LocalOf, OverlapOf, ResolveOf, PlannedOf, ExecOf;
  }

  /** Only the downloads among conflict operations name an item. */
  lemma GroupNamesItem(env: Env, ds: seq<Decision>, ops: seq<FileOp>, i: nat)
    requires Grouped(env, ds, ops) && i < |ops|
    ensures ops[i].meta.remoteItemId.Some? <==> ops[i].kind != OpLocalRename
  {
    hide LoserFor;
    assert InGroup(env, ops, i);
  }

  // ---------------------------------------------------------------- no rest

  /** A path that the page decided nothing about keeps its row through the page. */
  lemma UndecidedStays(env: Env, db: Db, c: Input, t: Trace, p: RelPath)
    requires WellFormed(env, c) && WellKeyed(db) && t == TraceOf(env, db, c) && p !in Decided(t)
    ensures Row(Moved(t), p) == Row(db, p)
  {
    hide WellFormed, DeltaOf, LocalOf, OverlapOf, ResolveOf, PlannedOf, RenamesOf, ExecOf, FoldDistinct, LiveSummary,
         ItemPath, IsSkipped, Observation;
    DeltaSummary(env, db, c);
    CursorKeeps(t.delta.db, c.page.token, c.clocks.cursor);
    if i :| 0 <= i < |c.page.items| && Survives(c.colls, c.page.items[i]) && ItemPath(c.page.items[i]).value == p {
      if !IsSkipped(db, p, c.page.items[i]) {
        FilterMapHits(DecisionFor(db, c.colls), c.page.items, c.page.items[i]);
      }
    }
  }

  /** At a path that the page decided nothing about, what is decided is what the scan calls for. */
  lemma UndecidedIff(env: Env, db: Db, c: Input, t: Trace, x: Decision)
    requires WellFormed(env, c) && WellKeyed(db) && t == TraceOf(env, db, c) && !t.local.failed
    requires x.path !in Decided(t)
    ensures x in t.overlap.decisions <==> CalledFor(env, t.delta.live, db, c.scan, |c.scan|, x)
  {
    hide WellFormed, DeltaOf, LocalWalk, OverlapWalk, ResolveOf, PlannedOf, RenamesOf, ExecOf, RelFromAbs, HasRival,
         NeedsUpload, Leads, Promoted, DistinctPaths, DistinctScan, NoDownloadAt, Conflicts, RowsServe, UploadKind,
         CalledFor;
    CycleIsLinked(env, db, c);
    LeadsKeyed(t.delta.db, t.cursor, Moved(t), CursorRule);
    LocalWalkAnswers(env, Decided(t), t.delta.live, Moved(t), c.scan, c.clocks.local, |c.scan|);
    UndecidedStays(env, db, c, t, x.path);
    MergedIsDistinct(env, db, c, t);
    OverlapWalkFacts(t.local.db, Merged(t), t.local.overlaps, c.clocks.overlap, |t.local.overlaps|);
    SameRowSameCall(env, t.delta.live, db, Moved(t), c.scan, x);
    if x in t.local.decisions {
      ScanDecides(env, db, c, t, x);
      OthersAreKept(Merged(t), t.overlap.decisions, x);
    } else if x in t.overlap.decisions {
      forall y | y in t.local.decisions ensures y.kind != Download {
        ScanDecides(env, db, c, t, y);
      }
      UndecidedIsKept(t, x);
    }
  }

  lemma SameRowSameCall(env: Env, live: map<RelPath, RemoteItem>, a: Db, b: Db, scan: seq<ScanEntry>, x: Decision)
    requires Row(a, x.path) == Row(b, x.path)
    ensures CalledFor(env, live, a, scan, |scan|, x) == CalledFor(env, live, b, scan, |scan|, x)
  {
    hide RelFromAbs, HasRival, NeedsUpload, UploadKind;
    forall k | 0 <= k < |scan| ensures CallsFor(env, live, a, scan[k], x) == CallsFor(env, live, b, scan[k], x) {
    }
  }

  lemma UndecidedIsKept(t: Trace, x: Decision)
    requires Promoted(Merged(t), t.overlap.decisions) && x in t.overlap.decisions && x.path !in Decided(t)
    requires forall y :: y in t.local.decisions ==> y.kind != Download
    ensures x in t.local.decisions
  {
    var i :| 0 <= i < |t.overlap.decisions| && t.overlap.decisions[i] == x;
    ScanDecisionsAreLast(t, i);
    assert t.local.decisions[i - |t.delta.decisions|] in t.local.decisions;
  }

  /** Some operation of the list is of this kind and at `p`. */
  predicate HasOp(ops: seq<FileOp>, p: RelPath, kind: OpKind)
  {
    exists j :: 0 <= j < |ops| && ops[j].path == p && ops[j].kind == kind
  }

  /**
   * At a path that the page decided nothing about, exactly the uploads and remote directories are
   * planned that the scan calls for, going by the rows from before the cycle.
   */
  lemma ScanPlansIff(env: Env, db: Db, c: Input, t: Trace, x: Decision)
    requires WellFormed(env, c) && WellKeyed(db) && t == TraceOf(env, db, c) && Reaches(t)
    requires x.path !in Decided(t) && (x.kind == Upload || x.kind == RemoteMkdir)
    ensures HasOp(t.planned, x.path, if x.kind == Upload then OpUpload else OpRemoteMkdir)
            <==> CalledFor(env, t.delta.live, db, c.scan, |c.scan|, x)
  {
    hide WellFormed, TraceOf, CalledFor, Decided;
    var kind := if x.kind == Upload then OpUpload else OpRemoteMkdir;
    UndecidedIff(env, db, c, t, x);
    if j :| 0 <= j < |t.planned| && t.planned[j].path == x.path && t.planned[j].kind == kind {
      var d := PlannedSource(env, db, c, t, t.planned[j]);
      assert d == x;
    }
    if x in t.overlap.decisions {
      var j := DecidedIsPlanned(env, db, c, t, x);
    }
  }

  /** An operation on the row is under way, or it is parked. */
  predicate IsBlocked(row: Option<FileEntry>)
  {
    row.Some? && (row.value.state == InFlight || row.value.state == PendingConflict)
  }

  /** There is evidence, other than an etag, that the side is the base of the row. */
  predicate IsProvenSame(row: Option<FileEntry>, side: FileSide)
  {
    && row.Some? && row.value.synced.Some? && row.value.synced.value.kind == side.kind
    && SameEvidence(side.(etag := None), row.value.synced.value.(etag := None))
  }

  /**
   * A scanned file or directory that the page is silent about is planned for upload, or to be made
   * on the drive, exactly if its path has no rival and is not blocked, and it is not proven to be
   * what was last synchronised.
   */
  lemma ScannedEntryIff(env: Env, db: Db, c: Input, t: Trace, k: nat, p: RelPath)
    requires WellFormed(env, c) && WellKeyed(db) && t == TraceOf(env, db, c) && Reaches(t) && DistinctScan(env, c.scan)
    requires k < |c.scan| && RelFromAbs(env.root, c.scan[k].abs) == Some(p) && p !in Decided(t)
    ensures HasOp(t.planned, p, if c.scan[k].side.kind.File? then OpUpload else OpRemoteMkdir) <==>
            && !HasRival(env, t.delta.live, p)
            && !IsBlocked(Row(db, p)) && !IsProvenSame(Row(db, p), c.scan[k].side)
    ensures !HasOp(t.planned, p, if c.scan[k].side.kind.File? then OpRemoteMkdir else OpUpload)
  {
    hide WellFormed, TraceOf, Decided, HasRival, RelFromAbs, HasOp, LocalDiverges;
    ScanPlansIff(env, db, c, t, Decision(p, Upload));
    ScanPlansIff(env, db, c, t, Decision(p, RemoteMkdir));
    OneEntryCalls(env, t.delta.live, db, c.scan, k, Decision(p, Upload));
    OneEntryCalls(env, t.delta.live, db, c.scan, k, Decision(p, RemoteMkdir));
    if Row(db, p).Some? && Row(db, p).value.synced.Some? {
      DivergesIff(c.scan[k].side, Row(db, p).value.synced.value);
    } else {
      NothingToPassFor(c.scan[k].side);
    }
  }

  lemma NothingToPassFor(side: FileSide)
    ensures LocalDiverges(side, None)
  {
  }

  /** The row is blocked, or the file is empty and so is its base. */
  predicate IsLeftAlone(row: Option<FileEntry>, side: FileSide)
  {
    || IsBlocked(row)
    || (row.Some? && side.size == 0 && row.value.synced.Some? && row.value.synced.value.kind.File?
        && row.value.synced.value.size == 0)
  }

  /**
   * The scan carries no hashes. So a scanned file that the page is silent about is planned for
   * upload in every cycle, also right after it was uploaded, unless the path is blocked or rivalled or
   * the file is empty and so is its base.
   */
  lemma ScannedFileIsUploadedIff(env: Env, db: Db, c: Input, t: Trace, k: nat, p: RelPath)
    requires WellFormed(env, c) && WellKeyed(db) && t == TraceOf(env, db, c) && Reaches(t) && DistinctScan(env, c.scan)
    requires k < |c.scan| && RelFromAbs(env.root, c.scan[k].abs) == Some(p) && p !in Decided(t)
    requires c.scan[k].side.kind.File? && c.scan[k].side.hash.None?
    ensures HasOp(t.planned, p, OpUpload) <==>
            !HasRival(env, t.delta.live, p) && !IsLeftAlone(Row(db, p), c.scan[k].side)
  {
    hide WellFormed, TraceOf, Decided, HasRival, RelFromAbs, HasOp, IsBlocked, DistinctScan;
    ScannedEntryIff(env, db, c, t, k, p);
  }

  /**
   * A scanned file or directory is renamed away exactly if the page decided nothing about its path
   * and has a live item at another path that folds alike.
   */
  lemma CaseLoserIsMovedIff(env: Env, db: Db, c: Input, t: Trace, p: RelPath)
    requires WellKeyed(db) && t == TraceOf(env, db, c) && !t.local.failed
    ensures IsMoved(t.local.moved, p) <==>
            && ScannedAt(env, c.scan, |c.scan|, p) && p !in Decided(t)
            && exists r :: r in t.delta.live && r != p && env.fold(r) == env.fold(p)
  {
    hide DeltaOf, LocalWalk, OverlapOf, ResolveOf, PlannedOf, RenamesOf, ExecOf, ScannedAt, DistinctScan, MoveTarget,
         HasRival;
    LocalWalkMovesThose(env, Decided(t), t.delta.live, Moved(t), c.scan, c.clocks.local, |c.scan|);
    LocalWalkMoves(env, Decided(t), t.delta.live, Moved(t), c.scan, c.clocks.local, |c.scan|);
    assert HasRival(env, t.delta.live, p) <==>
      exists r :: r in t.delta.live && r != p && env.fold(r) == env.fold(p) by { RivalIs(env, t.delta.live, p); }
  }

  lemma RivalIs(env: Env, live: map<RelPath, RemoteItem>, p: RelPath)
    ensures HasRival(env, live, p) <==> exists r :: r in live && r != p && env.fold(r) == env.fold(p)
  {
    if r :| r in live && r != p && env.fold(r) == env.fold(p) {
      assert IsRival(env, live, p, r);
    }
  }

  /**
   * A cycle none of whose calls fails gets to its execution unless a file must be renamed away, for
   * its case or as the loser of a conflict, and has no valid new name.
   */
  lemma ReachesIff(env: Env, db: Db, c: Input, t: Trace)
    requires WellFormed(env, c) && WellKeyed(db) && t == TraceOf(env, db, c)
    ensures Reaches(t) <==>
            && !IsStuck(env, Decided(t), t.delta.live, c.scan, |c.scan|)
            && !LacksAName(env, t.overlap.db, t.overlap.decisions, c.clocks.resolve, |t.overlap.decisions|)
  {
    hide WellFormed, DeltaOf, LocalWalk, OverlapOf, ResolveWalk, PlannedOf, RenamesOf, ExecOf, IsStuck, LacksAName;
    CountsFollow(env, db, c, t);
    LocalWalkFailsIff(env, Decided(t), t.delta.live, Moved(t), c.scan, c.clocks.local, |c.scan|);
    ResolveFailsIff(env, t.overlap.db, t.overlap.decisions, c.clocks.resolve, |t.overlap.decisions|);
  }

  /** With distinct scan paths, the entry at a path is the only one that can call for something there. */
  lemma OneEntryCalls(env: Env, live: map<RelPath, RemoteItem>, db: Db, scan: seq<ScanEntry>, k: nat, x: Decision)
    requires DistinctScan(env, scan) && k < |scan| && RelFromAbs(env.root, scan[k].abs) == Some(x.path)
    ensures CalledFor(env, live, db, scan, |scan|, x) <==> CallsFor(env, live, db, scan[k], x)
  {
    hide HasRival, NeedsUpload, RelFromAbs;
  }

  lemma OthersAreKept(before: seq<Decision>, after: seq<Decision>, x: Decision)
    requires Promoted(before, after) && x in before && x.kind != Download
    ensures x in after
  {
    var i :| 0 <= i < |before| && before[i] == x;
    assert after[i] == x;
  }
}
