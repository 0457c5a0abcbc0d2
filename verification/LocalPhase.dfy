/**
 * The local phase: scanned files that the page did not decide about become uploads, and files
 * whose name differs only in case from a live remote item are renamed away.
 */
module LocalPhase {
  import opened Collections
  import opened Paths
  import opened Types
  import opened Store
  import opened Reconcile
  import opened DeltaPhase
  import opened DeltaEngine
  import CaseRename

  datatype ScanEntry = ScanEntry(abs: string, side: FileSide)

  /** A local file at a path for which the page has a live file. */
  datatype Overlap = Overlap(path: RelPath, side: FileSide)

  /** Strict divergence: anything short of proof counts as a change. */
  predicate LocalDiverges(side: FileSide, synced: Option<FileSide>)
  {
    match synced
    case None => true
    case Some(s) =>
      if side.kind != s.kind then true
      else if side.kind.Directory? then false
      else if side.size != s.size then true
      else if side.size == 0 then false
      else if side.hash.Some? && s.hash.Some? then side.hash != s.hash
      else true
  }

  /** No local edit is missed: a side that does not diverge has the content of the base. */
  lemma UndivergedMeansSame(c: Contents, side: FileSide, base: FileSide)
    requires Plausible(c, {side, base}, {}) && !LocalDiverges(side, Some(base))
    ensures c.side(side) == c.side(base)
  {
    assert SameEvidence(side, base);
  }

  /** A side passes for a base of its kind exactly if there is evidence other than an etag that it is the base. */
  lemma DivergesIff(side: FileSide, base: FileSide)
    ensures !LocalDiverges(side, Some(base)) <==>
            side.kind == base.kind && SameEvidence(side.(etag := None), base.(etag := None))
  {
  }

  /** A file scanned without a hash diverges from every base, unless both are empty. */
  lemma HashlessDivergesIff(side: FileSide, synced: Option<FileSide>)
    requires side.kind.File? && side.hash.None?
    ensures LocalDiverges(side, synced) <==>
            !(synced.Some? && synced.value.kind.File? && side.size == 0 && synced.value.size == 0)
  {
  }

  predicate NeedsUpload(entry: Option<FileEntry>, side: FileSide)
  {
    entry.None? || (!IsActionBlocking(entry.value.state) && LocalDiverges(side, entry.value.synced))
  }

  function UploadRow(p: RelPath, entry: Option<FileEntry>, side: FileSide, now: Timestamp): FileEntry
  {
    match entry
    case None => FileEntry(p, side.kind, PendingUpload, Some(side), None, None, None, now)
    case Some(e) => FileEntry(p, side.kind, PendingUpload, Some(side), e.remote, e.synced, e.pendingOp, now)
  }

  /** An upload changes nothing else of a row that is there. */
  lemma UploadRowKeeps(p: RelPath, e: FileEntry, side: FileSide, now: Timestamp)
    requires e.path == p
    ensures
      var row := UploadRow(p, Some(e), side, now);
      row.path == e.path && row.remote == e.remote && row.synced == e.synced && row.pendingOp == e.pendingOp
  {
  }

  function UploadKind(side: FileSide): DecisionKind
  {
    if side.kind.Directory? then RemoteMkdir else Upload
  }

  // ---------------------------------------------------------------- case rivals

  /** A live remote path that differs from `p` only in case. */
  predicate IsRival(env: Env, live: map<RelPath, RemoteItem>, p: RelPath, r: RelPath)
  {
    r in live && r != p && env.fold(r) == env.fold(p)
  }

  predicate HasRival(env: Env, live: map<RelPath, RemoteItem>, p: RelPath)
  {
    exists r :: r in live && IsRival(env, live, p, r)
  }

  ghost function RivalOf(env: Env, live: map<RelPath, RemoteItem>, p: RelPath): (r: RelPath)
    requires HasRival(env, live, p)
    ensures IsRival(env, live, p, r)
  {
    var r :| r in live && IsRival(env, live, p, r);
    r
  }

  /** No two live paths fold alike, so a rival is unique. */
  ghost predicate LiveDistinct(env: Env, live: map<RelPath, RemoteItem>)
  {
    forall r, s :: r in live && s in live && env.fold(r) == env.fold(s) ==> r == s
  }

  /** Where the local file goes, if all the paths involved are valid. */
  function MoveTarget(env: Env, p: RelPath): Option<RelPath>
  {
    var target := CaseRename.RenameTarget(p, env.shortHash(p));
    if ValidRel(target) && Joins(env.root, p) && Joins(env.root, target) then Some(target) else None
  }

  function CaseConflict(p: RelPath, side: FileSide, rival: RelPath, item: RemoteItem, target: RelPath,
                        now: Timestamp): ConflictRow
  {
    ConflictRow(rival, ConflictSide.RemoteSide, target, side, RemoteSideOf(item, now), now)
  }

  /** The row of a renamed-away path, if it has one: its local side is gone, and it is parked. */
  function ParkMoved(entry: Option<FileEntry>, now: Timestamp): Option<FileEntry>
  {
    match entry
    case None => None
    case Some(e) => Some(e.(local := None, state := PendingConflict, updatedAt := now))
  }

  // ---------------------------------------------------------------- the walk as a fold

  datatype LocalAcc = LocalAcc(
    db: Db,
    log: seq<Write>,
    decisions: seq<Decision>,
    seen: nat,
    recorded: nat,
    overlaps: seq<Overlap>,
    moved: seq<(RelPath, RelPath)>,
    failed: bool)

  function Begin(db: Db): LocalAcc
  {
    LocalAcc(db, [], [], 0, 0, [], [], false)
  }

  ghost function MoveAway(env: Env, live: map<RelPath, RemoteItem>, acc: LocalAcc, p: RelPath, side: FileSide,
                          now: Timestamp): LocalAcc
    requires HasRival(env, live, p)
  {
    match MoveTarget(env, p)
    case None => acc.(failed := true)
    case Some(target) =>
      var rival := RivalOf(env, live, p);
      var conflict := AddConflict(CaseConflict(p, side, rival, live[rival], target, now));
      var row := ParkMoved(Row(acc.db, p), now);
      acc.(db := Put(Apply(acc.db, conflict), row),
           log := acc.log + [conflict] + Writes(row),
           recorded := acc.recorded + 1,
           moved := acc.moved + [(p, target)])
  }

  function OfferUpload(acc: LocalAcc, p: RelPath, side: FileSide, now: Timestamp): LocalAcc
  {
    if !NeedsUpload(Row(acc.db, p), side) then acc
    else
      var w := PutEntry(UploadRow(p, Row(acc.db, p), side, now));
      acc.(db := Apply(acc.db, w), log := acc.log + [w], decisions := acc.decisions + [Decision(p, UploadKind(side))])
  }

  /** One scanned path. */
  ghost function Visit(env: Env, decided: set<RelPath>, live: map<RelPath, RemoteItem>, acc: LocalAcc,
                       p: RelPath, side: FileSide, now: Timestamp): LocalAcc
  {
    if p in decided then
      if p in live && !live[p].folder then acc.(overlaps := acc.overlaps + [Overlap(p, side)]) else acc
    else
      var acc1 := acc.(seen := acc.seen + 1);
      if HasRival(env, live, p) then MoveAway(env, live, acc1, p, side, now)
      else OfferUpload(acc1, p, side, now)
  }

  ghost function LocalStep(env: Env, decided: set<RelPath>, live: map<RelPath, RemoteItem>, acc: LocalAcc,
                           e: ScanEntry, now: Timestamp): LocalAcc
  {
    if acc.failed || RelFromAbs(env.root, e.abs).None? then acc
    else Visit(env, decided, live, acc, RelFromAbs(env.root, e.abs).value, e.side, now)
  }

  ghost function LocalWalk(env: Env, decided: set<RelPath>, live: map<RelPath, RemoteItem>, db: Db,
                           scan: seq<ScanEntry>, clock: Clock, n: nat): LocalAcc
    requires n <= |scan|
  {
    if n == 0 then Begin(db)
    else LocalStep(env, decided, live, LocalWalk(env, decided, live, db, scan, clock, n - 1), scan[n - 1], clock(n - 1))
  }

  lemma MoveAwayIsGentle(env: Env, live: map<RelPath, RemoteItem>, db: Db, acc: LocalAcc,
                         p: RelPath, side: FileSide, now: Timestamp)
    requires Leads(db, acc.log, acc.db, Gentle) && HasRival(env, live, p)
    ensures
      var after := MoveAway(env, live, acc, p, side, now);
      && Leads(db, after.log, after.db, Gentle) && acc.log <= after.log
      && |after.db.conflicts| - |acc.db.conflicts| == after.recorded - acc.recorded
  {
    hide MoveTarget, HasRival, Every, Replay, CaseConflict;
    if MoveTarget(env, p).Some? {
      var rival := RivalOf(env, live, p);
      var w := AddConflict(CaseConflict(p, side, rival, live[rival], MoveTarget(env, p).value, now));
      LeadsOn(db, acc.log, acc.db, w, Gentle);
      var row := ParkMoved(Row(acc.db, p), now);
      if row.Some? {
        LeadsKeyed(db, acc.log, acc.db, Gentle);
        LeadsOn(db, acc.log + [w], Apply(acc.db, w), PutEntry(row.value), Gentle);
      } else {
        assert acc.log + [w] + [] == acc.log + [w];
      }
    }
  }

  lemma VisitIsGentle(env: Env, decided: set<RelPath>, live: map<RelPath, RemoteItem>, db: Db, acc: LocalAcc,
                      p: RelPath, side: FileSide, now: Timestamp)
    requires Leads(db, acc.log, acc.db, Gentle)
    ensures
      var after := Visit(env, decided, live, acc, p, side, now);
      && Leads(db, after.log, after.db, Gentle) && acc.log <= after.log
      && |after.db.conflicts| - |acc.db.conflicts| == after.recorded - acc.recorded
  {
    hide MoveAway, NeedsUpload, HasRival, Every, Replay, Gentle;
    if p !in decided {
      if HasRival(env, live, p) {
        MoveAwayIsGentle(env, live, db, acc.(seen := acc.seen + 1), p, side, now);
      } else if NeedsUpload(Row(acc.db, p), side) {
        UploadIsGentle(acc.db, p, side, now);
        LeadsOn(db, acc.log, acc.db, PutEntry(UploadRow(p, Row(acc.db, p), side, now)), Gentle);
      }
    }
  }

  lemma UploadIsGentle(db: Db, p: RelPath, side: FileSide, now: Timestamp)
    requires NeedsUpload(Row(db, p), side)
    ensures Gentle(db, PutEntry(UploadRow(p, Row(db, p), side, now)))
  {
  }

  /** The facts about a prefix of the walk that later phases build on. */
  lemma {:induction false} LocalWalkIsGentle(env: Env, decided: set<RelPath>, live: map<RelPath, RemoteItem>, db: Db,
                                             scan: seq<ScanEntry>, clock: Clock, m: nat, n: nat)
    requires m <= n <= |scan| && WellKeyed(db)
    ensures
      var a, b := LocalWalk(env, decided, live, db, scan, clock, m), LocalWalk(env, decided, live, db, scan, clock, n);
      && a.log <= b.log && (a.failed ==> b.failed)
      && Leads(db, b.log, b.db, Gentle)
      && |b.db.conflicts| == |db.conflicts| + b.recorded
    decreases n
  {
    hide Visit, RelFromAbs, Leads;
    if n > 0 {
      LocalWalkIsGentle(env, decided, live, db, scan, clock, if m < n then m else n - 1, n - 1);
      var before := LocalWalk(env, decided, live, db, scan, clock, n - 1);
      var rel := RelFromAbs(env.root, scan[n - 1].abs);
      if !before.failed && rel.Some? {
        VisitIsGentle(env, decided, live, db, before, rel.value, scan[n - 1].side, clock(n - 1));
      }
    } else {
      LeadsNowhere(db, Gentle);
    }
  }

  // ---------------------------------------------------------------- what the walk decides

  /** One of the first `n` scan entries is at path `p`. */
  ghost predicate ScannedAt(env: Env, scan: seq<ScanEntry>, n: nat, p: RelPath)
    requires n <= |scan|
  {
    exists k :: 0 <= k < n && RelFromAbs(env.root, scan[k].abs) == Some(p)
  }

  /** One of the first `n` scan entries is at `p` and has this side. */
  ghost predicate ScannedSide(env: Env, scan: seq<ScanEntry>, n: nat, p: RelPath, side: FileSide)
    requires n <= |scan|
  {
    exists k :: 0 <= k < n && RelFromAbs(env.root, scan[k].abs) == Some(p) && scan[k].side == side
  }

  predicate OverlapsAt(overlaps: seq<Overlap>, p: RelPath)
  {
    exists k :: 0 <= k < |overlaps| && overlaps[k].path == p
  }

  /** No path is scanned twice. */
  ghost predicate DistinctScan(env: Env, scan: seq<ScanEntry>)
  {
    forall i, j :: 0 <= i < j < |scan| && RelFromAbs(env.root, scan[i].abs).Some? ==>
      RelFromAbs(env.root, scan[i].abs) != RelFromAbs(env.root, scan[j].abs)
  }

  /** Entries come level by level, the shallow ones first. */
  ghost predicate ScanByDepth(env: Env, scan: seq<ScanEntry>)
  {
    forall i, j ::
      (0 <= i < j < |scan| && RelFromAbs(env.root, scan[i].abs).Some? && RelFromAbs(env.root, scan[j].abs).Some?) ==>
      Depth(RelFromAbs(env.root, scan[i].abs).value) <= Depth(RelFromAbs(env.root, scan[j].abs).value)
  }

  ghost predicate DistinctPaths(ds: seq<Decision>)
  {
    forall i, j :: 0 <= i < j < |ds| ==> ds[i].path != ds[j].path
  }

  ghost predicate DecisionsByDepth(ds: seq<Decision>)
  {
    forall i, j :: 0 <= i < j < |ds| ==> Depth(ds[i].path) <= Depth(ds[j].path)
  }

  /** A scan decision: an upload or a remote directory, at an undecided scanned path that is not parked. */
  ghost predicate LocalDecision(env: Env, decided: set<RelPath>, db: Db, scan: seq<ScanEntry>, n: nat, d: Decision)
    requires n <= |scan|
  {
    && d.path !in decided && (d.kind == Upload || d.kind == RemoteMkdir)
    && ScannedAt(env, scan, n, d.path) && !IsParked(db, d.path)
  }

  ghost predicate DecisionFacts(env: Env, decided: set<RelPath>, db: Db, scan: seq<ScanEntry>, n: nat,
                                ds: seq<Decision>)
    requires n <= |scan|
  {
    && (forall d :: d in ds ==> LocalDecision(env, decided, db, scan, n, d))
    && (DistinctScan(env, scan) ==> DistinctPaths(ds))
    && (ScanByDepth(env, scan) ==> DecisionsByDepth(ds))
  }

  ghost predicate OverlapFacts(env: Env, decided: set<RelPath>, live: map<RelPath, RemoteItem>, scan: seq<ScanEntry>,
                               n: nat, acc: LocalAcc)
    requires n <= |scan|
  {
    && (forall o :: o in acc.overlaps ==>
          o.path in decided && o.path in live && !live[o.path].folder && ScannedSide(env, scan, n, o.path, o.side))
    && (!acc.failed ==> forall p :: ScannedAt(env, scan, n, p) && p in decided && p in live && !live[p].folder ==>
          OverlapsAt(acc.overlaps, p))
  }

  ghost predicate LocalFacts(env: Env, decided: set<RelPath>, live: map<RelPath, RemoteItem>, db: Db,
                             scan: seq<ScanEntry>, n: nat, acc: LocalAcc)
    requires n <= |scan|
  {
    DecisionFacts(env, decided, db, scan, n, acc.decisions) && OverlapFacts(env, decided, live, scan, n, acc)
  }

  /** The one decision, or the one overlap, that a scanned path can add. */
  lemma VisitAdds(env: Env, decided: set<RelPath>, live: map<RelPath, RemoteItem>, acc: LocalAcc,
                  p: RelPath, side: FileSide, now: Timestamp)
    ensures
      var after := Visit(env, decided, live, acc, p, side, now);
      && (after.decisions == acc.decisions ||
          (p !in decided && !IsParked(acc.db, p) && after.decisions == acc.decisions + [Decision(p, UploadKind(side))]))
      && after.overlaps == acc.overlaps
         + (if p in decided && p in live && !live[p].folder then [Overlap(p, side)] else [])
  {
    hide MoveTarget, LocalDiverges;
  }

  lemma ScannedAtGrows(env: Env, scan: seq<ScanEntry>, n: nat, p: RelPath)
    requires 0 < n <= |scan|
    ensures ScannedAt(env, scan, n, p) <==>
            ScannedAt(env, scan, n - 1, p) || RelFromAbs(env.root, scan[n - 1].abs) == Some(p)
  {
    hide RelFromAbs;
  }

  lemma ScannedSideGrows(env: Env, scan: seq<ScanEntry>, n: nat, p: RelPath, side: FileSide)
    requires 0 < n <= |scan|
    ensures ScannedSide(env, scan, n - 1, p, side) ==> ScannedSide(env, scan, n, p, side)
    ensures RelFromAbs(env.root, scan[n - 1].abs) == Some(p) ==> ScannedSide(env, scan, n, p, scan[n - 1].side)
  {
    hide RelFromAbs;
  }

  lemma DecisionsGrow(env: Env, decided: set<RelPath>, db: Db, scan: seq<ScanEntry>, n: nat,
                      before: seq<Decision>, d: Decision)
    requires 0 < n <= |scan| && RelFromAbs(env.root, scan[n - 1].abs) == Some(d.path)
    requires forall b :: b in before ==> LocalDecision(env, decided, db, scan, n - 1, b)
    ensures DistinctScan(env, scan) && DistinctPaths(before) ==> DistinctPaths(before + [d])
    ensures ScanByDepth(env, scan) && DecisionsByDepth(before) ==> DecisionsByDepth(before + [d])
  {
    hide RelFromAbs, Depth;
    forall i | 0 <= i < |before|
      ensures DistinctScan(env, scan) ==> before[i].path != d.path
      ensures ScanByDepth(env, scan) ==> Depth(before[i].path) <= Depth(d.path)
    {
      assert before[i] in before;
    }
  }

  lemma {:induction false} LocalWalkFacts(env: Env, decided: set<RelPath>, live: map<RelPath, RemoteItem>, db: Db,
                                          scan: seq<ScanEntry>, clock: Clock, n: nat)
    requires n <= |scan| && WellKeyed(db)
    ensures LocalFacts(env, decided, live, db, scan, n, LocalWalk(env, decided, live, db, scan, clock, n))
  {
    hide RelFromAbs, Visit, DistinctScan, ScanByDepth, DistinctPaths, DecisionsByDepth, Leads, UploadKind;
    if n > 0 {
      LocalWalkFacts(env, decided, live, db, scan, clock, n - 1);
      LocalWalkIsGentle(env, decided, live, db, scan, clock, n - 1, n - 1);
      var before := LocalWalk(env, decided, live, db, scan, clock, n - 1);
      forall p ensures ScannedAt(env, scan, n, p) <==>
                       ScannedAt(env, scan, n - 1, p) || RelFromAbs(env.root, scan[n - 1].abs) == Some(p)
      {
        ScannedAtGrows(env, scan, n, p);
      }
      var rel := RelFromAbs(env.root, scan[n - 1].abs);
      if !before.failed && rel.Some? {
        LocalStepFacts(env, decided, live, db, scan, clock, n, before, rel.value);
      }
    } else {
      NoFacts(env, decided, live, db, scan);
    }
  }

  lemma NoFacts(env: Env, decided: set<RelPath>, live: map<RelPath, RemoteItem>, db: Db, scan: seq<ScanEntry>)
    ensures LocalFacts(env, decided, live, db, scan, 0, Begin(db))
  {
  }

  lemma LocalStepFacts(env: Env, decided: set<RelPath>, live: map<RelPath, RemoteItem>, db: Db,
                       scan: seq<ScanEntry>, clock: Clock, n: nat, before: LocalAcc, p: RelPath)
    requires 0 < n <= |scan| && RelFromAbs(env.root, scan[n - 1].abs) == Some(p)
    requires LocalFacts(env, decided, live, db, scan, n - 1, before) && !before.failed
    requires Leads(db, before.log, before.db, Gentle)
    requires forall q :: ScannedAt(env, scan, n, q) <==> ScannedAt(env, scan, n - 1, q) || q == p
    ensures LocalFacts(env, decided, live, db, scan, n,
                       Visit(env, decided, live, before, p, scan[n - 1].side, clock(n - 1)))
  {
    hide RelFromAbs, Visit, ScannedAt, DecisionFacts, OverlapFacts;
    var side := scan[n - 1].side;
    VisitAdds(env, decided, live, before, p, side, clock(n - 1));
    DecisionsStep(env, decided, db, scan, n, before, p, Decision(p, UploadKind(side)));
    OverlapsStep(env, decided, live, scan, n, before, p, Visit(env, decided, live, before, p, side, clock(n - 1)));
  }

  lemma DecisionsStep(env: Env, decided: set<RelPath>, db: Db, scan: seq<ScanEntry>, n: nat, before: LocalAcc,
                      p: RelPath, d: Decision)
    requires 0 < n <= |scan| && RelFromAbs(env.root, scan[n - 1].abs) == Some(p) && d.path == p
    requires DecisionFacts(env, decided, db, scan, n - 1, before.decisions) && Leads(db, before.log, before.db, Gentle)
    requires forall q :: ScannedAt(env, scan, n, q) <==> ScannedAt(env, scan, n - 1, q) || q == p
    requires d.kind == Upload || d.kind == RemoteMkdir
    ensures DecisionFacts(env, decided, db, scan, n, before.decisions)
    ensures p !in decided && !IsParked(before.db, p) ==>
      DecisionFacts(env, decided, db, scan, n, before.decisions + [d])
  {
    hide RelFromAbs, DistinctScan, ScanByDepth, DistinctPaths, DecisionsByDepth, ScannedAt;
    DecisionsGrow(env, decided, db, scan, n, before.decisions, d);
    if IsParked(db, p) {
      EveryWeaken(db, before.log, Gentle, KeepsParked);
      ParkedIsKept(db, before.log, p);
    }
  }

  lemma OverlapsStep(env: Env, decided: set<RelPath>, live: map<RelPath, RemoteItem>, scan: seq<ScanEntry>, n: nat,
                     before: LocalAcc, p: RelPath, after: LocalAcc)
    requires 0 < n <= |scan| && RelFromAbs(env.root, scan[n - 1].abs) == Some(p) && !before.failed
    requires OverlapFacts(env, decided, live, scan, n - 1, before)
    requires forall q :: ScannedAt(env, scan, n, q) <==> ScannedAt(env, scan, n - 1, q) || q == p
    requires after.overlaps == before.overlaps
      + (if p in decided && p in live && !live[p].folder then [Overlap(p, scan[n - 1].side)] else [])
    ensures OverlapFacts(env, decided, live, scan, n, after)
  {
    hide RelFromAbs, ScannedAt, ScannedSide;
    forall q, side ensures ScannedSide(env, scan, n - 1, q, side) ==> ScannedSide(env, scan, n, q, side) {
      ScannedSideGrows(env, scan, n, q, side);
    }
    ScannedSideGrows(env, scan, n, p, scan[n - 1].side);
    forall q | OverlapsAt(before.overlaps, q) ensures OverlapsAt(after.overlaps, q) {
      var k :| 0 <= k < |before.overlaps| && before.overlaps[k].path == q;
      assert after.overlaps[k].path == q;
    }
    if p in decided && p in live && !live[p].folder {
      assert after.overlaps[|before.overlaps|].path == p;
    }
  }

  // ---------------------------------------------------------------- what the walk renames

  /** Files renamed away lie where the page decided nothing, and none is renamed twice. */
  ghost predicate MovesFacts(env: Env, decided: set<RelPath>, scan: seq<ScanEntry>, n: nat, acc: LocalAcc)
    requires n <= |scan|
  {
    && (forall k :: 0 <= k < |acc.moved| ==>
          && acc.moved[k].0 !in decided && ScannedAt(env, scan, n, acc.moved[k].0)
          && MoveTarget(env, acc.moved[k].0) == Some(acc.moved[k].1))
    && (DistinctScan(env, scan) ==> forall j, k :: 0 <= j < k < |acc.moved| ==> acc.moved[j].0 != acc.moved[k].0)
  }

  predicate IsMoved(moved: seq<(RelPath, RelPath)>, p: RelPath)
  {
    exists k :: 0 <= k < |moved| && moved[k].0 == p
  }

  /** Files renamed away are those with a rival among the scanned ones that the page decided nothing about. */
  ghost predicate MovesThose(env: Env, decided: set<RelPath>, live: map<RelPath, RemoteItem>, scan: seq<ScanEntry>,
                             n: nat, acc: LocalAcc)
    requires n <= |scan|
  {
    forall p ::
      && (IsMoved(acc.moved, p) ==> HasRival(env, live, p))
      && (!acc.failed && ScannedAt(env, scan, n, p) && p !in decided && HasRival(env, live, p) ==> IsMoved(acc.moved, p))
  }

  lemma MovedGrows(moved: seq<(RelPath, RelPath)>, p: RelPath, target: RelPath, q: RelPath)
    ensures IsMoved(moved + [(p, target)], q) <==> IsMoved(moved, q) || q == p
  {
    assert (moved + [(p, target)])[|moved|].0 == p;
    if k :| 0 <= k < |moved| && moved[k].0 == q {
      assert (moved + [(p, target)])[k].0 == q;
    }
  }

  lemma VisitMovesThose(env: Env, decided: set<RelPath>, live: map<RelPath, RemoteItem>, acc: LocalAcc,
                        p: RelPath, side: FileSide, now: Timestamp, q: RelPath)
    ensures
      var after := Visit(env, decided, live, acc, p, side, now);
      && (IsMoved(after.moved, q) ==> IsMoved(acc.moved, q) || (q == p && HasRival(env, live, p)))
      && (IsMoved(acc.moved, q) ==> IsMoved(after.moved, q))
      && (!after.failed && p !in decided && HasRival(env, live, p) ==> IsMoved(after.moved, p))
      && (acc.failed ==> after.failed)
  {
    hide HasRival, MoveTarget, NeedsUpload, IsMoved, CaseConflict;
    if MoveTarget(env, p).Some? {
      MovedGrows(acc.moved, p, MoveTarget(env, p).value, q);
      MovedGrows(acc.moved, p, MoveTarget(env, p).value, p);
    }
  }

  lemma {:induction false} LocalWalkMovesThose(env: Env, decided: set<RelPath>, live: map<RelPath, RemoteItem>, db: Db,
                                               scan: seq<ScanEntry>, clock: Clock, n: nat)
    requires n <= |scan|
    ensures MovesThose(env, decided, live, scan, n, LocalWalk(env, decided, live, db, scan, clock, n))
  {
    hide RelFromAbs, Visit, HasRival, IsMoved, ScannedAt;
    if n > 0 {
      LocalWalkMovesThose(env, decided, live, db, scan, clock, n - 1);
      var before := LocalWalk(env, decided, live, db, scan, clock, n - 1);
      var rel := RelFromAbs(env.root, scan[n - 1].abs);
      forall p ensures ScannedAt(env, scan, n, p) <==> ScannedAt(env, scan, n - 1, p) || rel == Some(p) {
        ScannedAtGrows(env, scan, n, p);
      }
      if !before.failed && rel.Some? {
        forall q | true
          ensures var after := Visit(env, decided, live, before, rel.value, scan[n - 1].side, clock(n - 1));
            && (IsMoved(after.moved, q) ==>
                  IsMoved(before.moved, q) || (q == rel.value && HasRival(env, live, rel.value)))
            && (IsMoved(before.moved, q) ==> IsMoved(after.moved, q))
        {
          VisitMovesThose(env, decided, live, before, rel.value, scan[n - 1].side, clock(n - 1), q);
        }
        VisitMovesThose(env, decided, live, before, rel.value, scan[n - 1].side, clock(n - 1), rel.value);
      }
    } else {
      NothingMoved(env, decided, live, db, scan);
    }
  }

  lemma NothingMoved(env: Env, decided: set<RelPath>, live: map<RelPath, RemoteItem>, db: Db, scan: seq<ScanEntry>)
    ensures MovesThose(env, decided, live, scan, 0, Begin(db))
  {
    hide HasRival;
  }

  /** The new name of a file to be renamed away, or one of the two absolute paths, is not valid. */
  predicate CannotMove(env: Env, p: RelPath)
  {
    var target := CaseRename.RenameTarget(p, env.shortHash(p));
    !ValidRel(target) || !Joins(env.root, p) || !Joins(env.root, target)
  }

  /** One of the first `n` entries is at an undecided path with a rival, and cannot be moved. */
  ghost predicate IsStuck(env: Env, decided: set<RelPath>, live: map<RelPath, RemoteItem>, scan: seq<ScanEntry>, n: nat)
    requires n <= |scan|
  {
    exists p :: ScannedAt(env, scan, n, p) && p !in decided && HasRival(env, live, p) && CannotMove(env, p)
  }

  lemma VisitFails(env: Env, decided: set<RelPath>, live: map<RelPath, RemoteItem>, acc: LocalAcc,
                   p: RelPath, side: FileSide, now: Timestamp)
    ensures Visit(env, decided, live, acc, p, side, now).failed
            <==> acc.failed || (p !in decided && HasRival(env, live, p) && CannotMove(env, p))
  {
    hide HasRival, CaseConflict, CaseRename.RenameTarget, ValidRel, Joins, NeedsUpload;
  }

  /** The walk fails exactly when it meets a file that must be moved and cannot be. */
  lemma {:induction false} LocalWalkFailsIff(env: Env, decided: set<RelPath>, live: map<RelPath, RemoteItem>, db: Db,
                                             scan: seq<ScanEntry>, clock: Clock, n: nat)
    requires n <= |scan|
    ensures LocalWalk(env, decided, live, db, scan, clock, n).failed <==> IsStuck(env, decided, live, scan, n)
  {
    hide RelFromAbs, Visit, HasRival, ScannedAt, CannotMove;
    if n > 0 {
      LocalWalkFailsIff(env, decided, live, db, scan, clock, n - 1);
      var before := LocalWalk(env, decided, live, db, scan, clock, n - 1);
      var rel := RelFromAbs(env.root, scan[n - 1].abs);
      forall p ensures ScannedAt(env, scan, n, p) <==> ScannedAt(env, scan, n - 1, p) || rel == Some(p) {
        ScannedAtGrows(env, scan, n, p);
      }
      if rel.Some? {
        VisitFails(env, decided, live, before, rel.value, scan[n - 1].side, clock(n - 1));
      }
    } else {
      NothingScanned(env, scan);
    }
  }

  lemma NothingScanned(env: Env, scan: seq<ScanEntry>)
    ensures forall p :: !ScannedAt(env, scan, 0, p)
  {
  }

  /** The entry is at a valid path that the page decided nothing about. */
  function AsUndecided(env: Env, decided: set<RelPath>): ScanEntry -> Option<ScanEntry>
  {
    (e: ScanEntry) =>
      if RelFromAbs(env.root, e.abs).Some? && RelFromAbs(env.root, e.abs).value !in decided then Some(e) else None
  }

  /** The local events are the entries at such paths. */
  lemma {:induction false} LocalWalkSees(env: Env, decided: set<RelPath>, live: map<RelPath, RemoteItem>, db: Db,
                                         scan: seq<ScanEntry>, clock: Clock, n: nat)
    requires n <= |scan|
    ensures
      var acc := LocalWalk(env, decided, live, db, scan, clock, n);
      !acc.failed ==> acc.seen == |FilterMap(AsUndecided(env, decided), scan[..n])|
  {
    hide RelFromAbs, MoveAway, OfferUpload, HasRival;
    if n > 0 {
      LocalWalkSees(env, decided, live, db, scan, clock, n - 1);
      var before := LocalWalk(env, decided, live, db, scan, clock, n - 1);
      FilterMapSnoc(AsUndecided(env, decided), scan, n);
      if !before.failed && RelFromAbs(env.root, scan[n - 1].abs).Some? {
        VisitSees(env, decided, live, before, RelFromAbs(env.root, scan[n - 1].abs).value, scan[n - 1].side,
                  clock(n - 1));
      }
    }
  }

  lemma VisitSees(env: Env, decided: set<RelPath>, live: map<RelPath, RemoteItem>, acc: LocalAcc,
                  p: RelPath, side: FileSide, now: Timestamp)
    ensures Visit(env, decided, live, acc, p, side, now).seen == acc.seen + if p in decided then 0 else 1
  {
    hide HasRival, MoveTarget, NeedsUpload, CaseConflict;
  }

  lemma VisitMoves(env: Env, decided: set<RelPath>, live: map<RelPath, RemoteItem>, acc: LocalAcc,
                   p: RelPath, side: FileSide, now: Timestamp)
    ensures
      var moved := Visit(env, decided, live, acc, p, side, now).moved;
      moved == acc.moved
      || (p !in decided && MoveTarget(env, p).Some? && moved == acc.moved + [(p, MoveTarget(env, p).value)])
  {
    hide MoveTarget, NeedsUpload, HasRival;
  }

  lemma {:induction false} LocalWalkMoves(env: Env, decided: set<RelPath>, live: map<RelPath, RemoteItem>, db: Db,
                                          scan: seq<ScanEntry>, clock: Clock, n: nat)
    requires n <= |scan|
    ensures MovesFacts(env, decided, scan, n, LocalWalk(env, decided, live, db, scan, clock, n))
  {
    hide RelFromAbs, Visit, MoveTarget, ScannedAt;
    if n > 0 {
      LocalWalkMoves(env, decided, live, db, scan, clock, n - 1);
      var before := LocalWalk(env, decided, live, db, scan, clock, n - 1);
      forall p ensures ScannedAt(env, scan, n, p) <==>
                       ScannedAt(env, scan, n - 1, p) || RelFromAbs(env.root, scan[n - 1].abs) == Some(p)
      {
        ScannedAtGrows(env, scan, n, p);
      }
      var rel := RelFromAbs(env.root, scan[n - 1].abs);
      if !before.failed && rel.Some? {
        VisitMoves(env, decided, live, before, rel.value, scan[n - 1].side, clock(n - 1));
        NotScannedBefore(env, scan, n, rel.value);
      }
    }
  }

  lemma NotScannedBefore(env: Env, scan: seq<ScanEntry>, n: nat, p: RelPath)
    requires 0 < n <= |scan| && RelFromAbs(env.root, scan[n - 1].abs) == Some(p)
    ensures DistinctScan(env, scan) ==> !ScannedAt(env, scan, n - 1, p)
  {
    hide RelFromAbs;
  }

  // ---------------------------------------------------------------- what the walk asks for

  /** Going by the store before the scan, the entry calls for `d`. */
  predicate CallsFor(env: Env, live: map<RelPath, RemoteItem>, db: Db, e: ScanEntry, d: Decision)
  {
    && RelFromAbs(env.root, e.abs) == Some(d.path) && d.kind == UploadKind(e.side)
    && !HasRival(env, live, d.path) && NeedsUpload(Row(db, d.path), e.side)
  }

  /** One of the first `n` entries calls for `d`. */
  ghost predicate CalledFor(env: Env, live: map<RelPath, RemoteItem>, db: Db, scan: seq<ScanEntry>, n: nat, d: Decision)
    requires n <= |scan|
  {
    exists k :: 0 <= k < n && CallsFor(env, live, db, scan[k], d)
  }

  /** Every side needs an upload over the one row exactly if it does over the other. */
  ghost predicate SameNeeds(a: Option<FileEntry>, b: Option<FileEntry>)
  {
    forall side :: NeedsUpload(a, side) == NeedsUpload(b, side)
  }

  /** The rows of `now` are as good as those of `db` for what the scan has to decide. */
  ghost predicate RowsServe(env: Env, decided: set<RelPath>, live: map<RelPath, RemoteItem>, db: Db, now: Db)
  {
    forall q ::
      (q in decided ==> Row(now, q) == Row(db, q)) && (!HasRival(env, live, q) ==> SameNeeds(Row(db, q), Row(now, q)))
  }

  /** The decisions are those called for at undecided paths. */
  ghost predicate LocalAnswers(env: Env, decided: set<RelPath>, live: map<RelPath, RemoteItem>, db: Db,
                               scan: seq<ScanEntry>, n: nat, acc: LocalAcc)
    requires n <= |scan|
  {
    && RowsServe(env, decided, live, db, acc.db)
    && forall d ::
         && (d in acc.decisions ==> d.path !in decided && CalledFor(env, live, db, scan, n, d))
         && (!acc.failed && d.path !in decided && CalledFor(env, live, db, scan, n, d) ==> d in acc.decisions)
  }

  /** An upload row needs what the row before it needed. */
  lemma UploadRowServes(p: RelPath, entry: Option<FileEntry>, side: FileSide, now: Timestamp)
    requires NeedsUpload(entry, side)
    ensures SameNeeds(entry, Some(UploadRow(p, entry, side, now)))
  {
  }

  lemma VisitServes(env: Env, decided: set<RelPath>, live: map<RelPath, RemoteItem>, db: Db, acc: LocalAcc,
                    p: RelPath, side: FileSide, now: Timestamp)
    requires WellKeyed(acc.db) && RowsServe(env, decided, live, db, acc.db)
    ensures RowsServe(env, decided, live, db, Visit(env, decided, live, acc, p, side, now).db)
  {
    hide HasRival, MoveAway, SameNeeds, NeedsUpload;
    var after := Visit(env, decided, live, acc, p, side, now);
    if p !in decided {
      RowsElsewhere(env, decided, live, acc, p, side, now);
      if !HasRival(env, live, p) && NeedsUpload(Row(acc.db, p), side) {
        NeedsFollow(Row(db, p), Row(acc.db, p), p, side, now);
      }
    }
  }

  lemma NeedsFollow(before: Option<FileEntry>, entry: Option<FileEntry>, p: RelPath, side: FileSide, now: Timestamp)
    requires SameNeeds(before, entry) && NeedsUpload(entry, side)
    ensures SameNeeds(before, Some(UploadRow(p, entry, side, now)))
  {
    hide NeedsUpload;
    UploadRowServes(p, entry, side, now);
  }

  /** A scanned path touches no other row. */
  lemma RowsElsewhere(env: Env, decided: set<RelPath>, live: map<RelPath, RemoteItem>, acc: LocalAcc,
                      p: RelPath, side: FileSide, now: Timestamp)
    requires WellKeyed(acc.db)
    ensures forall q :: q != p ==> Row(Visit(env, decided, live, acc, p, side, now).db, q) == Row(acc.db, q)
  {
    hide HasRival, MoveTarget, NeedsUpload, CaseConflict;
  }

  /** What one scanned path adds: the decision it calls for, if any. */
  lemma VisitAnswers(env: Env, decided: set<RelPath>, live: map<RelPath, RemoteItem>, db: Db, acc: LocalAcc,
                     p: RelPath, e: ScanEntry, now: Timestamp)
    requires RowsServe(env, decided, live, db, acc.db) && RelFromAbs(env.root, e.abs) == Some(p)
    ensures
      var after, d := Visit(env, decided, live, acc, p, e.side, now), Decision(p, UploadKind(e.side));
      && after.decisions == acc.decisions
         + (if p !in decided && CallsFor(env, live, db, e, d) then [d] else [])
      && (acc.failed ==> after.failed)
  {
    hide HasRival, MoveTarget, NeedsUpload, RelFromAbs;
    assert !HasRival(env, live, p) ==> SameNeeds(Row(db, p), Row(acc.db, p));
  }

  lemma CalledForGrows(env: Env, live: map<RelPath, RemoteItem>, db: Db, scan: seq<ScanEntry>, n: nat, d: Decision)
    requires 0 < n <= |scan|
    ensures CalledFor(env, live, db, scan, n, d) <==>
            CalledFor(env, live, db, scan, n - 1, d) || CallsFor(env, live, db, scan[n - 1], d)
  {
    hide CallsFor;
  }

  /** The walk decides exactly what the store before it and the scan call for. */
  lemma {:induction false} LocalWalkAnswers(env: Env, decided: set<RelPath>, live: map<RelPath, RemoteItem>, db: Db,
                                            scan: seq<ScanEntry>, clock: Clock, n: nat)
    requires n <= |scan| && WellKeyed(db)
    ensures LocalAnswers(env, decided, live, db, scan, n, LocalWalk(env, decided, live, db, scan, clock, n))
  {
    hide RelFromAbs, HasRival, Visit, Leads, RowsServe, NeedsUpload, CalledFor, UploadKind;
    if n > 0 {
      LocalWalkAnswers(env, decided, live, db, scan, clock, n - 1);
      LocalWalkIsGentle(env, decided, live, db, scan, clock, n - 1, n - 1);
      var before := LocalWalk(env, decided, live, db, scan, clock, n - 1);
      LeadsKeyed(db, before.log, before.db, Gentle);
      var rel := RelFromAbs(env.root, scan[n - 1].abs);
      forall d ensures CalledFor(env, live, db, scan, n, d) <==>
                       CalledFor(env, live, db, scan, n - 1, d) || CallsFor(env, live, db, scan[n - 1], d)
      {
        CalledForGrows(env, live, db, scan, n, d);
      }
      if !before.failed && rel.Some? {
        VisitServes(env, decided, live, db, before, rel.value, scan[n - 1].side, clock(n - 1));
        VisitAnswers(env, decided, live, db, before, rel.value, scan[n - 1], clock(n - 1));
      }
    } else {
      NothingCalledFor(env, decided, live, db, scan);
    }
  }

  lemma NothingCalledFor(env: Env, decided: set<RelPath>, live: map<RelPath, RemoteItem>, db: Db, scan: seq<ScanEntry>)
    ensures LocalAnswers(env, decided, live, db, scan, 0, Begin(db))
  {
  }

  // ---------------------------------------------------------------- what the walk stores

  /** The row of a decided upload shows what the scan saw. */
  ghost predicate ShowsScan(env: Env, scan: seq<ScanEntry>, n: nat, db: Db, p: RelPath)
    requires n <= |scan|
  {
    && p in db.rows && db.rows[p].state == PendingUpload
    && db.rows[p].local.Some? && db.rows[p].kind == db.rows[p].local.value.kind
    && ScannedSide(env, scan, n, p, db.rows[p].local.value)
  }

  /** The conflict row for a file renamed away from `p` to `target`. */
  ghost predicate IsMoveRow(env: Env, live: map<RelPath, RemoteItem>, scan: seq<ScanEntry>, n: nat,
                            p: RelPath, target: RelPath, c: ConflictRow)
    requires n <= |scan|
  {
    && MoveTarget(env, p) == Some(target) && IsRival(env, live, p, c.path)
    && c.winner == ConflictSide.RemoteSide && c.loserPath == target
    && c.remote == RemoteSideOf(live[c.path], c.detectedAt)
    && ScannedSide(env, scan, n, p, c.local)
  }

  /** A file is no longer there: its row, if any, is parked and has no local side. */
  predicate IsGone(db: Db, p: RelPath)
  {
    p in db.rows ==> db.rows[p].local.None? && db.rows[p].state == PendingConflict
  }

  ghost predicate LocalStores(env: Env, live: map<RelPath, RemoteItem>, db: Db, scan: seq<ScanEntry>, n: nat,
                              acc: LocalAcc)
    requires n <= |scan|
  {
    && (forall d :: d in acc.decisions ==> !HasRival(env, live, d.path) && ShowsScan(env, scan, n, acc.db, d.path))
    && |acc.moved| == acc.recorded
    && db.conflicts <= acc.db.conflicts && |acc.db.conflicts| == |db.conflicts| + |acc.moved|
    && (forall k :: 0 <= k < |acc.moved| ==>
          && IsMoveRow(env, live, scan, n, acc.moved[k].0, acc.moved[k].1, acc.db.conflicts[|db.conflicts| + k])
          && HasRival(env, live, acc.moved[k].0) && IsGone(acc.db, acc.moved[k].0))
  }

  /** The facts about `n - 1` entries are facts about `n`. */
  lemma StoresStay(env: Env, live: map<RelPath, RemoteItem>, db: Db, scan: seq<ScanEntry>, n: nat, acc: LocalAcc)
    requires 0 < n <= |scan| && LocalStores(env, live, db, scan, n - 1, acc)
    ensures LocalStores(env, live, db, scan, n, acc)
  {
    hide ScannedSide, HasRival, MoveTarget;
    forall p, side ensures ScannedSide(env, scan, n - 1, p, side) ==> ScannedSide(env, scan, n, p, side) {
      ScannedSideGrows(env, scan, n, p, side);
    }
  }

  lemma MoveAwayStores(env: Env, live: map<RelPath, RemoteItem>, db: Db, scan: seq<ScanEntry>, n: nat, acc: LocalAcc,
                       p: RelPath, side: FileSide, now: Timestamp)
    requires n <= |scan| && LocalStores(env, live, db, scan, n, acc) && WellKeyed(acc.db)
    requires HasRival(env, live, p) && ScannedSide(env, scan, n, p, side)
    ensures LocalStores(env, live, db, scan, n, MoveAway(env, live, acc, p, side, now))
  {
    hide ScannedSide, HasRival, MoveTarget;
    if MoveTarget(env, p).Some? {
      var after := MoveAway(env, live, acc, p, side, now);
      var rival := RivalOf(env, live, p);
      var c := CaseConflict(p, side, rival, live[rival], MoveTarget(env, p).value, now);
      assert after.db.conflicts == acc.db.conflicts + [c];
      assert IsMoveRow(env, live, scan, n, p, MoveTarget(env, p).value, c);
    }
  }

  lemma OfferUploadStores(env: Env, live: map<RelPath, RemoteItem>, db: Db, scan: seq<ScanEntry>, n: nat, acc: LocalAcc,
                          p: RelPath, side: FileSide, now: Timestamp)
    requires n <= |scan| && LocalStores(env, live, db, scan, n, acc) && WellKeyed(acc.db)
    requires !HasRival(env, live, p) && ScannedSide(env, scan, n, p, side)
    ensures LocalStores(env, live, db, scan, n, OfferUpload(acc, p, side, now))
  {
    hide ScannedSide, HasRival, MoveTarget, LocalDiverges, IsRival;
  }

  /** Uploads show the scan, and every file renamed away has its conflict row and is parked. */
  lemma {:induction false} LocalWalkStores(env: Env, decided: set<RelPath>, live: map<RelPath, RemoteItem>, db: Db,
                                           scan: seq<ScanEntry>, clock: Clock, n: nat)
    requires n <= |scan| && WellKeyed(db)
    ensures LocalStores(env, live, db, scan, n, LocalWalk(env, decided, live, db, scan, clock, n))
  {
    hide RelFromAbs, LocalStores, HasRival, MoveAway, OfferUpload, Leads, ScannedSide;
    if n > 0 {
      LocalWalkStores(env, decided, live, db, scan, clock, n - 1);
      LocalWalkIsGentle(env, decided, live, db, scan, clock, n - 1, n - 1);
      var before := LocalWalk(env, decided, live, db, scan, clock, n - 1);
      LeadsKeyed(db, before.log, before.db, Gentle);
      StoresStay(env, live, db, scan, n, before);
      var rel, side := RelFromAbs(env.root, scan[n - 1].abs), scan[n - 1].side;
      if !before.failed && rel.Some? {
        ScannedSideGrows(env, scan, n, rel.value, side);
        CountersDoNotMatter(env, live, db, scan, n, before);
        if rel.value !in decided {
          if HasRival(env, live, rel.value) {
            MoveAwayStores(env, live, db, scan, n, before.(seen := before.seen + 1), rel.value, side, clock(n - 1));
          } else {
            OfferUploadStores(env, live, db, scan, n, before.(seen := before.seen + 1), rel.value, side, clock(n - 1));
          }
        }
      }
    } else {
      NothingStored(env, live, db, scan);
    }
  }

  lemma CountersDoNotMatter(env: Env, live: map<RelPath, RemoteItem>, db: Db, scan: seq<ScanEntry>, n: nat,
                            acc: LocalAcc)
    requires n <= |scan| && LocalStores(env, live, db, scan, n, acc)
    ensures LocalStores(env, live, db, scan, n, acc.(seen := acc.seen + 1))
    ensures forall os :: LocalStores(env, live, db, scan, n, acc.(overlaps := os))
  {
    hide HasRival, ShowsScan, IsMoveRow, IsGone;
  }

  lemma NothingStored(env: Env, live: map<RelPath, RemoteItem>, db: Db, scan: seq<ScanEntry>)
    ensures LocalStores(env, live, db, scan, 0, Begin(db))
  {
  }

  // ---------------------------------------------------------------- the phase

  datatype LocalOutcome = LocalOutcome(
    decisions: seq<Decision>,
    localEventsSeen: nat,
    collisionsRecorded: nat,
    overlaps: seq<Overlap>)

  ghost predicate LocalHolds(store: StateStore, log0: seq<Write>, o: LocalOutcome, acc: LocalAcc)
    reads store
  {
    && store.Value() == acc.db && store.log == log0 + acc.log && !acc.failed
    && o == LocalOutcome(acc.decisions, acc.seen, acc.recorded, acc.overlaps)
  }

  /** Renames the local loser of a case collision and records the conflict. */
  method HandleCaseCollision(env: Env, store: StateStore, p: RelPath, side: FileSide, rival: RelPath, item: RemoteItem,
                             now: Timestamp)
    returns (ok: bool)
    requires store.Valid()
    modifies store
    ensures store.Valid()
    ensures
      MoveTarget(env, p).None? ==> !ok && store.log == old(store.log)
    ensures MoveTarget(env, p).Some? ==>
      var conflict := AddConflict(CaseConflict(p, side, rival, item, MoveTarget(env, p).value, now));
      var row := ParkMoved(Row(old(store.Value()), p), now);
      && old(store.log) <= store.log <= old(store.log) + ([conflict] + Writes(row))
      && (ok ==> store.log == old(store.log) + ([conflict] + Writes(row))
                 && store.Value() == Put(Apply(old(store.Value()), conflict), row))
    ensures store.failures == old(store.failures) + if ok || MoveTarget(env, p).None? then 0 else 1
  {
    hide MoveTarget, CaseConflict, Replay, WellKeyed, RemoteSideOf;
    var target := MoveTarget(env, p);
    if target.None? {
      return false;
    }
    // The rename on disk.
    ok := store.Attempt();
    if !ok {
      return;
    }
    ok := store.ConflictInsert(CaseConflict(p, side, rival, item, target.value, now));
    if !ok {
      return;
    }
    var existing;
    ok, existing := store.FileEntryGet(p);
    if !ok {
      return;
    }
    if existing.Some? {
      ok := store.FileEntryUpsert(existing.value.(local := None, state := PendingConflict, updatedAt := now));
    }
  }

  /** Stores an upload row for a path that needs one, and decides to upload it. */
  method OfferUploadFor(store: StateStore, p: RelPath, side: FileSide, now: Timestamp, o: LocalOutcome,
                        ghost log0: seq<Write>, ghost acc: LocalAcc)
    returns (ok: bool, o': LocalOutcome)
    requires store.Valid() && LocalHolds(store, log0, o, acc)
    modifies store
    ensures store.Valid()
    ensures ok ==> LocalHolds(store, log0, o', OfferUpload(acc, p, side, now))
    ensures !ok ==> store.log == old(store.log)
    ensures acc.log <= OfferUpload(acc, p, side, now).log
    ensures store.failures == old(store.failures) + if ok then 0 else 1
  {
    hide LocalDiverges, UploadKind;
    var entry;
    o' := o;
    ok, entry := store.FileEntryGet(p);
    if ok && NeedsUpload(entry, side) {
      ok := store.FileEntryUpsert(UploadRow(p, entry, side, now));
      o' := o'.(decisions := o.decisions + [Decision(p, UploadKind(side))]);
    }
  }

  /** Handles the collision with `rival`, the live path found. */
  method MoveAwayFrom(env: Env, store: StateStore, live: map<RelPath, RemoteItem>, p: RelPath, rival: RelPath,
                      side: FileSide, now: Timestamp, o: LocalOutcome, ghost log0: seq<Write>, ghost acc: LocalAcc)
    returns (ok: bool, o': LocalOutcome)
    requires store.Valid() && LocalHolds(store, log0, o, acc)
    requires HasRival(env, live, p) && rival in live && rival == RivalOf(env, live, p)
    modifies store
    ensures store.Valid()
    ensures ok ==> LocalHolds(store, log0, o', MoveAway(env, live, acc, p, side, now))
    ensures old(store.log) <= store.log <= log0 + MoveAway(env, live, acc, p, side, now).log
    ensures ok ==> store.failures == old(store.failures)
    ensures !ok ==> store.failures > old(store.failures) || MoveAway(env, live, acc, p, side, now).failed
    ensures store.failures >= old(store.failures)
  {
    hide MoveTarget, CaseConflict, ParkMoved, IsRival;
    ok := HandleCaseCollision(env, store, p, side, rival, live[rival], now);
    o' := o.(collisionsRecorded := o.collisionsRecorded + 1);
    if MoveTarget(env, p).Some? {
      ghost var conflict := AddConflict(CaseConflict(p, side, rival, live[rival], MoveTarget(env, p).value, now));
      ghost var row := ParkMoved(Row(acc.db, p), now);
      assert log0 + (acc.log + [conflict] + Writes(row)) == (log0 + acc.log) + ([conflict] + Writes(row));
    }
  }

  /** One scanned path. */
  method VisitPath(env: Env, store: StateStore, decided: set<RelPath>, live: map<RelPath, RemoteItem>,
                   p: RelPath, side: FileSide, now: Timestamp, o: LocalOutcome,
                   ghost log0: seq<Write>, ghost acc: LocalAcc)
    returns (ok: bool, o': LocalOutcome)
    requires store.Valid() && LocalHolds(store, log0, o, acc) && LiveDistinct(env, live)
    modifies store
    ensures store.Valid()
    ensures ok ==> LocalHolds(store, log0, o', Visit(env, decided, live, acc, p, side, now))
    ensures old(store.log) <= store.log <= log0 + Visit(env, decided, live, acc, p, side, now).log
    ensures ok ==> store.failures == old(store.failures)
    ensures !ok ==> store.failures > old(store.failures) || Visit(env, decided, live, acc, p, side, now).failed
    ensures store.failures >= old(store.failures)
  {
    hide MoveAway, OfferUpload;
    ok, o' := true, o;
    if p in decided {
      if p in live && !live[p].folder {
        o' := o.(overlaps := o.overlaps + [Overlap(p, side)]);
      }
    } else {
      o' := o'.(localEventsSeen := o.localEventsSeen + 1);
      ghost var acc1 := acc.(seen := acc.seen + 1);
      if rival :| rival in live && IsRival(env, live, p, rival) {
        assert HasRival(env, live, p) && RivalOf(env, live, p) == rival;
        ok, o' := MoveAwayFrom(env, store, live, p, rival, side, now, o', log0, acc1);
      } else {
        ok, o' := OfferUploadFor(store, p, side, now, o', log0, acc1);
      }
    }
  }

  lemma {:induction false} LocalFirst(env: Env, decided: set<RelPath>, live: map<RelPath, RemoteItem>, db: Db,
                                      scan: seq<ScanEntry>, clock: Clock)
    ensures LocalWalk(env, decided, live, db, scan, clock, 0) == Begin(db)
  {
  }

  lemma LocalNext(env: Env, decided: set<RelPath>, live: map<RelPath, RemoteItem>, db: Db, scan: seq<ScanEntry>,
                  clock: Clock, n: nat)
    requires n < |scan| && WellKeyed(db)
    ensures
      var a, b := LocalWalk(env, decided, live, db, scan, clock, n), LocalWalk(env, decided, live, db, scan, clock,
                            n + 1);
      && b == LocalStep(env, decided, live, a, scan[n], clock(n))
      && a.log <= b.log <= LocalWalk(env, decided, live, db, scan, clock, |scan|).log
      && (b.failed ==> LocalWalk(env, decided, live, db, scan, clock, |scan|).failed)
  {
    hide LocalStep, Leads;
    LocalWalkIsGentle(env, decided, live, db, scan, clock, n, n + 1);
    LocalWalkIsGentle(env, decided, live, db, scan, clock, n + 1, |scan|);
  }

  /** Scans the pair root and offers uploads; any failing port call ends the phase. */
  method PhaseLocalUploads(env: Env, store: StateStore, decided: set<RelPath>, live: map<RelPath, RemoteItem>,
                           scan: seq<ScanEntry>, clock: Clock)
    returns (r: Result<LocalOutcome, EngineError>)
    requires store.Valid() && LiveDistinct(env, live)
    modifies store
    ensures store.Valid()
    ensures
      var acc := LocalWalk(env, decided, live, old(store.Value()), scan, clock, |scan|);
      && old(store.log) <= store.log <= old(store.log) + acc.log
      && (r.Ok? ==> LocalHolds(store, old(store.log), r.value, acc))
      && (r.Ok? ==> store.failures == old(store.failures))
      && (r.Err? ==> store.failures > old(store.failures) || acc.failed)
    ensures store.failures >= old(store.failures)
  {
    hide RelFromAbs, Visit, LiveDistinct, Leads, WellKeyed, Replay, LocalWalk;
    ghost var db, log0 := store.Value(), store.log;
    var o := LocalOutcome([], 0, 0, []);
    var scanned := store.Attempt();
    if !scanned {
      return Err(Port);
    }
    var i: nat := 0;
    LocalFirst(env, decided, live, db, scan, clock);
    while i < |scan|
      invariant 0 <= i <= |scan| && store.Valid()
      invariant LocalHolds(store, log0, o, LocalWalk(env, decided, live, db, scan, clock, i))
      invariant store.failures == old(store.failures)
    {
      ghost var acc := LocalWalk(env, decided, live, db, scan, clock, i);
      LocalNext(env, decided, live, db, scan, clock, i);
      var rel := RelFromAbs(env.root, scan[i].abs);
      if rel.Some? {
        var ok;
        ok, o := VisitPath(env, store, decided, live, rel.value, scan[i].side, clock(i), o, log0, acc);
        if !ok {
          return Err(Port);
        }
      }
      i := i + 1;
    }
    return Ok(o);
  }
}
