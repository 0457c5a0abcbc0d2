/**
 * What a cycle does to the files on the local disk, and when the content that a scanned file had
 * before is still there, at every moment of the cycle.
 */
module LocalDisk {
  import opened Collections
  import opened Paths
  import opened Types
  import opened Store
  import opened DeltaPhase
  import opened LocalPhase
  import opened ResolvePhase
  import opened ExecutePhase
  import opened Cycle
  import opened CycleOps
  import opened CycleOutcome
  import opened CycleSafety
  import opened DiskActions
  import CaseRename
  import LoserNames

  // ---------------------------------------------------------------- what operations do to the disk

  /** The local call of a download or a delete is made and does its work, whatever it then reports. */
  predicate Lands(root: string, op: FileOp, a: Attempt)
  {
    (op.kind == OpDownload ==> a.remote.None?) && Joins(root, op.path) && (a.local.None? || a.landed)
  }

  /** A download or a delete takes place if it did so in any attempt, also if it counts as failed. */
  predicate TakesEffect(root: string, op: FileOp, s: Script)
  {
    s.inserts && exists k :: 0 <= k <= LastAttempt(root, op, s, 0) && Lands(root, op, s.attempts(k))
  }

  /** The file is not at its old name any more. A rename that reports to have crossed volumes has moved it. */
  predicate LeavesOldName(a: Attempt)
  {
    a.local.None? || a.local == Some(CrossVolumeRename)
  }

  /** After the last attempt to rename it, the file is at its new name, or at least a whole copy is. */
  predicate MovesFile(root: string, op: FileOp, s: Script)
    requires op.meta.newPath.Some?
  {
    var a := s.attempts(LastAttempt(root, op, s, 0));
    && s.inserts && Joins(root, op.path) && Joins(root, op.meta.newPath.value)
    && (LeavesOldName(a) || a.landed)
  }

  /** In particular a local operation takes place whenever it counts as a success, if there is something to delete. */
  lemma {:induction false} SuccessTakesEffect(root: string, op: FileOp, s: Script)
    requires Succeeds(root, op, s)
    ensures op.kind == OpDownload ==> TakesEffect(root, op, s)
    ensures op.kind == OpLocalDelete ==>
      TakesEffect(root, op, s) || s.attempts(LastAttempt(root, op, s, 0)).local == Some(LocalNotFound)
    ensures op.kind == OpLocalRename ==>
      op.meta.newPath.Some? && MovesFile(root, op, s) && LeavesOldName(s.attempts(LastAttempt(root, op, s, 0)))
  {
    hide RunFrom, LastAttempt, Joins, Execute;
    LastDecides(root, op, s, 0);
    ExecutionSucceedsIff(root, op, s.attempts(LastAttempt(root, op, s, 0)));
  }

  /** `arriving` is what the last attempt of a download to take effect has brought. */
  function ActionOf(root: string, op: FileOp, s: Script, arriving: Content): Action
  {
    match op.kind
    case OpDownload => if TakesEffect(root, op, s) then Write(op.path, arriving) else Idle
    case OpLocalDelete => if TakesEffect(root, op, s) then Remove(op.path) else Idle
    case OpLocalRename =>
      if op.meta.newPath.Some? && MovesFile(root, op, s)
      then Relocate(op.path, op.meta.newPath.value, !LeavesOldName(s.attempts(LastAttempt(root, op, s, 0))))
      else Idle
    case _ => Idle
  }

  /**
   * What is on the disk after an operation: the new content after a download that took place,
   * nothing after such a delete, the file at its new name after a rename, and no longer at the old
   * one unless it was only copied. Everything else is as it was.
   */
  lemma {:induction false} ActionEffect(root: string, op: FileOp, s: Script, arriving: Content, disk: Disk, q: RelPath)
    requires op.kind == OpLocalRename && op.meta.newPath.Some? ==>
      !Within(op.path, op.meta.newPath.value) && !Within(op.meta.newPath.value, op.path)
    ensures
      var after := Act(disk, ActionOf(root, op, s, arriving));
      && (op.kind == OpDownload && TakesEffect(root, op, s) ==> after(op.path) == Some(arriving))
      && (op.kind == OpLocalDelete && TakesEffect(root, op, s) ==> after(op.path) == None)
      && (op.kind == OpLocalRename && op.meta.newPath.Some? && MovesFile(root, op, s) && disk(op.path).Some? ==>
            && after(op.meta.newPath.value) == disk(op.path)
            && after(op.path) == if LeavesOldName(s.attempts(LastAttempt(root, op, s, 0))) then None else disk(op.path))
      && (!Within(op.path, q) && !(op.meta.newPath.Some? && Within(op.meta.newPath.value, q)) ==> after(q) == disk(q))
  {
    hide TakesEffect, MovesFile, LeavesOldName, Act, Within;
    forall a: Action | !a.Relocate? ensures
      && (!Hits(a, q) ==> Act(disk, a)(q) == disk(q))
      && (a.Write? ==> Act(disk, a)(a.path) == Some(a.content)) && (a.Remove? ==> Act(disk, a)(a.path) == None)
    {
      ActPlain(disk, a, q);
    }
    assert Within(op.path, op.path) by { WithinItself(op.path); }
    if op.kind == OpLocalRename && op.meta.newPath.Some? {
      ActRelocate(disk, op.path, op.meta.newPath.value, !LeavesOldName(s.attempts(LastAttempt(root, op, s, 0))), q);
    }
  }

  lemma WithinItself(p: RelPath)
    ensures Within(p, p)
  {
  }

  lemma ActPlain(disk: Disk, a: Action, q: RelPath)
    requires !a.Relocate?
    ensures !Hits(a, q) ==> Act(disk, a)(q) == disk(q)
    ensures a.Write? ==> Act(disk, a)(a.path) == Some(a.content)
    ensures a.Remove? ==> Act(disk, a)(a.path) == None
  {
  }

  lemma ActRelocate(disk: Disk, from: RelPath, to: RelPath, keeps: bool, q: RelPath)
    requires !Within(from, to) && !Within(to, from)
    ensures
      var after := Act(disk, Relocate(from, to, keeps));
      && (disk(from).Some? ==> after(to) == disk(from) && after(from) == if keeps then disk(from) else None)
      && (!Within(from, q) && !Within(to, q) ==> after(q) == disk(q))
  {
    assert from + to[|to|..] == from && Within(from, from);
    var after := Act(disk, Relocate(from, to, keeps));
    assert keeps ==> after(from) == disk(from);
    assert !keeps ==> after(from) == None;
  }

  /** The renames of case-collision losers during the scan phase, then the operations. */
  function Actions(env: Env, c: Input, t: Trace, arriving: nat -> Content): seq<Action>
  {
    seq(|t.local.moved|, k requires 0 <= k < |t.local.moved| => Relocate(t.local.moved[k].0, t.local.moved[k].1, false))
    + seq(|t.Ops()|, i requires 0 <= i < |t.Ops()| => ActionOf(env.root, t.Ops()[i], c.scripts(i), arriving(i)))
  }

  lemma ActionsAre(env: Env, c: Input, t: Trace, arriving: nat -> Content, k: nat)
    ensures |Actions(env, c, t, arriving)| == |t.local.moved| + |t.Ops()|
    ensures k < |t.local.moved| ==>
      Actions(env, c, t, arriving)[k] == Relocate(t.local.moved[k].0, t.local.moved[k].1, false)
    ensures |t.local.moved| <= k < |t.local.moved| + |t.Ops()| ==>
      var i := k - |t.local.moved|;
      Actions(env, c, t, arriving)[k] == ActionOf(env.root, t.Ops()[i], c.scripts(i), arriving(i))
  {
    hide ActionOf;
  }

  // ---------------------------------------------------------------- new names

  /** The texts that go into new names: of one length each where they vary, and without separators. */
  ghost predicate PlainTexts(env: Env)
  {
    && '/' !in env.host
    && (forall x, y :: |env.stampText(x)| == |env.stampText(y)|)
    && (forall x :: '.' !in env.stampText(x) && '/' !in env.stampText(x))
    && (forall p, q :: |env.shortHash(p)| == |env.shortHash(q)|)
    && (forall p :: '.' !in env.shortHash(p) && '/' !in env.shortHash(p))
  }

  predicate IsNewName(t: Trace, name: RelPath)
  {
    || (exists k :: 0 <= k < |t.local.moved| && t.local.moved[k].1 == name)
    || (exists i :: 0 <= i < |t.Ops()| && t.Ops()[i].kind == OpLocalRename && t.Ops()[i].meta.newPath == Some(name))
  }

  /**
   * The names given to losers are free: nothing is at or below such a name, neither on the disk nor
   * as the path of an operation or of a file renamed away, and no name is given to losers of both
   * kinds.
   */
  ghost predicate NamesAreFree(disk: Disk, t: Trace)
  {
    && (forall name :: IsNewName(t, name) ==>
          && (forall q :: disk(q).Some? ==> !Within(name, q))
          && (forall i :: 0 <= i < |t.Ops()| ==> !Within(name, t.Ops()[i].path))
          && (forall k :: 0 <= k < |t.local.moved| ==> !Within(name, t.local.moved[k].0)))
    && (forall k, i :: 0 <= k < |t.local.moved| && 0 <= i < |t.Ops()| && t.Ops()[i].kind == OpLocalRename ==>
          t.Ops()[i].meta.newPath != Some(t.local.moved[k].1))
  }

  /** `name` is a leaf put beside the leaf of `source`. */
  predicate IsBeside(source: RelPath, name: RelPath)
  {
    BaseStart(name) == BaseStart(source) && BaseStart(source) <= |name|
    && name[..BaseStart(source)] == source[..BaseStart(source)]
  }

  /** What lies below `x` beside a file has that file below `x` as well. */
  lemma BesideIsBelow(source: RelPath, name: RelPath, x: RelPath)
    requires IsBeside(source, name) && Beneath(x, name)
    ensures Beneath(x, source)
  {
    var b := BaseStart(name);
    forall k: nat | b <= k < |name| ensures name[k] != '/' {
      NoSlashBehind(name, b, k);
    }
    assert source[..b][..|x|] == name[..b][..|x|];
    assert source[..b][|x|] == name[..b][|x|];
  }

  lemma CaseNameIsBeside(env: Env, p: RelPath)
    requires PlainTexts(env) && MoveTarget(env, p).Some?
    ensures IsBeside(p, MoveTarget(env, p).value)
  {
    hide CaseRename.RenameTarget, BaseStart;
    CaseRename.TargetKeepsDirectory(p, env.shortHash(p));
  }

  lemma LoserNameIsBeside(env: Env, p: RelPath, now: Timestamp)
    requires PlainTexts(env) && ValidRel(p) && LoserFor(env, p, now).Some?
    ensures IsBeside(p, LoserFor(env, p, now).value)
  {
    hide LoserNames.LoserText, BaseStart, ValidRel;
    LoserNames.LoserKeepsDirectory(p, env.host, env.stampText(now), 0);
  }

  // ---------------------------------------------------------------- the setting

  /** A cycle that reaches its execution phase, with distinct scan paths and free new names. */
  ghost predicate Setting(env: Env, db: Db, c: Input, t: Trace, disk: Disk)
  {
    && WellFormed(env, c) && WellKeyed(db) && t == TraceOf(env, db, c) && Reaches(t) && DistinctScan(env, c.scan)
    && PlainTexts(env) && NamesAreFree(disk, t)
  }

  /** The name was made for a case-collision loser. */
  ghost predicate FromCase(env: Env, a: Action)
  {
    a.Relocate? && MoveTarget(env, a.from) == Some(a.to)
  }

  /** The name was made for a conflict loser. */
  ghost predicate FromConflict(env: Env, a: Action)
  {
    a.Relocate? && ValidRel(a.from) && exists now :: LoserFor(env, a.from, now) == Some(a.to)
  }

  lemma ConflictPathIsValid(env: Env, db: Db, c: Input, t: Trace, i: nat)
    requires WellFormed(env, c) && WellKeyed(db) && t == TraceOf(env, db, c) && Reaches(t)
    requires i < |t.resolve.ops|
    ensures ValidRel(t.resolve.ops[i].path)
  {
    hide WellFormed, TraceOf, InGroup, ValidRel, MustBeRecorded, IsSkipped;
    KeptAre(env, db, c, t);
    assert t.resolve.ops[i] in t.resolve.ops;
    var d :| d in t.overlap.decisions && d.kind.IsConflict() && d.path == t.resolve.ops[i].path;
    var a := LiveBehind(env, db, c, t, d);
  }

  /** Where the renames of a cycle come from. */
  lemma RelocationIs(env: Env, db: Db, c: Input, t: Trace, disk: Disk, arriving: nat -> Content, k: nat)
    requires Setting(env, db, c, t, disk)
    requires k < |Actions(env, c, t, arriving)| && Actions(env, c, t, arriving)[k].Relocate?
    ensures
      var a, m := Actions(env, c, t, arriving)[k], |t.local.moved|;
      && IsNewName(t, a.to) && IsBeside(a.from, a.to)
      && (if k < m then FromCase(env, a) && (a.from, a.to) == t.local.moved[k]
          else FromConflict(env, a) && |t.planned| <= k - m < |t.planned| + |t.resolve.ops|
               && a.from == t.Ops()[k - m].path && t.Ops()[k - m].kind == OpLocalRename
               && t.Ops()[k - m].meta.newPath == Some(a.to))
  {
    hide WellFormed, TraceOf, DistinctScan, PlainTexts, NamesAreFree, IsBeside, Actions, LoserFor, MoveTarget, MovesFile,
         TakesEffect, ScannedAt, ValidRel, Run;
    var a, m := Actions(env, c, t, arriving)[k], |t.local.moved|;
    ActionsAre(env, c, t, arriving, k);
    if k < m {
      MovedAre(env, db, c, t);
      CaseNameIsBeside(env, a.from);
    } else {
      RenameIsInGroup(env, db, c, t, k - m);
      ConflictPathIsValid(env, db, c, t, k - m - |t.planned|);
      var now :| LoserFor(env, a.from, now) == Some(a.to);
      LoserNameIsBeside(env, a.from, now);
    }
  }

  lemma MovedAre(env: Env, db: Db, c: Input, t: Trace)
    requires t == TraceOf(env, db, c)
    ensures MovesFacts(env, Decided(t), c.scan, |c.scan|, t.local)
  {
    hide DeltaOf, LocalWalk, OverlapOf, ResolveOf, PlannedOf, RenamesOf, ExecOf;
    LocalWalkMoves(env, Decided(t), t.delta.live, Moved(t), c.scan, c.clocks.local, |c.scan|);
  }

  /** A local rename with a new name belongs to a conflict group, and the name is a loser name. */
  lemma RenameIsInGroup(env: Env, db: Db, c: Input, t: Trace, i: nat)
    requires t == TraceOf(env, db, c) && Reaches(t) && i < |t.Ops()|
    requires t.Ops()[i].kind == OpLocalRename && t.Ops()[i].meta.newPath.Some?
    ensures |t.planned| <= i < |t.planned| + |t.resolve.ops| && t.Ops()[i] == t.resolve.ops[i - |t.planned|]
    ensures exists now :: LoserFor(env, t.Ops()[i].path, now) == t.Ops()[i].meta.newPath
  {
    hide TraceOf, LoserFor;
    var n, m := |t.planned|, |t.resolve.ops|;
    if i < n {
      assert t.Ops()[i] == t.planned[i];
      var d := PlannedSource(env, db, c, t, t.planned[i]);
    } else if i < n + m {
      KeptAre(env, db, c, t);
      OpsSplit(t, i);
      assert InGroup(env, t.resolve.ops, i - n);
    } else {
      RenamesAre(env, db, c, t, i - n - m);
    }
  }

  // ---------------------------------------------------------------- new names are unrelated

  lemma SameCaseName(env: Env, p: RelPath, q: RelPath)
    requires PlainTexts(env) && MoveTarget(env, p).Some? && MoveTarget(env, p) == MoveTarget(env, q)
    ensures p == q
  {
    hide CaseRename.RenameTarget;
    CaseRename.TargetInjective(p, q, env.shortHash(p), env.shortHash(q));
  }

  lemma SameLoserName(env: Env, p: RelPath, q: RelPath, x: Timestamp, y: Timestamp)
    requires PlainTexts(env) && ValidRel(p) && ValidRel(q)
    requires LoserFor(env, p, x).Some? && LoserFor(env, p, x) == LoserFor(env, q, y)
    ensures p == q
  {
    hide LoserNames.LoserText, ValidRel;
    assert multiset(env.stampText(x))['.'] == 0 && multiset(env.stampText(x))['/'] == 0;
    assert multiset(env.stampText(y))['.'] == 0 && multiset(env.stampText(y))['/'] == 0;
    LoserNames.LoserPathInjective(p, q, env.host, env.stampText(x), env.stampText(y), 0);
  }

  lemma NewNamesDiffer(env: Env, db: Db, c: Input, t: Trace, disk: Disk, arriving: nat -> Content, j: nat, k: nat)
    requires Setting(env, db, c, t, disk) && j < k < |Actions(env, c, t, arriving)|
    requires Actions(env, c, t, arriving)[j].Relocate? && Actions(env, c, t, arriving)[k].Relocate?
    ensures Actions(env, c, t, arriving)[j].to != Actions(env, c, t, arriving)[k].to
  {
    hide WellFormed, TraceOf, DistinctScan, PlainTexts, Actions, LoserFor, MoveTarget, ScannedAt, IsBeside, ValidRel,
         Within, Act;
    var acts, m := Actions(env, c, t, arriving), |t.local.moved|;
    RelocationIs(env, db, c, t, disk, arriving, j);
    RelocationIs(env, db, c, t, disk, arriving, k);
    if acts[j].to == acts[k].to {
      if k < m {
        MovedAre(env, db, c, t);
        SameCaseName(env, acts[j].from, acts[k].from);
      } else if m <= j {
        var x :| LoserFor(env, acts[j].from, x) == Some(acts[j].to);
        var y :| LoserFor(env, acts[k].from, y) == Some(acts[k].to);
        SameLoserName(env, acts[j].from, acts[k].from, x, y);
        OneActionPerPath(env, db, c, t, j - m, k - m);
      }
    }
  }

  lemma NamesAreUnrelated(env: Env, db: Db, c: Input, t: Trace, disk: Disk, arriving: nat -> Content)
    requires Setting(env, db, c, t, disk)
    ensures Unrelated(Actions(env, c, t, arriving))
  {
    hide WellFormed, TraceOf, DistinctScan, PlainTexts, Actions, LoserFor, MoveTarget, ScannedAt, IsBeside, Act, Beneath;
    var acts := Actions(env, c, t, arriving);
    forall j: nat, k: nat | j < |acts| && k < |acts| && j != k && acts[j].Relocate? && acts[k].Relocate?
      ensures !Within(acts[j].to, acts[k].to)
    {
      if j < k {
        NewNamesDiffer(env, db, c, t, disk, arriving, j, k);
      } else {
        NewNamesDiffer(env, db, c, t, disk, arriving, k, j);
      }
      RelocationIs(env, db, c, t, disk, arriving, j);
      RelocationIs(env, db, c, t, disk, arriving, k);
      assert !Within(acts[j].to, acts[k].from);
      if Beneath(acts[j].to, acts[k].to) {
        BesideIsBelow(acts[k].from, acts[k].to, acts[j].to);
      }
    }
  }

  /** A file that is there lies within none of the new names. */
  lemma FileIsClear(env: Env, db: Db, c: Input, t: Trace, disk: Disk, arriving: nat -> Content, p: RelPath)
    requires Setting(env, db, c, t, disk) && disk(p).Some?
    ensures ClearOf(Actions(env, c, t, arriving), 0, p)
  {
    hide WellFormed, TraceOf, DistinctScan, PlainTexts, Actions, IsBeside, Within, FromCase, FromConflict;
    var acts := Actions(env, c, t, arriving);
    forall k: nat | k < |acts| && acts[k].Relocate? ensures !Within(acts[k].to, p) {
      RelocationIs(env, db, c, t, disk, arriving, k);
    }
  }

  // ---------------------------------------------------------------- what hits a scanned file

  /** The page brings no tombstone for `p`, or the path is not tracked. */
  ghost predicate NotDeleted(db: Db, c: Input, p: RelPath)
  {
    p !in db.rows || NoTombstone(c, p)
  }

  /** The scan saw a file at `p`, it is there, and it is not to be deleted. */
  ghost predicate IsScannedFile(env: Env, db: Db, c: Input, disk: Disk, p: RelPath)
  {
    ScannedAt(env, c.scan, |c.scan|, p) && NotDeleted(db, c, p) && disk(p).Some?
  }

  /** A download or local delete at a scanned path is the download of the conflict group there. */
  lemma OnlyGroupsTouch(env: Env, db: Db, c: Input, t: Trace, p: RelPath, i: nat)
    requires WellFormed(env, c) && WellKeyed(db) && t == TraceOf(env, db, c) && Reaches(t)
    requires ScannedAt(env, c.scan, |c.scan|, p) && NotDeleted(db, c, p) && i < |t.Ops()| && t.Ops()[i].path == p
    requires t.Ops()[i].kind == OpDownload || t.Ops()[i].kind == OpLocalDelete
    ensures t.Ops()[i].kind == OpDownload && |t.planned| < i < |t.planned| + |t.resolve.ops|
    ensures t.Ops()[i - 1].kind == OpLocalRename && t.Ops()[i - 1].path == p && t.Ops()[i - 1].meta.newPath.Some?
  {
    hide WellFormed, TraceOf, ScannedAt, NoTombstone, LoserFor;
    DeletedIff(env, db, c, t, p);
    NoOverwriteWithoutRename(env, db, c, t, i);
    if i >= |t.planned| + |t.resolve.ops| {
      RenamesAre(env, db, c, t, i - |t.planned| - |t.resolve.ops|);
    }
  }

  /** Operation `i` is the rename of a conflict group. */
  predicate StartsGroup(t: Trace, i: nat)
  {
    && |t.planned| <= i < |t.planned| + |t.resolve.ops|
    && t.Ops()[i].kind == OpLocalRename && t.Ops()[i].meta.newPath.Some?
  }

  /** The download behind the rename replaces the file, whether or not it counts as a success. */
  predicate Overwritten(env: Env, c: Input, t: Trace, i: nat)
    requires StartsGroup(t, i)
  {
    && i + 1 < |t.planned| + |t.resolve.ops| && t.Ops()[i + 1].path == t.Ops()[i].path
    && TakesEffect(env.root, t.Ops()[i + 1], c.scripts(i + 1))
  }

  /** The rename takes place, or leaves a whole copy at the new name. */
  predicate MovedAside(env: Env, c: Input, t: Trace, i: nat)
    requires StartsGroup(t, i)
  {
    MovesFile(env.root, t.Ops()[i], c.scripts(i))
  }

  /**
   * Whatever hits a scanned file, wherever renames have taken it by then, is the download of the
   * conflict group at its path, while the file is still at its path.
   */
  lemma HitIsOverwrite(env: Env, db: Db, c: Input, t: Trace, disk: Disk, arriving: nat -> Content, acts: seq<Action>,
                       p: RelPath, m: nat)
    returns (i: nat)
    requires Setting(env, db, c, t, disk) && IsScannedFile(env, db, c, disk, p) && acts == Actions(env, c, t, arriving)
    requires m < |acts| && Hits(acts[m], Place(acts, m, p))
    ensures m == |t.local.moved| + i + 1 && StartsGroup(t, i) && t.Ops()[i].path == p && Overwritten(env, c, t, i)
    ensures Place(acts, m, p) == p
  {
    hide WellFormed, TraceOf, DistinctScan, PlainTexts, NamesAreFree, Actions, ScannedAt, Within, Unrelated, ClearOf,
         TakesEffect, MovesFile, NotDeleted, Place;
    var q, h := Place(acts, m, p), |t.local.moved|;
    ActionsAre(env, c, t, arriving, m);
    NamesAreUnrelated(env, db, c, t, disk, arriving);
    FileIsClear(env, db, c, t, disk, arriving, p);
    PlaceIsClear(acts, m, p);
    var op := t.Ops()[m - h];
    assert op.path == q && (op.kind == OpDownload || op.kind == OpLocalDelete);
    if k: nat :| k < m && acts[k].Relocate? && Within(acts[k].to, q) {
      NoOperationWithin(env, db, c, t, disk, arriving, k, m - h);
    }
    OnlyGroupsTouch(env, db, c, t, p, m - h);
    i := m - h - 1;
  }

  lemma NoOperationWithin(env: Env, db: Db, c: Input, t: Trace, disk: Disk, arriving: nat -> Content, k: nat, i: nat)
    requires Setting(env, db, c, t, disk) && k < |Actions(env, c, t, arriving)| && i < |t.Ops()|
    requires Actions(env, c, t, arriving)[k].Relocate?
    ensures !Within(Actions(env, c, t, arriving)[k].to, t.Ops()[i].path)
  {
    hide WellFormed, TraceOf, DistinctScan, PlainTexts, Actions, IsBeside, Within, FromCase, FromConflict, IsNewName;
    RelocationIs(env, db, c, t, disk, arriving, k);
  }

  /** If the rename of the group takes place, the file is gone from its path by the time of the download. */
  lemma {:induction false} MovedFileIsAway(env: Env, db: Db, c: Input, t: Trace, disk: Disk, arriving: nat -> Content,
                                           acts: seq<Action>, i: nat)
    requires Setting(env, db, c, t, disk) && StartsGroup(t, i) && IsScannedFile(env, db, c, disk, t.Ops()[i].path)
    requires acts == Actions(env, c, t, arriving) && MovedAside(env, c, t, i)
    ensures |t.local.moved| + i < |acts|
    ensures Place(acts, |t.local.moved| + i + 1, t.Ops()[i].path) != t.Ops()[i].path
  {
    hide Setting, Actions, IsScannedFile, MovesFile, Within, Rebase;
    var g, p := |t.local.moved| + i, t.Ops()[i].path;
    ActionsAre(env, c, t, arriving, g);
    ScannedFileIsThere(env, db, c, disk, p);
    FileIsClear(env, db, c, t, disk, arriving, p);
    GroupRename(env, c, t, i, arriving(i));
    RebaseLeaves(p, acts[g].to, Place(acts, g, p));
  }

  lemma ScannedFileIsThere(env: Env, db: Db, c: Input, disk: Disk, p: RelPath)
    requires IsScannedFile(env, db, c, disk, p)
    ensures disk(p).Some?
  {
  }

  lemma GroupRename(env: Env, c: Input, t: Trace, i: nat, arriving: Content)
    requires StartsGroup(t, i) && MovedAside(env, c, t, i)
    ensures i < |t.Ops()|
    ensures
      var a := ActionOf(env.root, t.Ops()[i], c.scripts(i), arriving);
      a.Relocate? && a.from == t.Ops()[i].path
  {
    hide MovesFile;
  }

  // ---------------------------------------------------------------- what becomes of the content

  /** The content of a file is where renames have taken it. */
  ghost predicate IsIntact(disk: Disk, acts: seq<Action>, n: nat, p: RelPath)
    requires n <= |acts|
  {
    Run(disk, acts, n)(Place(acts, n, p)) == disk(p)
  }

  /** What following a scanned file needs. */
  lemma CanFollow(env: Env, db: Db, c: Input, t: Trace, disk: Disk,
                  arriving: nat -> Content, acts: seq<Action>, p: RelPath)
    requires Setting(env, db, c, t, disk) && disk(p).Some? && acts == Actions(env, c, t, arriving)
    ensures Unrelated(acts) && ClearOf(acts, 0, p)
  {
    hide Setting, Actions, Unrelated, ClearOf;
    NamesAreUnrelated(env, db, c, t, disk, arriving);
    FileIsClear(env, db, c, t, disk, arriving, p);
  }

  /**
   * At every moment of a cycle, a scanned file without a conflict group, and not to be deleted, is
   * intact. This includes the losers of case collisions, which get a new name.
   */
  lemma PeacefulFileStays(env: Env, db: Db, c: Input, t: Trace, disk: Disk, arriving: nat -> Content, acts: seq<Action>,
                          n: nat, p: RelPath)
    requires Setting(env, db, c, t, disk) && IsScannedFile(env, db, c, disk, p) && acts == Actions(env, c, t, arriving)
    requires n <= |acts| && forall op :: op in t.resolve.ops ==> op.path != p
    ensures IsIntact(disk, acts, n, p)
  {
    hide Setting, Actions, ScannedAt, Hits, Unrelated, ClearOf, NotDeleted, Overwritten;
    CanFollow(env, db, c, t, disk, arriving, acts, p);
    forall m: nat | m < n ensures !Hits(acts[m], Place(acts, m, p)) {
      if Hits(acts[m], Place(acts, m, p)) {
        var i := HitIsOverwrite(env, db, c, t, disk, arriving, acts, p, m);
        OpsSplit(t, i);
      }
    }
    Follow(disk, acts, 0, n, p);
  }

  /** The download behind the rename takes place while the file is still at its path. */
  ghost predicate IsLost(env: Env, c: Input, t: Trace, acts: seq<Action>, i: nat)
    requires StartsGroup(t, i) && |acts| == |t.local.moved| + |t.Ops()|
  {
    Overwritten(env, c, t, i) && Place(acts, |t.local.moved| + i + 1, t.Ops()[i].path) == t.Ops()[i].path
  }

  /** Two downloads cannot follow two renames at one path. */
  lemma OneGroup(env: Env, db: Db, c: Input, t: Trace, disk: Disk, i: nat, j: nat)
    requires Setting(env, db, c, t, disk) && StartsGroup(t, i) && StartsGroup(t, j)
    ensures t.Ops()[i].path == t.Ops()[j].path ==> i == j
  {
    hide WellFormed, TraceOf, DistinctScan, PlainTexts, NamesAreFree;
    if t.Ops()[i].path == t.Ops()[j].path && i != j {
      OneActionPerPath(env, db, c, t, if i < j then i else j, if i < j then j else i);
    }
  }

  lemma DownloadIs(env: Env, db: Db, c: Input, t: Trace, disk: Disk, arriving: nat -> Content, i: nat)
    requires Setting(env, db, c, t, disk) && StartsGroup(t, i) && Overwritten(env, c, t, i)
    ensures |Actions(env, c, t, arriving)| > |t.local.moved| + i + 1
    ensures Actions(env, c, t, arriving)[|t.local.moved| + i + 1] == Write(t.Ops()[i].path, arriving(i + 1))
  {
    hide WellFormed, TraceOf, DistinctScan, PlainTexts, NamesAreFree, Actions, TakesEffect, MovesFile;
    ActionsAre(env, c, t, arriving, |t.local.moved| + i + 1);
    OneActionPerPath(env, db, c, t, i, i + 1);
  }

  /** Only the download behind the rename can hit the file of a conflict group. */
  lemma {:induction false} OneHit(env: Env, db: Db, c: Input, t: Trace, disk: Disk, arriving: nat -> Content,
                                  acts: seq<Action>, i: nat, m: nat)
    requires Setting(env, db, c, t, disk) && StartsGroup(t, i) && IsScannedFile(env, db, c, disk, t.Ops()[i].path)
    requires acts == Actions(env, c, t, arriving) && m < |acts| && |acts| == |t.local.moved| + |t.Ops()|
    ensures Hits(acts[m], Place(acts, m, t.Ops()[i].path)) <==>
            m == |t.local.moved| + i + 1 && IsLost(env, c, t, acts, i)
  {
    hide Setting, Actions, IsScannedFile, Overwritten, Place;
    if Hits(acts[m], Place(acts, m, t.Ops()[i].path)) {
      var j := HitIsOverwrite(env, db, c, t, disk, arriving, acts, t.Ops()[i].path, m);
      OneGroup(env, db, c, t, disk, i, j);
    }
    if Overwritten(env, c, t, i) {
      DownloadIs(env, db, c, t, disk, arriving, i);
    }
  }

  /**
   * At every moment of a cycle: the file of a conflict group is intact, at its path, at the
   * loser's name, or where a renamed directory took it, unless the download behind the rename has
   * taken place while the file was still at its path. Then what was downloaded is there.
   */
  lemma {:induction false} GroupOutcome(env: Env, db: Db, c: Input, t: Trace, disk: Disk, arriving: nat -> Content,
                                        acts: seq<Action>, n: nat, i: nat)
    requires Setting(env, db, c, t, disk) && StartsGroup(t, i) && IsScannedFile(env, db, c, disk, t.Ops()[i].path)
    requires acts == Actions(env, c, t, arriving) && |acts| == |t.local.moved| + |t.Ops()| && n <= |acts|
    ensures
      var p := t.Ops()[i].path;
      Run(disk, acts, n)(Place(acts, n, p))
      == if |t.local.moved| + i + 1 < n && IsLost(env, c, t, acts, i) then Some(arriving(i + 1)) else disk(p)
  {
    hide Setting, Actions, ScannedAt, Hits, Unrelated, ClearOf, NotDeleted, IsLost, Run, Place;
    var p, m := t.Ops()[i].path, |t.local.moved| + i + 1;
    CanFollow(env, db, c, t, disk, arriving, acts, p);
    if m < n && IsLost(env, c, t, acts, i) {
      AfterTheLoss(env, db, c, t, disk, arriving, acts, i);
      forall k: nat | m + 1 <= k < n ensures !Hits(acts[k], Place(acts, k, p)) {
        OneHit(env, db, c, t, disk, arriving, acts, i, k);
      }
      Follow(disk, acts, m + 1, n, p);
    } else {
      forall k: nat | k < n ensures !Hits(acts[k], Place(acts, k, p)) {
        OneHit(env, db, c, t, disk, arriving, acts, i, k);
      }
      FromTheStart(disk, acts, p);
      Follow(disk, acts, 0, n, p);
    }
  }

  lemma {:induction false} FromTheStart(disk: Disk, acts: seq<Action>, p: RelPath)
    ensures Run(disk, acts, 0) == disk && Place(acts, 0, p) == p
  {
  }

  lemma {:induction false} AfterTheLoss(env: Env, db: Db, c: Input, t: Trace, disk: Disk, arriving: nat -> Content,
                                        acts: seq<Action>, i: nat)
    requires Setting(env, db, c, t, disk) && StartsGroup(t, i)
    requires acts == Actions(env, c, t, arriving) && |acts| == |t.local.moved| + |t.Ops()| && IsLost(env, c, t, acts, i)
    ensures
      var p, m := t.Ops()[i].path, |t.local.moved| + i + 1;
      && m < |acts| && Place(acts, m + 1, p) == p && Run(disk, acts, m + 1)(p) == Some(arriving(i + 1))
  {
    hide Setting, Actions, Overwritten;
    DownloadIs(env, db, c, t, disk, arriving, i);
  }

  /**
   * When local content is lost: at every moment, the file of a conflict group is intact exactly if
   * its rename took place or left a copy, or a renamed directory had taken it along, or no attempt
   * of the download has replaced the file, or it brought the same content. Whether the two
   * operations count as successes does not matter.
   */
  lemma {:induction false} ContentSurvivesIff(env: Env, db: Db, c: Input, t: Trace, disk: Disk,
                                              arriving: nat -> Content, acts: seq<Action>, n: nat, i: nat)
    requires Setting(env, db, c, t, disk) && StartsGroup(t, i) && IsScannedFile(env, db, c, disk, t.Ops()[i].path)
    requires acts == Actions(env, c, t, arriving) && |acts| == |t.local.moved| + |t.Ops()| && n <= |acts|
    ensures
      var p, g := t.Ops()[i].path, |t.local.moved| + i;
      IsIntact(disk, acts, n, p)
      <==> (MovedAside(env, c, t, i) || Place(acts, g, p) != p || n <= g + 1 || !Overwritten(env, c, t, i)
            || Some(arriving(i + 1)) == disk(p))
  {
    hide Setting, Actions, ScannedAt, NotDeleted, Overwritten, MovedAside, Run, Place;
    GroupOutcome(env, db, c, t, disk, arriving, acts, n, i);
    if MovedAside(env, c, t, i) {
      MovedFileIsAway(env, db, c, t, disk, arriving, acts, i);
    } else {
      UnmovedStays(env, c, t, arriving, acts, i);
    }
  }

  lemma {:induction false} UnmovedStays(env: Env, c: Input, t: Trace, arriving: nat -> Content, acts: seq<Action>,
                                        i: nat)
    requires StartsGroup(t, i) && !MovedAside(env, c, t, i)
    requires acts == Actions(env, c, t, arriving) && |acts| == |t.local.moved| + |t.Ops()|
    ensures Place(acts, |t.local.moved| + i + 1, t.Ops()[i].path) == Place(acts, |t.local.moved| + i, t.Ops()[i].path)
  {
    hide Actions, MovesFile;
    ActionsAre(env, c, t, arriving, |t.local.moved| + i);
  }

  // ---------------------------------------------------------------- where the files are

  lemma ConflictPathIsDecided(env: Env, db: Db, c: Input, t: Trace, i: nat)
    requires WellFormed(env, c) && WellKeyed(db) && t == TraceOf(env, db, c) && Reaches(t) && i < |t.resolve.ops|
    ensures t.resolve.ops[i].path in Decided(t)
  {
    hide WellFormed, TraceOf, InGroup, Decided;
    KeptAre(env, db, c, t);
    assert t.resolve.ops[i] in t.resolve.ops;
    ConflictsAreDecided(env, db, c, t);
  }

  /** No file is renamed twice by its path. */
  lemma SourcesDiffer(env: Env, db: Db, c: Input, t: Trace, disk: Disk, arriving: nat -> Content, j: nat, k: nat)
    requires Setting(env, db, c, t, disk) && j < k < |Actions(env, c, t, arriving)|
    requires Actions(env, c, t, arriving)[j].Relocate? && Actions(env, c, t, arriving)[k].Relocate?
    ensures Actions(env, c, t, arriving)[j].from != Actions(env, c, t, arriving)[k].from
  {
    hide WellFormed, TraceOf, DistinctScan, PlainTexts, NamesAreFree, Actions, FromCase, FromConflict, ScannedAt,
         IsBeside, Decided, MoveTarget;
    var acts, m := Actions(env, c, t, arriving), |t.local.moved|;
    RelocationIs(env, db, c, t, disk, arriving, j);
    RelocationIs(env, db, c, t, disk, arriving, k);
    MovedAre(env, db, c, t);
    if m <= k {
      OpsSplit(t, k - m);
      ConflictPathIsDecided(env, db, c, t, k - m - |t.planned|);
      if m <= j && acts[j].from == acts[k].from {
        OneActionPerPath(env, db, c, t, j - m, k - m);
      }
    }
  }

  /** New names are not renamed. */
  lemma NewNamesStay(env: Env, db: Db, c: Input, t: Trace, disk: Disk, arriving: nat -> Content, j: nat, k: nat)
    requires Setting(env, db, c, t, disk) && j < |Actions(env, c, t, arriving)| && k < |Actions(env, c, t, arriving)|
    requires Actions(env, c, t, arriving)[j].Relocate? && Actions(env, c, t, arriving)[k].Relocate?
    ensures Actions(env, c, t, arriving)[j].to != Actions(env, c, t, arriving)[k].from
  {
    hide WellFormed, TraceOf, DistinctScan, PlainTexts, Actions, FromCase, FromConflict, IsBeside, Beneath, IsNewName;
    RelocationIs(env, db, c, t, disk, arriving, j);
    RelocationIs(env, db, c, t, disk, arriving, k);
  }

  /**
   * A loser of either kind, in directories that stay, is at its path until its rename and at its
   * new name from then on.
   */
  lemma {:induction false} LoserIsAt(env: Env, db: Db, c: Input, t: Trace, disk: Disk, arriving: nat -> Content,
                                     acts: seq<Action>, g: nat, n: nat)
    requires Setting(env, db, c, t, disk) && acts == Actions(env, c, t, arriving)
    requires g < |acts| && n <= |acts| && acts[g].Relocate?
    requires DirectoriesStay(acts, acts[g].from) && DirectoriesStay(acts, acts[g].to)
    ensures Place(acts, n, acts[g].from) == if n > g then acts[g].to else acts[g].from
  {
    hide Setting, Actions, DirectoriesStay, Place;
    forall k: nat | k < |acts| && acts[k].Relocate?
      ensures acts[k].from != acts[g].to && (k != g ==> acts[k].from != acts[g].from)
    {
      NewNamesStay(env, db, c, t, disk, arriving, g, k);
      if k < g {
        SourcesDiffer(env, db, c, t, disk, arriving, k, g);
      } else if g < k {
        SourcesDiffer(env, db, c, t, disk, arriving, g, k);
      }
    }
    PlaceOf(acts, g, n, acts[g].from);
  }
}
