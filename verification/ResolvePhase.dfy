/** Conflict decisions are taken out of the list, recorded, parked and turned into operations. */
module ResolvePhase {
  import opened Collections
  import opened Paths
  import opened Types
  import opened Store
  import opened DeltaPhase
  import opened DeltaEngine
  import opened LocalPhase
  import opened ConflictPhase
  import LoserNames

  function LoserFor(env: Env, p: RelPath, now: Timestamp): Option<RelPath>
  {
    LoserNames.BuildLoserPath(p, env.host, env.stampText(now), 0)
  }

  /** The local file gives way to the remote content. */
  function RenameLoser(c: ConflictRow, now: Timestamp): FileOp
  {
    FileOp(c.path, OpLocalRename, NO_META.(newPath := Some(c.loserPath), fromConflict := true), now)
  }

  function DownloadWinner(c: ConflictRow, now: Timestamp): FileOp
  {
    FileOp(c.path, OpDownload, NO_META.(remoteItemId := c.remote.remoteId), now)
  }

  /** The operations of a conflict that the remote side wins. */
  function RemoteWinnerOps(c: ConflictRow, now: Timestamp): seq<FileOp>
  {
    if c.remote.remoteId.None? then [RenameLoser(c, now)] else [RenameLoser(c, now), DownloadWinner(c, now)]
  }

  /** The operations added for a row: its group, or nothing. */
  function AddedFor(c: ConflictRow, now: Timestamp): seq<FileOp>
  {
    if c.winner.RemoteSide? then RemoteWinnerOps(c, now) else []
  }

  /** The conflict row for a decision at `p`, if the stored row has both sides. */
  function RowConflict(p: RelPath, e: FileEntry, loser: RelPath, now: Timestamp): ConflictRow
    requires e.local.Some? && e.remote.Some?
  {
    ConflictRow(p, LoserNames.PickWinner(e.local.value.mtime, e.remote.value.mtime), loser,
                e.local.value, e.remote.value, now)
  }

  predicate HasBothSides(entry: Option<FileEntry>)
  {
    entry.Some? && entry.value.local.Some? && entry.value.remote.Some?
  }

  function Parked(e: FileEntry, now: Timestamp): FileEntry
  {
    e.(state := PendingConflict, updatedAt := now)
  }

  // ---------------------------------------------------------------- the loop as a fold

  datatype ResolveAcc = ResolveAcc(
    db: Db,
    log: seq<Write>,
    kept: seq<Decision>,
    ops: seq<FileOp>,
    inserted: nat,
    dropped: nat,
    failed: bool)

  /** One conflict decision; `now` and `later` are the two clock readings made for it. */
  function Record(env: Env, acc: ResolveAcc, p: RelPath, now: Timestamp, later: Timestamp): ResolveAcc
  {
    var entry := Row(acc.db, p);
    if !HasBothSides(entry) then acc.(dropped := acc.dropped + 1)
    else
      match LoserFor(env, p, now)
      case None => acc.(failed := true)
      case Some(loser) =>
        var c := RowConflict(p, entry.value, loser, now);
        var w := PutEntry(Parked(entry.value, now));
        acc.(db := Apply(Apply(acc.db, AddConflict(c)), w),
             log := acc.log + [AddConflict(c), w],
             ops := acc.ops + AddedFor(c, later),
             inserted := acc.inserted + 1)
  }

  function ResolveStep(env: Env, acc: ResolveAcc, d: Decision, now: Timestamp, later: Timestamp): ResolveAcc
  {
    if acc.failed then acc
    else if !d.kind.IsConflict() then acc.(kept := acc.kept + [d])
    else Record(env, acc, d.path, now, later)
  }

  function Unresolved(db: Db): ResolveAcc
  {
    ResolveAcc(db, [], [], [], 0, 0, false)
  }

  function ResolveWalk(env: Env, db: Db, ds: seq<Decision>, clock: Clock, n: nat): ResolveAcc
    requires n <= |ds|
  {
    if n == 0 then Unresolved(db)
    else ResolveStep(env, ResolveWalk(env, db, ds, clock, n - 1), ds[n - 1], clock(2 * n - 2), clock(2 * n - 1))
  }

  lemma RecordIsGentle(env: Env, db: Db, acc: ResolveAcc, p: RelPath, now: Timestamp, later: Timestamp)
    requires Leads(db, acc.log, acc.db, Gentle)
    ensures
      var after := Record(env, acc, p, now, later);
      && Leads(db, after.log, after.db, Gentle) && acc.log <= after.log
      && |after.db.conflicts| - |acc.db.conflicts| == after.inserted - acc.inserted
  {
    hide LoserFor, RemoteWinnerOps;
    var entry := Row(acc.db, p);
    if HasBothSides(entry) && LoserFor(env, p, now).Some? {
      var c := RowConflict(p, entry.value, LoserFor(env, p, now).value, now);
      var w := PutEntry(Parked(entry.value, now));
      LeadsOn(db, acc.log, acc.db, AddConflict(c), Gentle);
      LeadsOn(db, acc.log + [AddConflict(c)], Apply(acc.db, AddConflict(c)), w, Gentle);
      assert acc.log + [AddConflict(c), w] == acc.log + [AddConflict(c)] + [w];
    }
  }

  lemma {:induction false} ResolveWalkIsGentle(env: Env, db: Db, ds: seq<Decision>, clock: Clock, m: nat, n: nat)
    requires m <= n <= |ds| && WellKeyed(db)
    ensures
      var a, b := ResolveWalk(env, db, ds, clock, m), ResolveWalk(env, db, ds, clock, n);
      && a.log <= b.log && (a.failed ==> b.failed)
      && Leads(db, b.log, b.db, Gentle)
      && |b.db.conflicts| == |db.conflicts| + b.inserted
    decreases n
  {
    hide Record, Leads;
    if n > 0 {
      ResolveWalkIsGentle(env, db, ds, clock, if m < n then m else n - 1, n - 1);
      var before := ResolveWalk(env, db, ds, clock, n - 1);
      RecordIsGentle(env, db, before, ds[n - 1].path, clock(2 * n - 2), clock(2 * n - 1));
      RecordNeverUnfails(env, before, ds[n - 1].path, clock(2 * n - 2), clock(2 * n - 1));
    } else {
      LeadsNowhere(db, Gentle);
    }
  }

  lemma RecordNeverUnfails(env: Env, acc: ResolveAcc, p: RelPath, now: Timestamp, later: Timestamp)
    ensures acc.failed ==> Record(env, acc, p, now, later).failed
  {
    hide LoserFor;
  }

  // ---------------------------------------------------------------- what the loop produces

  function AsKept(d: Decision): Option<Decision>
  {
    if d.kind.IsConflict() then None else Some(d)
  }

  /** The rename that must come right before a download of a conflict winner. */
  ghost predicate RenamesToLoser(env: Env, op: FileOp, p: RelPath)
  {
    && op.path == p && op.kind == OpLocalRename && op.meta.fromConflict
    && op.meta.newPath.Some? && op.meta.remoteItemId.None?
    && exists now :: LoserFor(env, p, now) == op.meta.newPath
  }

  /** The download of a conflict winner: it names its item, and settles its path. */
  predicate IsWinnerDownload(op: FileOp, p: RelPath)
  {
    op.path == p && op.kind == OpDownload && !op.meta.fromConflict && op.meta.remoteItemId.Some?
  }

  /**
   * Conflict operations come in groups: a rename of the loser, and right behind it, at most, the
   * download of the winner to the same path. All belong to conflict decisions of `ds`.
   */
  ghost predicate Grouped(env: Env, ds: seq<Decision>, ops: seq<FileOp>)
  {
    && (forall i :: 0 <= i < |ops| ==> InGroup(env, ops, i))
    && (forall op :: op in ops ==> exists d :: d in ds && d.kind.IsConflict() && d.path == op.path)
  }

  ghost predicate InGroup(env: Env, ops: seq<FileOp>, i: nat)
    requires i < |ops|
  {
    || RenamesToLoser(env, ops[i], ops[i].path)
    || (IsWinnerDownload(ops[i], ops[i].path) && i > 0 && RenamesToLoser(env, ops[i - 1], ops[i].path))
  }

  /** Two conflict operations at one path are a rename and the download right behind it. */
  ghost predicate PathsPaired(ops: seq<FileOp>)
  {
    forall i, j :: 0 <= i < j < |ops| && ops[i].path == ops[j].path ==>
      j == i + 1 && ops[i].kind == OpLocalRename && ops[j].kind == OpDownload
  }

  ghost predicate ResolveFacts(env: Env, ds: seq<Decision>, n: nat, acc: ResolveAcc)
    requires n <= |ds|
  {
    && Grouped(env, ds[..n], acc.ops)
    && (DistinctPaths(ds) ==> PathsPaired(acc.ops))
    && (!acc.failed ==> acc.kept == FilterMap(AsKept, ds[..n])
                        && Conflicts(ds[..n]) == acc.inserted + acc.dropped)
  }

  /** What one conflict decision adds to the operations. */
  lemma RecordAdds(env: Env, acc: ResolveAcc, p: RelPath, now: Timestamp, later: Timestamp) returns (added: seq<FileOp>)
    ensures Record(env, acc, p, now, later).ops == acc.ops + added
    ensures added == [] || (RenamesToLoser(env, added[0], p) && |added| <= 2)
    ensures |added| == 2 ==> IsWinnerDownload(added[1], p)
    ensures Record(env, acc, p, now, later).kept == acc.kept
    ensures !Record(env, acc, p, now, later).failed ==>
      Record(env, acc, p, now, later).inserted + Record(env, acc, p, now, later).dropped ==
          acc.inserted + acc.dropped + 1
  {
    hide LoserNames.BuildLoserPath, LoserNames.PickWinner;
    added := [];
    var entry := Row(acc.db, p);
    if HasBothSides(entry) {
      var l := LoserFor(env, p, now);
      if l.Some? {
        var c := RowConflict(p, entry.value, l.value, now);
        if c.winner.RemoteSide? {
          added := RemoteWinnerOps(c, later);
        }
      }
    }
  }

  lemma GroupsGrow(env: Env, ds: seq<Decision>, d: Decision, ops: seq<FileOp>, added: seq<FileOp>)
    requires Grouped(env, ds, ops) && d.kind.IsConflict()
    requires added == [] || (RenamesToLoser(env, added[0], d.path) && |added| <= 2)
    requires |added| == 2 ==> IsWinnerDownload(added[1], d.path)
    ensures Grouped(env, ds + [d], ops + added)
    ensures PathsPaired(ops) && (forall x :: x in ds ==> x.path != d.path) ==> PathsPaired(ops + added)
  {
    hide RenamesToLoser, PathsPaired;
    assert added != [] ==> added[0].path == d.path && added[0].kind == OpLocalRename by {
      RenameShape(env, added, d.path);
    }
    forall i | 0 <= i < |ops + added| ensures InGroup(env, ops + added, i) {
      if i < |ops| {
        assert InGroup(env, ops, i);
      }
    }
    forall op | op in ops + added ensures exists x :: x in ds + [d] && x.kind.IsConflict() && x.path == op.path {
      if op in ops {
        var x :| x in ds && x.kind.IsConflict() && x.path == op.path;
        assert x in ds + [d];
      } else {
        assert d in ds + [d];
      }
    }
    if PathsPaired(ops) && forall x :: x in ds ==> x.path != d.path {
      forall i | 0 <= i < |ops| ensures ops[i].path != d.path {
        assert ops[i] in ops;
      }
      PairsGrow(d.path, ops, added);
    }
  }

  lemma PairsGrow(p: RelPath, ops: seq<FileOp>, added: seq<FileOp>)
    requires PathsPaired(ops) && forall i :: 0 <= i < |ops| ==> ops[i].path != p
    requires |added| <= 2 && (added != [] ==> added[0].path == p && added[0].kind == OpLocalRename)
    requires |added| == 2 ==> IsWinnerDownload(added[1], p)
    ensures PathsPaired(ops + added)
  {
  }

  lemma RenameShape(env: Env, added: seq<FileOp>, p: RelPath)
    ensures added != [] && RenamesToLoser(env, added[0], p) ==> added[0].path == p && added[0].kind == OpLocalRename
  {
    hide LoserFor;
  }

  lemma GroupsStay(env: Env, ds: seq<Decision>, d: Decision, ops: seq<FileOp>)
    requires Grouped(env, ds, ops)
    ensures Grouped(env, ds + [d], ops)
  {
    hide RenamesToLoser, InGroup;
    forall op | op in ops ensures exists x :: x in ds + [d] && x.kind.IsConflict() && x.path == op.path {
      var x :| x in ds && x.kind.IsConflict() && x.path == op.path;
      assert x in ds + [d];
    }
  }

  lemma {:induction false} ResolveWalkFacts(env: Env, db: Db, ds: seq<Decision>, clock: Clock, n: nat)
    requires n <= |ds|
    ensures ResolveFacts(env, ds, n, ResolveWalk(env, db, ds, clock, n))
  {
    hide Record, Grouped, PathsPaired, DistinctPaths;
    if n > 0 {
      ResolveWalkFacts(env, db, ds, clock, n - 1);
      var before := ResolveWalk(env, db, ds, clock, n - 1);
      var d := ds[n - 1];
      assert ds[..n] == ds[..n - 1] + [d];
      FilterMapSnoc(AsKept, ds, n);
      FilterMapSnoc(AsConflict, ds, n);
      GroupsStay(env, ds[..n - 1], d, before.ops);
      if !before.failed && d.kind.IsConflict() {
        var added := RecordAdds(env, before, d.path, clock(2 * n - 2), clock(2 * n - 1));
        EarlierPathsDiffer(ds, n);
        GroupsGrow(env, ds[..n - 1], d, before.ops, added);
        RecordNeverUnfails(env, before, d.path, clock(2 * n - 2), clock(2 * n - 1));
      }
    } else {
      assert Grouped(env, [], []) && PathsPaired([]) by { NoGroups(env); }
      assert ds[..0] == [];
    }
  }

  lemma NoGroups(env: Env)
    ensures Grouped(env, [], []) && PathsPaired([])
  {
  }

  lemma EarlierPathsDiffer(ds: seq<Decision>, n: nat)
    requires 0 < n <= |ds|
    ensures DistinctPaths(ds) ==> forall x :: x in ds[..n - 1] ==> x.path != ds[n - 1].path
  {
  }

  /** A conflict decision for which the stored row lacks a side, or is missing. */
  function LacksASide(db: Db): Decision -> Option<Decision>
  {
    (d: Decision) => if d.kind.IsConflict() && !HasBothSides(Row(db, d.path)) then Some(d) else None
  }

  lemma RecordKeepsSides(env: Env, acc: ResolveAcc, p: RelPath, now: Timestamp, later: Timestamp, q: RelPath)
    requires WellKeyed(acc.db)
    ensures HasBothSides(Row(Record(env, acc, p, now, later).db, q)) == HasBothSides(Row(acc.db, q))
    ensures !Record(env, acc, p, now, later).failed ==>
      Record(env, acc, p, now, later).dropped == acc.dropped + if HasBothSides(Row(acc.db, p)) then 0 else 1
  {
    hide LoserFor, RemoteWinnerOps, LoserNames.PickWinner;
  }

  /** What is dropped are the conflict decisions whose row lacks a side. */
  lemma {:induction false} DroppedLackASide(env: Env, db: Db, ds: seq<Decision>, clock: Clock, n: nat)
    requires n <= |ds| && WellKeyed(db)
    ensures
      var acc := ResolveWalk(env, db, ds, clock, n);
      && (!acc.failed ==> acc.dropped == |FilterMap(LacksASide(db), ds[..n])|)
      && forall q :: HasBothSides(Row(acc.db, q)) == HasBothSides(Row(db, q))
  {
    hide Record, HasBothSides, Leads, Row;
    if n > 0 {
      DroppedLackASide(env, db, ds, clock, n - 1);
      ResolveWalkIsGentle(env, db, ds, clock, n - 1, n - 1);
      var before := ResolveWalk(env, db, ds, clock, n - 1);
      LeadsKeyed(db, before.log, before.db, Gentle);
      FilterMapSnoc(LacksASide(db), ds, n);
      forall q ensures HasBothSides(Row(Record(env, before, ds[n - 1].path, clock(2 * n - 2), clock(2 * n - 1)).db, q))
                       == HasBothSides(Row(before.db, q)) {
        RecordKeepsSides(env, before, ds[n - 1].path, clock(2 * n - 2), clock(2 * n - 1), q);
      }
      RecordKeepsSides(env, before, ds[n - 1].path, clock(2 * n - 2), clock(2 * n - 1), ds[n - 1].path);
      RecordNeverUnfails(env, before, ds[n - 1].path, clock(2 * n - 2), clock(2 * n - 1));
    }
  }

  /** One of the first `n` decisions is a conflict with both sides at hand and no valid name for the loser. */
  ghost predicate LacksAName(env: Env, db: Db, ds: seq<Decision>, clock: Clock, n: nat)
    requires n <= |ds|
  {
    exists i: nat ::
      && i < n && ds[i].kind.IsConflict() && HasBothSides(Row(db, ds[i].path))
      && !ValidRel(LoserNames.LoserText(ds[i].path, env.host, env.stampText(clock(2 * i)), 0))
  }

  lemma LacksANameGrows(env: Env, db: Db, ds: seq<Decision>, clock: Clock, n: nat)
    requires 0 < n <= |ds|
    ensures LacksAName(env, db, ds, clock, n) <==>
            || LacksAName(env, db, ds, clock, n - 1)
            || (&& ds[n - 1].kind.IsConflict() && HasBothSides(Row(db, ds[n - 1].path))
                && !ValidRel(LoserNames.LoserText(ds[n - 1].path, env.host, env.stampText(clock(2 * n - 2)), 0)))
  {
    hide HasBothSides, ValidRel, LoserNames.LoserText;
    assert 2 * n - 2 == 2 * (n - 1);
  }

  lemma StepFails(env: Env, acc: ResolveAcc, d: Decision, now: Timestamp, later: Timestamp)
    ensures ResolveStep(env, acc, d, now, later).failed <==>
            || acc.failed
            || (&& d.kind.IsConflict() && HasBothSides(Row(acc.db, d.path))
                && !ValidRel(LoserNames.LoserText(d.path, env.host, env.stampText(now), 0)))
  {
    hide ValidRel, LoserNames.LoserText, RemoteWinnerOps, LoserNames.PickWinner, HasBothSides;
  }

  /** Resolving fails exactly when there is such a conflict. */
  lemma {:induction false} ResolveFailsIff(env: Env, db: Db, ds: seq<Decision>, clock: Clock, n: nat)
    requires n <= |ds| && WellKeyed(db)
    ensures ResolveWalk(env, db, ds, clock, n).failed <==> LacksAName(env, db, ds, clock, n)
  {
    hide ResolveStep, LacksAName, HasBothSides, ValidRel, LoserNames.LoserText, Row;
    if n > 0 {
      ResolveFailsIff(env, db, ds, clock, n - 1);
      DroppedLackASide(env, db, ds, clock, n - 1);
      LacksANameGrows(env, db, ds, clock, n);
      StepFails(env, ResolveWalk(env, db, ds, clock, n - 1), ds[n - 1], clock(2 * n - 2), clock(2 * n - 1));
    } else {
      assert !LacksAName(env, db, ds, clock, 0) by { NoneLacksAName(env, db, ds, clock); }
    }
  }

  lemma NoneLacksAName(env: Env, db: Db, ds: seq<Decision>, clock: Clock)
    ensures !LacksAName(env, db, ds, clock, 0)
  {
    hide HasBothSides, ValidRel, LoserNames.LoserText;
  }

  // ---------------------------------------------------------------- rows and operations

  ghost predicate ConflictAt(ds: seq<Decision>, p: RelPath)
  {
    exists d :: d in ds && d.kind.IsConflict() && d.path == p
  }

  /**
   * The row shows both stored sides of the path of a conflict decision. The local side wins if it
   * is newer by 1001 milliseconds.
   */
  ghost predicate IsFaithful(env: Env, db: Db, ds: seq<Decision>, c: ConflictRow)
  {
    && ConflictAt(ds, c.path) && HasBothSides(Row(db, c.path))
    && Row(db, c.path).value.local == Some(c.local) && Row(db, c.path).value.remote == Some(c.remote)
    && (c.winner.LocalSide? <==> c.local.mtime - c.remote.mtime >= 1_001_000_000)
    && LoserFor(env, c.path, c.detectedAt) == Some(c.loserPath)
  }

  /** Operation `i` is the rename for `c`, and the download follows it if the remote item is known. */
  ghost predicate IsGroupOf(ops: seq<FileOp>, i: nat, c: ConflictRow)
  {
    && i < |ops| && c.winner.RemoteSide?
    && ops[i].path == c.path && ops[i].kind == OpLocalRename && ops[i].meta.newPath == Some(c.loserPath)
    && (c.remote.remoteId.Some? ==>
          && i + 1 < |ops| && ops[i + 1].path == c.path && ops[i + 1].kind == OpDownload
          && ops[i + 1].meta.remoteItemId == c.remote.remoteId)
  }

  /** Each row that the remote side wins has its operations, and each rename has its row. */
  ghost predicate OpsFollowRows(rows: seq<ConflictRow>, ops: seq<FileOp>)
  {
    && (forall c :: c in rows && c.winner.RemoteSide? ==> exists i: nat :: IsGroupOf(ops, i, c))
    && (forall i: nat :: i < |ops| && ops[i].kind == OpLocalRename ==> exists c :: c in rows && IsGroupOf(ops, i, c))
  }

  /** What the first decisions leave behind, apart from the operations and rows themselves. */
  ghost predicate Leaves(ds: seq<Decision>, db: Db, acc: ResolveAcc)
  {
    && (forall q :: SameSides(Row(db, q), Row(acc.db, q)))
    && (forall q :: !ConflictAt(ds, q) ==> Row(acc.db, q) == Row(db, q))
    && (!acc.failed ==> forall q :: ConflictAt(ds, q) && HasBothSides(Row(db, q)) ==> IsParked(acc.db, q))
  }

  predicate HasRow(rows: seq<ConflictRow>, q: RelPath)
  {
    exists c :: c in rows && c.path == q
  }

  /** No conflict decision with both sides at hand goes unrecorded. */
  ghost predicate AllRecorded(ds: seq<Decision>, db: Db, acc: ResolveAcc)
    requires |db.conflicts| <= |acc.db.conflicts|
  {
    !acc.failed ==> forall q :: ConflictAt(ds, q) && HasBothSides(Row(db, q)) ==>
        HasRow(acc.db.conflicts[|db.conflicts|..], q)
  }

  ghost predicate Recorded(env: Env, db: Db, ds: seq<Decision>, acc: ResolveAcc)
  {
    && db.conflicts <= acc.db.conflicts
    && (forall c :: c in acc.db.conflicts[|db.conflicts|..] ==> IsFaithful(env, db, ds, c))
    && OpsFollowRows(acc.db.conflicts[|db.conflicts|..], acc.ops)
    && AllRecorded(ds, db, acc) && Leaves(ds, db, acc)
  }

  lemma ConflictAtGrows(ds: seq<Decision>, d: Decision, q: RelPath)
    ensures ConflictAt(ds + [d], q) <==> ConflictAt(ds, q) || (d.kind.IsConflict() && d.path == q)
  {
    assert d in ds + [d];
    if ConflictAt(ds, q) {
      var x :| x in ds && x.kind.IsConflict() && x.path == q;
      assert x in ds + [d];
    }
  }

  lemma GroupStays(ops: seq<FileOp>, added: seq<FileOp>, i: nat, c: ConflictRow)
    requires IsGroupOf(ops, i, c)
    ensures IsGroupOf(ops + added, i, c)
  {
  }

  lemma GroupIsAdded(ops: seq<FileOp>, c: ConflictRow, now: Timestamp, i: nat)
    requires |ops| <= i
    ensures c.winner.RemoteSide? ==> IsGroupOf(ops + AddedFor(c, now), |ops|, c)
    ensures i < |ops + AddedFor(c, now)| && (ops + AddedFor(c, now))[i].kind == OpLocalRename ==>
      i == |ops| && c.winner.RemoteSide?
  {
  }

  lemma OpsFollowOne(rows: seq<ConflictRow>, ops: seq<FileOp>, c: ConflictRow, now: Timestamp)
    requires OpsFollowRows(rows, ops)
    ensures OpsFollowRows(rows + [c], ops + AddedFor(c, now))
  {
    hide IsGroupOf, AddedFor;
    var added := AddedFor(c, now);
    var all := ops + added;
    GroupIsAdded(ops, c, now, |ops|);
    forall x | x in rows + [c] && x.winner.RemoteSide? ensures exists i: nat :: IsGroupOf(all, i, x) {
      if x in rows {
        var i: nat :| IsGroupOf(ops, i, x);
        GroupStays(ops, added, i, x);
      }
    }
    forall i: nat | i < |all| && all[i].kind == OpLocalRename
      ensures exists x :: x in rows + [c] && IsGroupOf(all, i, x)
    {
      if i < |ops| {
        var x :| x in rows && IsGroupOf(ops, i, x);
        GroupStays(ops, added, i, x);
        assert x in rows + [c];
      } else {
        GroupIsAdded(ops, c, now, i);
        assert c in rows + [c];
      }
    }
  }

  lemma LeavesMore(env: Env, db: Db, ds: seq<Decision>, acc: ResolveAcc, d: Decision, now: Timestamp, later: Timestamp)
    requires Leaves(ds, db, acc) && WellKeyed(acc.db)
    ensures Leaves(ds + [d], db, ResolveStep(env, acc, d, now, later))
  {
    hide Record, ConflictAt, HasBothSides;
    forall q ensures ConflictAt(ds + [d], q) <==> ConflictAt(ds, q) || (d.kind.IsConflict() && d.path == q) {
      ConflictAtGrows(ds, d, q);
    }
    RecordRows(env, acc, d.path, now, later);
    forall q ensures SameSides(Row(db, q), Row(acc.db, q)) ==> HasBothSides(Row(db, q)) == HasBothSides(Row(acc.db, q)) {
      SameSidesBoth(Row(db, q), Row(acc.db, q));
    }
    RecordNeverUnfails(env, acc, d.path, now, later);
  }

  lemma SameSidesBoth(a: Option<FileEntry>, b: Option<FileEntry>)
    requires SameSides(a, b)
    ensures HasBothSides(a) == HasBothSides(b)
  {
  }

  /** Recording a conflict parks its path, if the row has both sides, and changes no other row. */
  lemma RecordRows(env: Env, acc: ResolveAcc, p: RelPath, now: Timestamp, later: Timestamp)
    requires WellKeyed(acc.db)
    ensures
      var after := Record(env, acc, p, now, later);
      && (forall q :: q != p || !HasBothSides(Row(acc.db, q)) ==> Row(after.db, q) == Row(acc.db, q))
      && SameSides(Row(acc.db, p), Row(after.db, p))
      && (Row(after.db, p) == Row(acc.db, p) || IsParked(after.db, p))
      && (!after.failed && HasBothSides(Row(acc.db, p)) ==> IsParked(after.db, p))
  {
    hide LoserFor, AddedFor, LoserNames.PickWinner;
  }

  lemma HasRowGrows(rows: seq<ConflictRow>, c: ConflictRow, q: RelPath)
    ensures HasRow(rows + [c], q) <==> HasRow(rows, q) || c.path == q
  {
    assert c in rows + [c];
    if HasRow(rows, q) {
      var x :| x in rows && x.path == q;
      assert x in rows + [c];
    }
  }

  lemma RecordsMore(env: Env, db: Db, ds: seq<Decision>, acc: ResolveAcc, d: Decision, now: Timestamp, later: Timestamp)
    requires Recorded(env, db, ds, acc) && WellKeyed(acc.db)
    ensures Recorded(env, db, ds + [d], ResolveStep(env, acc, d, now, later))
  {
    hide LoserFor, RemoteWinnerOps, AddedFor, ConflictAt, OpsFollowRows, Leaves, HasRow, LoserNames.PickWinner;
    LeavesMore(env, db, ds, acc, d, now, later);
    var after, n := ResolveStep(env, acc, d, now, later), |db.conflicts|;
    forall q ensures ConflictAt(ds + [d], q) <==> ConflictAt(ds, q) || (d.kind.IsConflict() && d.path == q) {
      ConflictAtGrows(ds, d, q);
    }
    if after.db.conflicts != acc.db.conflicts {
      var entry, loser := Row(acc.db, d.path), LoserFor(env, d.path, now);
      var c := RowConflict(d.path, entry.value, loser.value, now);
      assert after.db.conflicts == acc.db.conflicts + [c];
      assert after.db.conflicts[n..] == acc.db.conflicts[n..] + [c];
      OpsFollowOne(acc.db.conflicts[n..], acc.ops, c, later);
      LoserNames.LocalWinsIff(c.local.mtime, c.remote.mtime);
      assert SameSides(Row(db, d.path), entry) by { SidesStay(ds, db, acc, d.path); }
      forall q ensures HasRow(after.db.conflicts[n..], q) <==> HasRow(acc.db.conflicts[n..], q) || d.path == q {
        HasRowGrows(acc.db.conflicts[n..], c, q);
      }
    } else {
      NothingRecorded(env, acc, d, now, later);
      assert SameSides(Row(db, d.path), Row(acc.db, d.path)) by { SidesStay(ds, db, acc, d.path); }
    }
  }

  lemma SidesStay(ds: seq<Decision>, db: Db, acc: ResolveAcc, q: RelPath)
    requires Leaves(ds, db, acc)
    ensures SameSides(Row(db, q), Row(acc.db, q))
  {
    hide ConflictAt, SameSides;
  }

  lemma NothingRecorded(env: Env, acc: ResolveAcc, d: Decision, now: Timestamp, later: Timestamp)
    requires ResolveStep(env, acc, d, now, later).db.conflicts == acc.db.conflicts
    ensures ResolveStep(env, acc, d, now, later).ops == acc.ops
    ensures !ResolveStep(env, acc, d, now, later).failed ==>
      !acc.failed && !(d.kind.IsConflict() && HasBothSides(Row(acc.db, d.path)))
  {
    hide LoserFor, RemoteWinnerOps;
  }

  /** Conflict rows, operations and parked paths correspond. */
  lemma {:induction false} ResolveRecords(env: Env, db: Db, ds: seq<Decision>, clock: Clock, n: nat)
    requires n <= |ds| && WellKeyed(db)
    ensures Recorded(env, db, ds[..n], ResolveWalk(env, db, ds, clock, n))
  {
    hide Recorded, ResolveStep, Leads;
    if n > 0 {
      ResolveRecords(env, db, ds, clock, n - 1);
      ResolveWalkIsGentle(env, db, ds, clock, n - 1, n - 1);
      var before := ResolveWalk(env, db, ds, clock, n - 1);
      LeadsKeyed(db, before.log, before.db, Gentle);
      assert ds[..n] == ds[..n - 1] + [ds[n - 1]];
      RecordsMore(env, db, ds[..n - 1], before, ds[n - 1], clock(2 * n - 2), clock(2 * n - 1));
    } else {
      NothingYet(env, db);
      assert ds[..0] == [];
    }
  }

  lemma NothingYet(env: Env, db: Db)
    ensures Recorded(env, db, [], Unresolved(db))
  {
  }

  // ---------------------------------------------------------------- the phase

  ghost predicate ResolveHolds(store: StateStore, log0: seq<Write>, kept: seq<Decision>, ops: seq<FileOp>,
                               acc: ResolveAcc)
    reads store
  {
    store.Value() == acc.db && store.log == log0 + acc.log && kept == acc.kept && ops == acc.ops && !acc.failed
  }

  /** Records one content conflict. */
  method RecordContentConflict(env: Env, store: StateStore, p: RelPath, now: Timestamp, later: Timestamp,
                               ops: seq<FileOp>,
                               ghost log0: seq<Write>, ghost acc: ResolveAcc)
    returns (ok: bool, ops': seq<FileOp>)
    requires store.Valid() && ResolveHolds(store, log0, acc.kept, ops, acc)
    modifies store
    ensures store.Valid()
    ensures ok ==> ResolveHolds(store, log0, acc.kept, ops', Record(env, acc, p, now, later))
    ensures old(store.log) <= store.log <= log0 + Record(env, acc, p, now, later).log
    ensures ok ==> store.failures == old(store.failures)
    ensures !ok ==> store.failures > old(store.failures) || Record(env, acc, p, now, later).failed
    ensures store.failures >= old(store.failures)
  {
    hide LoserFor, LoserNames.PickWinner;
    ops' := ops;
    var entry;
    ok, entry := store.FileEntryGet(p);
    if !ok || !HasBothSides(entry) {
      return;
    }
    var loser := LoserFor(env, p, now);
    if loser.None? {
      return false, ops;
    }
    var c := RowConflict(p, entry.value, loser.value, now);
    ghost var w := PutEntry(Parked(entry.value, now));
    assert log0 + (acc.log + [AddConflict(c), w]) == (log0 + acc.log) + [AddConflict(c)] + [w];
    ok := store.ConflictInsert(c);
    if !ok {
      return;
    }
    ok := store.FileEntryUpsert(entry.value.(state := PendingConflict, updatedAt := now));
    if ok && c.winner.RemoteSide? {
      ops' := PushRemoteWinnerOps(c, later, ops);
    }
  }

  method PushRemoteWinnerOps(c: ConflictRow, now: Timestamp, ops: seq<FileOp>) returns (ops': seq<FileOp>)
    ensures ops' == ops + RemoteWinnerOps(c, now)
  {
    ops' := ops + [RenameLoser(c, now)];
    if c.remote.remoteId.None? {
      return;
    }
    ops' := ops' + [DownloadWinner(c, now)];
  }

  /** Drains the conflict decisions in place; any failing port call ends the phase. */
  method PhaseResolveConflicts(env: Env, store: StateStore, decisions: seq<Decision>, clock: Clock)
    returns (r: Result<(seq<Decision>, seq<FileOp>), EngineError>)
    requires store.Valid()
    modifies store
    ensures store.Valid()
    ensures
      var acc := ResolveWalk(env, old(store.Value()), decisions, clock, |decisions|);
      && old(store.log) <= store.log <= old(store.log) + acc.log
      && (r.Ok? ==> ResolveHolds(store, old(store.log), r.value.0, r.value.1, acc))
      && (r.Ok? ==> store.failures == old(store.failures))
      && (r.Err? ==> store.failures > old(store.failures) || acc.failed)
    ensures store.failures >= old(store.failures)
  {
    hide Leads, Record, ResolveWalk;
    WalkStart(env, store.Value(), decisions, clock);
    ghost var db, log0 := store.Value(), store.log;
    var ds: seq<Decision>, ops: seq<FileOp>, i := decisions, [], 0;
    var done: nat := 0;  // decisions looked at, which number the clock readings
    ghost var kept: seq<Decision> := [];
    while i < |ds|
      invariant done <= |decisions| && i == |kept| && ds == kept + decisions[done..] && store.Valid()
      invariant ResolveHolds(store, log0, kept, ops, ResolveWalk(env, db, decisions, clock, done))
      invariant store.failures == old(store.failures)
      decreases |decisions| - done
    {
      SplitNext(kept, decisions, done);
      ghost var acc := ResolveWalk(env, db, decisions, clock, done);
      WalkNext(env, db, decisions, clock, done);
      if !ds[i].kind.IsConflict() {
        kept := kept + [ds[i]];
        i := i + 1;
      } else {
        var p := ds[i].path;
        ds := ds[..i] + ds[i + 1..];
        var ok;
        ok, ops := RecordContentConflict(env, store, p, clock(2 * done), clock(2 * done + 1), ops, log0, acc);
        if !ok {
          return Err(Port);
        }
      }
      done := done + 1;
    }
    assert ds == kept;
    return Ok((ds, ops));
  }

  lemma {:induction false} WalkStart(env: Env, db: Db, ds: seq<Decision>, clock: Clock)
    ensures ResolveWalk(env, db, ds, clock, 0) == Unresolved(db)
  {
  }

  lemma WalkNext(env: Env, db: Db, ds: seq<Decision>, clock: Clock, n: nat)
    requires n < |ds| && WellKeyed(db)
    ensures
      var a, b := ResolveWalk(env, db, ds, clock, n), ResolveWalk(env, db, ds, clock, n + 1);
      && b == ResolveStep(env, a, ds[n], clock(2 * n), clock(2 * n + 1))
      && a.log <= b.log <= ResolveWalk(env, db, ds, clock, |ds|).log
      && (b.failed ==> ResolveWalk(env, db, ds, clock, |ds|).failed)
  {
    hide Record, ResolveStep, Leads;
    assert 2 * (n + 1) - 2 == 2 * n && 2 * (n + 1) - 1 == 2 * n + 1;
    ResolveWalkIsGentle(env, db, ds, clock, n, n + 1);
    ResolveWalkIsGentle(env, db, ds, clock, n + 1, |ds|);
  }

  lemma SplitNext(kept: seq<Decision>, all: seq<Decision>, n: nat)
    requires n < |all|
    ensures (kept + all[n..])[|kept|] == all[n]
    ensures kept + all[n..] == kept + [all[n]] + all[n + 1..]
    ensures (kept + all[n..])[..|kept|] + (kept + all[n..])[|kept| + 1..] == kept + all[n + 1..]
  {
  }
}
