/**
 * Conflicts: downloads onto scanned files are promoted to conflicts, and every conflict decision is
 * taken out of the list, recorded, parked and, if the remote side wins, turned into a pair of
 * operations.
 */
module ConflictPhase {
  import opened Collections
  import opened Paths
  import opened Types
  import opened Store
  import opened DeltaPhase
  import opened DeltaEngine
  import opened LocalPhase

  // ---------------------------------------------------------------- promotion of downloads

  /** The first download decision at `p`. */
  function FirstDownload(ds: seq<Decision>, p: RelPath): (r: Option<nat>)
    ensures r.Some? ==> r.value < |ds| && ds[r.value] == Decision(p, Download)
    ensures r.None? ==> Decision(p, Download) !in ds
  {
    if ds == [] then None
    else if ds[0] == Decision(p, Download) then Some(0)
    else
      match FirstDownload(ds[1..], p)
      case None => None
      case Some(i) => Some(i + 1)
  }

  function Promote(ds: seq<Decision>, p: RelPath): seq<Decision>
  {
    match FirstDownload(ds, p)
    case None => ds
    case Some(i) => ds[i := Decision(p, ConflictDetected)]
  }

  datatype OverlapAcc = OverlapAcc(db: Db, log: seq<Write>, decisions: seq<Decision>, upgraded: nat)

  function WithLocal(entry: Option<FileEntry>, side: FileSide, now: Timestamp): Option<FileEntry>
  {
    match entry
    case None => None
    case Some(e) => Some(e.(local := Some(side), updatedAt := now))
  }

  function OverlapStep(acc: OverlapAcc, o: Overlap, now: Timestamp): OverlapAcc
  {
    var row := WithLocal(Row(acc.db, o.path), o.side, now);
    OverlapAcc(Put(acc.db, row), acc.log + Writes(row), Promote(acc.decisions, o.path),
               acc.upgraded + if FirstDownload(acc.decisions, o.path).Some? then 1 else 0)
  }

  function OverlapWalk(db: Db, ds: seq<Decision>, overlaps: seq<Overlap>, clock: Clock, n: nat): OverlapAcc
    requires n <= |overlaps|
  {
    if n == 0 then OverlapAcc(db, [], ds, 0)
    else OverlapStep(OverlapWalk(db, ds, overlaps, clock, n - 1), overlaps[n - 1], clock(n - 1))
  }

  lemma OverlapStepIsGentle(db: Db, acc: OverlapAcc, o: Overlap, now: Timestamp)
    requires Leads(db, acc.log, acc.db, Gentle)
    ensures
      var after := OverlapStep(acc, o, now);
      Leads(db, after.log, after.db, Gentle) && acc.log <= after.log && after.db.conflicts == acc.db.conflicts
  {
    hide Promote, FirstDownload;
    var row := WithLocal(Row(acc.db, o.path), o.side, now);
    if row.Some? {
      LeadsOn(db, acc.log, acc.db, PutEntry(row.value), Gentle);
    } else {
      assert acc.log + [] == acc.log;
    }
  }

  lemma {:induction false} OverlapWalkIsGentle(db: Db, ds: seq<Decision>, overlaps: seq<Overlap>, clock: Clock,
                                               m: nat, n: nat)
    requires m <= n <= |overlaps| && WellKeyed(db)
    ensures
      var a, b := OverlapWalk(db, ds, overlaps, clock, m), OverlapWalk(db, ds, overlaps, clock, n);
      a.log <= b.log && Leads(db, b.log, b.db, Gentle) && b.db.conflicts == db.conflicts
    decreases n
  {
    hide OverlapStep, Leads;
    if n > 0 {
      OverlapWalkIsGentle(db, ds, overlaps, clock, if m < n then m else n - 1, n - 1);
      OverlapStepIsGentle(db, OverlapWalk(db, ds, overlaps, clock, n - 1), overlaps[n - 1], clock(n - 1));
    } else {
      LeadsNowhere(db, Gentle);
    }
  }

  /** `after` is `before` with some downloads turned into conflicts. */
  ghost predicate Promoted(before: seq<Decision>, after: seq<Decision>)
  {
    && |after| == |before|
    && forall i :: 0 <= i < |before| ==>
         after[i] == before[i] || (before[i].kind == Download && after[i] == Decision(before[i].path, ConflictDetected))
  }

  /** Number of conflict decisions. */
  function Conflicts(ds: seq<Decision>): nat
  {
    |FilterMap(AsConflict, ds)|
  }

  lemma {:induction false} PromoteCounts(ds: seq<Decision>, p: RelPath)
    ensures Conflicts(Promote(ds, p)) == Conflicts(ds) + if FirstDownload(ds, p).Some? then 1 else 0
  {
    var k := FirstDownload(ds, p);
    if k.Some? {
      var i := k.value;
      assert ds == ds[..i] + [ds[i]] + ds[i + 1..];
      assert Promote(ds, p) == ds[..i] + [Decision(p, ConflictDetected)] + ds[i + 1..];
      FilterMapInsert(AsConflict, ds[..i], ds[i], ds[i + 1..]);
      FilterMapInsert(AsConflict, ds[..i], Decision(p, ConflictDetected), ds[i + 1..]);
      SizesFollow(FilterMap(AsConflict, ds), FilterMap(AsConflict, ds[..i] + ds[i + 1..]), multiset{});
      SizesFollow(FilterMap(AsConflict, Promote(ds, p)), FilterMap(AsConflict, ds[..i] + ds[i + 1..]),
                  multiset{Decision(p, ConflictDetected)});
    }
  }

  lemma SizesFollow<T>(a: seq<T>, b: seq<T>, m: multiset<T>)
    requires multiset(a) == multiset(b) + m
    ensures |a| == |b| + |m|
  {
    assert |multiset(a)| == |a| && |multiset(b)| == |b|;
  }

  /** After promotion no download is left at an overlapping path, if no path had two. */
  ghost predicate NoDownloadAt(ds: seq<Decision>, p: RelPath)
  {
    Decision(p, Download) !in ds
  }

  /** No path has two download decisions. */
  ghost predicate DistinctDownloads(ds: seq<Decision>)
  {
    forall i, j :: 0 <= i < j < |ds| && ds[i].kind == Download && ds[j].kind == Download ==> ds[i].path != ds[j].path
  }

  lemma PromoteRemovesDownload(ds: seq<Decision>, p: RelPath, q: RelPath)
    requires DistinctDownloads(ds)
    ensures DistinctDownloads(Promote(ds, p)) && Promoted(ds, Promote(ds, p))
    ensures NoDownloadAt(Promote(ds, p), p)
    ensures NoDownloadAt(ds, q) ==> NoDownloadAt(Promote(ds, p), q)
  {
    var after := Promote(ds, p);
    forall i | 0 <= i < |after| ensures after[i] != Decision(p, Download) {
      match FirstDownload(ds, p)
      case None => assert ds[i] in ds;
      case Some(k) => assert i != k && ds[i].kind == Download ==> ds[i].path != ds[k].path;
    }
  }

  lemma {:induction false} OverlapWalkFacts(db: Db, ds: seq<Decision>, overlaps: seq<Overlap>, clock: Clock, n: nat)
    requires n <= |overlaps| && DistinctDownloads(ds)
    ensures
      var acc := OverlapWalk(db, ds, overlaps, clock, n);
      && Promoted(ds, acc.decisions) && DistinctDownloads(acc.decisions)
      && Conflicts(acc.decisions) == Conflicts(ds) + acc.upgraded
      && forall k :: 0 <= k < n ==> NoDownloadAt(acc.decisions, overlaps[k].path)
  {
    hide Conflicts, Promote, FirstDownload, NoDownloadAt, DistinctDownloads;
    if n > 0 {
      OverlapWalkFacts(db, ds, overlaps, clock, n - 1);
      var before := OverlapWalk(db, ds, overlaps, clock, n - 1);
      var p := overlaps[n - 1].path;
      PromoteCounts(before.decisions, p);
      forall k | 0 <= k < n ensures NoDownloadAt(Promote(before.decisions, p), overlaps[k].path) {
        PromoteRemovesDownload(before.decisions, p, overlaps[k].path);
      }
      PromoteRemovesDownload(before.decisions, p, p);
    }
  }

  /** The side of the last of the first `n` overlaps at `q`. */
  function LastAt(overlaps: seq<Overlap>, n: nat, q: RelPath): Option<FileSide>
    requires n <= |overlaps|
  {
    if n == 0 then None
    else if overlaps[n - 1].path == q then Some(overlaps[n - 1].side)
    else LastAt(overlaps, n - 1, q)
  }

  /** The same row, but for a scanned local side that was attached to it. */
  predicate SameButLocal(a: Option<FileEntry>, b: Option<FileEntry>, side: Option<FileSide>)
  {
    match (a, b)
    case (None, None) => true
    case (Some(x), Some(y)) => y == x.(local := if side.Some? then side else x.local, updatedAt := y.updatedAt)
    case _ => false
  }

  lemma AttachStep(before: Db, now: Db, o: Overlap, at: Timestamp, q: RelPath, last: Option<FileSide>)
    requires WellKeyed(now) && SameButLocal(Row(before, q), Row(now, q), last)
    ensures SameButLocal(Row(before, q), Row(Put(now, WithLocal(Row(now, o.path), o.side, at)), q),
                         if o.path == q then Some(o.side) else last)
  {
  }

  /** The rows that one overlap leaves are those with its side attached. */
  lemma StepAttaches(acc: OverlapAcc, o: Overlap, now: Timestamp)
    ensures OverlapStep(acc, o, now).db == Put(acc.db, WithLocal(Row(acc.db, o.path), o.side, now))
  {
    hide Promote, FirstDownload, WithLocal, Put;
  }

  lemma {:induction false} OverlapWalkIsKeyed(db: Db, ds: seq<Decision>, overlaps: seq<Overlap>, clock: Clock, n: nat)
    requires n <= |overlaps| && WellKeyed(db)
    ensures WellKeyed(OverlapWalk(db, ds, overlaps, clock, n).db)
  {
    OverlapWalkIsGentle(db, ds, overlaps, clock, n, n);
  }

  /** Tracked rows get the local side that the scan saw, and nothing else changes. */
  lemma {:induction false} OverlapWalkAttaches(db: Db, ds: seq<Decision>, overlaps: seq<Overlap>, clock: Clock,
                                               n: nat, q: RelPath)
    requires n <= |overlaps| && WellKeyed(db)
    ensures SameButLocal(Row(db, q), Row(OverlapWalk(db, ds, overlaps, clock, n).db, q), LastAt(overlaps, n, q))
  {
    hide SameButLocal, OverlapStep, Row, WithLocal, Put, WellKeyed;
    if n > 0 {
      OverlapWalkAttaches(db, ds, overlaps, clock, n - 1, q);
      OverlapWalkIsKeyed(db, ds, overlaps, clock, n - 1);
      var before := OverlapWalk(db, ds, overlaps, clock, n - 1);
      StepAttaches(before, overlaps[n - 1], clock(n - 1));
      AttachStep(db, before.db, overlaps[n - 1], clock(n - 1), q, LastAt(overlaps, n - 1, q));
    } else {
      SameAsItself(Row(db, q));
    }
  }

  lemma SameAsItself(a: Option<FileEntry>)
    ensures SameButLocal(a, a, None)
  {
  }

  /** The local decisions and the store hold the accumulator `acc`. */
  ghost predicate OverlapHolds(store: StateStore, log0: seq<Write>, ds: seq<Decision>, upgraded: nat, acc: OverlapAcc)
    reads store
  {
    store.Value() == acc.db && store.log == log0 + acc.log && ds == acc.decisions && upgraded == acc.upgraded
  }

  /** One overlap by its parts. */
  lemma StepIs(acc: OverlapAcc, o: Overlap, now: Timestamp)
    ensures
      var hit, entry, after := FirstDownload(acc.decisions, o.path), Row(acc.db, o.path), OverlapStep(acc, o, now);
      && after.decisions
         == (if hit.Some? then acc.decisions[hit.value := Decision(o.path, ConflictDetected)] else acc.decisions)
      && after.upgraded == acc.upgraded + (if hit.Some? then 1 else 0)
      && (entry.None? ==> after.db == acc.db && after.log == acc.log)
      && (entry.Some? ==>
            var w := PutEntry(entry.value.(local := Some(o.side), updatedAt := now));
            after.db == Apply(acc.db, w) && after.log == acc.log + [w])
  {
    hide FirstDownload;
    assert acc.log + [] == acc.log;
  }

  /** Promotes the download at one overlapping path and attaches the local side to its row. */
  method AttachOverlap(store: StateStore, o: Overlap, now: Timestamp, decisions: seq<Decision>, upgraded: nat,
                       ghost log0: seq<Write>, ghost acc: OverlapAcc)
    returns (ok: bool, decisions': seq<Decision>, upgraded': nat)
    requires store.Valid() && OverlapHolds(store, log0, decisions, upgraded, acc)
    modifies store
    ensures store.Valid()
    ensures ok ==> OverlapHolds(store, log0, decisions', upgraded', OverlapStep(acc, o, now))
    ensures !ok ==> store.log == old(store.log)
    ensures store.failures == old(store.failures) + if ok then 0 else 1
  {
    hide FirstDownload, OverlapStep, Promote, Row, Replay, WellKeyed;
    StepIs(acc, o, now);
    decisions', upgraded' := decisions, upgraded;
    var hit := FirstDownload(decisions, o.path);
    if hit.Some? {
      decisions' := decisions[hit.value := Decision(o.path, ConflictDetected)];
      upgraded' := upgraded + 1;
    }
    var entry;
    ok, entry := store.FileEntryGet(o.path);
    if ok && entry.Some? {
      ok := store.FileEntryUpsert(entry.value.(local := Some(o.side), updatedAt := now));
    }
  }

  /** Promotes and attaches the local sides; any failing port call ends the phase. */
  method ApplyInitialSyncCollisions(store: StateStore, decisions: seq<Decision>, overlaps: seq<Overlap>, clock: Clock)
    returns (r: Result<(seq<Decision>, nat), EngineError>)
    requires store.Valid()
    modifies store
    ensures store.Valid()
    ensures
      var acc := OverlapWalk(old(store.Value()), decisions, overlaps, clock, |overlaps|);
      && old(store.log) <= store.log <= old(store.log) + acc.log
      && (r.Ok? ==> OverlapHolds(store, old(store.log), r.value.0, r.value.1, acc))
    ensures store.failures == old(store.failures) + if r.Ok? then 0 else 1
  {
    hide Leads, WellKeyed, Replay, FirstDownload, OverlapStep;
    ghost var db, log0 := store.Value(), store.log;
    var ds: seq<Decision>, upgraded: nat := decisions, 0;
    var i := 0;
    while i < |overlaps|
      invariant 0 <= i <= |overlaps| && store.Valid()
      invariant OverlapHolds(store, log0, ds, upgraded, OverlapWalk(db, decisions, overlaps, clock, i))
      invariant store.failures == old(store.failures)
    {
      OverlapWalkIsGentle(db, decisions, overlaps, clock, i, |overlaps|);
      var ok;
      ok, ds, upgraded := AttachOverlap(store, overlaps[i], clock(i), ds, upgraded, log0,
                                        OverlapWalk(db, decisions, overlaps, clock, i));
      if !ok {
        return Err(Port);
      }
      i := i + 1;
    }
    return Ok((ds, upgraded));
  }
}
