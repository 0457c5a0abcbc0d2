/**
 * The delta phase: one page of remote items is filtered, its observations are stored, and each
 * surviving item is turned into a decision.
 */
module DeltaPhase {
  import opened Collections
  import opened Paths
  import opened Types
  import opened Store
  import opened Collisions
  import opened Reconcile
  import CaseRename

  datatype Page = Page(items: seq<RemoteItem>, token: Option<string>)

  /** A remote rename to be made: current path, item id, new leaf name. */
  datatype Rename = Rename(path: RelPath, itemId: string, newLeaf: string)

  type Clock = nat -> Timestamp

  // ---------------------------------------------------------------- one item

  /** The rename of a case-collision loser, if its new name is valid. */
  function RenameFor(env: Env, p: RelPath, item: RemoteItem): Option<Rename>
  {
    match ParseRel(CaseRename.RenameTarget(p, env.shortHash(p)))
    case None => None
    case Some(target) => Some(Rename(p, item.id, Leaf(target)))
  }

  /** A row exists at another spelling of `p`. */
  predicate HasCaseTwin(db: Db, p: RelPath)
  {
    exists q :: q in db.rows && q != p && AsciiLower(q) == AsciiLower(p)
  }

  /** A live, untracked item whose path only differs in case from a tracked one. */
  predicate IsSkipped(db: Db, p: RelPath, item: RemoteItem)
  {
    p !in db.rows && !item.deleted && HasCaseTwin(db, p)
  }

  /** The row to store for an observation; none for a tombstone of an untracked path. */
  function Observation(p: RelPath, existing: Option<FileEntry>, item: RemoteItem, now: Timestamp): Option<FileEntry>
  {
    var remote := if item.deleted then None else Some(RemoteSideOf(item, now));
    match existing
    case Some(e) => Some(e.(remote := remote, updatedAt := now))
    case None =>
      if item.deleted then None
      else Some(FileEntry(p, ItemKind(item), PendingDownload, None, remote, None, None, now))
  }

  predicate Survives(colls: map<RelPath, RelPath>, item: RemoteItem)
  {
    ItemPath(item).Some? && ItemPath(item).value !in colls
  }

  // ---------------------------------------------------------------- the walk as a fold

  datatype DeltaAcc = DeltaAcc(
    db: Db,
    log: seq<Write>,
    decisions: seq<Decision>,
    conflicts: nat,
    renames: seq<Rename>,
    live: map<RelPath, RemoteItem>)

  function Start(db: Db, renames: seq<Rename>): DeltaAcc
  {
    DeltaAcc(db, [], [], 0, renames, map[])
  }

  function Optional<T>(x: Option<T>): seq<T>
  {
    match x case None => [] case Some(v) => [v]
  }

  /** The row written for one item, if any. */
  function StepRow(colls: map<RelPath, RelPath>, db: Db, item: RemoteItem, now: Timestamp): Option<FileEntry>
  {
    if !Survives(colls, item) || IsSkipped(db, ItemPath(item).value, item) then None
    else Observation(ItemPath(item).value, Row(db, ItemPath(item).value), item, now)
  }

  function Step(env: Env, colls: map<RelPath, RelPath>, acc: DeltaAcc, item: RemoteItem, now: Timestamp): DeltaAcc
  {
    if !Survives(colls, item) then acc
    else
      var p := ItemPath(item).value;
      if IsSkipped(acc.db, p, item) then acc.(renames := acc.renames + Optional(RenameFor(env, p, item)))
      else
        var kind := ReconcileKind(Row(acc.db, p), if item.deleted then None else Some(item));
        var row := StepRow(colls, acc.db, item, now);
        DeltaAcc(Put(acc.db, row), acc.log + Writes(row),
                 acc.decisions + [Decision(p, kind)],
                 acc.conflicts + (if kind.IsConflict() then 1 else 0),
                 acc.renames,
                 if item.deleted then acc.live else acc.live[p := item])
  }

  /** The first `n` items of the page. */
  function Walk(env: Env, colls: map<RelPath, RelPath>, start: DeltaAcc, items: seq<RemoteItem>, clock: Clock,
                n: nat): DeltaAcc
    requires n <= |items|
  {
    if n == 0 then start
    else Step(env, colls, Walk(env, colls, start, items, clock, n - 1), items[n - 1], clock(n - 1))
  }

  /** A row that knows nothing but a remote side. */
  predicate IsFresh(e: FileEntry)
  {
    && e.remote.Some? && e.kind == e.remote.value.kind && e.state == PendingDownload
    && e.local.None? && e.synced.None? && e.pendingOp.None?
  }

  /**
   * The page's writes: they change the remote side of tracked rows, or add fresh rows. In
   * particular no merge base moves, no parked path is released and the pair's row is not touched.
   */
  predicate DeltaRule(db: Db, w: Write)
  {
    && w.PutEntry?
    && (if w.entry.path in db.rows
        then w.entry == db.rows[w.entry.path].(remote := w.entry.remote, updatedAt := w.entry.updatedAt)
        else IsFresh(w.entry))
  }

  lemma StepIsLegal(colls: map<RelPath, RelPath>, db: Db, log: seq<Write>, now: Db, item: RemoteItem, at: Timestamp)
    requires Leads(db, log, now, DeltaRule)
    ensures
      var row := StepRow(colls, now, item, at);
      Leads(db, log + Writes(row), Put(now, row), DeltaRule)
  {
    match StepRow(colls, now, item, at) {
      case None =>
        assert log + [] == log;
      case Some(e) =>
        LeadsOn(db, log, now, PutEntry(e), DeltaRule);
    }
  }

  lemma {:induction false} WalkIsLegal(env: Env, colls: map<RelPath, RelPath>, db: Db, renames: seq<Rename>,
                                       items: seq<RemoteItem>, clock: Clock, m: nat, n: nat)
    requires m <= n <= |items| && WellKeyed(db)
    ensures
      var a, b := Walk(env, colls, Start(db, renames), items, clock, m), Walk(env, colls, Start(db, renames), items,
                       clock, n);
      a.log <= b.log && Leads(db, b.log, b.db, DeltaRule)
    decreases n
  {
    hide Leads, StepRow, RenameFor, ReconcileKind, ItemPath;
    if n > 0 {
      WalkIsLegal(env, colls, db, renames, items, clock, if m < n then m else n - 1, n - 1);
      var before := Walk(env, colls, Start(db, renames), items, clock, n - 1);
      StepIsLegal(colls, db, before.log, before.db, items[n - 1], clock(n - 1));
    } else {
      LeadsNowhere(db, DeltaRule);
    }
  }

  /** One of the first `n` items survives and lies at `p`. */
  ghost predicate Touched(colls: map<RelPath, RelPath>, items: seq<RemoteItem>, n: nat, p: RelPath)
    requires n <= |items|
  {
    exists i :: 0 <= i < n && Survives(colls, items[i]) && ItemPath(items[i]).value == p
  }

  /** A write of the row of a path that a kept item of the page lies at. */
  ghost predicate AtTouched(colls: map<RelPath, RelPath>, items: seq<RemoteItem>, w: Write)
  {
    w.PutEntry? && Touched(colls, items, |items|, w.entry.path)
  }

  ghost function TouchRule(colls: map<RelPath, RelPath>, items: seq<RemoteItem>): (Db, Write) -> bool
  {
    (d: Db, w: Write) => AtTouched(colls, items, w)
  }

  lemma StepTouches(colls: map<RelPath, RelPath>, items: seq<RemoteItem>, now: Db, i: nat, at: Timestamp)
    requires i < |items| && WellKeyed(now)
    ensures
      var row := StepRow(colls, now, items[i], at);
      row.Some? ==> AtTouched(colls, items, PutEntry(row.value))
  {
    hide ItemPath, IsSkipped;
  }

  /** The page writes only rows of paths that its kept items lie at. */
  lemma {:induction false} WalkTouches(env: Env, colls: map<RelPath, RelPath>, db: Db, renames: seq<Rename>,
                                       items: seq<RemoteItem>, clock: Clock, n: nat)
    requires n <= |items| && WellKeyed(db)
    ensures
      var acc := Walk(env, colls, Start(db, renames), items, clock, n);
      Leads(db, acc.log, acc.db, TouchRule(colls, items))
    decreases n
  {
    hide Leads, StepRow, RenameFor, ReconcileKind, ItemPath, AtTouched;
    if n > 0 {
      WalkTouches(env, colls, db, renames, items, clock, n - 1);
      var before := Walk(env, colls, Start(db, renames), items, clock, n - 1);
      var row := StepRow(colls, before.db, items[n - 1], clock(n - 1));
      LeadsKeyed(db, before.log, before.db, TouchRule(colls, items));
      StepTouches(colls, items, before.db, n - 1, clock(n - 1));
      if row.Some? {
        LeadsOn(db, before.log, before.db, PutEntry(row.value), TouchRule(colls, items));
      } else {
        assert before.log + [] == before.log;
      }
    } else {
      LeadsNowhere(db, TouchRule(colls, items));
    }
  }

  // ---------------------------------------------------------------- what the walk amounts to

  /** The store's lookup never tells apart what the engine's fold identifies. */
  ghost predicate CoarserThanAscii(fold: Fold)
  {
    forall a, b {:trigger AsciiLower(a), AsciiLower(b)} :: AsciiLower(a) == AsciiLower(b) ==> fold(a) == fold(b)
  }

  /** Surviving items differ under the fold. */
  ghost predicate FoldDistinct(fold: Fold, colls: map<RelPath, RelPath>, items: seq<RemoteItem>)
  {
    forall i, j :: 0 <= i < j < |items| && Survives(colls, items[i]) && Survives(colls, items[j]) ==>
      fold(ItemPath(items[i]).value) != fold(ItemPath(items[j]).value)
  }

  lemma SurvivorsAreDistinct(fold: Fold, colls: map<RelPath, RelPath>, items: seq<RemoteItem>)
    requires IsCollisionMap(fold, PathsOf(items), colls)
    ensures FoldDistinct(fold, colls, items)
  {
    hide ItemPath, IsCollisionMap;
    forall i: nat, j: nat | i < j < |items| && Survives(colls, items[i]) && Survives(colls, items[j])
      ensures fold(ItemPath(items[i]).value) != fold(ItemPath(items[j]).value)
    {
      var a, b := PlacesInPage(items, i, j);
      KeptAreDistinct(fold, PathsOf(items), colls, a, b);
    }
  }

  /** Where the paths of two items are among the paths of the page. */
  lemma PlacesInPage(items: seq<RemoteItem>, i: nat, j: nat) returns (a: nat, b: nat)
    requires i < j < |items| && ItemPath(items[i]).Some? && ItemPath(items[j]).Some?
    ensures a < b < |PathsOf(items)|
    ensures PathsOf(items)[a] == ItemPath(items[i]).value && PathsOf(items)[b] == ItemPath(items[j]).value
  {
    hide ItemPath, FilterMap;
    FilterMapAt(ItemPath, items, i);
    FilterMapAt(ItemPath, items, j);
    FilterMapAt(ItemPath, items[..j], i);
    assert items[..j][..i + 1] == items[..i + 1];
    assert items[..j][..i] == items[..i];
    a, b := |FilterMap(ItemPath, items[..i])|, |FilterMap(ItemPath, items[..j])|;
    assert PathsOf(items)[a] == FilterMap(ItemPath, items[..i + 1])[a];
    assert PathsOf(items)[b] == FilterMap(ItemPath, items[..j + 1])[b];
  }

  /** The row of a surviving item's path afterwards, in terms of the store before the page. */
  function RowAfter(db: Db, item: RemoteItem, now: Timestamp): Option<FileEntry>
    requires ItemPath(item).Some?
  {
    var p := ItemPath(item).value;
    if IsSkipped(db, p, item) || Observation(p, Row(db, p), item, now).None? then Row(db, p)
    else Observation(p, Row(db, p), item, now)
  }

  /** The decision made for an item, in terms of the store before the page. */
  function DecisionFor(db: Db, colls: map<RelPath, RelPath>): RemoteItem -> Option<Decision>
  {
    (item: RemoteItem) =>
      if !Survives(colls, item) || IsSkipped(db, ItemPath(item).value, item) then None
      else
        var p := ItemPath(item).value;
        Some(Decision(p, ReconcileKind(Row(db, p), if item.deleted then None else Some(item))))
  }

  /** The rename asked for by a skipped item, in terms of the store before the page. */
  function SkipRenameFor(env: Env, db: Db, colls: map<RelPath, RelPath>): RemoteItem -> Option<Rename>
  {
    (item: RemoteItem) =>
      if Survives(colls, item) && IsSkipped(db, ItemPath(item).value, item)
      then RenameFor(env, ItemPath(item).value, item) else None
  }

  /** The item is live, kept and not skipped. */
  predicate IsLive(db: Db, colls: map<RelPath, RelPath>, item: RemoteItem)
  {
    Survives(colls, item) && !item.deleted && !IsSkipped(db, ItemPath(item).value, item)
  }

  /**
   * Although rows are written while the page is being walked, every item is treated as if it were
   * the only one.
   */
  ghost predicate Summary(env: Env, colls: map<RelPath, RelPath>, db: Db, renames: seq<Rename>,
                          items: seq<RemoteItem>, clock: Clock, n: nat, acc: DeltaAcc)
    requires n <= |items|
  {
    && RowsSummary(colls, db, items, clock, n, acc.db)
    && LiveSummary(colls, db, items, n, acc.live)
    && acc.decisions == FilterMap(DecisionFor(db, colls), items[..n])
    && acc.renames == renames + FilterMap(SkipRenameFor(env, db, colls), items[..n])
    && acc.conflicts == |FilterMap(AsConflict, acc.decisions)|
  }

  function AsConflict(d: Decision): Option<Decision>
  {
    if d.kind.IsConflict() then Some(d) else None
  }

  ghost predicate RowsSummary(colls: map<RelPath, RelPath>, db: Db, items: seq<RemoteItem>, clock: Clock, n: nat,
                              after: Db)
    requires n <= |items|
  {
    && after == db.(rows := after.rows)
    && (forall p :: !Touched(colls, items, n, p) ==> Row(after, p) == Row(db, p))
    && (forall i :: 0 <= i < n && Survives(colls, items[i]) ==>
          Row(after, ItemPath(items[i]).value) == RowAfter(db, items[i], clock(i)))
  }

  ghost predicate LiveSummary(colls: map<RelPath, RelPath>, db: Db, items: seq<RemoteItem>, n: nat,
                              live: map<RelPath, RemoteItem>)
    requires n <= |items|
  {
    && (forall p :: p in live ==> live[p] in items[..n] && IsLive(db, colls, live[p]) && ItemPath(live[p]).value == p)
    && (forall i :: 0 <= i < n && IsLive(db, colls, items[i]) ==> ItemPath(items[i]).value in live)
  }

  lemma TouchedPathsDiffer(fold: Fold, colls: map<RelPath, RelPath>, items: seq<RemoteItem>, n: nat, q: RelPath)
    requires n < |items| && Survives(colls, items[n]) && FoldDistinct(fold, colls, items)
    requires Touched(colls, items, n, q)
    ensures fold(q) != fold(ItemPath(items[n]).value)
  {
  }

  /** The next item meets the store as it was before the page, as far as its path is concerned. */
  lemma NextSeesOriginal(env: Env, colls: map<RelPath, RelPath>, db: Db, items: seq<RemoteItem>, clock: Clock,
                         n: nat, now: Db)
    requires n < |items| && Survives(colls, items[n])
    requires FoldDistinct(env.fold, colls, items) && CoarserThanAscii(env.fold)
    requires RowsSummary(colls, db, items, clock, n, now)
    ensures SeesOriginal(db, now, items[n])
  {
    var p := ItemPath(items[n]).value;
    forall q | Touched(colls, items, n, q) ensures env.fold(q) != env.fold(p) {
      TouchedPathsDiffer(env.fold, colls, items, n, q);
    }
    assert !Touched(colls, items, n, p);
    forall q | AsciiLower(q) == AsciiLower(p) ensures q in now.rows <==> q in db.rows {
      assert env.fold(q) == env.fold(p);
      assert Row(now, q) == Row(db, q);
    }
  }

  lemma RowsStep(colls: map<RelPath, RelPath>, db: Db, items: seq<RemoteItem>, clock: Clock, n: nat, now: Db,
                 fold: Fold)
    requires n < |items| && RowsSummary(colls, db, items, clock, n, now)
    requires FoldDistinct(fold, colls, items)
    requires Survives(colls, items[n]) ==> SeesOriginal(db, now, items[n])
    requires WellKeyed(now)
    ensures RowsSummary(colls, db, items, clock, n + 1, Put(now, StepRow(colls, now, items[n], clock(n))))
  {
    hide ItemPath, IsSkipped;
    var row := StepRow(colls, now, items[n], clock(n));
    var after := Put(now, row);
    forall p | !Touched(colls, items, n + 1, p) ensures Row(after, p) == Row(db, p) {
      assert !Touched(colls, items, n, p);
      assert row.Some? ==> row.value.path != p;
    }
    forall i | 0 <= i < n + 1 && Survives(colls, items[i])
      ensures Row(after, ItemPath(items[i]).value) == RowAfter(db, items[i], clock(i))
    {
      if i < n && Survives(colls, items[n]) {
        assert fold(ItemPath(items[i]).value) != fold(ItemPath(items[n]).value);
      }
    }
  }

  lemma LiveStep(colls: map<RelPath, RelPath>, db: Db, items: seq<RemoteItem>, n: nat, live: map<RelPath, RemoteItem>)
    requires n < |items| && LiveSummary(colls, db, items, n, live)
    ensures LiveSummary(colls, db, items, n + 1,
                        if IsLive(db, colls, items[n]) then live[ItemPath(items[n]).value := items[n]] else live)
  {
    hide ItemPath, IsSkipped;
    assert items[..n + 1] == items[..n] + [items[n]];
  }

  lemma SummaryStart(env: Env, colls: map<RelPath, RelPath>, db: Db, renames: seq<Rename>,
                     items: seq<RemoteItem>, clock: Clock)
    ensures Summary(env, colls, db, renames, items, clock, 0, Start(db, renames))
  {
  }

  /** The walk over a page, in terms of the store before the page. */
  lemma {:induction false} WalkSummary(env: Env, colls: map<RelPath, RelPath>, db: Db, renames: seq<Rename>,
                                       items: seq<RemoteItem>, clock: Clock, n: nat)
    requires n <= |items| && WellKeyed(db)
    requires FoldDistinct(env.fold, colls, items) && CoarserThanAscii(env.fold)
    ensures Summary(env, colls, db, renames, items, clock, n, Walk(env, colls, Start(db, renames), items, clock, n))
  {
    hide Step, StepRow, RowsSummary, LiveSummary, IsSkipped, ItemPath, FilterMap, SeesOriginal, Every, Replay,
         DecisionFor, SkipRenameFor, IsLive, CoarserThanAscii, FoldDistinct;
    if n > 0 {
      WalkSummary(env, colls, db, renames, items, clock, n - 1);
      WalkIsLegal(env, colls, db, renames, items, clock, n - 1, n - 1);
      var before := Walk(env, colls, Start(db, renames), items, clock, n - 1);
      if Survives(colls, items[n - 1]) {
        NextSeesOriginal(env, colls, db, items, clock, n - 1, before.db);
      }
      StepContributes(env, colls, db, before, items[n - 1], clock(n - 1));
      RowsStep(colls, db, items, clock, n - 1, before.db, env.fold);
      LiveStep(colls, db, items, n - 1, before.live);
      SummaryStep(env, colls, db, renames, items, clock, n, before);
    } else {
      SummaryStart(env, colls, db, renames, items, clock);
    }
  }

  /** The item meets its path as it was before the page. */
  predicate SeesOriginal(db: Db, now: Db, item: RemoteItem)
    requires ItemPath(item).Some?
  {
    var p := ItemPath(item).value;
    Row(now, p) == Row(db, p) && IsSkipped(now, p, item) == IsSkipped(db, p, item)
  }

  /** The lists grow by what the next item contributes by itself. */
  lemma StepContributes(env: Env, colls: map<RelPath, RelPath>, db: Db, before: DeltaAcc, item: RemoteItem,
                        now: Timestamp)
    requires Survives(colls, item) ==> SeesOriginal(db, before.db, item)
    ensures
      var after := Step(env, colls, before, item, now);
      && after.decisions == before.decisions + Optional(DecisionFor(db, colls)(item))
      && after.renames == before.renames + Optional(SkipRenameFor(env, db, colls)(item))
      && after.conflicts == before.conflicts + |FilterMap(AsConflict, Optional(DecisionFor(db, colls)(item)))|
      && after.live == (if IsLive(db, colls, item) then before.live[ItemPath(item).value := item] else before.live)
      && after.db == Put(before.db, StepRow(colls, before.db, item, now))
  {
    hide ItemPath, ReconcileKind, RenameFor, HasCaseTwin, Observation;
    var d := DecisionFor(db, colls)(item);
    if d.Some? {
      assert [d.value][..0] == [];
    }
  }

  lemma SummaryStep(env: Env, colls: map<RelPath, RelPath>, db: Db, renames: seq<Rename>, items: seq<RemoteItem>,
                    clock: Clock, n: nat, before: DeltaAcc)
    requires 0 < n <= |items|
    requires before.decisions == FilterMap(DecisionFor(db, colls), items[..n - 1])
    requires before.renames == renames + FilterMap(SkipRenameFor(env, db, colls), items[..n - 1])
    requires before.conflicts == |FilterMap(AsConflict, before.decisions)|
    requires Survives(colls, items[n - 1]) ==> SeesOriginal(db, before.db, items[n - 1])
    ensures
      var after := Step(env, colls, before, items[n - 1], clock(n - 1));
      && after.decisions == FilterMap(DecisionFor(db, colls), items[..n])
      && after.renames == renames + FilterMap(SkipRenameFor(env, db, colls), items[..n])
      && after.conflicts == |FilterMap(AsConflict, after.decisions)|
  {
    hide ItemPath, IsSkipped, SeesOriginal, Step;
    StepContributes(env, colls, db, before, items[n - 1], clock(n - 1));
    FilterMapSnoc(DecisionFor(db, colls), items, n);
    FilterMapSnoc(SkipRenameFor(env, db, colls), items, n);
    FilterMapAppend(AsConflict, before.decisions, Optional(DecisionFor(db, colls)(items[n - 1])));
  }

  /** Live paths differ under the fold. */
  lemma LiveIsFoldDistinct(fold: Fold, colls: map<RelPath, RelPath>, db: Db, items: seq<RemoteItem>,
                           live: map<RelPath, RemoteItem>, r: RelPath, s: RelPath)
    requires FoldDistinct(fold, colls, items) && LiveSummary(colls, db, items, |items|, live)
    requires r in live && s in live && fold(r) == fold(s)
    ensures r == s
  {
    hide IsSkipped, ItemPath;
    assert items[..|items|] == items;
    var a :| 0 <= a < |items| && items[a] == live[r];
    var b :| 0 <= b < |items| && items[b] == live[s];
  }

  /** The live item of a path is the only one there. */
  lemma LiveIsTheItem(fold: Fold, colls: map<RelPath, RelPath>, db: Db, items: seq<RemoteItem>,
                      live: map<RelPath, RemoteItem>, a: nat)
    requires FoldDistinct(fold, colls, items) && LiveSummary(colls, db, items, |items|, live)
    requires a < |items| && IsLive(db, colls, items[a])
    ensures ItemPath(items[a]).value in live && live[ItemPath(items[a]).value] == items[a]
  {
    hide IsSkipped, ItemPath;
    assert items[..|items|] == items;
    var p := ItemPath(items[a]).value;
    var k :| 0 <= k < |items| && items[k] == live[p];
    assert fold(ItemPath(items[k]).value) == fold(ItemPath(items[a]).value);
  }

  /** A download is decided only for a live file. */
  lemma DownloadIsLive(db: Db, colls: map<RelPath, RelPath>, item: RemoteItem)
    ensures
      var d := DecisionFor(db, colls)(item);
      d.Some? && d.value.kind == Download ==>
        IsLive(db, colls, item) && !item.folder && ItemPath(item).value == d.value.path
  {
    hide IsSkipped, ItemPath;
  }

  /** Decisions about different items are about different paths. */
  lemma {:induction false} DecisionsAreDistinct(fold: Fold, db: Db, colls: map<RelPath, RelPath>,
                                                items: seq<RemoteItem>, i: nat, j: nat)
    requires FoldDistinct(fold, colls, items)
    requires i < j < |FilterMap(DecisionFor(db, colls), items)|
    ensures
      var ds := FilterMap(DecisionFor(db, colls), items);
      ds[i].path != ds[j].path
  {
    hide ReconcileKind, IsSkipped, ItemPath;
    var a, b := FilterMapOrder(DecisionFor(db, colls), items, i, j);
    assert fold(ItemPath(items[a]).value) != fold(ItemPath(items[b]).value);
  }

  // ---------------------------------------------------------------- order independence

  /** Two walks over the same items in different orders, at one moment, agree. */
  lemma {:induction false} DeltaIgnoresOrder(env: Env, db: Db, a: seq<RemoteItem>, b: seq<RemoteItem>,
                                             renames: seq<Rename>, collsA: map<RelPath, RelPath>,
                                             collsB: map<RelPath, RelPath>, now: Timestamp)
    requires multiset(a) == multiset(b) && WellKeyed(db) && CoarserThanAscii(env.fold)
    requires IsCollisionMap(env.fold, PathsOf(a), collsA) && IsCollisionMap(env.fold, PathsOf(b), collsB)
    ensures collsA == collsB
    ensures
      var x := Walk(env, collsA, Start(db, renames), a, (i: nat) => now, |a|);
      var y := Walk(env, collsB, Start(db, renames), b, (i: nat) => now, |b|);
      && x.db == y.db
      && x.live == y.live
      && multiset(x.decisions) == multiset(y.decisions)
      && multiset(x.renames) == multiset(y.renames)
      && x.conflicts == y.conflicts
  {
    var clock: Clock := (i: nat) => now;
    FilterMapPermutes(ItemPath, a, b);
    CollisionMapIgnoresOrder(env.fold, PathsOf(a), PathsOf(b), collsA, collsB);
    SurvivorsAreDistinct(env.fold, collsA, a);
    SurvivorsAreDistinct(env.fold, collsB, b);
    WalkSummary(env, collsA, db, renames, a, clock, |a|);
    WalkSummary(env, collsB, db, renames, b, clock, |b|);
    var x := Walk(env, collsA, Start(db, renames), a, clock, |a|);
    var y := Walk(env, collsB, Start(db, renames), b, clock, |b|);
    assert a[..|a|] == a && b[..|b|] == b;
    RowsIgnoreOrder(collsA, db, a, b, now, x.db, y.db);
    LiveIgnoresOrder(env.fold, collsA, db, a, b, x.live, y.live);
    FilterMapPermutes(DecisionFor(db, collsA), a, b);
    FilterMapPermutes(SkipRenameFor(env, db, collsA), a, b);
    FilterMapPermutes(AsConflict, x.decisions, y.decisions);
    SameLength(FilterMap(AsConflict, x.decisions), FilterMap(AsConflict, y.decisions));
  }

  lemma TouchedIgnoresOrder(colls: map<RelPath, RelPath>, a: seq<RemoteItem>, b: seq<RemoteItem>, p: RelPath)
    requires multiset(a) == multiset(b)
    ensures Touched(colls, a, |a|, p) ==> Touched(colls, b, |b|, p)
  {
    if Touched(colls, a, |a|, p) {
      var i :| 0 <= i < |a| && Survives(colls, a[i]) && ItemPath(a[i]).value == p;
      SameMembers(a, b, a[i]);
      var j :| 0 <= j < |b| && b[j] == a[i];
    }
  }

  lemma RowsIgnoreOrder(colls: map<RelPath, RelPath>, db: Db, a: seq<RemoteItem>, b: seq<RemoteItem>, now: Timestamp,
                        x: Db, y: Db)
    requires multiset(a) == multiset(b)
    requires RowsSummary(colls, db, a, (i: nat) => now, |a|, x) && RowsSummary(colls, db, b, (i: nat) => now, |b|, y)
    ensures x == y
  {
    forall p ensures Row(x, p) == Row(y, p) {
      TouchedIgnoresOrder(colls, a, b, p);
      TouchedIgnoresOrder(colls, b, a, p);
      if Touched(colls, a, |a|, p) {
        var i :| 0 <= i < |a| && Survives(colls, a[i]) && ItemPath(a[i]).value == p;
        SameMembers(a, b, a[i]);
        var j :| 0 <= j < |b| && b[j] == a[i];
        assert Row(x, p) == RowAfter(db, a[i], now) == Row(y, p);
      }
    }
    SameRows(x, y);
  }

  lemma SameRows(x: Db, y: Db)
    requires x.pair == y.pair && x.conflicts == y.conflicts && x.runs == y.runs
    requires forall p :: Row(x, p) == Row(y, p)
    ensures x == y
  {
    forall p ensures p in x.rows <==> p in y.rows {
      assert Row(x, p) == Row(y, p);
    }
    forall p | p in x.rows ensures x.rows[p] == y.rows[p] {
      assert Row(x, p) == Row(y, p);
    }
  }

  lemma LiveIgnoresOrder(fold: Fold, colls: map<RelPath, RelPath>, db: Db, a: seq<RemoteItem>, b: seq<RemoteItem>,
                         x: map<RelPath, RemoteItem>, y: map<RelPath, RemoteItem>)
    requires multiset(a) == multiset(b) && FoldDistinct(fold, colls, a) && FoldDistinct(fold, colls, b)
    requires LiveSummary(colls, db, a, |a|, x) && LiveSummary(colls, db, b, |b|, y)
    ensures x == y
  {
    assert a[..|a|] == a && b[..|b|] == b;
    forall p | p in x ensures p in y && y[p] == x[p] {
      SameMembers(a, b, x[p]);
      var j :| 0 <= j < |b| && b[j] == x[p];
      var k :| 0 <= k < |b| && b[k] == y[p];
      assert fold(ItemPath(b[j]).value) == fold(ItemPath(b[k]).value);
    }
    forall p | p in y ensures p in x {
      SameMembers(a, b, y[p]);
      var i :| 0 <= i < |a| && a[i] == y[p];
    }
  }
}
