/** The delta phase as the engine runs it, against the fold of `DeltaPhase`. */
module DeltaEngine {
  import opened Collections
  import opened Paths
  import opened Types
  import opened Store
  import opened Collisions
  import opened Reconcile
  import opened DeltaPhase
  import CaseRename

  datatype EngineError = Port

  /** What the delta phase hands to the later phases. */
  datatype DeltaOutcome = DeltaOutcome(
    decisions: seq<Decision>,
    conflictsDetected: nat,
    remoteItemsSeen: nat,
    deltaToken: Option<string>,
    collisionRenames: seq<Rename>,
    remoteItemsByPath: map<RelPath, RemoteItem>)

  /** `i` is the first item of the page at path `p`. */
  predicate FirstAt(items: seq<RemoteItem>, i: nat, p: RelPath)
  {
    i < |items| && ItemPath(items[i]) == Some(p) && forall j :: 0 <= j < i ==> ItemPath(items[j]) != Some(p)
  }

  predicate HasNewName(env: Env, p: RelPath)
  {
    ParseRel(CaseRename.RenameTarget(p, env.shortHash(p))).Some?
  }

  /** `r` renames the first item at its path. */
  ghost predicate RenamesFirst(env: Env, items: seq<RemoteItem>, r: Rename)
  {
    exists i: nat :: FirstAt(items, i, r.path) && RenameFor(env, r.path, items[i]) == Some(r)
  }

  predicate Renamed(renames: seq<Rename>, d: RelPath)
  {
    exists k :: 0 <= k < |renames| && renames[k].path == d
  }

  /** One rename for each dropped path that has a valid new name, of the first item at that path. */
  ghost predicate RenamesFor(env: Env, items: seq<RemoteItem>, colls: map<RelPath, RelPath>, renames: seq<Rename>)
  {
    && (forall r :: r in renames ==>
          r.path in colls && RenamesFirst(env, items, r))
    && (forall a, b :: 0 <= a < b < |renames| ==> renames[a].path != renames[b].path)
    && (forall d :: d in colls && HasNewName(env, d) ==> Renamed(renames, d))
  }

  /** If all items at a renamed path are one item of the drive, the arrival order does not matter to its rename. */
  lemma RenameIgnoresOrder(env: Env, a: seq<RemoteItem>, b: seq<RemoteItem>, colls: map<RelPath, RelPath>,
                           ra: seq<Rename>, rb: seq<Rename>, r: Rename)
    requires multiset(a) == multiset(b) && RenamesFor(env, a, colls, ra) && RenamesFor(env, b, colls, rb) && r in ra
    requires forall x :: x in a && ItemPath(x) == Some(r.path) ==> x.id == r.itemId
    ensures r in rb
  {
    hide ItemPath, HasNewName, RenameFor;
    var i: nat :| FirstAt(a, i, r.path) && RenameFor(env, r.path, a[i]) == Some(r);
    RenameForPath(env, r.path, a[i]);
    var k :| 0 <= k < |rb| && rb[k].path == r.path;
    assert rb[k] in rb;
    var j: nat :| FirstAt(b, j, r.path) && RenameFor(env, r.path, b[j]) == Some(rb[k]);
    SameMembers(a, b, b[j]);
    assert a[i] in a && b[j] in a;
    RenameNamesItem(env, r.path, a[i], b[j]);
  }

  lemma RenameNamesItem(env: Env, p: RelPath, x: RemoteItem, y: RemoteItem)
    ensures x.id == y.id ==> RenameFor(env, p, x) == RenameFor(env, p, y)
    ensures RenameFor(env, p, x).Some? ==> RenameFor(env, p, x).value.itemId == x.id
    ensures RenameFor(env, p, x).Some? <==> RenameFor(env, p, y).Some?
  {
  }

  /** The page with item `k` moved to its front. */
  function ToFront(items: seq<RemoteItem>, k: nat): seq<RemoteItem>
    requires k < |items|
  {
    [items[k]] + items[..k] + items[k + 1..]
  }

  lemma ToFrontPermutes(items: seq<RemoteItem>, k: nat)
    requires k < |items|
    ensures multiset(ToFront(items, k)) == multiset(items)
  {
    assert items == items[..k] + [items[k]] + items[k + 1..];
  }

  /** The first item at a path is still the first, unless the moved item is at the path. */
  lemma FirstInFront(items: seq<RemoteItem>, k: nat, i: nat, p: RelPath)
    requires k < |items|
    ensures ItemPath(items[k]) == Some(p) ==> FirstAt(ToFront(items, k), 0, p)
    ensures ItemPath(items[k]) != Some(p) && FirstAt(items, i, p) ==>
      var j := if i < k then i + 1 else i;
      FirstAt(ToFront(items, k), j, p) && ToFront(items, k)[j] == items[i]
  {
    hide ItemPath;
    var moved := ToFront(items, k);
    assert moved[0] == items[k];
    assert forall x :: 0 <= x < k ==> moved[x + 1] == items[x];
    assert forall x :: k < x < |items| ==> moved[x] == items[x];
    assert forall x :: 0 < x <= k ==> moved[x] == items[x - 1];
  }

  /** The renames of the page with item `k` moved to its front. */
  lemma RenamesInFront(env: Env, a: seq<RemoteItem>, colls: map<RelPath, RelPath>, ra: seq<Rename>,
                             r: Rename, k: nat)
    returns (rb: seq<Rename>)
    requires RenamesFor(env, a, colls, ra) && r in ra && k < |a| && ItemPath(a[k]) == Some(r.path)
    ensures RenamesFor(env, ToFront(a, k), colls, rb)
  {
    hide ItemPath, HasNewName, RenameFor, ToFront;
    var n :| 0 <= n < |ra| && ra[n] == r;
    var first: nat :| FirstAt(a, first, r.path) && RenameFor(env, r.path, a[first]) == Some(r);
    RenameNamesItem(env, r.path, a[first], a[k]);
    var r' := RenameFor(env, r.path, a[k]).value;
    RenameForPath(env, r.path, a[k]);
    rb := ra[n := r'];
    forall x | 0 <= x < |rb| ensures rb[x].path in colls && RenamesFirst(env, ToFront(a, k), rb[x]) {
      assert ra[x] in ra;
      if x == n {
        FirstInFront(a, k, 0, r.path);
        assert ToFront(a, k)[0] == a[k] by { FrontIs(a, k); }
      } else {
        assert ra[x].path != r.path;
        var i: nat :| FirstAt(a, i, ra[x].path) && RenameFor(env, ra[x].path, a[i]) == Some(ra[x]);
        FirstInFront(a, k, i, ra[x].path);
      }
    }
    forall d | d in colls && HasNewName(env, d) ensures Renamed(rb, d) {
      assert Renamed(ra, d);
      var x :| 0 <= x < |ra| && ra[x].path == d;
      assert rb[x].path == d;
    }
  }

  lemma FrontIs(items: seq<RemoteItem>, k: nat)
    requires k < |items|
    ensures |ToFront(items, k)| == |items| && ToFront(items, k)[0] == items[k]
  {
  }

  /** If another item lies at a renamed path, some order of the page's items renames that one instead. */
  lemma RenameDependsOnOrder(env: Env, a: seq<RemoteItem>, colls: map<RelPath, RelPath>, ra: seq<Rename>,
                             r: Rename, k: nat)
    returns (b: seq<RemoteItem>, rb: seq<Rename>)
    requires RenamesFor(env, a, colls, ra) && r in ra
    requires k < |a| && ItemPath(a[k]) == Some(r.path) && a[k].id != r.itemId
    ensures multiset(b) == multiset(a) && RenamesFor(env, b, colls, rb)
    ensures forall rs :: RenamesFor(env, b, colls, rs) ==> r !in rs
  {
    hide ItemPath, HasNewName, RenameFor, ToFront;
    b := ToFront(a, k);
    ToFrontPermutes(a, k);
    rb := RenamesInFront(env, a, colls, ra, r, k);
    FirstInFront(a, k, 0, r.path);
    FrontIs(a, k);
    forall rs | RenamesFor(env, b, colls, rs) && r in rs ensures false {
      var i: nat :| FirstAt(b, i, r.path) && RenameFor(env, r.path, b[i]) == Some(r);
      assert i == 0;
      RenameNamesItem(env, r.path, b[i], a[k]);
    }
  }

  /** Every order of a page makes a given rename exactly if all items at its path are the renamed one. */
  lemma RenameIgnoresOrderIff(env: Env, a: seq<RemoteItem>, colls: map<RelPath, RelPath>, ra: seq<Rename>, r: Rename)
    requires RenamesFor(env, a, colls, ra) && r in ra
    ensures
      (forall b, rb :: multiset(a) == multiset(b) && RenamesFor(env, b, colls, rb) ==> r in rb)
      <==> (forall x :: x in a && ItemPath(x) == Some(r.path) ==> x.id == r.itemId)
  {
    hide ItemPath, RenamesFor;
    if x :| x in a && ItemPath(x) == Some(r.path) && x.id != r.itemId {
      var k :| 0 <= k < |a| && a[k] == x;
      var b, rb := RenameDependsOnOrder(env, a, colls, ra, r, k);
      assert r !in rb;
    } else {
      forall b, rb | multiset(a) == multiset(b) && RenamesFor(env, b, colls, rb) ensures r in rb {
        RenameIgnoresOrder(env, a, b, colls, ra, rb, r);
      }
    }
  }

  method FindFirst(items: seq<RemoteItem>, p: RelPath) returns (index: Option<nat>)
    ensures index.Some? ==> FirstAt(items, index.value, p)
    ensures index.None? ==> p !in PathsOf(items)
  {
    hide ItemPath;
    var i: nat := 0;
    while i < |items|
      invariant 0 <= i <= |items|
      invariant forall j :: 0 <= j < i ==> ItemPath(items[j]) != Some(p)
      invariant p !in PathsOf(items[..i])
    {
      if ItemPath(items[i]) == Some(p) {
        return Some(i);
      }
      FilterMapSnoc(ItemPath, items, i + 1);
      i := i + 1;
    }
    assert items[..|items|] == items;
    return None;
  }

  /** Walks the collision map, in whatever order it iterates. */
  method ProcessRemoteCaseCollisions(env: Env, items: seq<RemoteItem>, colls: map<RelPath, RelPath>)
    returns (renames: seq<Rename>)
    requires forall d :: d in colls ==> d in PathsOf(items)
    ensures RenamesFor(env, items, colls, renames)
  {
    hide ItemPath, RenameFor, RenamesFirst, Renamed, HasNewName, PathsOf;
    renames := [];
    var todo := colls.Keys;
    while todo != {}
      invariant todo <= colls.Keys
      invariant forall r :: r in renames ==> r.path in colls && r.path !in todo && RenamesFirst(env, items, r)
      invariant forall a, b :: 0 <= a < b < |renames| ==> renames[a].path != renames[b].path
      invariant forall d :: d in colls && d !in todo && HasNewName(env, d) ==> Renamed(renames, d)
    {
      var dropped :| dropped in todo;
      todo := todo - {dropped};
      var first := FindFirst(items, dropped);
      var rename := RenameFor(env, dropped, items[first.value]);
      RenameForPath(env, dropped, items[first.value]);
      if rename.Some? {
        FirstIsRenamed(env, items, first.value, rename.value);
        AddRename(renames, rename.value);
        renames := renames + [rename.value];
      }
    }
  }

  lemma FirstIsRenamed(env: Env, items: seq<RemoteItem>, i: nat, r: Rename)
    requires FirstAt(items, i, r.path) && RenameFor(env, r.path, items[i]) == Some(r)
    ensures RenamesFirst(env, items, r)
  {
  }

  lemma RenameForPath(env: Env, p: RelPath, item: RemoteItem)
    ensures RenameFor(env, p, item).Some? <==> HasNewName(env, p)
    ensures RenameFor(env, p, item).Some? ==> RenameFor(env, p, item).value.path == p
  {
  }

  lemma AddRename(renames: seq<Rename>, r: Rename)
    ensures Renamed(renames + [r], r.path)
    ensures forall d :: Renamed(renames, d) ==> Renamed(renames + [r], d)
  {
    assert (renames + [r])[|renames|] == r;
    forall d | Renamed(renames, d) ensures Renamed(renames + [r], d) {
      var k :| 0 <= k < |renames| && renames[k].path == d;
      assert (renames + [r])[k].path == d;
    }
  }

  /** Whether the item must not be stored because its path only differs in case from a stored one. */
  method SkipForCaseCollision(env: Env, store: StateStore, p: RelPath, item: RemoteItem, renames: seq<Rename>)
    returns (ok: bool, skip: bool, renames': seq<Rename>)
    requires store.Valid() && p !in store.Value().rows && !item.deleted
    modifies store`failures
    ensures store.Valid() && store.Value() == old(store.Value()) && store.log == old(store.log)
    ensures store.failures == old(store.failures) + if ok then 0 else 1
    ensures ok ==> skip == IsSkipped(store.Value(), p, item)
    ensures ok ==> renames' == if skip then renames + Optional(RenameFor(env, p, item)) else renames
  {
    renames' := renames;
    var got, existing := store.FileEntryGetCi(p);
    if !got {
      return false, false, renames;
    }
    if existing.None? || existing.value.path == p {
      return true, false, renames;
    }
    var rename := RenameFor(env, p, item);
    if rename.Some? {
      renames' := renames' + [rename.value];
    }
    return true, true, renames';
  }

  /** The accumulator after the whole page. */
  ghost function DeltaResult(env: Env, colls: map<RelPath, RelPath>, db: Db, renames: seq<Rename>, page: Page,
                             clock: Clock): DeltaAcc
  {
    Walk(env, colls, Start(db, renames), page.items, clock, |page.items|)
  }

  function Outcome(acc: DeltaAcc, page: Page): DeltaOutcome
  {
    DeltaOutcome(acc.decisions, acc.conflicts, |page.items|, page.token, acc.renames, acc.live)
  }

  /** The locals of the loop and the store hold the accumulator `acc`. */
  ghost predicate Holds(store: StateStore, log0: seq<Write>, decisions: seq<Decision>, conflicts: nat,
                        renames: seq<Rename>, live: map<RelPath, RemoteItem>, acc: DeltaAcc)
    reads store
  {
    && store.Value() == acc.db && store.log == log0 + acc.log
    && decisions == acc.decisions && conflicts == acc.conflicts && renames == acc.renames && live == acc.live
  }

  /**
   * Fetches one page, stores its observations and decides about its items. Any failing port call
   * ends the phase with a prefix of its writes made.
   */
  method PhaseDeltaReconcile(env: Env, store: StateStore, page: Page, clock: Clock)
    returns (r: Result<DeltaOutcome, EngineError>, ghost colls: map<RelPath, RelPath>, ghost renames0: seq<Rename>)
    requires store.Valid()
    modifies store
    ensures store.Valid()
    ensures IsCollisionMap(env.fold, PathsOf(page.items), colls)
    ensures RenamesFor(env, page.items, colls, renames0)
    ensures
      var acc := DeltaResult(env, colls, old(store.Value()), renames0, page, clock);
      && old(store.log) <= store.log <= old(store.log) + acc.log
      && (r.Ok? ==> r.value == Outcome(acc, page) && store.Value() == acc.db && store.log == old(store.log) + acc.log)
    ensures store.failures == old(store.failures) + if r.Ok? then 0 else 1
  {
    hide ItemPath, RenameFor, Step, IsCollisionMap, RenamesFor, Leads, Walk, WellKeyed, Replay;
    // Detection is pure, so it makes no difference that the page is taken to arrive after it.
    var collisions := DetectRemoteCaseCollisions(env.fold, page.items);
    var renames := ProcessRemoteCaseCollisions(env, page.items, collisions);
    colls, renames0 := collisions, renames;
    ghost var db, log0 := store.Value(), store.log;
    var decisions: seq<Decision>, conflicts: nat, live: map<RelPath, RemoteItem> := [], 0, map[];
    var fetched := store.Attempt();
    if !fetched {
      return Err(Port), colls, renames0;
    }
    var i: nat := 0;
    DeltaFirst(env, colls, db, renames0, page.items, clock);
    while i < |page.items|
      invariant 0 <= i <= |page.items| && store.Valid()
      invariant store.failures == old(store.failures)
      invariant Holds(store, log0, decisions, conflicts, renames, live,
                      Walk(env, colls, Start(db, renames0), page.items, clock, i))
    {
      ghost var acc := Walk(env, colls, Start(db, renames0), page.items, clock, i);
      DeltaNext(env, colls, db, renames0, page.items, clock, i);
      var ok;
      ok, decisions, conflicts, renames, live :=
        ReconcileItem(env, store, collisions, page.items[i], clock(i), decisions, conflicts, renames, live, log0, acc);
      if !ok {
        return Err(Port), colls, renames0;
      }
      i := i + 1;
    }
    r := Ok(DeltaOutcome(decisions, conflicts, |page.items|, page.token, renames, live));
  }

  lemma {:induction false} DeltaFirst(env: Env, colls: map<RelPath, RelPath>, db: Db, renames: seq<Rename>,
                                      items: seq<RemoteItem>, clock: Clock)
    requires WellKeyed(db)
    ensures Walk(env, colls, Start(db, renames), items, clock, 0) == Start(db, renames)
  {
  }

  lemma DeltaNext(env: Env, colls: map<RelPath, RelPath>, db: Db, renames: seq<Rename>, items: seq<RemoteItem>,
                  clock: Clock, n: nat)
    requires n < |items| && WellKeyed(db)
    ensures
      var a, b := Walk(env, colls, Start(db, renames), items, clock, n), Walk(env, colls, Start(db, renames), items,
                       clock, n + 1);
      && b == Step(env, colls, a, items[n], clock(n))
      && a.log <= b.log <= Walk(env, colls, Start(db, renames), items, clock, |items|).log
  {
    hide Step, Leads;
    WalkIsLegal(env, colls, db, renames, items, clock, n, n + 1);
    WalkIsLegal(env, colls, db, renames, items, clock, n + 1, |items|);
  }

  /** The body of the loop for one item: filter, look up, store the observation, decide. */
  method ReconcileItem(env: Env, store: StateStore, collisions: map<RelPath, RelPath>, item: RemoteItem, now: Timestamp,
                       decisions: seq<Decision>, conflicts: nat, renames: seq<Rename>, live: map<RelPath, RemoteItem>,
                       ghost log0: seq<Write>, ghost acc: DeltaAcc)
    returns (ok: bool, decisions': seq<Decision>, conflicts': nat, renames': seq<Rename>, live': map<RelPath, RemoteItem>)
    requires store.Valid() && Holds(store, log0, decisions, conflicts, renames, live, acc)
    modifies store
    ensures store.Valid()
    ensures ok ==> Holds(store, log0, decisions', conflicts', renames', live', Step(env, collisions, acc, item, now))
    ensures !ok ==> store.log == old(store.log)
    ensures store.failures == old(store.failures) + if ok then 0 else 1
  {
    ok, decisions', conflicts', renames', live' := true, decisions, conflicts, renames, live;
    var path := ItemPath(item);
    if path.None? || path.value in collisions {
      return;
    }
    var p := path.value;
    var got, entry := store.FileEntryGet(p);
    if !got {
      ok := false;
      return;
    }
    if entry.None? && !item.deleted {
      var skip;
      ok, skip, renames' := SkipForCaseCollision(env, store, p, item, renames);
      if !ok || skip {
        return;
      }
    }
    ok, decisions', conflicts', live' :=
      StoreAndDecide(env, store, collisions, p, entry, item, now, decisions, conflicts, renames, live, log0, acc);
  }

  lemma StepOfKept(env: Env, colls: map<RelPath, RelPath>, acc: DeltaAcc, item: RemoteItem, now: Timestamp, p: RelPath)
    requires Survives(colls, item) && ItemPath(item) == Some(p) && !IsSkipped(acc.db, p, item)
    ensures
      var kind := ReconcileKind(Row(acc.db, p), if item.deleted then None else Some(item));
      var row := Observation(p, Row(acc.db, p), item, now);
      Step(env, colls, acc, item, now)
      == DeltaAcc(Put(acc.db, row), acc.log + Writes(row), acc.decisions + [Decision(p, kind)],
                  acc.conflicts + (if kind.IsConflict() then 1 else 0), acc.renames,
                  if item.deleted then acc.live else acc.live[p := item])
  {
    hide ReconcileKind, IsSkipped, Observation;
  }

  /** The rest of the loop body, for an item that is neither dropped nor skipped. */
  method StoreAndDecide(env: Env, store: StateStore, ghost colls: map<RelPath, RelPath>, p: RelPath,
                        entry: Option<FileEntry>, item: RemoteItem, now: Timestamp,
                        decisions: seq<Decision>, conflicts: nat, ghost renames: seq<Rename>,
                        live: map<RelPath, RemoteItem>, ghost log0: seq<Write>, ghost acc: DeltaAcc)
    returns (ok: bool, decisions': seq<Decision>, conflicts': nat, live': map<RelPath, RemoteItem>)
    requires store.Valid() && Holds(store, log0, decisions, conflicts, renames, live, acc)
    requires Survives(colls, item) && ItemPath(item) == Some(p)
    requires entry == Row(acc.db, p) && !IsSkipped(acc.db, p, item)
    modifies store
    ensures store.Valid()
    ensures ok ==> Holds(store, log0, decisions', conflicts', renames, live', Step(env, colls, acc, item, now))
    ensures !ok ==> store.log == old(store.log)
    ensures store.failures == old(store.failures) + if ok then 0 else 1
  {
    hide ReconcileKind, RenameFor, ItemPath, IsSkipped, Observation, Step, Survives;
    StepOfKept(env, colls, acc, item, now, p);
    live' := live;
    if !item.deleted {
      live' := live'[p := item];
    }
    var kind := ReconcileKind(entry, if item.deleted then None else Some(item));
    conflicts' := conflicts;
    if kind.IsConflict() {
      conflicts' := conflicts' + 1;
    }
    decisions' := decisions + [Decision(p, kind)];
    ok := true;
    var row := Observation(p, entry, item, now);
    if row.Some? {
      ok := store.FileEntryUpsert(row.value);
    }
  }
}
