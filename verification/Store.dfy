/**
 * The state store of one pair, as a value with single writes, and as the object the engine updates.
 *
 * A crash, or an error that ends a cycle, leaves the store after some prefix of the cycle's
 * writes; statements about crashes are statements about all prefixes of a log.
 */
module Store {
  import opened Collections
  import opened Paths
  import opened Types

  datatype PairStatus = Initializing | Active | Paused | Errored | Removed

  /** The parts of the pair's row that a cycle and its aftermath touch. */
  datatype PairRow = PairRow(
    status: PairStatus,
    deltaToken: Option<string>,
    lastSyncAt: Option<Timestamp>,
    updatedAt: Timestamp)

  datatype RunOutcome = RunSuccess | PartialFailure

  datatype RunRow = RunRow(outcome: RunOutcome, localOps: nat)

  datatype Db = Db(
    rows: map<RelPath, FileEntry>,
    pair: Option<PairRow>,
    conflicts: seq<ConflictRow>,
    runs: seq<RunRow>)

  datatype Write =
    | PutEntry(entry: FileEntry)
    | PutPair(pair: PairRow)
    | AddConflict(conflict: ConflictRow)
    | AddRun(run: RunRow)

  function Apply(db: Db, w: Write): Db
  {
    match w
    case PutEntry(e) => db.(rows := db.rows[e.path := e])
    case PutPair(p) => db.(pair := Some(p))
    case AddConflict(c) => db.(conflicts := db.conflicts + [c])
    case AddRun(r) => db.(runs := db.runs + [r])
  }

  /** The row of a path, if there is one. */
  function Row(db: Db, p: RelPath): Option<FileEntry>
  {
    Lookup(db.rows, p)
  }

  /** Rows are stored under their own path. */
  ghost predicate WellKeyed(db: Db)
  {
    forall p :: p in db.rows ==> db.rows[p].path == p
  }

  function Replay(db: Db, log: seq<Write>): Db
  {
    if log == [] then db else Apply(Replay(db, log[..|log| - 1]), log[|log| - 1])
  }

  lemma {:induction false} ReplayOne(db: Db, log: seq<Write>, w: Write)
    ensures Replay(db, log + [w]) == Apply(Replay(db, log), w)
  {
    assert (log + [w])[..|log|] == log;
  }

  lemma {:induction false} ReplayNothing(db: Db)
    ensures Replay(db, []) == db
  {
  }

  lemma {:induction false} ReplaySingle(db: Db, w: Write)
    ensures Replay(db, [w]) == Apply(db, w)
  {
    assert [w][..0] == [];
    assert Replay(db, []) == db;
  }

  lemma {:induction false} ReplayAppend(db: Db, a: seq<Write>, b: seq<Write>)
    ensures Replay(db, a + b) == Replay(Replay(db, a), b)
  {
    if b == [] {
      assert a + b == a;
    } else {
      ReplayAppend(db, a, b[..|b| - 1]);
      assert (a + b)[..|a + b| - 1] == a + b[..|b| - 1];
    }
  }

  /** The writes that store an optional row. */
  function Writes(e: Option<FileEntry>): seq<Write>
  {
    match e
    case None => []
    case Some(entry) => [PutEntry(entry)]
  }

  /** The effect of storing an optional row. */
  function Put(db: Db, e: Option<FileEntry>): Db
  {
    match e
    case None => db
    case Some(entry) => Apply(db, PutEntry(entry))
  }

  /** Each write of `log`, applied in order from `db`, satisfies `rule` where it is applied. */
  ghost predicate Every(db: Db, log: seq<Write>, rule: (Db, Write) -> bool)
  {
    log == [] ||
    (Every(db, log[..|log| - 1], rule) && rule(Replay(db, log[..|log| - 1]), log[|log| - 1]))
  }

  lemma {:induction false} EveryOne(db: Db, log: seq<Write>, w: Write, rule: (Db, Write) -> bool)
    requires Every(db, log, rule) && rule(Replay(db, log), w)
    ensures Every(db, log + [w], rule)
  {
    assert (log + [w])[..|log|] == log;
  }

  lemma {:induction false} EveryAppend(db: Db, a: seq<Write>, b: seq<Write>, rule: (Db, Write) -> bool)
    requires Every(db, a, rule) && Every(Replay(db, a), b, rule)
    ensures Every(db, a + b, rule)
  {
    if b == [] {
      assert a + b == a;
    } else {
      var front := b[..|b| - 1];
      EveryAppend(db, a, front, rule);
      ReplayAppend(db, a, front);
      assert (a + b)[..|a + b| - 1] == a + front;
    }
  }

  lemma {:induction false} EveryPrefix(db: Db, log: seq<Write>, k: nat, rule: (Db, Write) -> bool)
    requires Every(db, log, rule) && k <= |log|
    ensures Every(db, log[..k], rule)
    decreases |log|
  {
    if k < |log| {
      EveryPrefix(db, log[..|log| - 1], k, rule);
      assert log[..|log| - 1][..k] == log[..k];
    } else {
      assert log[..k] == log;
    }
  }

  lemma {:induction false} EveryWeaken(db: Db, log: seq<Write>, strong: (Db, Write) -> bool, weak: (Db, Write) -> bool)
    requires Every(db, log, strong) && forall d, w :: strong(d, w) ==> weak(d, w)
    ensures Every(db, log, weak)
  {
    if log != [] {
      EveryWeaken(db, log[..|log| - 1], strong, weak);
    }
  }

  /** `log` leads from `db` to `after`, each write keeping to `rule`. */
  ghost predicate Leads(db: Db, log: seq<Write>, after: Db, rule: (Db, Write) -> bool)
  {
    after == Replay(db, log) && Every(db, log, rule) && WellKeyed(after)
  }

  lemma LeadsNowhere(db: Db, rule: (Db, Write) -> bool)
    requires WellKeyed(db)
    ensures Leads(db, [], db, rule)
  {
  }

  lemma LeadsOn(db: Db, log: seq<Write>, now: Db, w: Write, rule: (Db, Write) -> bool)
    requires Leads(db, log, now, rule) && rule(now, w)
    ensures Leads(db, log + [w], Apply(now, w), rule)
  {
    ReplayOne(db, log, w);
    EveryOne(db, log, w, rule);
  }

  lemma LeadsVia(db: Db, a: seq<Write>, mid: Db, b: seq<Write>, after: Db, rule: (Db, Write) -> bool)
    requires Leads(db, a, mid, rule) && Leads(mid, b, after, rule)
    ensures Leads(db, a + b, after, rule)
  {
    ReplayAppend(db, a, b);
    EveryAppend(db, a, b, rule);
  }

  lemma LeadsWeaken(db: Db, log: seq<Write>, after: Db, strong: (Db, Write) -> bool, weak: (Db, Write) -> bool)
    requires Leads(db, log, after, strong) && forall d, w :: strong(d, w) ==> weak(d, w)
    ensures Leads(db, log, after, weak)
  {
    EveryWeaken(db, log, strong, weak);
  }

  lemma {:induction false} LeadsKeyed(db: Db, log: seq<Write>, after: Db, rule: (Db, Write) -> bool)
    requires Leads(db, log, after, rule)
    ensures WellKeyed(after) && after == Replay(db, log)
  {
  }

  lemma {:induction false} ReplayIsKeyed(db: Db, log: seq<Write>)
    requires WellKeyed(db)
    ensures WellKeyed(Replay(db, log))
  {
    if log != [] {
      ReplayIsKeyed(db, log[..|log| - 1]);
    }
  }

  // ---------------------------------------------------------------- rules kept by writes

  /** The merge base of a path; absent without a row. */
  function BaseOf(db: Db, p: RelPath): Option<FileSide>
  {
    if p in db.rows then db.rows[p].synced else None
  }

  predicate IsParked(db: Db, p: RelPath)
  {
    p in db.rows && db.rows[p].state == PendingConflict
  }

  /** Two states of a row of the same kind with the same local and remote side, or no row in either. */
  predicate SameSides(a: Option<FileEntry>, b: Option<FileEntry>)
  {
    match (a, b)
    case (None, None) => true
    case (Some(x), Some(y)) => x.kind == y.kind && x.local == y.local && x.remote == y.remote
    case _ => false
  }

  lemma SidesReflexive(a: Option<FileEntry>)
    ensures SameSides(a, a)
  {
  }

  /** Leaves every merge base alone. */
  predicate KeepsBase(db: Db, w: Write)
  {
    w.PutEntry? ==> w.entry.synced == BaseOf(db, w.entry.path)
  }

  /** Leaves parked paths parked. */
  predicate KeepsParked(db: Db, w: Write)
  {
    w.PutEntry? && IsParked(db, w.entry.path) ==> w.entry.state == PendingConflict
  }

  /** Leaves the local side of existing rows alone. */
  predicate KeepsLocal(db: Db, w: Write)
  {
    w.PutEntry? && w.entry.path in db.rows ==> w.entry.local == db.rows[w.entry.path].local
  }

  /** Leaves the remote side of existing rows alone. */
  predicate KeepsRemote(db: Db, w: Write)
  {
    w.PutEntry? && w.entry.path in db.rows ==> w.entry.remote == db.rows[w.entry.path].remote
  }

  /** Leaves the pair's row alone. */
  predicate KeepsPair(db: Db, w: Write)
  {
    !w.PutPair?
  }

  /** The rule of the phases between the delta page and execution. */
  predicate Gentle(db: Db, w: Write)
  {
    KeepsBase(db, w) && KeepsParked(db, w) && KeepsRemote(db, w) && KeepsPair(db, w)
  }

  lemma {:induction false} BaseIsKept(db: Db, log: seq<Write>, p: RelPath)
    requires Every(db, log, KeepsBase)
    ensures BaseOf(Replay(db, log), p) == BaseOf(db, p)
  {
    if log != [] {
      BaseIsKept(db, log[..|log| - 1], p);
    }
  }

  lemma {:induction false} ParkedIsKept(db: Db, log: seq<Write>, p: RelPath)
    requires Every(db, log, KeepsParked) && IsParked(db, p)
    ensures IsParked(Replay(db, log), p)
  {
    if log != [] {
      ParkedIsKept(db, log[..|log| - 1], p);
    }
  }

  lemma {:induction false} RemoteIsKept(db: Db, log: seq<Write>, p: RelPath)
    requires Every(db, log, KeepsRemote) && p in db.rows
    ensures p in Replay(db, log).rows && Replay(db, log).rows[p].remote == db.rows[p].remote
  {
    if log != [] {
      RemoteIsKept(db, log[..|log| - 1], p);
    }
  }

  lemma {:induction false} PairIsKept(db: Db, log: seq<Write>)
    requires Every(db, log, KeepsPair)
    ensures Replay(db, log).pair == db.pair
  {
    if log != [] {
      PairIsKept(db, log[..|log| - 1]);
    }
  }

  // ---------------------------------------------------------------- the store object

  /**
   * Any call may fail; a failed write changes nothing. Every failure is counted, also those of
   * calls to the other ports that a cycle cannot go on without.
   */
  class StateStore {
    var rows: map<RelPath, FileEntry>
    var pair: Option<PairRow>
    var conflicts: seq<ConflictRow>
    var runs: seq<RunRow>
    ghost const base: Db        // what the store held when it was opened
    ghost var log: seq<Write>   // all writes since
    ghost var failures: nat     // calls that have failed

    constructor (db: Db)
      requires WellKeyed(db)
      ensures Valid() && Value() == db && log == [] && failures == 0
    {
      rows, pair, conflicts, runs := db.rows, db.pair, db.conflicts, db.runs;
      base, log, failures := db, [], 0;
    }

    ghost function Value(): Db
      reads this
    {
      Db(rows, pair, conflicts, runs)
    }

    ghost predicate Valid()
      reads this
    {
      Value() == Replay(base, log) && WellKeyed(Value())
    }

    /** A lookup that succeeds. */
    method Read(p: RelPath) returns (r: Option<FileEntry>)
      ensures r == Row(Value(), p)
    {
      r := Lookup(rows, p);
    }

    /** An upsert that succeeds. */
    method Upsert(e: FileEntry)
      requires Valid()
      modifies this
      ensures Valid()
      ensures log == old(log) + [PutEntry(e)] && Value() == Apply(old(Value()), PutEntry(e))
      ensures failures == old(failures)
    {
      ReplayOne(base, log, PutEntry(e));
      rows := rows[e.path := e];
      log := log + [PutEntry(e)];
    }

    /** One call, which may fail. It serves for the other ports as well. */
    method Attempt() returns (ok: bool)
      modifies `failures
      ensures failures == old(failures) + if ok then 0 else 1
    {
      ok := *;
      if !ok {
        failures := failures + 1;
      }
    }

    method FileEntryGet(p: RelPath) returns (ok: bool, r: Option<FileEntry>)
      modifies `failures
      ensures ok ==> r == Row(Value(), p)
      ensures failures == old(failures) + if ok then 0 else 1
    {
      ok := Attempt();
      r := Read(p);
    }

    /** Some row whose path equals `p` up to ASCII case. */
    method FileEntryGetCi(p: RelPath) returns (ok: bool, r: Option<FileEntry>)
      modifies `failures
      ensures failures == old(failures) + if ok then 0 else 1
      ensures ok && r.Some? ==>
        exists q :: q in Value().rows && AsciiLower(q) == AsciiLower(p) && r.value == Value().rows[q]
      ensures ok && r.None? ==> forall q :: q in Value().rows ==> AsciiLower(q) != AsciiLower(p)
    {
      ok := Attempt();
      if q :| q in rows && AsciiLower(q) == AsciiLower(p) {
        r := Some(rows[q]);
      } else {
        r := None;
      }
    }

    method FileEntryUpsert(e: FileEntry) returns (ok: bool)
      requires Valid()
      modifies this
      ensures Valid()
      ensures ok ==> log == old(log) + [PutEntry(e)] && Value() == Apply(old(Value()), PutEntry(e))
      ensures !ok ==> log == old(log) && Value() == old(Value())
      ensures failures == old(failures) + if ok then 0 else 1
    {
      ok := Attempt();
      if ok {
        Upsert(e);
      }
    }

    method PairGet() returns (ok: bool, r: Option<PairRow>)
      modifies `failures
      ensures ok ==> r == pair
      ensures failures == old(failures) + if ok then 0 else 1
    {
      ok := Attempt();
      r := pair;
    }

    method PairUpsert(p: PairRow) returns (ok: bool)
      requires Valid()
      modifies this
      ensures Valid()
      ensures ok ==> log == old(log) + [PutPair(p)] && Value() == Apply(old(Value()), PutPair(p))
      ensures !ok ==> log == old(log) && Value() == old(Value())
      ensures failures == old(failures) + if ok then 0 else 1
    {
      ok := Attempt();
      if ok {
        ReplayOne(base, log, PutPair(p));
        pair := Some(p);
        log := log + [PutPair(p)];
      }
    }

    method ConflictInsert(c: ConflictRow) returns (ok: bool)
      requires Valid()
      modifies this
      ensures Valid()
      ensures ok ==> log == old(log) + [AddConflict(c)] && Value() == Apply(old(Value()), AddConflict(c))
      ensures !ok ==> log == old(log) && Value() == old(Value())
      ensures failures == old(failures) + if ok then 0 else 1
    {
      ok := Attempt();
      if ok {
        ReplayOne(base, log, AddConflict(c));
        conflicts := conflicts + [c];
        log := log + [AddConflict(c)];
      }
    }

    method RunRecord(r: RunRow) returns (ok: bool)
      requires Valid()
      modifies this
      ensures Valid()
      ensures ok ==> log == old(log) + [AddRun(r)] && Value() == Apply(old(Value()), AddRun(r))
      ensures !ok ==> log == old(log) && Value() == old(Value())
      ensures failures == old(failures) + if ok then 0 else 1
    {
      ok := Attempt();
      if ok {
        ReplayOne(base, log, AddRun(r));
        runs := runs + [r];
        log := log + [AddRun(r)];
      }
    }
  }
}
