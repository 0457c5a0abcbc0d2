/** What the scheduler does to the pair's row after a cycle: the second writer of the cursor. */
module Scheduler {
  import opened Collections
  import opened Types
  import opened Store
  import opened DeltaPhase
  import opened DeltaEngine
  import opened LocalPhase
  import opened ExecutePhase
  import opened Cycle
  import opened CycleSafety
  import opened CycleEngine
  import opened CycleRuns

  predicate IsPromoted(pair: PairRow, token: Option<string>)
  {
    pair.status == Initializing && token.Some?
  }

  /** The row to write, made from `pair` as it was before the cycle; none if nothing moved. */
  function Bookkeeping(pair: PairRow, token: Option<string>, now: Timestamp): Option<PairRow>
  {
    var cursor := if token.Some? then token else pair.deltaToken;
    if !IsPromoted(pair, token) && cursor == pair.deltaToken then None
    else Some(PairRow(if IsPromoted(pair, token) then Active else pair.status, cursor, Some(now), now))
  }

  /** A failing write is only logged. */
  method PersistPostCycle(store: StateStore, pair: PairRow, token: Option<string>, now: Timestamp) returns (ok: bool)
    requires store.Valid()
    modifies store
    ensures store.Valid()
    ensures
      var row := Bookkeeping(pair, token, now);
      && store.Value()
         == (if ok && row.Some? then Apply(old(store.Value()), PutPair(row.value)) else old(store.Value()))
      && store.log == old(store.log) + (if ok && row.Some? then [PutPair(row.value)] else [])
    ensures store.failures == old(store.failures) + if ok then 0 else 1
  {
    ok := true;
    var cursor := if token.Some? then token else pair.deltaToken;
    var promote := pair.status == Initializing && token.Some?;
    if !promote && cursor == pair.deltaToken {
      return;
    }
    ok := store.PairUpsert(pair.(status := if promote then Active else pair.status, deltaToken := cursor,
                                 lastSyncAt := Some(now), updatedAt := now));
  }

  /**
   * Made from a row read before the cycle, the bookkeeping leaves the cursor that the cycle stored:
   * the page's token, also when that is none, and whether or not the write succeeds.
   */
  lemma BookkeepingKeepsCursor(before: PairRow, token: Option<string>, cycleTime: Timestamp, now: Timestamp)
    ensures
      var stored := Advanced(Some(before), token, cycleTime).value;
      var row := Bookkeeping(before, token, now);
      stored.deltaToken == token && (row.Some? ==> row.value.deltaToken == stored.deltaToken)
  {
  }

  /**
   * The time of the last synchronisation is stamped exactly when the page brings a token that is
   * new or ends initialisation, however the operations of the run fared.
   */
  lemma StampedIff(before: PairRow, token: Option<string>, now: Timestamp)
    ensures Bookkeeping(before, token, now).Some? <==>
            token.Some? && (before.status == Initializing || token != before.deltaToken)
    ensures Bookkeeping(before, token, now).Some? ==>
      Bookkeeping(before, token, now).value.lastSyncAt == Some(now)
      && Bookkeeping(before, token, now).value.updatedAt == now
      && Bookkeeping(before, token, now).value.status == if before.status == Initializing then Active else before.status
  {
  }

  /** The store with the books kept on a cycle that began with the pair's row `pair`. */
  function WithBooks(db: Db, pair: PairRow, token: Option<string>, now: Timestamp): Db
  {
    var row := Bookkeeping(pair, token, now);
    if row.Some? then db.(pair := row) else db
  }

  /**
   * A whole turn: read the pair, run a cycle, keep its books. Without the pair's row there is no
   * cycle. The turn succeeds exactly if the row was read and the cycle returned a summary, and
   * then all the cycle's writes are made, and the books are kept unless that write failed.
   */
  method RunTurn(env: Env, store: StateStore, page: Page, scan: seq<ScanEntry>, clocks: Clocks, scripts: Scripts,
                 now: Timestamp)
    returns (r: Result<CycleSummary, EngineError>, ghost c: Input)
    requires store.Valid() && CoarserThanAscii(env.fold)
    modifies store
    ensures store.Valid() && TurnIsSafe(env, old(store.Value()), c, store.Value(), r.Ok?)
    ensures r.Ok? ==>
      var before := old(store.Value());
      var t := TraceOf(env, before, c);
      var mid := After(before, t, |CycleLog(t)|);
      && WellFormed(env, c) && c == Input(page, c.colls, c.renames, scan, clocks, scripts)
      && before.pair.Some? && Reaches(t)
      && store.Value() == (if store.failures == old(store.failures)
                           then WithBooks(mid, before.pair.value, page.token, now) else mid)
    ensures r.Err? ==>
      || (store.Value() == old(store.Value()) && (store.failures > old(store.failures) || store.Value().pair.None?))
      || (&& WellFormed(env, c) && c == Input(page, c.colls, c.renames, scan, clocks, scripts)
          && (store.failures > old(store.failures) || !Reaches(TraceOf(env, old(store.Value()), c))))
  {
    hide WellFormed, MustBeRecorded, IsRecorded, TraceOf, CycleLog, WellKeyed, After, Advanced, Bookkeeping, Reaches;
    ghost var before := store.Value();
    c := Input(page, map[], [], scan, clocks, scripts);
    var got, pair := store.PairGet();
    if !got || pair.None? {
      SafeIfUnchanged(env, before, c);
      return Err(Port), c;
    }
    ghost var k;
    r, c, k := RunCycle(env, store, page, scan, clocks, scripts);
    TurnAfterCycle(env, before, c, k, r.Ok?, store.Value());
    if r.Ok? {
      ghost var mid := store.Value();
      var ok := PersistPostCycle(store, pair.value, r.value.deltaToken, now);
      BooksAre(mid, pair.value, r.value.deltaToken, now);
      TurnAfterBooks(env, before, c, mid, pair.value, r.value.deltaToken, now, store.Value());
    }
  }

  lemma SafeIfUnchanged(env: Env, db: Db, c: Input)
    ensures TurnIsSafe(env, db, c, db, false)
  {
  }

  lemma BooksAre(db: Db, pair: PairRow, token: Option<string>, now: Timestamp)
    ensures
      var row := Bookkeeping(pair, token, now);
      WithBooks(db, pair, token, now) == if row.Some? then Apply(db, PutPair(row.value)) else db
  {
  }

  /**
   * What holds after a turn that may have failed anywhere. If the stored cursor is not the one of
   * before, it is the page's token. If it is the page's token, having been another, or if the turn
   * succeeded, every item that the page must leave a mark for is recorded. After a success the
   * cursor is the page's token.
   */
  ghost predicate TurnIsSafe(env: Env, before: Db, c: Input, now: Db, ok: bool)
  {
    && (now.pair.Some? <==> before.pair.Some?)
    && (now.pair.Some? && (ok || now.pair.value.deltaToken != before.pair.value.deltaToken) ==>
          now.pair.value.deltaToken == c.page.token)
    && (ok || CursorOf(now) != CursorOf(before) ==>
          forall i :: 0 <= i < |c.page.items| && MustBeRecorded(before, c.colls, c.page.items[i]) ==>
            IsRecorded(now, c.page.items[i], c.clocks.delta(i)))
  }

  lemma TurnAfterCycle(env: Env, before: Db, c: Input, k: nat, ok: bool, now: Db)
    requires WellFormed(env, c) && WellKeyed(before)
    requires
      var t := TraceOf(env, before, c);
      k <= |CycleLog(t)| && now == After(before, t, k) && (ok ==> k == |CycleLog(t)|)
    ensures TurnIsSafe(env, before, c, now, ok)
  {
    hide WellFormed, MustBeRecorded, IsRecorded, TraceOf, WellKeyed, Middle, Ending;
    CursorCrashSafety(env, before, c, TraceOf(env, before, c), k);
  }

  lemma TurnAfterBooks(env: Env, before: Db, c: Input, mid: Db, pair: PairRow, token: Option<string>, at: Timestamp,
                       now: Db)
    requires before.pair == Some(pair) && token == c.page.token && TurnIsSafe(env, before, c, mid, true)
    requires
      var row := Bookkeeping(pair, token, at);
      now == mid || (row.Some? && now == Apply(mid, PutPair(row.value)))
    ensures TurnIsSafe(env, before, c, now, true)
  {
    hide MustBeRecorded, ItemPath;
  }
}
