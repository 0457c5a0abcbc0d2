/** What holds over whole runs of cycles, each of which may be cut short after any of its writes. */
module CycleRuns {
  import opened Collections
  import opened Paths
  import opened Types
  import opened Store
  import opened DeltaPhase
  import opened Cycle
  import opened CycleOps
  import opened CycleSafety

  /** A cycle, ended after some of its writes, or a write of the pair's row between cycles. */
  datatype Event = CycleRun(input: Input, writes: nat) | PairWritten(row: PairRow)

  ghost function AfterEvent(env: Env, db: Db, e: Event): Db
  {
    match e
    case CycleRun(input, writes) =>
      var t := TraceOf(env, db, input);
      After(db, t, if writes <= |CycleLog(t)| then writes else |CycleLog(t)|)
    case PairWritten(row) => Apply(db, PutPair(row))
  }

  ghost function AfterEvents(env: Env, db: Db, events: seq<Event>): Db
  {
    if events == [] then db else AfterEvent(env, AfterEvents(env, db, events[..|events| - 1]), events[|events| - 1])
  }

  // ---------------------------------------------------------------- parking

  /** A path that no page has a tombstone for stays parked. */
  lemma {:induction false} ParkedForever(env: Env, db: Db, events: seq<Event>, p: RelPath)
    requires WellKeyed(db) && IsParked(db, p)
    requires forall e :: e in events && e.CycleRun? ==> WellFormed(env, e.input) && NoTombstone(e.input, p)
    ensures WellKeyed(AfterEvents(env, db, events)) && IsParked(AfterEvents(env, db, events), p)
  {
    hide WellFormed, NoTombstone, TraceOf, IsParked, CycleLog;
    if events != [] {
      ParkedForever(env, db, events[..|events| - 1], p);
      var before := AfterEvents(env, db, events[..|events| - 1]);
      match events[|events| - 1] {
        case CycleRun(input, writes) =>
          var t := TraceOf(env, before, input);
          var k := if writes <= |CycleLog(t)| then writes else |CycleLog(t)|;
          ParkedStaysParked(env, before, input, t, k, p);
          ReplayIsKeyed(before, CycleLog(t)[..k]);
        case PairWritten(row) =>
          SameRowSameParking(before, Apply(before, PutPair(row)), p);
      }
    }
  }

  // ---------------------------------------------------------------- the remote side

  /** No kept item of the page lies at `p`. */
  ghost predicate LeavesAlone(c: Input, p: RelPath)
  {
    !Touched(c.colls, c.page.items, |c.page.items|, p)
  }

  lemma {:induction false} UntouchedRows(colls: map<RelPath, RelPath>, items: seq<RemoteItem>, db: Db,
                                         log: seq<Write>, p: RelPath)
    requires Every(db, log, TouchRule(colls, items)) && !Touched(colls, items, |items|, p)
    ensures Row(Replay(db, log), p) == Row(db, p)
  {
    hide ItemPath;
    if log != [] {
      UntouchedRows(colls, items, db, log[..|log| - 1], p);
    }
  }

  /** Whatever writes of a cycle are made, the remote side of a tracked path changes only if the page speaks of it. */
  lemma RemoteChangesByPage(env: Env, db: Db, c: Input, t: Trace, k: nat, p: RelPath)
    requires WellFormed(env, c) && WellKeyed(db) && t == TraceOf(env, db, c) && k <= |CycleLog(t)|
    requires p in db.rows && LeavesAlone(c, p)
    ensures p in After(db, t, k).rows && After(db, t, k).rows[p].remote == db.rows[p].remote
  {
    hide WellFormed, DeltaOf, LocalOf, OverlapOf, ResolveOf, PlannedOf, RenamesOf, ExecOf, Leads, Middle, Ending,
         CycleLog, LeavesAlone;
    CycleIsLinked(env, db, c);
    AfterCut(db, t, k);
    DeltaLeavesAlone(env, db, c, t, |t.delta.log|, p);
    CursorKeeps(t.delta.db, c.page.token, c.clocks.cursor);
    match CutAt(t, k) {
      case InDelta(n) => DeltaLeavesAlone(env, db, c, t, n, p);
      case InCursor(n) => CursorIsShort(t, c, n);
      case _ => RemoteStays(db, t, k, p);
    }
  }

  lemma {:induction false} DeltaLeavesAlone(env: Env, db: Db, c: Input, t: Trace, n: nat, p: RelPath)
    requires WellKeyed(db) && t == TraceOf(env, db, c) && n <= |t.delta.log| && LeavesAlone(c, p)
    ensures Row(Replay(db, t.delta.log[..n]), p) == Row(db, p)
    ensures n == |t.delta.log| ==> Row(t.delta.db, p) == Row(db, p)
  {
    hide Walk, LocalOf, OverlapOf, ResolveOf, PlannedOf, RenamesOf, ExecOf, Touched;
    var items := c.page.items;
    WalkTouches(env, c.colls, db, c.renames, items, c.clocks.delta, |items|);
    EveryPrefix(db, t.delta.log, n, TouchRule(c.colls, items));
    UntouchedRows(c.colls, items, db, t.delta.log[..n], p);
    assert n == |t.delta.log| ==> t.delta.log[..n] == t.delta.log;
  }

  /** Once recorded, a remote side stays over every run whose pages do not speak of the path. */
  lemma {:induction false} RemoteForever(env: Env, db: Db, events: seq<Event>, p: RelPath)
    requires WellKeyed(db) && p in db.rows
    requires forall e :: e in events && e.CycleRun? ==> WellFormed(env, e.input) && LeavesAlone(e.input, p)
    ensures
      var after := AfterEvents(env, db, events);
      WellKeyed(after) && p in after.rows && after.rows[p].remote == db.rows[p].remote
  {
    hide WellFormed, LeavesAlone, TraceOf, CycleLog;
    if events != [] {
      RemoteForever(env, db, events[..|events| - 1], p);
      var before := AfterEvents(env, db, events[..|events| - 1]);
      match events[|events| - 1] {
        case CycleRun(input, writes) =>
          var t := TraceOf(env, before, input);
          var k := if writes <= |CycleLog(t)| then writes else |CycleLog(t)|;
          RemoteChangesByPage(env, before, input, t, k, p);
          ReplayIsKeyed(before, CycleLog(t)[..k]);
        case PairWritten(row) =>
      }
    }
  }

  // ---------------------------------------------------------------- the cursor

  /** A write of the pair's row between cycles that leaves the cursor alone, as the bookkeeping does. */
  ghost predicate KeepsCursor(before: Db, e: Event)
  {
    e.PairWritten? ==> before.pair.Some? && e.row.deltaToken == before.pair.value.deltaToken
  }

  ghost predicate CursorsKept(env: Env, db: Db, events: seq<Event>)
  {
    forall i :: 0 <= i < |events| ==> KeepsCursor(AfterEvents(env, db, events[..i]), events[i])
  }

  function CursorOf(db: Db): Option<string>
  {
    if db.pair.Some? then db.pair.value.deltaToken else None
  }

  /** Cycle `i` of the run read a page with this token and recorded all that it must. */
  ghost predicate BackedBy(env: Env, db: Db, events: seq<Event>, i: nat, cursor: Option<string>)
  {
    && i < |events| && events[i].CycleRun? && events[i].input.page.token == cursor
    && var before, c := AfterEvents(env, db, events[..i]), events[i].input;
       forall j :: 0 <= j < |c.page.items| && MustBeRecorded(before, c.colls, c.page.items[j]) ==>
         IsRecorded(AfterEvents(env, db, events[..i + 1]), c.page.items[j], c.clocks.delta(j))
  }

  /**
   * Over every run the stored cursor is the one it began with, or the token of a page that a
   * cycle of the run has read and whose items it has recorded, although any cycle may have been
   * cut anywhere.
   */
  lemma {:induction false} CursorIsBacked(env: Env, db: Db, events: seq<Event>)
    requires WellKeyed(db) && CursorsKept(env, db, events)
    requires forall e :: e in events && e.CycleRun? ==> WellFormed(env, e.input)
    ensures
      var after := AfterEvents(env, db, events);
      && WellKeyed(after)
      && (CursorOf(after) == CursorOf(db) || exists i: nat :: BackedBy(env, db, events, i, CursorOf(after)))
  {
    hide WellFormed, TraceOf, CycleLog, MustBeRecorded, IsRecorded;
    if events != [] {
      var n := |events| - 1;
      var front := events[..n];
      KeptInFront(env, db, events);
      CursorIsBacked(env, db, front);
      var before, after := AfterEvents(env, db, front), AfterEvents(env, db, events);
      assert events[..n + 1] == events;
      if CursorOf(after) == CursorOf(before) {
        if i: nat :| BackedBy(env, db, front, i, CursorOf(before)) {
          StillBacked(env, db, events, i, CursorOf(before));
        }
      }
      match events[n] {
        case CycleRun(input, writes) =>
          var t := TraceOf(env, before, input);
          var k := if writes <= |CycleLog(t)| then writes else |CycleLog(t)|;
          ReplayIsKeyed(before, CycleLog(t)[..k]);
          CursorCrashSafety(env, before, input, t, k);
          if CursorOf(after) != CursorOf(before) {
            assert BackedBy(env, db, events, n, CursorOf(after));
          }
        case PairWritten(row) =>
          assert KeepsCursor(AfterEvents(env, db, events[..n]), events[n]);
      }
    }
  }

  lemma KeptInFront(env: Env, db: Db, events: seq<Event>)
    requires events != [] && CursorsKept(env, db, events)
    ensures CursorsKept(env, db, events[..|events| - 1])
  {
    hide KeepsCursor, AfterEvents;
    var front := events[..|events| - 1];
    forall i | 0 <= i < |front| ensures KeepsCursor(AfterEvents(env, db, front[..i]), front[i]) {
      assert front[..i] == events[..i];
    }
  }

  lemma StillBacked(env: Env, db: Db, events: seq<Event>, i: nat, cursor: Option<string>)
    requires events != [] && BackedBy(env, db, events[..|events| - 1], i, cursor)
    ensures BackedBy(env, db, events, i, cursor)
  {
    hide MustBeRecorded, IsRecorded, AfterEvents;
    var front := events[..|events| - 1];
    assert front[..i] == events[..i] && front[..i + 1] == events[..i + 1];
  }
}
