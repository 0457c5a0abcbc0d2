/**
 * The smallest cycle in which everything about conflicts happens: the page brings a file that the
 * scan finds as well. It shows that the settings of the statements about cycles do occur.
 */
module Example {
  import opened Collections
  import opened Paths
  import opened Types
  import opened Store
  import opened Collisions
  import opened DeltaPhase
  import opened LocalPhase
  import opened ConflictPhase
  import opened ResolvePhase
  import opened ExecutePhase
  import opened Cycle
  import opened DiskActions
  import opened LocalDisk
  import LoserNames

  const NOW: Timestamp := 0
  const ITEM := RemoteItem("item", "f", 1, Some("tag"), false, false, None)
  const SIDE := FileSide(File, 2, None, NOW, None, None)
  const SCANNED := ScanEntry("/r/f", SIDE)
  const REMOTE := RemoteSideOf(ITEM, NOW)
  const EMPTY := Db(map[], None, [], [])
  const LOSER: string := "f (conflict T from h)"

  function TheEnv(): Env
  {
    Env("/r", "h", AsciiLower, (s: string) => "00000000", (t: Timestamp) => "T")
  }

  function TheClock(): Clock
  {
    (n: nat) => NOW
  }

  /** All attempts of an operation go alike. */
  function Always(a: Attempt): Script
  {
    Script(true, (n: nat) => a, (n: nat) => 0.0, true, true)
  }

  /** What may happen to the operations is left open. */
  function TheInput(scripts: Scripts): Input
  {
    Input(Page([ITEM], Some("token")), map[], [], [SCANNED],
          Clocks(NOW, TheClock(), NOW, TheClock(), TheClock(), TheClock(), TheClock()), scripts)
  }

  /** The row as the page leaves it, as the overlap leaves it, and parked. */
  const FRESH := FileEntry("f", File, PendingDownload, None, Some(REMOTE), None, None, NOW)
  const BOTH := FRESH.(local := Some(SIDE))
  const CONFLICT := ConflictRow("f", RemoteSide, LOSER, SIDE, REMOTE, NOW)

  lemma TheItemPath()
    ensures ItemPath(ITEM) == Some("f") && ValidRel("f")
  {
    assert TrimSlashes("") == "" by { TrimNothing(); }
  }

  lemma TheScanPath()
    ensures RelFromAbs("/r", "/r/f") == Some("f")
  {
    TheItemPath();
    assert "/r/f"[2..] == "/f";
    TrimOne("f");
  }

  lemma TheLoser()
    ensures LoserFor(TheEnv(), "f", NOW) == Some(LOSER)
  {
    hide LoserNames.LoserText, ValidRel;
    TheName();
    TheLoserIsValid();
    assert TheEnv().host == "h" && TheEnv().stampText(NOW) == "T";
  }

  lemma TheName()
    ensures LoserNames.LoserText("f", "h", "T", 0) == LOSER
  {
    hide BaseStart, LoserNames.ExtStart, LoserNames.Marker, LoserNames.WithMarker;
    BaseStartIs("f", 0);
    assert LoserNames.ExtStart("f") == 1;
    TheMarker();
    PlainName("f", LoserNames.Marker("T", "h", 0));
  }

  lemma PlainName(s: string, m: string)
    requires BaseStart(s) == 0 && LoserNames.ExtStart(s) == |s|
    ensures LoserNames.WithMarker(s, m) == s + m
  {
    hide BaseStart, LoserNames.ExtStart;
    assert s[0..|s|] == s && s[|s|..] == "" && s + m + "" == s + m;
  }

  lemma TheMarker()
    ensures LoserNames.Marker("T", "h", 0) == " (conflict T from h)"
  {
  }

  lemma TheLoserIsValid()
    ensures ValidRel(LOSER)
  {
    assert forall i :: 0 <= i < |LOSER| ==> LOSER[i] != '.' && LOSER[i] != '\0';
  }

  lemma TheDelta(scripts: Scripts)
    ensures
      var d := DeltaOf(TheEnv(), EMPTY, TheInput(scripts));
      && d.db == EMPTY.(rows := map["f" := FRESH]) && d.decisions == [Decision("f", Download)]
      && d.live == map["f" := ITEM] && d.renames == []
  {
    hide ItemPath;
    TheItemPath();
    var c := TheInput(scripts);
    var start := Start(EMPTY, []);
    assert Walk(TheEnv(), c.colls, start, c.page.items, c.clocks.delta, 0) == start;
    assert Walk(TheEnv(), c.colls, start, c.page.items, c.clocks.delta, 1)
        == Step(TheEnv(), c.colls, start, ITEM, NOW);
  }

  lemma TheLocal(scripts: Scripts, d: DeltaAcc)
    requires d.decisions == [Decision("f", Download)] && d.live == map["f" := ITEM] && d.db.pair == None
    ensures
      var l := LocalOf(TheEnv(), TheInput(scripts), d);
      l.db == d.db && l.decisions == [] && l.overlaps == [Overlap("f", SIDE)] && l.moved == [] && !l.failed
  {
    hide RelFromAbs;
    TheScanPath();
    var c, after := TheInput(scripts), Replay(d.db, CursorMove(d.db, Some("token"), NOW));
    assert after == d.db;
    var decided := PathsDecided(d.decisions);
    assert d.decisions[0] in d.decisions && "f" in decided;
    assert LocalWalk(TheEnv(), decided, d.live, after, c.scan, c.clocks.local, 0) == Begin(after);
    assert LocalWalk(TheEnv(), decided, d.live, after, c.scan, c.clocks.local, 1)
        == LocalStep(TheEnv(), decided, d.live, Begin(after), SCANNED, NOW);
  }

  lemma TheOverlap(scripts: Scripts, d: DeltaAcc, l: LocalAcc)
    requires d.decisions == [Decision("f", Download)] && l.decisions == [] && l.overlaps == [Overlap("f", SIDE)]
    requires l.db == EMPTY.(rows := map["f" := FRESH])
    ensures
      var o := OverlapOf(TheInput(scripts), d, l);
      o.decisions == [Decision("f", ConflictDetected)] && o.db == EMPTY.(rows := map["f" := BOTH])
  {
    var ds, c := d.decisions + l.decisions, TheInput(scripts);
    assert ds == [Decision("f", Download)];
    var start := OverlapAcc(l.db, [], ds, 0);
    assert OverlapWalk(l.db, ds, l.overlaps, c.clocks.overlap, 0) == start;
    assert OverlapWalk(l.db, ds, l.overlaps, c.clocks.overlap, 1) == OverlapStep(start, Overlap("f", SIDE), NOW);
    assert FirstDownload(ds, "f") == Some(0);
  }

  lemma TheResolve(scripts: Scripts, o: OverlapAcc)
    requires o.decisions == [Decision("f", ConflictDetected)] && o.db == EMPTY.(rows := map["f" := BOTH])
    ensures
      var r := ResolveOf(TheEnv(), TheInput(scripts), o);
      !r.failed && r.kept == [] && r.ops == [RenameLoser(CONFLICT, NOW), DownloadWinner(CONFLICT, NOW)]
  {
    hide LoserFor;
    TheLoser();
    var c, d := TheInput(scripts), o.decisions[0];
    assert ResolveWalk(TheEnv(), o.db, o.decisions, c.clocks.resolve, 0) == Unresolved(o.db);
    assert ResolveWalk(TheEnv(), o.db, o.decisions, c.clocks.resolve, 1)
        == ResolveStep(TheEnv(), Unresolved(o.db), d, NOW, NOW);
    LoserNames.LocalWinsIff(NOW, NOW);
    assert RowConflict("f", BOTH, LOSER, NOW) == CONFLICT;
  }

  /** The operations of the cycle: the rename of the local file, and the download in its place. */
  lemma TheTrace(scripts: Scripts) returns (t: Trace)
    ensures t == TraceOf(TheEnv(), EMPTY, TheInput(scripts)) && Reaches(t) && t.local.moved == []
    ensures t.planned == [] && t.resolve.ops == [RenameLoser(CONFLICT, NOW), DownloadWinner(CONFLICT, NOW)]
    ensures t.Ops() == t.resolve.ops
  {
    hide DeltaOf, LocalOf, OverlapOf, ResolveOf, ExecOf;
    t := TraceOf(TheEnv(), EMPTY, TheInput(scripts));
    TheDelta(scripts);
    TheLocal(scripts, t.delta);
    TheOverlap(scripts, t.delta, t.local);
    TheResolve(scripts, t.overlap);
    assert t.planned == [];
    assert t.renames == [];
  }

  lemma TheInputIsWellFormed(scripts: Scripts)
    ensures WellFormed(TheEnv(), TheInput(scripts)) && DistinctScan(TheEnv(), TheInput(scripts).scan)
    ensures ScannedAt(TheEnv(), TheInput(scripts).scan, 1, "f")
  {
    hide ItemPath, RelFromAbs, AsciiLower;
    TheItemPath();
    TheScanPath();
    var c := TheInput(scripts);
    FilterMapSnoc(ItemPath, [ITEM], 1);
    assert [ITEM][..1] == [ITEM] && [ITEM][..0] == [] && PathsOf([ITEM]) == ["f"];
    assert IsCanonical(AsciiLower, ["f"], "f", "f");
    assert RelFromAbs(TheEnv().root, c.scan[0].abs) == Some("f");
  }

  function TheDisk(): Disk
  {
    (p: RelPath) => if p == "f" then Some("local content") else None
  }

  /** The cycle meets what is asked of cycles, and its conflict group what is asked of groups. */
  lemma ConflictsOccur(scripts: Scripts) returns (t: Trace)
    ensures Setting(TheEnv(), EMPTY, TheInput(scripts), t, TheDisk())
    ensures StartsGroup(t, 0) && IsScannedFile(TheEnv(), EMPTY, TheInput(scripts), TheDisk(), t.Ops()[0].path)
    ensures t.local.moved == [] && t.Ops() == [RenameLoser(CONFLICT, NOW), DownloadWinner(CONFLICT, NOW)]
  {
    hide TraceOf, WellFormed, DistinctScan, ScannedAt;
    t := TheTrace(scripts);
    TheInputIsWellFormed(scripts);
    assert !Within(LOSER, "f");
    assert forall name :: IsNewName(t, name) ==> name == LOSER;
  }

  /** The rename is refused; the download puts the file in place in every attempt, and then reports an error. */
  function TheLoss(): Scripts
  {
    (i: nat) => if i == 0 then Always(Attempt(Some(PermissionDenied), None, false))
                else Always(Attempt(Some(Io), None, true))
  }

  /** Content is lost although the cycle counts both operations as failed. */
  lemma ContentIsLost() returns (t: Trace, acts: seq<Action>)
    ensures Setting(TheEnv(), EMPTY, TheInput(TheLoss()), t, TheDisk()) && StartsGroup(t, 0) && |t.Ops()| == 2
    ensures forall i :: 0 <= i < 2 ==> !Succeeds(TheEnv().root, t.Ops()[i], TheLoss()(i))
    ensures acts == Actions(TheEnv(), TheInput(TheLoss()), t, (i: nat) => "remote content") && |acts| == 2
    ensures !IsIntact(TheDisk(), acts, 2, "f") && Run(TheDisk(), acts, 2)("f") == Some("remote content")
    ensures forall q :: Run(TheDisk(), acts, 2)(q) != Some("local content")
  {
    hide Setting, TraceOf, IsScannedFile;
    t := ConflictsOccur(TheLoss());
    acts := Actions(TheEnv(), TheInput(TheLoss()), t, (i: nat) => "remote content");
    TheRename();
    TheDownload();
    assert acts == [Idle, Write("f", "remote content")];
    assert Run(TheDisk(), acts, 0) == TheDisk();
    assert Run(TheDisk(), acts, 1) == TheDisk();
    assert Run(TheDisk(), acts, 2) == Act(TheDisk(), Write("f", "remote content"));
    assert Place(acts, 0, "f") == Place(acts, 1, "f") == Place(acts, 2, "f") == "f";
  }

  lemma TheJoin()
    ensures Joins("/r", "f")
  {
    var abs := "/r" + "/" + "f";
    assert |abs| == 4 && forall i :: 0 <= i < |abs| ==> abs[i] != '.' && abs[i] != '\0';
  }

  lemma TheRename()
    ensures
      var op, s := RenameLoser(CONFLICT, NOW), TheLoss()(0);
      !Succeeds("/r", op, s) && ActionOf("/r", op, s, "remote content") == Idle
  {
    hide Joins, RunFrom;
    var op, s, a := RenameLoser(CONFLICT, NOW), TheLoss()(0), Attempt(Some(PermissionDenied), None, false);
    assert s == Always(a) && forall k: nat :: s.attempts(k) == a;
    LastDecides("/r", op, s, 0);
    ExecutionSucceedsIff("/r", op, a);
  }

  lemma TheDownload()
    ensures
      var op, s := DownloadWinner(CONFLICT, NOW), TheLoss()(1);
      !Succeeds("/r", op, s) && ActionOf("/r", op, s, "remote content") == Write("f", "remote content")
  {
    hide Joins, RunFrom;
    TheJoin();
    var op, s, a := DownloadWinner(CONFLICT, NOW), TheLoss()(1), Attempt(Some(Io), None, true);
    assert s == Always(a) && forall k: nat :: s.attempts(k) == a;
    LastDecides("/r", op, s, 0);
    ExecutionSucceedsIff("/r", op, a);
    assert Lands("/r", op, s.attempts(0));
  }
}
