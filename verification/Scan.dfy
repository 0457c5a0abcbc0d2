/** The bounded breadth-first directory scan, against a depth-first enumeration of the tree. */
module Scan {
  import opened Collections
  import Types

  const SCAN_QUEUE_DEPTH_MAX: nat := 65_536

  /** A file name as the operating system reports it. */
  datatype OsName = Utf8(text: string) | NonUtf8(raw: seq<nat>)

  datatype Node =
    | FileNode(size: nat, mtime: int)
    | DirNode(mtime: int, entries: seq<DirEntry>)
    | SymlinkNode
    | OtherNode

  datatype DirEntry = DirEntry(name: OsName, node: Node)

  /** The names on the way from the scan root. */
  type Path = seq<OsName>

  datatype Meta = Meta(path: Path, kind: Types.FileKind, size: nat, mtime: int)

  datatype SkipReason = Symlink | ResourceFork | DenyListed | NotUtf8

  datatype ScanError = Io | InvalidPath

  const SKIP_NAMES: set<string> := {".DS_Store", "Icon\r", ".localized"}

  function ClassifySkip(e: DirEntry): Option<SkipReason>
  {
    if e.node.SymlinkNode? then Some(Symlink)
    else match e.name
      case NonUtf8(_) => Some(NotUtf8)
      case Utf8(text) =>
        if "._" <= text then Some(ResourceFork)
        else if text in SKIP_NAMES then Some(DenyListed)
        else None
  }

  /** What is passed over: every link, and files and directories with a name that is no text or is reserved. */
  lemma SkippedIff(e: DirEntry)
    ensures ClassifySkip(e) == Some(Symlink) <==> e.node.SymlinkNode?
    ensures ClassifySkip(e).None? <==>
            && !e.node.SymlinkNode? && e.name.Utf8?
            && !(|e.name.text| >= 2 && e.name.text[0] == '.' && e.name.text[1] == '_')
            && e.name.text != ".DS_Store" && e.name.text != "Icon\r" && e.name.text != ".localized"
  {
  }

  // ---------------------------------------------------------------- what a scan should find

  datatype Found = Listed(meta: Meta) | Link(path: Path)

  function PathOf(f: Found): Path
  {
    if f.Listed? then f.meta.path else f.path
  }

  function AsMeta(f: Found): Option<Meta>
  {
    if f.Listed? then Some(f.meta) else None
  }

  function AsLink(f: Found): Option<Path>
  {
    if f.Link? then Some(f.path) else None
  }

  function AsDirectory(f: Found): Option<Meta>
  {
    if f.Listed? && f.meta.kind.Directory? then Some(f.meta) else None
  }

  /** What entry `e` of directory `dir` contributes by itself. */
  function Self(dir: Path, e: DirEntry): seq<Found>
  {
    var path := dir + [e.name];
    match ClassifySkip(e)
    case Some(Symlink) => [Link(path)]
    case Some(_) => []
    case None =>
      match e.node
      case FileNode(size, mtime) => [Listed(Meta(path, Types.File, size, mtime))]
      case DirNode(mtime, _) => [Listed(Meta(path, Types.Directory, 0, mtime))]
      case _ => []
  }

  /** Everything below entry `e`, which is nothing unless it is a directory that is not skipped. */
  function Below(dir: Path, e: DirEntry): seq<Found>
    decreases e, 0
  {
    if ClassifySkip(e).None? && e.node.DirNode? then Reach(dir + [e.name], e.node.entries) else []
  }

  /** Depth-first enumeration of all that is reachable through directories that are not skipped. */
  function Reach(dir: Path, entries: seq<DirEntry>): seq<Found>
    decreases entries
  {
    if entries == [] then []
    else Self(dir, entries[0]) + Below(dir, entries[0]) + Reach(dir, entries[1..])
  }

  /** Number of entries at and below, plus one: what the scan's work shrinks by. */
  function Weight(entries: seq<DirEntry>): (w: nat)
    ensures w > 0
    decreases entries
  {
    if entries == [] then 1 else EntryWeight(entries[0]) + Weight(entries[1..])
  }

  function EntryWeight(e: DirEntry): (w: nat)
    ensures w > 0
    decreases e, 0
  {
    match e.node
    case DirNode(_, below) => Weight(below)
    case _ => 1
  }

  lemma {:induction false} WeightBelow(entries: seq<DirEntry>)
    requires entries != [] && entries[0].node.DirNode?
    ensures Weight(entries[0].node.entries) < Weight(entries)
  {
    assert EntryWeight(entries[0]) == Weight(entries[0].node.entries);
  }

  // ---------------------------------------------------------------- facts about the enumeration

  lemma {:induction false} InReach(dir: Path, entries: seq<DirEntry>, f: Found)
    requires f in Reach(dir, entries)
    ensures entries != []
    ensures f in Self(dir, entries[0]) || f in Below(dir, entries[0]) || f in Reach(dir, entries[1..])
  {
  }

  lemma {:induction false} ReachExtends(dir: Path, entries: seq<DirEntry>, f: Found)
    requires f in Reach(dir, entries)
    ensures |dir| < |PathOf(f)| && PathOf(f)[..|dir|] == dir
    ensures exists e :: e in entries && e.name == PathOf(f)[|dir|]
    decreases Weight(entries)
  {
    hide Reach;
    InReach(dir, entries, f);
    var e := entries[0];
    if f in Self(dir, e) {
      assert PathOf(f) == dir + [e.name];
    } else if f in Below(dir, e) {
      WeightBelow(entries);
      ReachExtends(dir + [e.name], e.node.entries, f);
      assert PathOf(f)[..|dir| + 1][..|dir|] == dir;
      assert PathOf(f)[..|dir| + 1][|dir|] == e.name;
    } else {
      ReachExtends(dir, entries[1..], f);
    }
  }

  /** The directory that contains a find below the first level is itself a find. */
  lemma {:induction false} ParentIsListed(dir: Path, entries: seq<DirEntry>, f: Found) returns (p: Found)
    requires f in Reach(dir, entries) && |PathOf(f)| > |dir| + 1
    ensures p in Reach(dir, entries) && AsDirectory(p).Some?
    ensures PathOf(p) == PathOf(f)[..|PathOf(f)| - 1]
    decreases Weight(entries)
  {
    var e := entries[0];
    if f in Self(dir, e) || f in Below(dir, e) {
      assert f in Below(dir, e);
      WeightBelow(entries);
      ReachExtends(dir + [e.name], e.node.entries, f);
      if |PathOf(f)| == |dir| + 2 {
        p := Self(dir, e)[0];
      } else {
        p := ParentIsListed(dir + [e.name], e.node.entries, f);
      }
    } else {
      p := ParentIsListed(dir, entries[1..], f);
    }
  }

  /** Sibling names are distinct, all the way down. */
  ghost predicate WellNamed(entries: seq<DirEntry>)
    decreases Weight(entries)
  {
    entries != [] ==>
      && (forall e :: e in entries[1..] ==> e.name != entries[0].name)
      && (entries[0].node.DirNode? ==> (WeightBelow(entries); WellNamed(entries[0].node.entries)))
      && WellNamed(entries[1..])
  }

  lemma DistinctConcat(a: seq<Found>, b: seq<Found>)
    requires DistinctBy(PathOf, a) && DistinctBy(PathOf, b)
    requires forall f, g :: f in a && g in b ==> PathOf(f) != PathOf(g)
    ensures DistinctBy(PathOf, a + b)
  {
    forall i, j | 0 <= i < j < |a + b| ensures PathOf((a + b)[i]) != PathOf((a + b)[j]) {
      if i < |a| <= j {
        assert a[i] in a && b[j - |a|] in b;
      }
    }
  }

  /** In a well-named tree no path is enumerated twice. */
  lemma {:induction false} ReachIsDistinct(dir: Path, entries: seq<DirEntry>)
    requires WellNamed(entries)
    ensures DistinctBy(PathOf, Reach(dir, entries))
    decreases Weight(entries)
  {
    if entries != [] {
      var e, rest := entries[0], entries[1..];
      ReachIsDistinct(dir, rest);
      if e.node.DirNode? {
        WeightBelow(entries);
        ReachIsDistinct(dir + [e.name], e.node.entries);
      }
      var self, below, others := Self(dir, e), Below(dir, e), Reach(dir, rest);
      forall f | f in below ensures |PathOf(f)| > |dir| + 1 && PathOf(f)[|dir|] == e.name {
        ReachExtends(dir + [e.name], e.node.entries, f);
        assert PathOf(f)[..|dir| + 1][|dir|] == e.name;
      }
      forall f | f in others ensures |PathOf(f)| > |dir| && PathOf(f)[|dir|] != e.name {
        ReachExtends(dir, rest, f);
      }
      DistinctConcat(self, below);
      DistinctConcat(self + below, others);
    }
  }

  // ---------------------------------------------------------------- the work queue

  datatype Pending = Pending(dir: Path, entries: seq<DirEntry>)

  function Waiting(queue: seq<Pending>): seq<Found>
  {
    if queue == [] then [] else Reach(queue[0].dir, queue[0].entries) + Waiting(queue[1..])
  }

  function TotalWeight(queue: seq<Pending>): nat
  {
    if queue == [] then 0 else Weight(queue[0].entries) + TotalWeight(queue[1..])
  }

  lemma {:induction false} PushBack(queue: seq<Pending>, p: Pending)
    ensures Waiting(queue + [p]) == Waiting(queue) + Reach(p.dir, p.entries)
    ensures TotalWeight(queue + [p]) == TotalWeight(queue) + Weight(p.entries)
  {
    hide Reach, Weight;
    if queue == [] {
      assert queue + [p] == [p];
      assert [p][1..] == [];
    } else {
      PushBack(queue[1..], p);
      assert (queue + [p])[1..] == queue[1..] + [p];
    }
  }

  /** Queue entries lie on one level or the next, the nearer ones first. */
  ghost predicate Levelled(queue: seq<Pending>, level: nat)
  {
    && (forall q :: q in queue ==> level <= |q.dir| <= level + 1)
    && (forall a, b :: 0 <= a < b < |queue| ==> |queue[a].dir| <= |queue[b].dir|)
  }

  /** Metadata is listed level by level, none deeper than `deepest`. */
  ghost predicate ByDepth(out: seq<Meta>, deepest: nat)
  {
    && (forall m :: m in out ==> |m.path| <= deepest)
    && (forall a, b :: 0 <= a < b < |out| ==> |out[a].path| <= |out[b].path|)
  }

  /** Nothing is lost or made up: found, still to do in the open directory, and queued. */
  ghost predicate Accounted(found: seq<Found>, dir: Path, todo: seq<DirEntry>, queue: seq<Pending>, all: seq<Found>)
  {
    multiset(found + Reach(dir, todo) + Waiting(queue)) == multiset(all)
  }

  /** Handling one entry moves its own find over and leaves what lies below it to the queue. */
  lemma {:induction false} AccountForEntry(found: seq<Found>, dir: Path, todo: seq<DirEntry>, queue: seq<Pending>,
                                           queue': seq<Pending>, all: seq<Found>)
    requires todo != [] && Accounted(found, dir, todo, queue, all)
    requires
      var e := todo[0];
      queue' == if ClassifySkip(e).None? && e.node.DirNode?
                then queue + [Pending(dir + [e.name], e.node.entries)] else queue
    ensures Accounted(found + Self(dir, todo[0]), dir, todo[1..], queue', all)
    ensures Weight(todo[1..]) + TotalWeight(queue') <= Weight(todo) + TotalWeight(queue)
  {
    var e := todo[0];
    var self, below, rest := Self(dir, e), Below(dir, e), Reach(dir, todo[1..]);
    if queue' != queue {
      PushBack(queue, Pending(dir + [e.name], e.node.entries));
    }
    Reorder(found, self, below, rest, Waiting(queue));
    assert Waiting(queue') == Waiting(queue) + below;
  }

  lemma Reorder<T>(a: seq<T>, b: seq<T>, c: seq<T>, d: seq<T>, e: seq<T>)
    ensures multiset(a + (b + c + d) + e) == multiset((a + b) + d + (e + c))
  {
  }

  /** A directory that does not fit in a full queue shows that the tree has too many of them. */
  lemma {:induction false} OverflowMeansManyDirectories(found: seq<Found>, dir: Path, todo: seq<DirEntry>,
                                                        queue: seq<Pending>, all: seq<Found>)
    requires todo != [] && Accounted(found, dir, todo, queue, all)
    requires ClassifySkip(todo[0]).None? && todo[0].node.DirNode?
    requires |queue| >= SCAN_QUEUE_DEPTH_MAX
    requires |FilterMap(AsDirectory, found)| >= |queue|
    ensures |FilterMap(AsDirectory, all)| > SCAN_QUEUE_DEPTH_MAX
  {
    var self, rest := Self(dir, todo[0]), Below(dir, todo[0]) + Reach(dir, todo[1..]) + Waiting(queue);
    SplitOff(found, self, Below(dir, todo[0]), Reach(dir, todo[1..]), Waiting(queue));
    DirectoriesOf(found + self, rest, all);
    RecordSelf(found, dir, todo[0]);
  }

  lemma SplitOff<T>(a: seq<T>, b: seq<T>, c: seq<T>, d: seq<T>, e: seq<T>)
    ensures a + (b + c + d) + e == (a + b) + (c + d + e)
  {
  }

  lemma {:induction false} DirectoriesOf(found: seq<Found>, rest: seq<Found>, all: seq<Found>)
    requires multiset(found + rest) == multiset(all)
    ensures |FilterMap(AsDirectory, found)| <= |FilterMap(AsDirectory, all)|
  {
    FilterMapPermutes(AsDirectory, found + rest, all);
    SameLength(FilterMap(AsDirectory, found + rest), FilterMap(AsDirectory, all));
    FilterMapAppend(AsDirectory, found, rest);
  }

  // ---------------------------------------------------------------- the scan

  /** The lists kept by the scan are what was found so far, in that order. */
  ghost predicate Records(found: seq<Found>, out: seq<Meta>, symlinks: seq<Path>)
  {
    out == FilterMap(AsMeta, found) && symlinks == FilterMap(AsLink, found)
  }

  lemma {:induction false} RecordSelf(found: seq<Found>, dir: Path, e: DirEntry)
    ensures FilterMap(AsMeta, found + Self(dir, e)) == FilterMap(AsMeta, found) + FilterMap(AsMeta, Self(dir, e))
    ensures FilterMap(AsLink, found + Self(dir, e)) == FilterMap(AsLink, found) + FilterMap(AsLink, Self(dir, e))
    ensures FilterMap(AsDirectory, found + Self(dir, e))
            == FilterMap(AsDirectory, found) + FilterMap(AsDirectory, Self(dir, e))
    ensures FilterMap(AsMeta, Self(dir, e))
            == if Self(dir, e) != [] && Self(dir, e)[0].Listed? then [Self(dir, e)[0].meta] else []
    ensures FilterMap(AsLink, Self(dir, e))
            == if Self(dir, e) != [] && Self(dir, e)[0].Link? then [Self(dir, e)[0].path] else []
    ensures |FilterMap(AsDirectory, Self(dir, e))|
            == if ClassifySkip(e).None? && e.node.DirNode? then 1 else 0
  {
    FilterMapAppend(AsMeta, found, Self(dir, e));
    FilterMapAppend(AsLink, found, Self(dir, e));
    FilterMapAppend(AsDirectory, found, Self(dir, e));
    if Self(dir, e) != [] {
      assert Self(dir, e)[..0] == [];
    }
  }

  /** The queue and the two result lists of a scan. */
  datatype Progress = Progress(queue: seq<Pending>, out: seq<Meta>, symlinks: seq<Path>)

  /** One entry of directory `dir`, given that the queue has room. */
  function Handle(dir: Path, e: DirEntry, s: Progress): Progress
  {
    var path := dir + [e.name];
    match ClassifySkip(e)
    case Some(Symlink) => s.(symlinks := s.symlinks + [path])
    case Some(_) => s
    case None =>
      match e.node
      case DirNode(mtime, below) =>
        s.(queue := s.queue + [Pending(path, below)], out := s.out + [Meta(path, Types.Directory, 0, mtime)])
      case FileNode(size, mtime) => s.(out := s.out + [Meta(path, Types.File, size, mtime)])
      case _ => s
  }

  predicate IsSubdirectory(e: DirEntry)
  {
    ClassifySkip(e).None? && e.node.DirNode?
  }

  /** A scan in the middle of directory `dir`, with `todo` left of it; `popped` directories were taken. */
  ghost predicate Midway(found: seq<Found>, dir: Path, todo: seq<DirEntry>, s: Progress, popped: nat, all: seq<Found>)
  {
    && Records(found, s.out, s.symlinks)
    && Accounted(found, dir, todo, s.queue, all)
    && Levelled(s.queue, |dir|) && ByDepth(s.out, |dir| + 1)
    && |s.queue| + popped == |FilterMap(AsDirectory, found)| + 1
    && |s.queue| <= SCAN_QUEUE_DEPTH_MAX
  }

  lemma {:induction false} HandleKeepsMidway(found: seq<Found>, dir: Path, todo: seq<DirEntry>, s: Progress,
                                             popped: nat, all: seq<Found>)
    requires todo != [] && Midway(found, dir, todo, s, popped, all)
    requires IsSubdirectory(todo[0]) ==> |s.queue| < SCAN_QUEUE_DEPTH_MAX
    ensures Midway(found + Self(dir, todo[0]), dir, todo[1..], Handle(dir, todo[0], s), popped, all)
    ensures Weight(todo[1..]) + TotalWeight(Handle(dir, todo[0], s).queue) <= Weight(todo) + TotalWeight(s.queue)
  {
    RecordSelf(found, dir, todo[0]);
    AccountForEntry(found, dir, todo, s.queue, Handle(dir, todo[0], s).queue, all);
    HandleKeepsOrder(dir, todo[0], s);
  }

  lemma HandleKeepsOrder(dir: Path, e: DirEntry, s: Progress)
    requires Levelled(s.queue, |dir|) && ByDepth(s.out, |dir| + 1)
    ensures Levelled(Handle(dir, e, s).queue, |dir|) && ByDepth(Handle(dir, e, s).out, |dir| + 1)
  {
  }

  /** Taking the next directory off the queue. */
  lemma PopKeepsMidway(found: seq<Found>, dir: Path, s: Progress, popped: nat, all: seq<Found>)
    requires s.queue != [] && Midway(found, dir, [], s, popped, all)
    ensures
      var next := s.queue[0];
      && Midway(found, next.dir, next.entries, s.(queue := s.queue[1..]), popped + 1, all)
      && TotalWeight(s.queue) == Weight(next.entries) + TotalWeight(s.queue[1..])
  {
    var next, rest := s.queue[0], s.queue[1..];
    PopKeepsOrder(s.queue, s.out, |dir|);
    Regroup(found, Reach(next.dir, next.entries), Waiting(rest));
    assert Waiting(s.queue) == Reach(next.dir, next.entries) + Waiting(rest);
    assert Reach(dir, []) == [];
  }

  lemma PopKeepsOrder(queue: seq<Pending>, out: seq<Meta>, level: nat)
    requires queue != [] && Levelled(queue, level) && ByDepth(out, level + 1)
    ensures Levelled(queue[1..], |queue[0].dir|) && ByDepth(out, |queue[0].dir| + 1)
  {
    assert queue[0] in queue;
    forall q | q in queue[1..] ensures |queue[0].dir| <= |q.dir| <= |queue[0].dir| + 1 {
      assert q in queue;
    }
  }

  lemma Regroup<T>(a: seq<T>, b: seq<T>, c: seq<T>)
    ensures a + b + c == a + [] + (b + c)
  {
  }

  lemma {:induction false} StartIsMidway(root: seq<DirEntry>)
    ensures Midway([], [], [], Progress([Pending([], root)], [], []), 0, Reach([], root))
  {
    var queue := [Pending([], root)];
    assert queue[1..] == [];
    assert [] + Reach([], []) + Waiting(queue) == Reach([], root);
  }

  /** The calls that read directories and metadata. Any of them may fail, and failures are counted. */
  class Reader {
    ghost var failures: nat

    constructor ()
      ensures failures == 0
    {
      failures := 0;
    }

    method Call() returns (ok: bool)
      modifies this
      ensures failures == old(failures) + if ok then 0 else 1
    {
      ok := *;
      if !ok {
        failures := failures + 1;
      }
    }
  }

  /**
   * Lists one directory: appends its files and sub-directories to `out`, its links to `symlinks`
   * and its sub-directories to the queue, or stops with an error.
   */
  method ListDirectory(reader: Reader, dir: Path, entries: seq<DirEntry>, s: Progress,
                       ghost found: seq<Found>, ghost popped: nat, ghost all: seq<Found>)
    returns (error: Option<ScanError>, s': Progress, ghost found': seq<Found>)
    requires popped > 0 && Midway(found, dir, entries, s, popped, all)
    modifies reader
    ensures reader.failures == old(reader.failures) + if error == Some(Io) then 1 else 0
    ensures |s'.queue| <= SCAN_QUEUE_DEPTH_MAX
    ensures error == Some(InvalidPath) ==> |FilterMap(AsDirectory, all)| > SCAN_QUEUE_DEPTH_MAX
    ensures error.None? ==>
      && Midway(found', dir, [], s', popped, all)
      && TotalWeight(s'.queue) < Weight(entries) + TotalWeight(s.queue)
  {
    error, s', found' := None, s, found;
    var i := 0;
    while i < |entries|
      invariant 0 <= i <= |entries| && error.None? && reader.failures == old(reader.failures)
      invariant Midway(found', dir, entries[i..], s', popped, all)
      invariant Weight(entries[i..]) + TotalWeight(s'.queue) <= Weight(entries) + TotalWeight(s.queue)
    {
      var e := entries[i];
      var readable := reader.Call();
      if !readable {
        error := Some(Io);
        return;
      }
      assert entries[i..][0] == e && entries[i..][1..] == entries[i + 1..];
      if IsSubdirectory(e) && |s'.queue| >= SCAN_QUEUE_DEPTH_MAX {
        OverflowMeansManyDirectories(found', dir, entries[i..], s'.queue, all);
        error := Some(InvalidPath);
        return;
      }
      HandleKeepsMidway(found', dir, entries[i..], s', popped, all);
      s', found' := Handle(dir, e, s'), found' + Self(dir, e);
      i := i + 1;
    }
  }

  /** Each directory is listed before everything below it. */
  ghost predicate ParentsFirst(out: seq<Meta>)
  {
    forall b :: 0 <= b < |out| && |out[b].path| > 1 ==>
      exists a :: 0 <= a < b && out[a].kind == Types.Directory && out[a].path == out[b].path[..|out[b].path| - 1]
  }

  /**
   * Walks the tree `root` breadth-first.
   *
   * A result lists exactly what the depth-first enumeration reaches, level by level, each
   * directory before its content. There is one unless a read fails or the queue overflows, which
   * only happens for a tree with too many directories; `peak` is the longest the queue has been.
   */
  method ScanWithSkips(reader: Reader, root: seq<DirEntry>)
    returns (r: Result<(seq<Meta>, seq<Path>), ScanError>, ghost peak: nat)
    modifies reader
    ensures r == Err(Io) <==> reader.failures > old(reader.failures)
    ensures peak <= SCAN_QUEUE_DEPTH_MAX
    ensures r.Ok? ==>
      && multiset(r.value.0) == multiset(FilterMap(AsMeta, Reach([], root)))
      && multiset(r.value.1) == multiset(FilterMap(AsLink, Reach([], root)))
      && (forall a, b :: 0 <= a < b < |r.value.0| ==> |r.value.0[a].path| <= |r.value.0[b].path|)
      && ParentsFirst(r.value.0)
    ensures r == Err(InvalidPath) ==> |FilterMap(AsDirectory, Reach([], root))| > SCAN_QUEUE_DEPTH_MAX
  {
    ghost var all := Reach([], root);
    var s := Progress([Pending([], root)], [], []);
    ghost var found: seq<Found>, dir: Path, popped: nat := [], [], 0;
    peak := 1;
    StartIsMidway(root);
    while s.queue != []
      invariant Midway(found, dir, [], s, popped, all)
      invariant peak <= SCAN_QUEUE_DEPTH_MAX && reader.failures == old(reader.failures)
      decreases TotalWeight(s.queue)
    {
      var readable := reader.Call();
      if !readable {
        return Err(Io), peak;
      }
      PopKeepsMidway(found, dir, s, popped, all);
      var next := s.queue[0];
      dir, popped := next.dir, popped + 1;
      var error;
      error, s, found := ListDirectory(reader, next.dir, next.entries, s.(queue := s.queue[1..]), found, popped, all);
      peak := if |s.queue| > peak then |s.queue| else peak;
      if error.Some? {
        return Err(error.value), peak;
      }
    }
    assert found + Reach(dir, []) + Waiting([]) == found;
    FilterMapPermutes(AsMeta, found, all);
    FilterMapPermutes(AsLink, found, all);
    ListedParentsFirst(root, found, s.out);
    return Ok((s.out, s.symlinks)), peak;
  }

  lemma ParentInList(root: seq<DirEntry>, found: seq<Found>, b: nat) returns (a: nat)
    requires multiset(found) == multiset(Reach([], root))
    requires b < |FilterMap(AsMeta, found)| && |FilterMap(AsMeta, found)[b].path| > 1
    ensures a < |FilterMap(AsMeta, found)| && FilterMap(AsMeta, found)[a].kind == Types.Directory
    ensures FilterMap(AsMeta, found)[a].path
            == FilterMap(AsMeta, found)[b].path[..|FilterMap(AsMeta, found)[b].path| - 1]
  {
    hide Reach, FilterMap;
    var s := FilterMapSource(AsMeta, found, b);
    assert found[s] in multiset(Reach([], root));
    var p := ParentIsListed([], root, found[s]);
    assert p in multiset(found);
    FilterMapHits(AsMeta, found, p);
    a :| 0 <= a < |FilterMap(AsMeta, found)| && FilterMap(AsMeta, found)[a] == p.meta;
  }

  /** Level order together with completeness puts every parent first. */
  lemma {:induction false} ListedParentsFirst(root: seq<DirEntry>, found: seq<Found>, out: seq<Meta>)
    requires multiset(found) == multiset(Reach([], root)) && out == FilterMap(AsMeta, found)
    requires forall a, b :: 0 <= a < b < |out| ==> |out[a].path| <= |out[b].path|
    ensures ParentsFirst(out)
  {
    hide FilterMap, Reach, AsMeta;
    forall b: nat | b < |out| && |out[b].path| > 1
      ensures exists a :: 0 <= a < b && out[a].kind == Types.Directory && out[a].path == out[b].path[..|out[b].path| - 1]
    {
      var a := ParentInList(root, found, b);
      assert |out[a].path| < |out[b].path|;
    }
  }
}
