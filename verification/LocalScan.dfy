/** The local adapter's scan: what the directory walk lists, as the engine reads it. */
module LocalScan {
  import opened Collections
  import opened Paths
  import opened Types
  import opened LocalPhase
  import Scan

  /** A name that a POSIX directory can hold: not empty and without a slash. */
  predicate PosixName(n: Scan.OsName)
  {
    n.Utf8? ==> n.text != "" && '/' !in n.text
  }

  ghost predicate PosixTree(entries: seq<Scan.DirEntry>)
    decreases Scan.Weight(entries)
  {
    entries != [] ==>
      && PosixName(entries[0].name)
      && (entries[0].node.DirNode? ==> (Scan.WeightBelow(entries); PosixTree(entries[0].node.entries)))
      && PosixTree(entries[1..])
  }

  /** A path all of whose names are text and fit a directory. */
  ghost predicate PosixPath(p: Scan.Path)
  {
    forall n :: n in p ==> n.Utf8? && PosixName(n)
  }

  function NameText(n: Scan.OsName): string
  {
    match n
    case Utf8(text) => text
    case NonUtf8(_) => ""
  }

  /** The names of a path, separated by slashes. */
  function Join(p: Scan.Path): string
  {
    if p == [] then ""
    else if |p| == 1 then NameText(p[0])
    else Join(p[..|p| - 1]) + "/" + NameText(p[|p| - 1])
  }

  function AbsOf(root: string, p: Scan.Path): string
  {
    root + (if root != "" && root[|root| - 1] == '/' then "" else "/") + Join(p)
  }

  /** Hashes are left out at this point. */
  function EntryOf(root: string, m: Scan.Meta): ScanEntry
  {
    ScanEntry(AbsOf(root, m.path),
              FileSide(m.kind, m.size, None, m.mtime, None, None))
  }

  function EntriesOf(root: string, metas: seq<Scan.Meta>): seq<ScanEntry>
  {
    seq(|metas|, i requires 0 <= i < |metas| => EntryOf(root, metas[i]))
  }

  // ---------------------------------------------------------------- paths and their text

  lemma {:induction false} JoinStarts(p: Scan.Path)
    requires p != [] && PosixPath(p)
    ensures Join(p) != "" && Join(p)[0] != '/'
  {
    if |p| > 1 {
      JoinStarts(p[..|p| - 1]);
    } else {
      assert p[0] in p;
    }
  }

  /** The engine gets back the names joined by slashes, if that is a valid path. */
  lemma {:induction false} RelOfAbs(root: string, p: Scan.Path)
    requires p != [] && PosixPath(p)
    ensures RelFromAbs(root, AbsOf(root, p)) == ParseRel(Join(p))
  {
    hide Join, PosixPath, TrimSlashes, ParseRel;
    JoinStarts(p);
    TrimOne(Join(p));
    var rest := AbsOf(root, p)[|root|..];
    assert rest == Join(p) || rest == "/" + Join(p);
  }

  lemma {:induction false} NoSlashNoDepth(s: string)
    requires '/' !in s
    ensures Depth(s) == 0
  {
    if s != "" {
      NoSlashNoDepth(s[..|s| - 1]);
    }
  }

  lemma {:induction false} JoinDepth(p: Scan.Path)
    requires p != [] && PosixPath(p)
    ensures Depth(Join(p)) == |p| - 1
  {
    var name := NameText(p[|p| - 1]);
    assert p[|p| - 1] in p;
    NoSlashNoDepth(name);
    if |p| > 1 {
      JoinDepth(p[..|p| - 1]);
      DepthAdds(Join(p[..|p| - 1]) + "/", name);
      DepthAdds(Join(p[..|p| - 1]), "/");
      assert Depth("/") == Depth("/"[..0]) + 1;
    }
  }

  lemma JoinEnds(p: Scan.Path)
    requires p != [] && PosixPath(p)
    ensures
      var name := NameText(p[|p| - 1]);
      BaseStart(Join(p)) == |Join(p)| - |name| && Join(p)[|Join(p)| - |name|..] == name
  {
    var s, name := Join(p), NameText(p[|p| - 1]);
    assert p[|p| - 1] in p;
    var b := |s| - |name|;
    assert s[b..] == name;
    BaseStartIs(s, b);
  }

  lemma JoinSplits(p: Scan.Path)
    requires |p| > 1
    ensures
      var k := |Join(p)| - |NameText(p[|p| - 1])| - 1;
      0 <= k && Join(p)[..k] == Join(p[..|p| - 1])
  {
    assert Join(p)[..|Join(p[..|p| - 1])|] == Join(p[..|p| - 1]);
  }

  lemma {:induction false} JoinIsInjective(p: Scan.Path, q: Scan.Path)
    requires p != [] && q != [] && PosixPath(p) && PosixPath(q) && Join(p) == Join(q)
    ensures p == q
  {
    hide Join, Depth, BaseStart;
    JoinDepth(p);
    JoinDepth(q);
    JoinEnds(p);
    JoinEnds(q);
    var n := |p| - 1;
    assert p[n] in p && q[n] in q && NameText(p[n]) == NameText(q[n]) && p[n] == q[n];
    if n > 0 {
      JoinSplits(p);
      JoinSplits(q);
      JoinIsInjective(p[..n], q[..n]);
    }
    assert p == p[..n] + [p[n]] && q == q[..n] + [q[n]];
  }

  // ---------------------------------------------------------------- what a scan lists

  lemma {:induction false} ListedIsPosix(dir: Scan.Path, entries: seq<Scan.DirEntry>, f: Scan.Found)
    requires PosixPath(dir) && PosixTree(entries) && f in Scan.Reach(dir, entries) && f.Listed?
    ensures PosixPath(f.meta.path) && f.meta.path != []
    decreases Scan.Weight(entries)
  {
    var e := entries[0];
    if f in Scan.Self(dir, e) {
      assert f.meta.path == dir + [e.name];
    } else if f in Scan.Below(dir, e) {
      Scan.WeightBelow(entries);
      ListedIsPosix(dir + [e.name], e.node.entries, f);
    } else {
      ListedIsPosix(dir, entries[1..], f);
    }
  }

  function MetaPath(m: Scan.Meta): Scan.Path
  {
    m.path
  }

  /** What the adapter relies on: distinct, valid paths, level by level. */
  ghost predicate Orderly(metas: seq<Scan.Meta>)
  {
    && (forall m :: m in metas ==> PosixPath(m.path) && m.path != [])
    && DistinctBy(MetaPath, metas)
    && forall a, b :: 0 <= a < b < |metas| ==> |metas[a].path| <= |metas[b].path|
  }

  lemma {:induction false} ListedIsDistinct(root: seq<Scan.DirEntry>)
    requires Scan.WellNamed(root)
    ensures DistinctBy(MetaPath, FilterMap(Scan.AsMeta, Scan.Reach([], root)))
  {
    var all := Scan.Reach([], root);
    var metas := FilterMap(Scan.AsMeta, all);
    Scan.ReachIsDistinct([], root);
    forall i: nat, j: nat | i < j < |metas| ensures MetaPath(metas[i]) != MetaPath(metas[j]) {
      var a, b := FilterMapOrder(Scan.AsMeta, all, i, j);
      assert Scan.PathOf(all[a]) != Scan.PathOf(all[b]);
    }
  }

  lemma {:induction false} ScanIsOrderly(root: seq<Scan.DirEntry>, metas: seq<Scan.Meta>)
    requires Scan.WellNamed(root) && PosixTree(root)
    requires multiset(metas) == multiset(FilterMap(Scan.AsMeta, Scan.Reach([], root)))
    requires forall a, b :: 0 <= a < b < |metas| ==> |metas[a].path| <= |metas[b].path|
    ensures Orderly(metas)
  {
    var all := Scan.Reach([], root);
    var listed := FilterMap(Scan.AsMeta, all);
    forall m | m in metas ensures PosixPath(m.path) && m.path != [] {
      assert m in multiset(listed);
      var i :| 0 <= i < |listed| && listed[i] == m;
      var a := FilterMapSource(Scan.AsMeta, all, i);
      ListedIsPosix([], root, all[a]);
    }
    ListedIsDistinct(root);
    DistinctPermutes(MetaPath, listed, metas);
  }

  /** The engine sees a scan that lists each path once and level by level. */
  lemma EngineSeesOrder(env: Env, metas: seq<Scan.Meta>)
    requires Orderly(metas)
    ensures DistinctScan(env, EntriesOf(env.root, metas)) && ScanByDepth(env, EntriesOf(env.root, metas))
  {
    hide RelFromAbs, AbsOf, Join, Depth;
    var scan := EntriesOf(env.root, metas);
    forall i | 0 <= i < |metas| ensures RelFromAbs(env.root, scan[i].abs) == ParseRel(Join(metas[i].path)) {
      assert metas[i] in metas;
      RelOfAbs(env.root, metas[i].path);
    }
    forall i, j | 0 <= i < j < |scan| && RelFromAbs(env.root, scan[i].abs).Some?
      ensures RelFromAbs(env.root, scan[i].abs) != RelFromAbs(env.root, scan[j].abs)
    {
      assert metas[i] in metas && metas[j] in metas;
      assert MetaPath(metas[i]) != MetaPath(metas[j]);
      if Join(metas[i].path) == Join(metas[j].path) {
        JoinIsInjective(metas[i].path, metas[j].path);
      }
    }
    forall i, j
      | 0 <= i < j < |scan| && RelFromAbs(env.root, scan[i].abs).Some? && RelFromAbs(env.root, scan[j].abs).Some?
      ensures Depth(RelFromAbs(env.root, scan[i].abs).value) <= Depth(RelFromAbs(env.root, scan[j].abs).value)
    {
      assert metas[i] in metas && metas[j] in metas;
      JoinDepth(metas[i].path);
      JoinDepth(metas[j].path);
    }
  }

  /** The engine reads the listed node as this path and side. The scan takes no hashes. */
  predicate ReadsAs(f: Scan.Found, p: RelPath, side: FileSide)
  {
    && f.Listed? && Join(f.meta.path) == p && ValidRel(p)
    && side == FileSide(f.meta.kind, f.meta.size, None, f.meta.mtime, None, None)
  }

  /** The engine reads an entry off a listed node. */
  lemma EntryReadsAs(env: Env, m: Scan.Meta, p: RelPath)
    requires PosixPath(m.path) && m.path != []
    ensures RelFromAbs(env.root, EntryOf(env.root, m).abs) == Some(p) <==>
            ReadsAs(Scan.Listed(m), p, EntryOf(env.root, m).side)
  {
    hide RelFromAbs, AbsOf, Join, ValidRel;
    RelOfAbs(env.root, m.path);
  }

  /** The engine sees exactly the listed nodes that have a valid path, with their metadata. */
  ghost predicate SeesTree(env: Env, scan: seq<ScanEntry>, root: seq<Scan.DirEntry>)
  {
    forall p, side ::
      ScannedSide(env, scan, |scan|, p, side) <==> exists f :: f in Scan.Reach([], root) && ReadsAs(f, p, side)
  }

  lemma {:induction false} EngineSeesTree(env: Env, root: seq<Scan.DirEntry>, metas: seq<Scan.Meta>)
    requires PosixTree(root) && multiset(metas) == multiset(FilterMap(Scan.AsMeta, Scan.Reach([], root)))
    ensures SeesTree(env, EntriesOf(env.root, metas), root)
  {
    hide RelFromAbs, AbsOf, Join, EntryOf, ReadsAs, Scan.Reach;
    var scan := EntriesOf(env.root, metas);
    forall p, side ensures ScannedSide(env, scan, |scan|, p, side) <==>
                           exists f :: f in Scan.Reach([], root) && ReadsAs(f, p, side)
    {
      if k :| 0 <= k < |scan| && RelFromAbs(env.root, scan[k].abs) == Some(p) && scan[k].side == side {
        ListedBehind(root, metas, k);
        EntryReadsAs(env, metas[k], p);
        assert ReadsAs(Scan.Listed(metas[k]), p, side);
      }
      if f :| f in Scan.Reach([], root) && ReadsAs(f, p, side) {
        var k := EntryBehind(root, metas, f, p, side);
        EntryReadsAs(env, metas[k], p);
        SideOfEntry(env.root, metas[k], p, side);
        assert scan[k] == EntryOf(env.root, metas[k]);
      }
    }
  }

  lemma SideOfEntry(root: string, m: Scan.Meta, p: RelPath, side: FileSide)
    requires ReadsAs(Scan.Listed(m), p, side)
    ensures EntryOf(root, m).side == side
  {
    hide AbsOf;
  }

  lemma {:induction false} ListedBehind(root: seq<Scan.DirEntry>, metas: seq<Scan.Meta>, k: nat)
    requires PosixTree(root) && multiset(metas) == multiset(FilterMap(Scan.AsMeta, Scan.Reach([], root)))
    requires k < |metas|
    ensures Scan.Listed(metas[k]) in Scan.Reach([], root) && PosixPath(metas[k].path) && metas[k].path != []
  {
    var all := Scan.Reach([], root);
    SameMembers(metas, FilterMap(Scan.AsMeta, all), metas[k]);
    var i :| 0 <= i < |FilterMap(Scan.AsMeta, all)| && FilterMap(Scan.AsMeta, all)[i] == metas[k];
    var a := FilterMapSource(Scan.AsMeta, all, i);
    ListedIsPosix([], root, all[a]);
  }

  lemma EntryBehind(root: seq<Scan.DirEntry>, metas: seq<Scan.Meta>, f: Scan.Found, p: RelPath, side: FileSide)
    returns (k: nat)
    requires PosixTree(root) && multiset(metas) == multiset(FilterMap(Scan.AsMeta, Scan.Reach([], root)))
    requires f in Scan.Reach([], root) && ReadsAs(f, p, side)
    ensures k < |metas| && f == Scan.Listed(metas[k]) && PosixPath(metas[k].path) && metas[k].path != []
  {
    hide Join, ValidRel;
    var all := Scan.Reach([], root);
    FilterMapHits(Scan.AsMeta, all, f);
    SameMembers(metas, FilterMap(Scan.AsMeta, all), f.meta);
    k :| 0 <= k < |metas| && metas[k] == f.meta;
    ListedIsPosix([], root, f);
  }

  method ToEntries(root: string, metas: seq<Scan.Meta>) returns (entries: seq<ScanEntry>)
    ensures entries == EntriesOf(root, metas)
  {
    hide AbsOf;
    entries := [];
    var i := 0;
    while i < |metas|
      invariant 0 <= i <= |metas| && entries == EntriesOf(root, metas)[..i]
    {
      entries := entries + [EntryOf(root, metas[i])];
      i := i + 1;
    }
  }

  /** The scan of the adapter. */
  method ScanRoot(reader: Scan.Reader, env: Env, root: seq<Scan.DirEntry>)
    returns (r: Result<seq<ScanEntry>, Scan.ScanError>)
    requires Scan.WellNamed(root) && PosixTree(root)
    modifies reader
    ensures r.Ok? ==> DistinctScan(env, r.value) && ScanByDepth(env, r.value) && SeesTree(env, r.value, root)
    ensures r == Err(Scan.Io) <==> reader.failures > old(reader.failures)
    ensures r == Err(Scan.InvalidPath) ==>
      |FilterMap(Scan.AsDirectory, Scan.Reach([], root))| > Scan.SCAN_QUEUE_DEPTH_MAX
  {
    hide RelFromAbs, AbsOf, Join, DistinctScan, ScanByDepth, SeesTree, EntriesOf, Scan.Reach, Scan.WellNamed,
         PosixTree, Orderly, FilterMap;
    var walked;
    ghost var peak;
    walked, peak := Scan.ScanWithSkips(reader, root);
    if walked.Err? {
      return Err(walked.error);
    }
    var metas := walked.value.0;
    ScanIsOrderly(root, metas);
    EngineSeesOrder(env, metas);
    EngineSeesTree(env, root, metas);
    var entries := ToEntries(env.root, metas);
    return Ok(entries);
  }
}
