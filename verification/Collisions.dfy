/** Case collisions inside one delta page: which paths are dropped, and in favour of which. */
module Collisions {
  import opened Collections
  import opened Paths
  import opened Types

  type Fold = string -> string

  function PathsOf(items: seq<RemoteItem>): seq<RelPath>
  {
    FilterMap(ItemPath, items)
  }

  // ---------------------------------------------------------------- the definition

  /** `c` is the byte-wise least of the paths that fold like `p`. */
  ghost predicate IsCanonical(fold: Fold, paths: seq<RelPath>, c: RelPath, p: RelPath)
  {
    c in paths && fold(c) == fold(p) && forall q :: q in paths && fold(q) == fold(p) ==> q == c || Before(c, q)
  }

  /** `p` has a smaller rival in its class, or occurs more than once. */
  ghost predicate IsDropped(fold: Fold, paths: seq<RelPath>, p: RelPath)
  {
    p in paths && (!IsCanonical(fold, paths, p, p) || multiset(paths)[p] >= 2)
  }

  /** `m` maps each dropped path to the canonical path of its class, and nothing else. */
  ghost predicate IsCollisionMap(fold: Fold, paths: seq<RelPath>, m: map<RelPath, RelPath>)
  {
    && (forall p :: p in m <==> IsDropped(fold, paths, p))
    && (forall p :: p in m ==> IsCanonical(fold, paths, m[p], p))
  }

  lemma CanonicalIgnoresOrder(fold: Fold, a: seq<RelPath>, b: seq<RelPath>, c: RelPath, p: RelPath)
    requires multiset(a) == multiset(b) && IsCanonical(fold, a, c, p)
    ensures IsCanonical(fold, b, c, p)
  {
    SameMembers(a, b, c);
    forall q | q in b && fold(q) == fold(p) ensures q == c || Before(c, q) {
      SameMembers(a, b, q);
    }
  }

  lemma CanonicalIsUnique(fold: Fold, paths: seq<RelPath>, c: RelPath, d: RelPath, p: RelPath)
    requires IsCanonical(fold, paths, c, p) && IsCanonical(fold, paths, d, p)
    ensures c == d
  {
    BeforeTotal(c, d);
  }

  /** The collision map does not depend on the order in which the page arrived. */
  lemma CollisionMapIgnoresOrder(fold: Fold, a: seq<RelPath>, b: seq<RelPath>,
                                 m: map<RelPath, RelPath>, n: map<RelPath, RelPath>)
    requires multiset(a) == multiset(b)
    requires IsCollisionMap(fold, a, m) && IsCollisionMap(fold, b, n)
    ensures m == n
  {
    forall p ensures p in m <==> p in n {
      SameMembers(a, b, p);
      if IsCanonical(fold, a, p, p) {
        CanonicalIgnoresOrder(fold, a, b, p, p);
      }
      if IsCanonical(fold, b, p, p) {
        CanonicalIgnoresOrder(fold, b, a, p, p);
      }
    }
    forall p | p in m ensures m[p] == n[p] {
      CanonicalIgnoresOrder(fold, a, b, m[p], p);
      CanonicalIsUnique(fold, b, m[p], n[p], p);
    }
  }

  /** Each class keeps exactly its least path when that occurs once, and otherwise nothing. */
  lemma KeptIff(fold: Fold, paths: seq<RelPath>, m: map<RelPath, RelPath>, p: RelPath)
    requires IsCollisionMap(fold, paths, m)
    ensures p in paths && p !in m <==> IsCanonical(fold, paths, p, p) && multiset(paths)[p] == 1
  {
    assert p in paths <==> multiset(paths)[p] >= 1;
  }

  /** Paths that are not dropped are pairwise distinct under the fold. */
  lemma KeptAreDistinct(fold: Fold, paths: seq<RelPath>, m: map<RelPath, RelPath>, i: nat, j: nat)
    requires IsCollisionMap(fold, paths, m) && i < j < |paths|
    requires paths[i] !in m && paths[j] !in m
    ensures fold(paths[i]) != fold(paths[j])
  {
    KeptIff(fold, paths, m, paths[i]);
    KeptIff(fold, paths, m, paths[j]);
    if fold(paths[i]) == fold(paths[j]) {
      BeforeTotal(paths[i], paths[j]);
      OccursTwice(paths, i, j);
      assert false;
    }
  }

  // ---------------------------------------------------------------- sorting

  ghost predicate Sorted(s: seq<RelPath>)
  {
    forall i, j :: 0 <= i < j < |s| ==> s[i] == s[j] || Before(s[i], s[j])
  }

  function Insert(p: RelPath, s: seq<RelPath>): seq<RelPath>
  {
    if s == [] || !Before(s[0], p) then [p] + s else [s[0]] + Insert(p, s[1..])
  }

  lemma {:induction false} InsertCounts(p: RelPath, s: seq<RelPath>)
    ensures multiset(Insert(p, s)) == multiset(s) + multiset{p}
  {
    if s != [] {
      InsertCounts(p, s[1..]);
      assert s == [s[0]] + s[1..];
    }
  }

  lemma {:induction false} SortedCons(h: RelPath, t: seq<RelPath>)
    requires Sorted(t) && forall q :: q in t ==> q == h || Before(h, q)
    ensures Sorted([h] + t)
  {
  }

  lemma {:induction false} InsertSorts(p: RelPath, s: seq<RelPath>)
    requires Sorted(s)
    ensures Sorted(Insert(p, s))
  {
    if s != [] && Before(s[0], p) {
      InsertSorts(p, s[1..]);
      InsertCounts(p, s[1..]);
      var rest := Insert(p, s[1..]);
      forall q | q in rest ensures q == s[0] || Before(s[0], q) {
        assert q in multiset(rest);
        assert q == p || q in s[1..];
      }
      SortedCons(s[0], rest);
    } else {
      forall q | q in s ensures q == p || Before(p, q) {
        BeforeTotal(s[0], p);
        if s[0] != p && q != s[0] {
          BeforeTransitive(p, s[0], q);
        }
      }
      SortedCons(p, s);
    }
  }

  function Sort(s: seq<RelPath>): (r: seq<RelPath>)
    ensures Sorted(r) && multiset(r) == multiset(s)
  {
    if s == [] then []
    else
      var front := Sort(s[..|s| - 1]);
      assert s == s[..|s| - 1] + [s[|s| - 1]];
      InsertCounts(s[|s| - 1], front);
      InsertSorts(s[|s| - 1], front);
      Insert(s[|s| - 1], front)
  }

  // ---------------------------------------------------------------- the algorithm

  function InClass(fold: Fold, key: string): RelPath -> Option<RelPath>
  {
    (p: RelPath) => if fold(p) == key then Some(p) else None
  }

  /** The paths of one class, in page order. */
  function Bucket(fold: Fold, paths: seq<RelPath>, key: string): seq<RelPath>
  {
    FilterMap(InClass(fold, key), paths)
  }

  lemma {:induction false} BucketCounts(fold: Fold, paths: seq<RelPath>, key: string, p: RelPath)
    ensures multiset(Bucket(fold, paths, key))[p] == if fold(p) == key then multiset(paths)[p] else 0
  {
    if paths != [] {
      var front, last := paths[..|paths| - 1], paths[|paths| - 1];
      assert paths == front + [last];
      BucketCounts(fold, front, key, p);
    }
  }

  /** The members of a sorted bucket after its first are the dropped paths of the class. */
  lemma TailIsDropped(fold: Fold, paths: seq<RelPath>, key: string, sorted: seq<RelPath>, p: RelPath)
    requires sorted == Sort(Bucket(fold, paths, key)) && sorted != []
    ensures p in sorted[1..] <==> fold(p) == key && IsDropped(fold, paths, p)
    ensures fold(p) == key ==> IsCanonical(fold, paths, sorted[0], p)
  {
    BucketMembers(fold, paths, key, sorted);
    assert sorted == [sorted[0]] + sorted[1..];
    BucketCounts(fold, paths, key, p);
    assert p in sorted[1..] <==> multiset(sorted[1..])[p] >= 1;
    if fold(p) == key {
      if p in paths {
        if IsCanonical(fold, paths, p, p) {
          CanonicalIsUnique(fold, paths, p, sorted[0], p);
        }
      }
    }
  }

  lemma BucketMembers(fold: Fold, paths: seq<RelPath>, key: string, sorted: seq<RelPath>)
    requires sorted == Sort(Bucket(fold, paths, key)) && sorted != []
    ensures forall q :: q in sorted <==> q in paths && fold(q) == key
    ensures forall q :: q in sorted ==> q == sorted[0] || Before(sorted[0], q)
  {
    forall q ensures q in sorted <==> q in paths && fold(q) == key {
      BucketCounts(fold, paths, key, q);
      assert q in sorted <==> multiset(sorted)[q] >= 1;
      assert q in paths <==> multiset(paths)[q] >= 1;
    }
    assert Sorted(sorted);
  }

  lemma SmallBucketDropsNothing(fold: Fold, paths: seq<RelPath>, key: string, p: RelPath)
    requires |Bucket(fold, paths, key)| <= 1 && fold(p) == key
    ensures !IsDropped(fold, paths, p)
  {
    var b := Bucket(fold, paths, key);
    BucketCounts(fold, paths, key, p);
    if p in paths {
      assert multiset(b)[p] >= 1;
      assert b == [b[0]];
      forall q | q in paths && fold(q) == key ensures q == p {
        BucketCounts(fold, paths, key, q);
        assert multiset(paths)[q] >= 1;
      }
    }
  }

  lemma NoBuckets(fold: Fold)
    ensures PathsOf([]) == [] && forall key :: Bucket(fold, [], key) == []
  {
  }

  lemma BucketsGrow(fold: Fold, items: seq<RemoteItem>, i: nat)
    requires i < |items|
    ensures
      var before, after, path := PathsOf(items[..i]), PathsOf(items[..i + 1]), ItemPath(items[i]);
      && after == before + (if path.Some? then [path.value] else [])
      && forall key :: Bucket(fold, after, key)
                       == Bucket(fold, before, key)
                          + (if path.Some? && fold(path.value) == key then [path.value] else [])
  {
    hide ItemPath;
    FilterMapSnoc(ItemPath, items, i + 1);
    var before, after, path := PathsOf(items[..i]), PathsOf(items[..i + 1]), ItemPath(items[i]);
    forall key ensures Bucket(fold, after, key)
                       == Bucket(fold, before, key)
                          + (if path.Some? && fold(path.value) == key then [path.value] else [])
    {
      if path.Some? {
        assert after[..|before|] == before;
      } else {
        assert after == before;
      }
    }
  }

  /** Groups the page's paths by fold key. */
  method FillBuckets(fold: Fold, items: seq<RemoteItem>) returns (buckets: map<string, seq<RelPath>>)
    ensures forall key :: key in buckets ==> buckets[key] == Bucket(fold, PathsOf(items), key)
    ensures forall p :: p in PathsOf(items) ==> fold(p) in buckets
  {
    hide ItemPath, PathsOf, Bucket;
    assert items[..0] == [];
    assert PathsOf([]) == [] && forall key :: Bucket(fold, [], key) == [] by { NoBuckets(fold); }
    buckets := map[];
    var i := 0;
    while i < |items|
      invariant 0 <= i <= |items|
      invariant forall key :: key in buckets ==> buckets[key] == Bucket(fold, PathsOf(items[..i]), key)
      invariant forall key :: key !in buckets ==> Bucket(fold, PathsOf(items[..i]), key) == []
      invariant forall p :: p in PathsOf(items[..i]) ==> fold(p) in buckets
    {
      BucketsGrow(fold, items, i);
      match ItemPath(items[i]) {
        case None =>
        case Some(p) =>
          var key := fold(p);
          var bucket := if key in buckets then buckets[key] else [];
          buckets := buckets[key := bucket + [p]];
      }
      i := i + 1;
    }
    assert items[..|items|] == items;
  }

  /** Adds the losers of one bucket to the collision map. */
  method DropLosers(sorted: seq<RelPath>, before: map<RelPath, RelPath>) returns (result: map<RelPath, RelPath>)
    requires sorted != []
    ensures forall p :: p in result <==> p in before || p in sorted[1..]
    ensures forall p :: p in result ==> result[p] == if p in sorted[1..] then sorted[0] else before[p]
  {
    result := before;
    var canonical, losers := sorted[0], sorted[1..];
    var i := 0;
    while i < |losers|
      invariant 0 <= i <= |losers|
      invariant forall p :: p in result <==> p in before || p in losers[..i]
      invariant forall p :: p in result ==> result[p] == if p in losers[..i] then canonical else before[p]
    {
      result := result[losers[i] := canonical];
      i := i + 1;
    }
    assert losers[..|losers|] == losers;
  }

  /** `detect_remote_case_collisions`: fills buckets by fold key, then sorts each of them. */
  method DetectRemoteCaseCollisions(fold: Fold, items: seq<RemoteItem>) returns (result: map<RelPath, RelPath>)
    ensures IsCollisionMap(fold, PathsOf(items), result)
    ensures forall p :: p in result ==> p in PathsOf(items)
  {
    ghost var paths := PathsOf(items);
    var buckets := FillBuckets(fold, items);
    result := map[];
    var todo := buckets.Keys;
    while todo != {}
      invariant todo <= buckets.Keys
      invariant forall p :: p in result <==> fold(p) in buckets && fold(p) !in todo && IsDropped(fold, paths, p)
      invariant forall p :: p in result ==> IsCanonical(fold, paths, result[p], p)
    {
      var key :| key in todo;
      todo := todo - {key};
      if |buckets[key]| <= 1 {
        forall p | fold(p) == key ensures !IsDropped(fold, paths, p) {
          SmallBucketDropsNothing(fold, paths, key, p);
        }
      } else {
        var sorted := Sort(buckets[key]);
        assert sorted != [] by {
          assert |multiset(sorted)| == |multiset(buckets[key])|;
        }
        forall p
          ensures p in sorted[1..] <==> fold(p) == key && IsDropped(fold, paths, p)
          ensures fold(p) == key ==> IsCanonical(fold, paths, sorted[0], p)
        {
          TailIsDropped(fold, paths, key, sorted, p);
        }
        result := DropLosers(sorted, result);
      }
    }
  }
}
