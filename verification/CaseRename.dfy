/** The name a path gets when another path differs from it only in case. */
module CaseRename {
  import opened Paths
  import LoserNames

  /** End of the stem: the last dot of the base name, unless the name begins with it. */
  function StemEnd(s: string): (e: nat)
    ensures BaseStart(s) <= e <= |s|
    ensures e < |s| ==> e > BaseStart(s) && s[e] == '.' && '.' !in s[e + 1..]
    ensures e == |s| ==> '.' !in s[if BaseStart(s) < |s| then BaseStart(s) + 1 else |s|..]
  {
    var b := BaseStart(s);
    match LastIndex(s[b..], '.')
    case Some(i) =>
      assert s[b..][i + 1..] == s[b + i + 1..];
      if i > 0 then b + i else |s|
    case None =>
      assert b < |s| ==> s[b..][1..] == s[b + 1..];
      |s|
  }

  function Marker(hash: string): string
  {
    " (case-collision-" + hash + ")"
  }

  /** `case_collision_rename_target`; `hash` is the short hash of `original`. */
  function RenameTarget(original: RelPath, hash: string): string
  {
    var b, e := BaseStart(original), StemEnd(original);
    original[..b] + original[b..e] + Marker(hash) + original[e..]
  }

  lemma TargetInserts(s: RelPath, hash: string)
    ensures RenameTarget(s, hash) == LoserNames.InsertAt(s, StemEnd(s), Marker(hash))
  {
    assert s[..BaseStart(s)] + s[BaseStart(s)..StemEnd(s)] == s[..StemEnd(s)];
  }

  /** The target spelled out: what is put before the extension names the reason and the short hash. */
  lemma TargetIs(s: RelPath, hash: string)
    ensures RenameTarget(s, hash) == LoserNames.InsertAt(s, StemEnd(s), " (case-collision-" + hash + ")")
  {
    TargetInserts(s, hash);
  }

  /** A dot past the start of the last component makes that component have an extension. */
  lemma DotGivesExtension(t: string, x: nat)
    ensures 0 < x < |t| && t[x] == '.' && t[x - 1] != '/' && '/' !in t[x..] ==> StemEnd(t) < |t|
  {
    if 0 < x < |t| && t[x] == '.' && t[x - 1] != '/' && '/' !in t[x..] {
      var b := BaseStart(t);
      assert forall y :: x <= y < |t| ==> t[y] == t[x..][y - x] && t[y] != '/';
      assert b < x;
      assert t[b + 1..][x - b - 1] == '.';
    }
  }

  lemma NoSlashInExtension(s: string)
    ensures '/' !in s[StemEnd(s)..]
  {
    assert forall y :: StemEnd(s) <= y < |s| ==> s[y] == s[BaseStart(s)..][y - BaseStart(s)];
  }

  /** What two equal results say when the second insertion is the later one. */
  lemma LaterInsertion(s: string, i: nat, k: string, t: string, j: nat, m: string)
    requires |k| == |m| > 0 && i < j <= |t| && i <= |s|
    requires LoserNames.InsertAt(s, i, k) == LoserNames.InsertAt(t, j, m)
    ensures |s| == |t|
    ensures j < |t| ==> t[j] == s[i + 1..][j - i - 1]
    ensures j == |t| && i + |k| >= |t| ==> s[i] == m[i + |k| - |t|]
    ensures i + |k| < |t| == j ==>
      t[i + |k| - 1] == k[|k| - 1] && t[i + |k|] == s[i] && t[i + |k|..] == s[i..][..|t| - i - |k|]
  {
    var o, n := LoserNames.InsertAt(s, i, k), |k|;
    assert |s| == |t|;
    if j < |t| {
      assert o[j + n] == t[j];
      assert o[j + n] == s[j];
    } else {
      assert o == t + m;
      assert o[i + n] == s[i];
      if i + n < |t| {
        assert o[i..i + n] == k && o[..|t|] == t;
        assert t[i + n..] == o[i + n..|t|] == s[i..][..|t| - i - n];
      }
    }
  }

  /** Dot-free insertions of one length can only agree when made at the same place. */
  lemma SamePlace(s: string, t: string, k: string, m: string)
    requires |k| == |m| > 0 && k[|k| - 1] == ')' && '.' !in m
    requires LoserNames.InsertAt(s, StemEnd(s), k) == LoserNames.InsertAt(t, StemEnd(t), m)
    requires StemEnd(s) <= StemEnd(t)
    ensures StemEnd(s) == StemEnd(t)
  {
    var i, j := StemEnd(s), StemEnd(t);
    if i < j {
      DotGivesExtension(t, i + |k|);
      NoSlashInExtension(s);
      LaterInsertion(s, i, k, t, j, m);
      assert false;
    }
  }

  /**
   * Rename targets are as distinct as the paths, whatever the short hash is, as long as its text
   * has a fixed length and no dot.
   */
  lemma TargetInjective(s: RelPath, t: RelPath, hs: string, ht: string)
    requires |hs| == |ht| && '.' !in hs && '.' !in ht
    requires RenameTarget(s, hs) == RenameTarget(t, ht)
    ensures s == t
  {
    hide StemEnd, BaseStart, RenameTarget, LoserNames.InsertAt;
    TargetInserts(s, hs);
    TargetInserts(t, ht);
    if StemEnd(s) <= StemEnd(t) {
      SamePlace(s, t, Marker(hs), Marker(ht));
    } else {
      SamePlace(t, s, Marker(ht), Marker(hs));
    }
    LoserNames.SameInsertion(s, Marker(hs), t, Marker(ht), StemEnd(s));
  }

  /** The target stays in the directory of the original: only the leaf changes. */
  lemma TargetKeepsDirectory(s: RelPath, hash: string)
    requires '/' !in hash
    ensures BaseStart(RenameTarget(s, hash)) == BaseStart(s)
    ensures RenameTarget(s, hash)[..BaseStart(s)] == s[..BaseStart(s)]
  {
    hide StemEnd, BaseStart, RenameTarget, LoserNames.InsertAt;
    TargetInserts(s, hash);
    LoserNames.OnlyTheLeaf(s, StemEnd(s), Marker(hash));
  }

  /** A fold that treats the text character by character. */
  ghost predicate CharacterWise(fold: string -> string)
  {
    && (forall a, b :: fold(a + b) == fold(a) + fold(b))
    && (forall a :: a != "" ==> fold(a) != "")
  }

  /** Under a character-wise fold the target no longer collides with the original. */
  lemma TargetLeavesClass(s: RelPath, hash: string, fold: string -> string)
    requires CharacterWise(fold)
    ensures fold(RenameTarget(s, hash)) != fold(s)
  {
    TargetInserts(s, hash);
    var e, k := StemEnd(s), Marker(hash);
    assert s == s[..e] + s[e..];
    assert fold(s) == fold(s[..e]) + fold(s[e..]);
    assert fold(s[..e] + k + s[e..]) == fold(s[..e] + k) + fold(s[e..]);
    assert |fold(RenameTarget(s, hash))| == |fold(s)| + |fold(k)|;
  }
}
