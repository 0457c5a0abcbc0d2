/** The names given to conflict losers and case-collision losers, and who loses. */
module LoserNames {
  import opened Collections
  import opened Paths
  import opened Types
  import Decimal

  const CONFLICT_MTIME_TOLERANCE_MS: nat := 1_000
  const NANOS_PER_MS: nat := 1_000_000

  // ---------------------------------------------------------------- who wins

  /** `num_milliseconds()` of a duration: truncation toward zero. */
  function Millis(nanos: int): int
  {
    if nanos >= 0 then nanos / NANOS_PER_MS else -(-nanos / NANOS_PER_MS)
  }

  function Abs(x: int): nat
  {
    if x < 0 then -x else x
  }

  function PickWinner(localMtime: Timestamp, remoteMtime: Timestamp): ConflictSide
  {
    if Abs(Millis(localMtime - remoteMtime)) > CONFLICT_MTIME_TOLERANCE_MS && localMtime > remoteMtime
    then LocalSide else RemoteSide
  }

  /** The local side wins exactly when it is newer by at least 1001 whole milliseconds. */
  lemma LocalWinsIff(localMtime: Timestamp, remoteMtime: Timestamp)
    ensures PickWinner(localMtime, remoteMtime) == LocalSide
            <==> localMtime - remoteMtime >= 1_001_000_000
  {
    var d := localMtime - remoteMtime;
    if d >= 0 {
      assert d == NANOS_PER_MS * (d / NANOS_PER_MS) + d % NANOS_PER_MS;
    }
  }

  // ---------------------------------------------------------------- conflict losers

  /** Where the extension of the base name begins: its last dot, or the end. */
  function ExtStart(s: string): (e: nat)
    ensures BaseStart(s) <= e <= |s|
    ensures e < |s| ==> s[e] == '.' && '.' !in s[e + 1..]
    ensures e == |s| ==> '.' !in s[BaseStart(s)..]
  {
    hide BaseStart, LastIndex;
    var b := BaseStart(s);
    match LastIndex(s[b..], '.')
    case None => |s|
    case Some(i) =>
      assert s[b..][i + 1..] == s[b + i + 1..];
      b + i
  }

  function Suffix(attempt: nat): string
  {
    if attempt == 0 then "" else "." + Decimal.Print(attempt)
  }

  /** The text put before the extension: ` (conflict <stamp> from <host>)` and the retry suffix. */
  function Marker(stamp: string, host: string, attempt: nat): string
  {
    " (conflict " + stamp + " from " + host + ")" + Suffix(attempt)
  }

  /** The directory part, the stem, `marker` and the extension, put together. */
  function WithMarker(original: RelPath, marker: string): string
  {
    var b, e := BaseStart(original), ExtStart(original);
    var name := original[b..e] + marker + original[e..];
    if b <= 1 then name else original[..b - 1] + "/" + name
  }

  /** The loser's path as text, before validation. */
  function LoserText(original: RelPath, host: string, stamp: string, attempt: nat): string
  {
    WithMarker(original, Marker(stamp, host, attempt))
  }

  function BuildLoserPath(original: RelPath, host: string, stamp: string, attempt: nat): Option<RelPath>
  {
    ParseRel(LoserText(original, host, stamp, attempt))
  }

  /** `insert` put into `s` just before position `at`. */
  function InsertAt(s: string, at: nat, insert: string): string
    requires at <= |s|
  {
    s[..at] + insert + s[at..]
  }

  lemma SplitInsert(s: string, b: nat, e: nat, marker: string)
    requires b <= e <= |s|
    ensures s[..b] + (s[b..e] + marker + s[e..]) == InsertAt(s, e, marker)
  {
    assert s[..b] + s[b..e] == s[..e];
  }

  lemma WithMarkerInserts(original: RelPath, marker: string)
    requires ValidRel(original)
    ensures WithMarker(original, marker) == InsertAt(original, ExtStart(original), marker)
  {
    hide InsertAt, HasParentComponent;
    var b, e := BaseStart(original), ExtStart(original);
    SplitInsert(original, b, e, marker);
    assert b != 1;
    if b > 1 {
      assert original[..b - 1] + "/" == original[..b];
    }
  }

  /** The loser's path spelled out: what is put before the extension names the time, the host and the retry. */
  lemma {:induction false} LoserTextIs(original: RelPath, host: string, stamp: string, attempt: nat)
    requires ValidRel(original)
    ensures
      LoserText(original, host, stamp, attempt)
      == InsertAt(original, ExtStart(original),
                  " (conflict " + stamp + " from " + host + ")"
                  + (if attempt == 0 then "" else "." + Decimal.Print(attempt)))
  {
    hide ExtStart, BaseStart, InsertAt, WithMarker;
    WithMarkerInserts(original, Marker(stamp, host, attempt));
  }

  /** Where the later of two insertions of equal length moved its text to. */
  lemma Shift(s: string, i: nat, k: string, t: string, j: nat, m: string)
    requires j < i <= |s| == |t| && |k| == |m|
    requires InsertAt(s, i, k) == InsertAt(t, j, m)
    ensures t[..j] == s[..j] && t[j..] == t[j..i] + s[i..]
    ensures s[j..i] + k == m + t[j..i]
  {
    var o, n := InsertAt(s, i, k), |k|;
    assert s[..j] == o[..j] == t[..j];
    assert s[i..] == o[i + n..] == t[i..];
    assert s[j..i] + k == o[j..i + n] == m + t[j..i];
  }

  /** How often each separator occurs in a text, and its length. */
  predicate SameShape(k: string, m: string)
  {
    |k| == |m| && multiset(k)['.'] == multiset(m)['.'] && multiset(k)['/'] == multiset(m)['/']
  }

  /** What the shifted text says about separators: it has as many as the text it was shifted from. */
  lemma ShiftKeepsSeparators(gap: string, k: string, m: string, moved: string)
    requires gap + k == m + moved && SameShape(k, m)
    ensures multiset(gap)['.'] == multiset(moved)['.'] && multiset(gap)['/'] == multiset(moved)['/']
  {
    assert multiset(gap) + multiset(k) == multiset(gap + k) == multiset(m + moved) == multiset(m) + multiset(moved);
    SumAt(multiset(gap), multiset(k), multiset(m), multiset(moved), '.');
    SumAt(multiset(gap), multiset(k), multiset(m), multiset(moved), '/');
  }

  lemma SumAt(a: multiset<char>, b: multiset<char>, c: multiset<char>, d: multiset<char>, x: char)
    requires a + b == c + d
    ensures a[x] + b[x] == c[x] + d[x]
  {
    assert (a + b)[x] == (c + d)[x];
  }

  lemma NoSlashInExt(s: string, e: nat, n: nat)
    requires ExtStart(s) <= e <= n <= |s|
    ensures '/' !in s[e..n]
  {
    hide ExtStart, BaseStart;
    var b := BaseStart(s);
    forall k | e <= k < n ensures s[k] != '/' {
      assert s[k] == s[b..][k - b];
    }
  }

  lemma TailOfBase(t: string, i: nat)
    requires i <= |t| && '.' in t[i..] && '/' !in t[i..]
    ensures '.' in t[BaseStart(t)..]
  {
    var b := BaseStart(t);
    assert forall k :: i <= k < |t| ==> t[k] == t[i..][k - i] && t[k] != '/';
    assert t[b..][i - b..] == t[i..];
  }

  /** Behind an extension's dot there is no other. */
  lemma OneDot(t: string, j: nat, i: nat)
    requires j == ExtStart(t) < i <= |t|
    ensures i < |t| ==> t[i] != '.'
  {
    if i < |t| {
      assert t[j + 1..][i - j - 1] == t[i];
    }
  }

  /** If the second text was shifted, the gap it leaves in the first begins an extension that ends at the gap. */
  lemma GapHasDot(s: string, i: nat, k: string, t: string, m: string)
    requires SameShape(k, m) && ExtStart(t) < i <= |s| && |s| == |t|
    requires InsertAt(s, i, k) == InsertAt(t, ExtStart(t), m)
    ensures '.' in s[ExtStart(t)..i] && '/' !in s[ExtStart(t)..i] && (i < |s| ==> s[i] != '.')
  {
    hide ExtStart, BaseStart;
    var j := ExtStart(t);
    Shift(s, i, k, t, j, m);
    ShiftKeepsSeparators(s[j..i], k, m, t[j..i]);
    NoSlashInExt(t, j, i);
    assert t[j..i][0] == '.';
    assert '.' in multiset(s[j..i]) && '/' !in multiset(s[j..i]);
    OneDot(t, j, i);
    if i < |s| {
      assert t[i] == t[j..][i - j] == s[i];
    }
  }

  /** Insertions of one shape before the extensions can only agree when made at the same place. */
  lemma SamePlace(s: string, k: string, t: string, m: string)
    requires SameShape(k, m) && InsertAt(s, ExtStart(s), k) == InsertAt(t, ExtStart(t), m)
    ensures ExtStart(s) <= ExtStart(t)
  {
    hide ExtStart, BaseStart;
    var i, j := ExtStart(s), ExtStart(t);
    assert |s| == |t|;
    if j < i {
      NoGapBeforeEnd(s, j);
      GapHasDot(s, i, k, t, m);
      assert false;
    }
  }

  /** Text with a dot and no slash cannot come last before the place where the extension is missing. */
  lemma NoGapBeforeEnd(s: string, j: nat)
    ensures j <= |s| == ExtStart(s) ==> '.' !in s[j..|s|] || '/' in s[j..|s|]
  {
    if j <= |s| == ExtStart(s) && '.' in s[j..] && '/' !in s[j..] {
      TailOfBase(s, j);
    }
  }

  lemma SameInsertion(s: string, k: string, t: string, m: string, i: nat)
    requires i <= |s| && i <= |t| && |k| == |m| && InsertAt(s, i, k) == InsertAt(t, i, m)
    ensures s == t && k == m
  {
    var o, n := InsertAt(s, i, k), |k|;
    assert s[..i] == o[..i] == t[..i] && s[i..] == o[i + n..] == t[i..] && k == o[i..i + n] == m;
    assert s == s[..i] + s[i..] && t == t[..i] + t[i..];
  }

  lemma EnclosedShape(l: string, x: string, y: string, r: string)
    requires SameShape(x, y)
    ensures SameShape(l + (x + r), l + (y + r))
  {
    assert multiset(l + (x + r)) == multiset(l) + (multiset(x) + multiset(r));
    assert multiset(l + (y + r)) == multiset(l) + (multiset(y) + multiset(r));
  }

  /** A marker is its time between two texts that do not depend on it. */
  lemma MarkerEncloses(stamp: string, host: string, attempt: nat) returns (l: string, r: string)
    ensures l == " (conflict " && r == " from " + host + ")" + Suffix(attempt)
    ensures Marker(stamp, host, attempt) == l + (stamp + r)
  {
    hide Suffix;
    l, r := " (conflict ", " from " + host + ")" + Suffix(attempt);
  }

  lemma MarkersHaveOneShape(host: string, x: string, y: string, attempt: nat)
    requires SameShape(x, y)
    ensures SameShape(Marker(x, host, attempt), Marker(y, host, attempt))
  {
    hide Suffix, Marker, SameShape;
    var l, r := MarkerEncloses(x, host, attempt);
    l, r := MarkerEncloses(y, host, attempt);
    EnclosedShape(l, x, y, r);
  }

  /**
   * On one host and for one attempt, loser names are as distinct as the paths, also when they are
   * made at different times, as long as the texts of the times have one shape. The marker may
   * itself contain dots.
   */
  lemma LoserPathInjective(a: RelPath, b: RelPath, host: string, x: string, y: string, attempt: nat)
    requires ValidRel(a) && ValidRel(b) && SameShape(x, y)
    requires LoserText(a, host, x, attempt) == LoserText(b, host, y, attempt)
    ensures a == b && x == y
  {
    hide ExtStart, BaseStart, ValidRel, WithMarker, InsertAt;
    var k, m := Marker(x, host, attempt), Marker(y, host, attempt);
    WithMarkerInserts(a, k);
    WithMarkerInserts(b, m);
    MarkersHaveOneShape(host, x, y, attempt);
    SamePlace(a, k, b, m);
    SamePlace(b, m, a, k);
    SameInsertion(a, k, b, m, ExtStart(a));
    SameStamp(host, x, y, attempt);
  }

  lemma SameStamp(host: string, x: string, y: string, attempt: nat)
    requires |x| == |y| && Marker(x, host, attempt) == Marker(y, host, attempt)
    ensures x == y
  {
    hide Suffix, Marker;
    var l, r := MarkerEncloses(x, host, attempt);
    l, r := MarkerEncloses(y, host, attempt);
    SameAfter(l, x + r, y + r);
    SameBefore(x, y, r);
  }

  lemma SameAfter(l: string, x: string, y: string)
    requires l + x == l + y
    ensures x == y
  {
    assert x == (l + x)[|l|..] && y == (l + y)[|l|..];
  }

  lemma SameBefore(x: string, y: string, r: string)
    requires |x| == |y| && x + r == y + r
    ensures x == y
  {
    assert x == (x + r)[..|x|] && y == (y + r)[..|x|];
  }

  /** For one path, different attempts give different names. */
  lemma LoserPathInjectiveInAttempt(a: RelPath, host: string, stamp: string, m: nat, n: nat)
    requires ValidRel(a) && LoserText(a, host, stamp, m) == LoserText(a, host, stamp, n)
    ensures m == n
  {
    WithMarkerInserts(a, Marker(stamp, host, m));
    WithMarkerInserts(a, Marker(stamp, host, n));
    var e := ExtStart(a);
    var o := LoserText(a, host, stamp, m);
    assert Marker(stamp, host, m) == o[e..|o| - |a[e..]|] == Marker(stamp, host, n);
    var common := " (conflict " + stamp + " from " + host + ")";
    assert Suffix(m) == Marker(stamp, host, m)[|common|..] == Marker(stamp, host, n)[|common|..] == Suffix(n);
    if m > 0 && n > 0 {
      assert Decimal.Print(m) == Suffix(m)[1..] == Suffix(n)[1..] == Decimal.Print(n);
      Decimal.PrintInjective(m, n);
    } else {
      assert |Suffix(m)| == |Suffix(n)|;
    }
  }

  lemma MarkerHasNoSlash(stamp: string, host: string, attempt: nat)
    requires '/' !in host && '/' !in stamp
    ensures '/' !in Marker(stamp, host, attempt)
  {
    hide Suffix;
    if attempt == 0 { NoSuffix(); } else { SuffixIs(attempt); }
  }

  /** Text without slashes put into the leaf changes only the leaf. */
  lemma OnlyTheLeaf(a: string, e: nat, k: string)
    requires BaseStart(a) <= e <= |a| && '/' !in k
    ensures
      var o := InsertAt(a, e, k);
      BaseStart(o) == BaseStart(a) && |o| >= BaseStart(a) && o[..BaseStart(a)] == a[..BaseStart(a)]
  {
    hide BaseStart;
    var b, o := BaseStart(a), InsertAt(a, e, k);
    var leaf := a[b..e] + k + a[e..];
    assert '/' !in leaf by {
      assert a[b..] == a[b..e] + a[e..];
    }
    SplitInsert(a, b, e, k);
    assert o[..b] == a[..b] && o[b..] == leaf;
    BaseStartIs(o, b);
  }

  /** The loser lies in the directory of the original. */
  lemma LoserKeepsDirectory(a: RelPath, host: string, stamp: string, attempt: nat)
    requires ValidRel(a) && '/' !in host && '/' !in stamp
    ensures
      var o := LoserText(a, host, stamp, attempt);
      BaseStart(o) == BaseStart(a) && o[..BaseStart(a)] == a[..BaseStart(a)]
  {
    hide ValidRel, WithMarker, InsertAt, Marker, ExtStart, BaseStart;
    var k := Marker(stamp, host, attempt);
    WithMarkerInserts(a, k);
    MarkerHasNoSlash(stamp, host, attempt);
    OnlyTheLeaf(a, ExtStart(a), k);
  }

  // ---------------------------------------------------------------- clashes between attempts

  lemma SuffixIs(n: nat)
    requires n > 0
    ensures |Suffix(n)| > 1 && Suffix(n)[0] == '.'
    ensures forall k :: 0 < k < |Suffix(n)| ==> Decimal.IsDigit(Suffix(n)[k])
  {
    Decimal.PrintValue(n);
  }

  /** The retry suffix and the extension behind it. */
  function Tail(s: string, attempt: nat): string
  {
    Suffix(attempt) + s[ExtStart(s)..]
  }

  /** The marker without its suffix, which begins with a space. */
  function Head(stamp: string, host: string): string
  {
    " (conflict " + stamp + " from " + host + ")"
  }

  lemma InsertInTail(front: string, head: string, x: string, ext: string)
    ensures InsertAt(front + (x + ext), |front|, head) == front + (head + x) + ext
  {
    assert (front + (x + ext))[..|front|] == front && (front + (x + ext))[|front|..] == x + ext;
  }

  /** The name, with the suffix counted as part of what comes after the marker. */
  lemma HeadInserted(s: string, stamp: string, host: string, attempt: nat)
    ensures
      var e := ExtStart(s);
      InsertAt(s, e, Marker(stamp, host, attempt)) == InsertAt(s[..e] + Tail(s, attempt), e, Head(stamp, host))
  {
    hide ExtStart, Suffix;
    var e, x := ExtStart(s), Suffix(attempt);
    InsertInTail(s[..e], Head(stamp, host), x, s[e..]);
  }

  /** An extension begins with its only dot, and has no slash. */
  lemma ExtShape(s: string)
    ensures
      var ext := s[ExtStart(s)..];
      '/' !in ext && (ext != "" ==> ext[0] == '.') && forall k :: 0 < k < |ext| ==> ext[k] != '.'
  {
    hide BaseStart;
    var e := ExtStart(s);
    NoSlashInExt(s, e, |s|);
    assert s[e..] == s[e..|s|];
    forall k | 0 < k < |s[e..]| ensures s[e..][k] != '.' {
      assert s[e..][k] == s[e + 1..][k - 1];
    }
  }

  /** A tail has dots only at its start and where the extension begins, and no slash. */
  lemma TailShape(s: string, attempt: nat)
    ensures '/' !in Tail(s, attempt)
    ensures Tail(s, attempt) != "" ==> Tail(s, attempt)[0] == '.'
    ensures forall k :: 0 <= k < |Tail(s, attempt)| && Tail(s, attempt)[k] == '.' ==> k == 0 || k == |Suffix(attempt)|
  {
    hide ExtStart, BaseStart, Suffix;
    ExtShape(s);
    if attempt > 0 {
      SuffixIs(attempt);
    } else {
      NoSuffix();
    }
  }

  /** The text moved by a shift of one head begins with its space and has the separators of the gap. */
  lemma HeadShift(s: string, i: nat, t: string, j: nat, head: string)
    requires j < i <= |s| == |t| && head != "" && head[0] == ' '
    requires InsertAt(s, i, head) == InsertAt(t, j, head)
    ensures t[j..] == t[j..i] + s[i..] && ' ' in t[j..i]
    ensures '.' in s[j..i] <==> '.' in t[j..i]
    ensures '/' in s[j..i] <==> '/' in t[j..i]
  {
    Shift(s, i, head, t, j, head);
    var gap, moved := s[j..i], t[j..i];
    assert multiset(gap) + multiset(head) == multiset(gap + head) == multiset(head + moved);
    assert multiset(gap) == multiset(moved) by {
      assert multiset(head + moved) == multiset(head) + multiset(moved);
      assert multiset(gap) == multiset(gap + head) - multiset(head);
    }
    assert (gap + head)[0] == gap[0] && (head + moved)[0] == head[0];
    assert ' ' in multiset(gap);
    assert '.' in gap <==> '.' in multiset(gap);
    assert '.' in moved <==> '.' in multiset(moved);
    assert '/' in gap <==> '/' in multiset(gap);
    assert '/' in moved <==> '/' in multiset(moved);
    assert ' ' in moved <==> ' ' in multiset(moved);
  }

  /** Names with different attempts can only agree with the marker at the same place. */
  lemma SameHead(a: string, m: nat, b: string, n: nat, head: string)
    requires m < n && head != "" && head[0] == ' '
    requires
      var i, j := ExtStart(a), ExtStart(b);
      InsertAt(a[..i] + Tail(a, m), i, head) == InsertAt(b[..j] + Tail(b, n), j, head)
    ensures ExtStart(a) == ExtStart(b)
  {
    hide ExtStart, BaseStart, Suffix;
    var i, j := ExtStart(a), ExtStart(b);
    var s, t := a[..i] + Tail(a, m), b[..j] + Tail(b, n);
    assert |s| == |t| && s[i..] == Tail(a, m) && t[j..] == Tail(b, n);
    if j < i {
      HeadShift(s, i, t, j, head);
      LaterHeadOfSmaller(a, m, b, n, t[j..i]);
      assert s[j..i] == a[j..i];
      assert a[j..] == a[j..i];
      DotThere(t[j..i], a[j..i]);
      TailOfBase(a, j);
    } else if i < j {
      HeadShift(t, j, s, i, head);
      EarlierHeadOfSmaller(a, m, b, n, s[i..j]);
      assert t[i..j] == b[i..j];
      assert b[i..] == b[i..j];
      DotThere(s[i..j], b[i..j]);
      TailOfBase(b, i);
    }
  }

  lemma DotThere(moved: string, gap: string)
    requires moved != "" && moved[0] == '.' && '/' !in moved
    requires '.' in gap <==> '.' in moved
    requires '/' in gap <==> '/' in moved
    ensures '.' in gap && '/' !in gap
  {
  }

  /** If the smaller attempt's marker comes later, its path has no extension. */
  lemma LaterHeadOfSmaller(a: string, m: nat, b: string, n: nat, moved: string)
    requires m < n && moved != "" && Tail(b, n) == moved + Tail(a, m) && ' ' in moved
    ensures ExtStart(a) == |a| && moved[0] == '.' && '/' !in moved
  {
    hide ExtStart, BaseStart, Suffix;
    TailShape(a, m);
    TailShape(b, n);
    SuffixIs(n);
    var tail, p := Tail(b, n), |Suffix(n)|;
    assert moved == tail[..|moved|];
    var k :| 0 <= k < |moved| && moved[k] == ' ';
    assert tail[k] == ' ' && Suffix(n) == tail[..p];
    assert forall x :: 0 <= x < p ==> tail[x] == Suffix(n)[x];
    Starts(moved, Tail(a, m), "");
  }

  /** Where the second and the third of three texts begin in their concatenation. */
  lemma Starts(x: string, y: string, z: string)
    ensures y != "" ==> (x + (y + z))[|x|] == y[0]
    ensures z != "" ==> (x + (y + z))[|x| + |y|] == z[0]
    ensures y + "" == y
  {
  }

  /** If the smaller attempt's marker comes earlier, the other path has no extension. */
  lemma EarlierHeadOfSmaller(a: string, m: nat, b: string, n: nat, moved: string)
    requires m < n && moved != "" && Tail(a, m) == moved + Tail(b, n)
    ensures ExtStart(b) == |b| && moved[0] == '.' && '/' !in moved
  {
    hide ExtStart, BaseStart, Suffix;
    TailShape(a, m);
    SuffixIs(n);
    var tail, d := Tail(a, m), |moved|;
    assert moved == tail[..d];
    Starts(moved, Suffix(n), b[ExtStart(b)..]);
  }

  /** Texts that go on with nothing or a dot do not end before the first dot of a common continuation. */
  lemma EndsAtDot(x: string, u: string, y: string, v: string)
    requires x + u == y + v && x != "" && (u == "" || u[0] == '.') && forall k :: 0 < k < |y| ==> y[k] != '.'
    ensures |y| <= |x|
  {
    assert |x + u| == |y + v|;
    assert forall k :: 0 <= k < |y| ==> (y + v)[k] == y[k];
    assert u != "" ==> (x + u)[|x|] == u[0];
  }

  /** A suffix can be told from the extension behind it. */
  lemma SameSuffix(m: nat, u: string, n: nat, v: string)
    requires m > 0 && n > 0 && Suffix(m) + u == Suffix(n) + v
    requires (u == "" || u[0] == '.') && (v == "" || v[0] == '.')
    ensures m == n
  {
    hide Suffix;
    SuffixIs(m);
    SuffixIs(n);
    EndsAtDot(Suffix(m), u, Suffix(n), v);
    EndsAtDot(Suffix(n), v, Suffix(m), u);
    assert Suffix(m) == (Suffix(m) + u)[..|Suffix(m)|] && Suffix(n) == (Suffix(n) + v)[..|Suffix(n)|];
    SuffixInjective(m, n);
  }

  /** Equal tails of different attempts: the larger suffix is the other path's extension. */
  lemma TailsClash(a: string, m: nat, b: string, n: nat)
    requires m < n && Tail(a, m) == Tail(b, n)
    ensures m == 0 && ExtStart(b) == |b| && a[ExtStart(a)..] == Suffix(n)
  {
    hide ExtStart, BaseStart, Suffix;
    var u, v := a[ExtStart(a)..], b[ExtStart(b)..];
    assert v != "" ==> (Suffix(n) + v)[|Suffix(n)|] == v[0];
    ExtShape(a);
    ExtShape(b);
    SuffixIs(n);
    if m > 0 {
      SameSuffix(m, u, n, v);
    }
    NoSuffix();
    assert Suffix(0) + u == u;
  }

  lemma NoSuffix()
    ensures Suffix(0) == ""
  {
  }

  lemma SuffixInjective(m: nat, n: nat)
    requires Suffix(m) == Suffix(n)
    ensures m == n
  {
    if m > 0 && n > 0 {
      assert Decimal.Print(m) == Suffix(m)[1..] == Suffix(n)[1..] == Decimal.Print(n);
      Decimal.PrintInjective(m, n);
    }
  }

  /** `a` is the path `b`, which has no extension, with the suffix of attempt `n` for one. */
  predicate TakesSuffix(a: RelPath, m: nat, b: RelPath, n: nat)
  {
    m == 0 < n && ExtStart(b) == |b| && a == b + Suffix(n)
  }

  lemma LaterAttemptClashes(a: RelPath, m: nat, b: RelPath, n: nat, host: string, stamp: string)
    requires ValidRel(a) && ValidRel(b) && m < n
    ensures LoserText(a, host, stamp, m) == LoserText(b, host, stamp, n) <==> TakesSuffix(a, m, b, n)
  {
    hide ExtStart, BaseStart, ValidRel, WithMarker, Marker, Suffix, InsertAt;
    var head := Head(stamp, host);
    WithMarkerInserts(a, Marker(stamp, host, m));
    WithMarkerInserts(b, Marker(stamp, host, n));
    HeadInserted(a, stamp, host, m);
    HeadInserted(b, stamp, host, n);
    if TakesSuffix(a, m, b, n) {
      SuffixIsExtension(b, n);
      NoSuffix();
      assert a[..|b|] == b == b[..|b|] && a[|b|..] == Suffix(n) && b[|b|..] == "";
      assert Tail(a, 0) == Suffix(n) == Tail(b, n);
    }
    if LoserText(a, host, stamp, m) == LoserText(b, host, stamp, n) {
      SameHead(a, m, b, n, head);
      var e := ExtStart(a);
      SameInsertion(a[..e] + Tail(a, m), head, b[..e] + Tail(b, n), head, e);
      SplitAtExt(a, b, e, Tail(a, m), Tail(b, n));
      TailsClash(a, m, b, n);
      assert a == a[..e] + a[e..] && b == b[..e] + b[e..];
      assert a == b + Suffix(n);
    }
  }

  lemma SplitAtExt(a: string, b: string, e: nat, x: string, y: string)
    requires e <= |a| && e <= |b| && a[..e] + x == b[..e] + y
    ensures a[..e] == b[..e] && x == y
  {
    assert a[..e] == (a[..e] + x)[..e] && x == (a[..e] + x)[e..];
    assert b[..e] == (b[..e] + y)[..e] && y == (b[..e] + y)[e..];
  }

  /** Behind a base name without dots, a suffix is the extension. */
  lemma SuffixIsExtension(b: string, n: nat)
    requires n > 0 && ExtStart(b) == |b|
    ensures ExtStart(b + Suffix(n)) == |b|
  {
    SuffixIs(n);
    var s := b + Suffix(n);
    assert forall k :: |b| < k < |s| ==> s[k] == Suffix(n)[k - |b|] && s[k] != '.';
    BaseStaysPut(b, Suffix(n));
    ExtStartIs(s, |b|);
  }

  lemma ExtStartIs(s: string, e: nat)
    requires BaseStart(s) <= e < |s| && s[e] == '.' && forall k :: e < k < |s| ==> s[k] != '.'
    ensures ExtStart(s) == e
  {
    var x := ExtStart(s);
    assert s[BaseStart(s)..][e - BaseStart(s)] == '.';
    Behind(s, x, e);
  }

  lemma Behind(s: string, e: nat, k: nat)
    ensures e < k < |s| ==> s[k] in s[e + 1..]
  {
    if e < k < |s| {
      assert s[e + 1..][k - e - 1] == s[k];
    }
  }

  lemma BaseStaysPut(b: string, ext: string)
    requires '/' !in ext
    ensures BaseStart(b + ext) == BaseStart(b)
  {
    var p := BaseStart(b);
    assert (b + ext)[p..] == b[p..] + ext;
    BaseStartIs(b + ext, p);
  }

  /**
   * When two loser names of one host and time are the same: for the same path and attempt, or when
   * one path has no extension, the other is that path with the retry suffix for an extension, and
   * the latter is tried for the first time.
   */
  lemma LoserNamesClashIff(a: RelPath, m: nat, b: RelPath, n: nat, host: string, stamp: string)
    requires ValidRel(a) && ValidRel(b)
    ensures LoserText(a, host, stamp, m) == LoserText(b, host, stamp, n)
            <==> (a == b && m == n) || TakesSuffix(a, m, b, n) || TakesSuffix(b, n, a, m)
  {
    hide ExtStart, ValidRel, LoserText, Suffix;
    if m < n {
      LaterAttemptClashes(a, m, b, n, host, stamp);
    } else if n < m {
      LaterAttemptClashes(b, n, a, m, host, stamp);
    } else if LoserText(a, host, stamp, m) == LoserText(b, host, stamp, n) {
      LoserPathInjective(a, b, host, stamp, stamp, m);
    }
  }

  /** The two together are not injective: a retry of `a` takes the name of `a.1`'s first attempt. */
  lemma LoserPathNotJointlyInjective(host: string, stamp: string)
    ensures ValidRel("a") && ValidRel("a.1")
    ensures LoserText("a", host, stamp, 1) == LoserText("a.1", host, stamp, 0)
  {
    hide LoserText;
    assert ValidRel("a") && ValidRel("a.1");
    BaseStartIs("a", 0);
    assert ExtStart("a") == 1;
    assert Suffix(1) == ".1";
    LoserNamesClashIff("a.1", 0, "a", 1, host, stamp);
  }
}
