/**
 * Path text. A string holds one UTF-8 code unit per character, so lengths and comparisons are
 * those of bytes. Paths are taken to be in NFC already.
 */
module Paths {
  import opened Collections

  type RelPath = string

  const MAX_PATH_BYTES: nat := 1024

  // ---------------------------------------------------------------- searching

  /** `s.rfind(c)` */
  function LastIndex(s: string, c: char): (r: Option<nat>)
    ensures r.Some? ==> r.value < |s| && s[r.value] == c && c !in s[r.value + 1..]
    ensures r.None? ==> c !in s
  {
    if s == "" then None
    else if s[|s| - 1] == c then Some(|s| - 1)
    else
      var r := LastIndex(s[..|s| - 1], c);
      assert s == s[..|s| - 1] + [s[|s| - 1]];
      r
  }

  function TrimSlashes(s: string): (r: string)
    ensures r == "" || r[0] != '/'
  {
    if s != "" && s[0] == '/' then TrimSlashes(s[1..]) else s
  }

  lemma TrimNothing()
    ensures TrimSlashes("") == ""
  {
  }

  lemma {:induction false} TrimOne(s: string)
    requires s != "" && s[0] != '/'
    ensures TrimSlashes(s) == s && TrimSlashes("/" + s) == s
  {
    assert ("/" + s)[1..] == s;
  }

  /** The part after the first `:`, or all of `s` when there is none. */
  function AfterColon(s: string): string
  {
    if ':' !in s then s
    else if s[0] == ':' then s[1..]
    else AfterColon(s[1..])
  }

  /** Index at which the base name of `s` begins. */
  function BaseStart(s: string): (b: nat)
    ensures b <= |s| && '/' !in s[b..] && (b == 0 || s[b - 1] == '/')
  {
    match LastIndex(s, '/')
    case None => 0
    case Some(i) => i + 1
  }

  lemma NoSlashBehind(s: string, b: nat, k: nat)
    requires b <= k < |s| && '/' !in s[b..]
    ensures s[k] != '/'
  {
    assert s[k] == s[b..][k - b];
  }

  lemma BaseStartIs(s: string, b: nat)
    requires b <= |s| && '/' !in s[b..] && (b == 0 || s[b - 1] == '/')
    ensures BaseStart(s) == b
  {
    var b' := BaseStart(s);
    forall k: nat | b <= k < |s| ensures s[k] != '/' {
      NoSlashBehind(s, b, k);
    }
    forall k: nat | b' <= k < |s| ensures s[k] != '/' {
      NoSlashBehind(s, b', k);
    }
  }

  /** `s.rsplit('/').next()` */
  function Leaf(s: string): string
  {
    s[BaseStart(s)..]
  }

  // ---------------------------------------------------------------- comparison

  /** Byte-wise order of `str::cmp`. */
  predicate Before(a: string, b: string)
  {
    b != "" && (a == "" || a[0] < b[0] || (a[0] == b[0] && Before(a[1..], b[1..])))
  }

  /** `a` and `b` agree up to `k`, where `a` ends or has the smaller byte. */
  predicate PartsAt(a: string, b: string, k: nat)
  {
    k <= |a| && k < |b| && a[..k] == b[..k] && (k == |a| || a[k] < b[k])
  }

  lemma {:induction false} BeforeIff(a: string, b: string)
    ensures Before(a, b) <==> exists k: nat :: PartsAt(a, b, k)
  {
    if a != "" && b != "" && a[0] == b[0] {
      BeforeIff(a[1..], b[1..]);
      if k: nat :| PartsAt(a[1..], b[1..], k) {
        assert a[..k + 1] == [a[0]] + a[1..][..k] && b[..k + 1] == [b[0]] + b[1..][..k];
        assert PartsAt(a, b, k + 1);
      }
      if k: nat :| PartsAt(a, b, k) {
        assert k > 0 && a[1..][..k - 1] == a[..k][1..] && b[1..][..k - 1] == b[..k][1..];
        assert PartsAt(a[1..], b[1..], k - 1);
      }
    } else if b != "" && (a == "" || a[0] < b[0]) {
      assert PartsAt(a, b, 0);
    } else {
      forall k: nat ensures !PartsAt(a, b, k) {
        if 0 < k <= |a| && k < |b| {
          assert a[..k][0] == a[0] && b[..k][0] == b[0];
        }
      }
    }
  }

  lemma {:induction false} BeforeTotal(a: string, b: string)
    ensures Before(a, b) || a == b || Before(b, a)
    ensures !(Before(a, b) && (a == b || Before(b, a)))
  {
    if a != "" && b != "" && a[0] == b[0] {
      BeforeTotal(a[1..], b[1..]);
      assert a == [a[0]] + a[1..] && b == [b[0]] + b[1..];
    }
  }

  lemma {:induction false} BeforeTransitive(a: string, b: string, c: string)
    requires Before(a, b) && Before(b, c)
    ensures Before(a, c)
  {
    if a != "" && a[0] == b[0] && b[0] == c[0] {
      BeforeTransitive(a[1..], b[1..], c[1..]);
    }
  }

  function LowerChar(c: char): char
  {
    if 'A' <= c <= 'Z' then ('a' as int + (c as int - 'A' as int)) as char else c
  }

  /** `str::to_ascii_lowercase`, the fold of the store's case-insensitive lookup. */
  function AsciiLower(s: string): string
  {
    seq(|s|, i requires 0 <= i < |s| => LowerChar(s[i]))
  }

  /** Two texts agree up to ASCII case exactly if their characters are the same or one letter in two cases. */
  lemma SameLowerIff(a: string, b: string)
    ensures AsciiLower(a) == AsciiLower(b) <==>
            |a| == |b| && forall i :: 0 <= i < |a| ==>
              || a[i] == b[i] || ('A' <= a[i] <= 'Z' && b[i] as int == a[i] as int + 32)
              || ('A' <= b[i] <= 'Z' && a[i] as int == b[i] as int + 32)
  {
    assert |AsciiLower(a)| == |a| && |AsciiLower(b)| == |b|;
    if |a| == |b| {
      forall i | 0 <= i < |a|
        ensures LowerChar(a[i]) == LowerChar(b[i]) <==>
                || a[i] == b[i] || ('A' <= a[i] <= 'Z' && b[i] as int == a[i] as int + 32)
                || ('A' <= b[i] <= 'Z' && a[i] as int == b[i] as int + 32)
      {
        LowerCharIff(a[i], b[i]);
      }
      hide LowerChar;
      assert forall i :: 0 <= i < |a| ==> AsciiLower(a)[i] == LowerChar(a[i]) && AsciiLower(b)[i] == LowerChar(b[i]);
      assert AsciiLower(a) == AsciiLower(b) <==> forall i :: 0 <= i < |a| ==> AsciiLower(a)[i] == AsciiLower(b)[i];
    }
  }

  lemma LowerCharIff(c: char, d: char)
    ensures LowerChar(c) == LowerChar(d) <==>
            || c == d || ('A' <= c <= 'Z' && d as int == c as int + 32) || ('A' <= d <= 'Z' && c as int == d as int + 32)
  {
  }

  // ---------------------------------------------------------------- nesting

  /** Number of `/` in a path: how deep it lies. */
  function Depth(s: string): nat
  {
    if s == "" then 0 else Depth(s[..|s| - 1]) + if s[|s| - 1] == '/' then 1 else 0
  }

  lemma {:induction false} DepthAdds(a: string, b: string)
    ensures Depth(a + b) == Depth(a) + Depth(b)
  {
    if b == "" {
      assert a + b == a;
    } else {
      DepthAdds(a, b[..|b| - 1]);
      assert (a + b)[..|a + b| - 1] == a + b[..|b| - 1];
    }
  }

  /** `q` lies somewhere below the directory `p`. */
  predicate Beneath(p: string, q: string)
  {
    |p| < |q| && q[..|p|] == p && q[|p|] == '/'
  }

  lemma {:induction false} BeneathIsDeeper(p: string, q: string)
    requires Beneath(p, q)
    ensures Depth(p) < Depth(q)
  {
    assert q == p + "/" + q[|p| + 1..];
    DepthAdds(p + "/", q[|p| + 1..]);
    DepthAdds(p, "/");
    assert Depth("/") == Depth("/"[..0]) + 1;
  }

  // ---------------------------------------------------------------- validation

  /** A component `..` begins at `i`. */
  predicate ParentAt(s: string, i: int)
  {
    && 0 <= i < |s| - 1 && s[i] == '.' && s[i + 1] == '.'
    && (i == 0 || s[i - 1] == '/') && (i + 2 == |s| || s[i + 2] == '/')
  }

  /** One of the `/`-separated components of `s` is `..`. */
  predicate HasParentComponent(s: string)
  {
    exists i :: 0 <= i < |s| && ParentAt(s, i)
  }

  /** The texts between the slashes. */
  function Components(s: string): (r: seq<string>)
    ensures r != []
  {
    if s == "" then [""]
    else
      var rest := Components(s[1..]);
      if s[0] == '/' then [""] + rest else [[s[0]] + rest[0]] + rest[1..]
  }

  /** The first component is `..`. */
  predicate BeginsWithParent(s: string)
  {
    |s| >= 2 && s[0] == '.' && s[1] == '.' && (|s| == 2 || s[2] == '/')
  }

  /** A later component is `..`. */
  predicate GoesOnWithParent(s: string)
  {
    exists i :: 0 < i <= |s| && s[i - 1] == '/' && BeginsWithParent(s[i..])
  }

  lemma {:induction false} FirstComponent(s: string)
    ensures Components(s)[0] == "" <==> s == "" || s[0] == '/'
    ensures Components(s)[0] == "." <==> s != "" && s[0] == '.' && (|s| == 1 || s[1] == '/')
    ensures Components(s)[0] == ".." <==> BeginsWithParent(s)
  {
    if s != "" && s[0] != '/' {
      FirstComponent(s[1..]);
      var rest := Components(s[1..])[0];
      assert Components(s)[0] == [s[0]] + rest;
      PutInFront(s[0], rest);
    }
  }

  lemma PutInFront(c: char, rest: string)
    ensures [c] + rest == "." <==> c == '.' && rest == ""
    ensures [c] + rest == ".." <==> c == '.' && rest == "."
  {
    assert ([c] + rest)[0] == c && ([c] + rest)[1..] == rest;
    assert "."[1..] == "" && ".."[1..] == ".";
    assert [c] + "" == [c];
  }

  lemma LaterComponent(s: string)
    requires s != ""
    ensures GoesOnWithParent(s) <==> (s[0] == '/' && BeginsWithParent(s[1..])) || GoesOnWithParent(s[1..])
  {
    if i :| 0 < i <= |s[1..]| && s[1..][i - 1] == '/' && BeginsWithParent(s[1..][i..]) {
      assert s[1..][i..] == s[i + 1..] && s[i + 1 - 1] == '/';
    }
    if i :| 0 < i <= |s| && s[i - 1] == '/' && BeginsWithParent(s[i..]) {
      if i > 1 {
        assert s[1..][i - 1..] == s[i..] && s[1..][i - 2] == '/';
      }
    }
  }

  lemma {:induction false} ParentIsComponent(s: string)
    ensures ".." in Components(s)[1..] <==> GoesOnWithParent(s)
  {
    if s != "" {
      ParentIsComponent(s[1..]);
      FirstComponent(s[1..]);
      LaterComponent(s);
      var rest := Components(s[1..]);
      assert rest == [rest[0]] + rest[1..];
    }
  }

  /** The check for parent components finds exactly the paths with a component `..`. */
  lemma {:induction false} HasParentIff(s: string)
    ensures HasParentComponent(s) <==> ".." in Components(s)
  {
    FirstComponent(s);
    ParentIsComponent(s);
    var all := Components(s);
    assert all == [all[0]] + all[1..];
    forall i: nat ensures ParentAt(s, i) <==> i <= |s| && (i == 0 || s[i - 1] == '/') && BeginsWithParent(s[i..]) {
      ParentAtIff(s, i);
    }
    assert s[0..] == s;
    hide ParentAt, BeginsWithParent;
    assert BeginsWithParent(s) ==> ParentAt(s, 0);
  }

  lemma ParentAtIff(s: string, i: nat)
    ensures ParentAt(s, i) <==> i <= |s| && (i == 0 || s[i - 1] == '/') && BeginsWithParent(s[i..])
  {
  }

  predicate ValidCommon(s: string)
  {
    s != "" && |s| <= MAX_PATH_BYTES && '\0' !in s && !HasParentComponent(s)
  }

  predicate ValidRel(s: string)
  {
    ValidCommon(s) && s[0] != '/'
  }

  predicate ValidAbs(s: string)
  {
    ValidCommon(s) && s[0] == '/'
  }

  function ParseRel(s: string): Option<RelPath>
  {
    if ValidRel(s) then Some(s) else None
  }

  /** What a valid relative path is: not empty, not too long, without a NUL, a leading slash or a component `..`. */
  lemma {:induction false} ValidRelIff(s: string)
    ensures ValidRel(s) <==>
            && 0 < |s| <= 1024 && s[0] != '/' && '\0' !in s && ".." !in Components(s)
  {
    hide HasParentComponent;
    HasParentIff(s);
  }

  /** When a relative path can be used below a root. */
  lemma {:induction false} JoinsIff(root: string, rel: string)
    ensures Joins(root, rel) <==>
            && |root| + |rel| < 1024 && (root == "" || root[0] == '/') && '\0' !in root && '\0' !in rel
            && ".." !in Components(root + "/" + rel)
  {
    hide HasParentComponent, Components;
    HasParentIff(root + "/" + rel);
  }

  /** Whether `root/rel` is a valid absolute path. */
  predicate Joins(root: string, rel: string)
  {
    ValidAbs(root + "/" + rel)
  }

  /** The path of `abs` under `root`, if it is one. */
  function RelFromAbs(root: string, abs: string): Option<RelPath>
  {
    if root <= abs && TrimSlashes(abs[|root|..]) != "" then ParseRel(TrimSlashes(abs[|root|..])) else None
  }
}
