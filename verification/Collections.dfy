/** Option/Result values and the sequence facts shared by the other modules. */
module Collections {

  datatype Option<+T> = None | Some(value: T)

  datatype Result<+T, +E> = Ok(value: T) | Err(error: E)

  /** Keeps, in order, the values that `f` produces for the elements of `s`. */
  function FilterMap<T, U>(f: T -> Option<U>, s: seq<T>): seq<U>
  {
    if s == [] then []
    else
      var front := FilterMap(f, s[..|s| - 1]);
      match f(s[|s| - 1])
      case None => front
      case Some(u) => front + [u]
  }

  lemma {:induction false} FilterMapAppend<T, U>(f: T -> Option<U>, a: seq<T>, b: seq<T>)
    ensures FilterMap(f, a + b) == FilterMap(f, a) + FilterMap(f, b)
  {
    if b == [] {
      assert a + b == a;
    } else {
      var front := b[..|b| - 1];
      FilterMapAppend(f, a, front);
      assert (a + b)[..|a + b| - 1] == a + front;
    }
  }

  /** What one element contributes to the output of `FilterMap`. */
  function Contribution<U>(x: Option<U>): multiset<U>
  {
    match x
    case None => multiset{}
    case Some(u) => multiset{u}
  }

  lemma {:induction false} FilterMapInsert<T, U>(f: T -> Option<U>, l: seq<T>, x: T, r: seq<T>)
    ensures multiset(FilterMap(f, l + [x] + r)) == multiset(FilterMap(f, l + r)) + Contribution(f(x))
  {
    FilterMapAppend(f, l + [x], r);
    FilterMapAppend(f, l, r);
    assert (l + [x])[..|l|] == l;
  }

  lemma MemberAt<T>(x: T, s: seq<T>) returns (j: nat)
    requires x in multiset(s)
    ensures j < |s| && s[j] == x
  {
    j :| j < |s| && s[j] == x;
  }

  lemma WithoutOne<T>(s: seq<T>, j: nat)
    requires j < |s|
    ensures multiset(s[..j] + s[j + 1..]) == multiset(s) - multiset{s[j]}
  {
    assert s == s[..j] + [s[j]] + s[j + 1..];
  }

  lemma RemoveOne<T>(a: seq<T>, b: seq<T>) returns (j: nat)
    requires multiset(a) == multiset(b) && a != []
    ensures j < |b| && b[j] == a[|a| - 1]
    ensures multiset(a[..|a| - 1]) == multiset(b[..j] + b[j + 1..])
  {
    var n := |a| - 1;
    assert a[n] in multiset(a);
    j := MemberAt(a[n], b);
    WithoutOne(a, n);
    WithoutOne(b, j);
    assert a[..n] + a[n + 1..] == a[..n];
  }

  lemma {:induction false} FilterMapWithout<T, U>(f: T -> Option<U>, s: seq<T>, j: nat)
    requires j < |s|
    ensures multiset(FilterMap(f, s)) == multiset(FilterMap(f, s[..j] + s[j + 1..])) + Contribution(f(s[j]))
  {
    hide FilterMap, Contribution;
    FilterMapInsert(f, s[..j], s[j], s[j + 1..]);
    assert s == s[..j] + [s[j]] + s[j + 1..];
  }

  /** Permuting the input of `FilterMap` only permutes its output. */
  lemma {:induction false} FilterMapPermutes<T, U>(f: T -> Option<U>, a: seq<T>, b: seq<T>)
    requires multiset(a) == multiset(b)
    ensures multiset(FilterMap(f, a)) == multiset(FilterMap(f, b))
    decreases |a|
  {
    hide FilterMap, Contribution;
    if a == [] {
      assert |multiset(b)| == 0;
    } else {
      var n := |a| - 1;
      var j := RemoveOne(a, b);
      FilterMapPermutes(f, a[..n], b[..j] + b[j + 1..]);
      FilterMapWithout(f, a, n);
      FilterMapWithout(f, b, j);
      assert a[..n] + a[n + 1..] == a[..n];
    }
  }

  /** Every output of `FilterMap` comes from an input position, in order. */
  lemma {:induction false} FilterMapSource<T, U>(f: T -> Option<U>, s: seq<T>, i: nat) returns (a: nat)
    requires i < |FilterMap(f, s)|
    ensures a < |s| && f(s[a]) == Some(FilterMap(f, s)[i])
    ensures FilterMap(f, s[..a]) == FilterMap(f, s)[..i]
  {
    var front := s[..|s| - 1];
    if i < |FilterMap(f, front)| {
      a := FilterMapSource(f, front, i);
      assert front[..a] == s[..a];
    } else {
      a := |s| - 1;
    }
  }

  /** Two outputs of `FilterMap` come from two input positions in the same order. */
  lemma {:induction false} FilterMapOrder<T, U>(f: T -> Option<U>, s: seq<T>, i: nat, j: nat)
    returns (a: nat, b: nat)
    requires i < j < |FilterMap(f, s)|
    ensures a < b < |s|
    ensures f(s[a]) == Some(FilterMap(f, s)[i]) && f(s[b]) == Some(FilterMap(f, s)[j])
  {
    b := FilterMapSource(f, s, j);
    a := FilterMapSource(f, s[..b], i);
  }

  /** Where the contribution of input position `i` goes. */
  lemma {:induction false} FilterMapAt<T, U>(f: T -> Option<U>, s: seq<T>, i: nat)
    requires i < |s| && f(s[i]).Some?
    ensures FilterMap(f, s[..i + 1]) == FilterMap(f, s[..i]) + [f(s[i]).value]
    ensures FilterMap(f, s[..i + 1]) <= FilterMap(f, s)
  {
    assert s[..i + 1][..i] == s[..i];
    FilterMapAppend(f, s[..i + 1], s[i + 1..]);
    assert s == s[..i + 1] + s[i + 1..];
  }

  /** The output for `n` elements, from that for `n - 1`. */
  lemma FilterMapSnoc<T, U>(f: T -> Option<U>, s: seq<T>, n: nat)
    requires 0 < n <= |s|
    ensures FilterMap(f, s[..n])
            == FilterMap(f, s[..n - 1]) + (if f(s[n - 1]).Some? then [f(s[n - 1]).value] else [])
  {
    assert s[..n][..n - 1] == s[..n - 1];
  }

  /** What `f` makes of an element of the input is in the output. */
  lemma {:induction false} FilterMapHits<T, U>(f: T -> Option<U>, s: seq<T>, x: T)
    requires x in s && f(x).Some?
    ensures f(x).value in FilterMap(f, s)
  {
    if x != s[|s| - 1] {
      FilterMapHits(f, s[..|s| - 1], x);
    }
  }

  lemma FirstIsMember<T>(s: seq<T>)
    ensures s == [] || exists x :: x in s
  {
    if s != [] {
      assert s[0] in s;
    }
  }

  lemma SameLength<T>(a: seq<T>, b: seq<T>)
    requires multiset(a) == multiset(b)
    ensures |a| == |b|
  {
    assert |multiset(a)| == |a| && |multiset(b)| == |b|;
  }

  lemma SameMembers<T>(a: seq<T>, b: seq<T>, x: T)
    requires multiset(a) == multiset(b)
    ensures x in a <==> x in b
  {
    assert x in a <==> x in multiset(a);
    assert x in b <==> x in multiset(b);
  }

  lemma OccursTwice<T>(s: seq<T>, i: nat, j: nat)
    requires i < j < |s|
    ensures s[i] == s[j] ==> multiset(s)[s[i]] >= 2
  {
    assert s == s[..j] + [s[j]] + s[j + 1..];
    assert s[..j][i] == s[i];
    assert s[i] in multiset(s[..j]);
  }

  function Flatten<T>(parts: seq<seq<T>>): seq<T>
  {
    if parts == [] then [] else Flatten(parts[..|parts| - 1]) + parts[|parts| - 1]
  }

  lemma {:induction false} FlattenPrefix<T>(parts: seq<seq<T>>, i: nat)
    requires i <= |parts|
    ensures Flatten(parts[..i]) <= Flatten(parts)
    decreases |parts|
  {
    if i < |parts| {
      FlattenPrefix(parts[..|parts| - 1], i);
      assert parts[..|parts| - 1][..i] == parts[..i];
    } else {
      assert parts[..i] == parts;
    }
  }

  function Lookup<K, V>(m: map<K, V>, k: K): Option<V>
  {
    if k in m then Some(m[k]) else None
  }

  /** No two elements have the same key. */
  ghost predicate DistinctBy<T, K>(key: T -> K, s: seq<T>)
  {
    forall i, j :: 0 <= i < j < |s| ==> key(s[i]) != key(s[j])
  }

  /** Rearranging a sequence keeps its keys distinct. */
  lemma DistinctPermutes<T, K>(key: T -> K, a: seq<T>, b: seq<T>)
    requires multiset(a) == multiset(b) && DistinctBy(key, a)
    ensures DistinctBy(key, b)
  {
    forall i, j | 0 <= i < j < |b| && key(b[i]) == key(b[j]) ensures false {
      assert multiset(b)[b[i]] == multiset(a)[b[i]] && multiset(b)[b[j]] == multiset(a)[b[j]];
      assert b[i] in multiset(b) && b[j] in multiset(b);
      var x :| 0 <= x < |a| && a[x] == b[i];
      var y :| 0 <= y < |a| && a[y] == b[j];
      assert x == y;
      OccursOnce(key, a, x);
      OccursTwice(b, i, j);
      assert false;
    }
  }

  lemma OccursOnce<T, K>(key: T -> K, a: seq<T>, x: nat)
    requires x < |a| && DistinctBy(key, a)
    ensures multiset(a)[a[x]] == 1
  {
    var l, r := a[..x], a[x + 1..];
    assert a == l + [a[x]] + r;
    assert a[x] !in multiset(l) && a[x] !in multiset(r);
  }
}
