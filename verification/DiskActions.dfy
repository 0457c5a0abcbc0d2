/** Changes of a file tree, one after another, and where they leave a given file. */
module DiskActions {
  import opened Collections
  import opened Paths

  type Content = string

  /** The files under the pair root, by path. */
  type Disk = RelPath -> Option<Content>

  /** A relocation that keeps the original is a copy. */
  datatype Action =
    | Relocate(from: RelPath, to: RelPath, keeps: bool)
    | Write(path: RelPath, content: Content)
    | Remove(path: RelPath)
    | Idle

  /** `q` is `p` or lies below it. */
  predicate Within(p: RelPath, q: RelPath)
  {
    q == p || Beneath(p, q)
  }

  /** Where a file goes when `from` is renamed; a directory takes what is below it along. */
  function Rebase(from: RelPath, to: RelPath, q: RelPath): RelPath
  {
    if Within(from, q) then to + q[|from|..] else q
  }

  function Act(disk: Disk, a: Action): Disk
  {
    match a
    case Relocate(from, to, keeps) =>
      (q: RelPath) =>
        if Within(to, q) && disk(from + q[|to|..]).Some? then disk(from + q[|to|..])
        else if Within(from, q) && !keeps then None
        else disk(q)
    case Write(path, content) => (q: RelPath) => if q == path then Some(content) else disk(q)
    case Remove(path) => (q: RelPath) => if q == path then None else disk(q)
    case Idle => disk
  }

  /** The disk after the first `n` actions. */
  function Run(disk: Disk, acts: seq<Action>, n: nat): Disk
    requires n <= |acts|
  {
    if n == 0 then disk else Act(Run(disk, acts, n - 1), acts[n - 1])
  }

  /** Where the first `n` actions have taken what was at `p`; a copy counts before its original. */
  function Place(acts: seq<Action>, n: nat, p: RelPath): RelPath
    requires n <= |acts|
  {
    if n == 0 then p
    else
      var q := Place(acts, n - 1, p);
      match acts[n - 1]
      case Relocate(from, to, _) => Rebase(from, to, q)
      case _ => q
  }

  /** The action replaces or removes the file at `q`. */
  predicate Hits(a: Action, q: RelPath)
  {
    match a
    case Write(path, _) => path == q
    case Remove(path) => path == q
    case _ => false
  }

  /** New names are unrelated to each other. */
  ghost predicate Unrelated(acts: seq<Action>)
  {
    forall j, k :: 0 <= j < |acts| && 0 <= k < |acts| && j != k && acts[j].Relocate? && acts[k].Relocate? ==>
      !Within(acts[j].to, acts[k].to)
  }

  /** `q` is not within a name that some action from number `n` on is still to give. */
  ghost predicate ClearOf(acts: seq<Action>, n: nat, q: RelPath)
  {
    forall k :: n <= k < |acts| && acts[k].Relocate? ==> !Within(acts[k].to, q)
  }

  /** Two places on the way to a third lie on the way to each other. */
  lemma OnOneWay(x: RelPath, y: RelPath, z: RelPath)
    requires Within(x, z) && Within(y, z)
    ensures Within(x, y) || Within(y, x)
  {
    assert |x| <= |y| ==> y[..|x|] == z[..|y|][..|x|] == z[..|x|];
    assert |y| <= |x| ==> x[..|y|] == z[..|x|][..|y|] == z[..|y|];
  }

  lemma RebaseIsClear(from: RelPath, to: RelPath, q: RelPath, name: RelPath)
    requires Within(from, q) && !Within(name, to) && !Within(to, name)
    ensures !Within(name, Rebase(from, to, q))
  {
    hide Within, Rebase;
    RebaseIsWithin(from, to, q);
    if Within(name, Rebase(from, to, q)) {
      OnOneWay(name, to, Rebase(from, to, q));
    }
  }

  /** The place stays clear of the names still to be given, and is `p` or within a name given. */
  lemma {:induction false} PlaceIsClear(acts: seq<Action>, n: nat, p: RelPath)
    requires n <= |acts| && Unrelated(acts) && ClearOf(acts, 0, p)
    ensures ClearOf(acts, n, Place(acts, n, p))
    ensures Place(acts, n, p) == p || exists k :: 0 <= k < n && acts[k].Relocate? && Within(acts[k].to, Place(acts, n, p))
  {
    hide Within, Rebase;
    if n > 0 {
      PlaceIsClear(acts, n - 1, p);
      var q, a := Place(acts, n - 1, p), acts[n - 1];
      if a.Relocate? {
        RebaseIsWithin(a.from, a.to, q);
        forall k | n <= k < |acts| && acts[k].Relocate? ensures !Within(acts[k].to, Place(acts, n, p)) {
          assert !Within(acts[k].to, q) && !Within(acts[k].to, a.to) && !Within(a.to, acts[k].to);
          if Within(a.from, q) {
            RebaseIsClear(a.from, a.to, q, acts[k].to);
          }
        }
      }
    }
  }

  lemma RebaseIsWithin(from: RelPath, to: RelPath, q: RelPath)
    ensures if Within(from, q) then Within(to, Rebase(from, to, q)) else Rebase(from, to, q) == q
  {
  }

  /** Nothing is left at a name that was given up. */
  lemma RebaseLeaves(from: RelPath, to: RelPath, q: RelPath)
    requires !Within(to, from)
    ensures Rebase(from, to, q) != from
  {
    RebaseIsWithin(from, to, q);
  }

  /** What is at a place stays there until something hits the place. */
  lemma {:induction false} Follow(disk: Disk, acts: seq<Action>, m: nat, n: nat, p: RelPath)
    requires m <= n <= |acts| && Unrelated(acts) && ClearOf(acts, 0, p)
    requires Run(disk, acts, m)(Place(acts, m, p)).Some?
    requires forall k :: m <= k < n ==> !Hits(acts[k], Place(acts, k, p))
    ensures Run(disk, acts, n)(Place(acts, n, p)) == Run(disk, acts, m)(Place(acts, m, p))
    decreases n
  {
    hide Unrelated, Hits, Act, Rebase;
    if m < n {
      Follow(disk, acts, m, n - 1, p);
      PlaceIsClear(acts, n - 1, p);
      ActOnPlace(Run(disk, acts, n - 1), acts[n - 1], Place(acts, n - 1, p));
    }
  }

  lemma ActOnPlace(disk: Disk, a: Action, q: RelPath)
    requires disk(q).Some? && !Hits(a, q) && (a.Relocate? ==> !Within(a.to, q))
    ensures Act(disk, a)(if a.Relocate? then Rebase(a.from, a.to, q) else q) == disk(q)
  {
    if a.Relocate? && Within(a.from, q) {
      var moved := a.to + q[|a.from|..];
      assert moved[|a.to|..] == q[|a.from|..] && a.from + q[|a.from|..] == q;
      RebaseIsWithin(a.from, a.to, q);
    }
  }

  /** No directory above `q` is renamed. */
  ghost predicate DirectoriesStay(acts: seq<Action>, q: RelPath)
  {
    forall k :: 0 <= k < |acts| && acts[k].Relocate? ==> !Beneath(acts[k].from, q)
  }

  /** If directories stay, a file is at its old name until it is renamed, and then at the new one. */
  lemma {:induction false} PlaceOf(acts: seq<Action>, g: nat, n: nat, p: RelPath)
    requires g < |acts| && n <= |acts| && DirectoriesStay(acts, p)
    requires forall k :: 0 <= k < |acts| && k != g && acts[k].Relocate? ==> acts[k].from != p
    requires acts[g].Relocate? && acts[g].from == p ==>
      DirectoriesStay(acts, acts[g].to) && forall k :: 0 <= k < |acts| && acts[k].Relocate? ==> acts[k].from != acts[g].to
    ensures Place(acts, n, p) == if n > g && acts[g].Relocate? && acts[g].from == p then acts[g].to else p
  {
    if n > 0 {
      PlaceOf(acts, g, n - 1, p);
    }
  }
}
