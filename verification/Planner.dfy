/** Decisions to an ordered list of operations: directories first, deletes last. */
module Planner {
  import opened Collections
  import opened Types

  /** Place of a kind in the plan. */
  function Rank(kind: OpKind): nat
  {
    match kind
    case OpLocalMkdir => 0
    case OpRemoteMkdir => 0
    case OpLocalDelete => 2
    case OpRemoteDelete => 2
    case _ => 1
  }

  function MakeOp(path: string, kind: OpKind, now: Timestamp): FileOp
  {
    FileOp(path, kind, NO_META, now)
  }

  /** The operation of an actionable decision. */
  function OpOf(now: Timestamp): Decision -> Option<FileOp>
  {
    (d: Decision) =>
      match d.kind.ToOpKind()
      case None => None
      case Some(kind) => Some(MakeOp(d.path, kind, now))
  }

  function Keep(rank: nat): FileOp -> Option<FileOp>
  {
    (op: FileOp) => if Rank(op.kind) == rank then Some(op) else None
  }

  /** The operations of one rank, in their order. */
  function OfRank(ops: seq<FileOp>, rank: nat): seq<FileOp>
  {
    FilterMap(Keep(rank), ops)
  }

  ghost predicate RankSorted(ops: seq<FileOp>)
  {
    forall i, j :: 0 <= i < j < |ops| ==> Rank(ops[i].kind) <= Rank(ops[j].kind)
  }

  /** `ops` is `input` sorted by rank, with equal ranks in their original order. */
  ghost predicate IsStableSort(input: seq<FileOp>, ops: seq<FileOp>)
  {
    RankSorted(ops) && forall rank :: 0 <= rank <= 2 ==> OfRank(ops, rank) == OfRank(input, rank)
  }

  lemma {:induction false} OfRankIs(ops: seq<FileOp>, rank: nat)
    ensures forall op :: op in OfRank(ops, rank) ==> Rank(op.kind) == rank && op in ops
  {
    if ops != [] {
      OfRankIs(ops[..|ops| - 1], rank);
    }
  }

  lemma {:induction false} OfRankAll(ops: seq<FileOp>, rank: nat, other: nat)
    requires forall op :: op in ops ==> Rank(op.kind) == rank
    ensures OfRank(ops, other) == if rank == other then ops else []
  {
    if ops != [] {
      var front := ops[..|ops| - 1];
      OfRankAll(front, rank, other);
      assert ops == front + [ops[|ops| - 1]];
    }
  }

  function ByRank(ops: seq<FileOp>): seq<FileOp>
  {
    OfRank(ops, 0) + OfRank(ops, 1) + OfRank(ops, 2)
  }

  lemma ByRankIsSorted(ops: seq<FileOp>)
    ensures RankSorted(ByRank(ops))
  {
    hide OfRank;
    OfRankIs(ops, 0);
    OfRankIs(ops, 1);
    OfRankIs(ops, 2);
  }

  lemma ByRankKeepsRank(ops: seq<FileOp>, rank: nat)
    requires rank <= 2
    ensures OfRank(ByRank(ops), rank) == OfRank(ops, rank)
  {
    hide FilterMap, RankSorted;
    var a, b, c := OfRank(ops, 0), OfRank(ops, 1), OfRank(ops, 2);
    FilterMapAppend(Keep(rank), a + b, c);
    FilterMapAppend(Keep(rank), a, b);
    OfRankIs(ops, 0);
    OfRankIs(ops, 1);
    OfRankIs(ops, 2);
    OfRankAll(a, 0, rank);
    OfRankAll(b, 1, rank);
    OfRankAll(c, 2, rank);
  }

  lemma ByRankIsStableSort(ops: seq<FileOp>)
    ensures IsStableSort(ops, ByRank(ops))
  {
    hide OfRank, ByRank, RankSorted;
    ByRankIsSorted(ops);
    forall rank: nat | rank <= 2 ensures OfRank(ByRank(ops), rank) == OfRank(ops, rank) {
      ByRankKeepsRank(ops, rank);
    }
  }

  /** A stable sort is unique. */
  lemma StableSortIsUnique(input: seq<FileOp>, ops: seq<FileOp>)
    requires IsStableSort(input, ops)
    ensures ops == ByRank(input)
  {
    SortedIsByRank(ops);
    assert forall rank :: rank in {0, 1, 2} ==> OfRank(ops, rank) == OfRank(input, rank);
  }

  lemma RankOfLast(front: seq<FileOp>, last: FileOp, rank: nat)
    ensures OfRank(front + [last], rank) == OfRank(front, rank) + (if Rank(last.kind) == rank then [last] else [])
  {
    assert (front + [last])[..|front|] == front;
  }

  lemma NothingAbove(front: seq<FileOp>, last: FileOp, rank: nat)
    requires RankSorted(front + [last]) && rank > Rank(last.kind)
    ensures OfRank(front, rank) == []
  {
    OfRankIs(front, rank);
    forall op | op in front ensures Rank(op.kind) <= Rank(last.kind) {
      var i :| 0 <= i < |front| && front[i] == op;
      assert Rank((front + [last])[i].kind) <= Rank((front + [last])[|front|].kind);
    }
    FirstIsMember(OfRank(front, rank));
  }

  lemma {:induction false} SortedIsByRank(ops: seq<FileOp>)
    requires RankSorted(ops)
    ensures ops == ByRank(ops)
  {
    if ops != [] {
      var front, last := ops[..|ops| - 1], ops[|ops| - 1];
      assert ops == front + [last];
      SortedIsByRank(front);
      RankOfLast(front, last, 0);
      RankOfLast(front, last, 1);
      RankOfLast(front, last, 2);
      if Rank(last.kind) < 2 {
        NothingAbove(front, last, 2);
      }
      if Rank(last.kind) < 1 {
        NothingAbove(front, last, 1);
      }
    }
  }

  /** The plan of a list of decisions. */
  function Planned(decisions: seq<Decision>, now: Timestamp): seq<FileOp>
  {
    ByRank(FilterMap(OpOf(now), decisions))
  }

  /** The planner's loop over three lists. */
  method Plan(decisions: seq<Decision>, now: Timestamp) returns (ops: seq<FileOp>)
    ensures IsStableSort(FilterMap(OpOf(now), decisions), ops)
    ensures ops == Planned(decisions, now)
  {
    var mkdirOps: seq<FileOp>, deleteOps: seq<FileOp>, otherOps: seq<FileOp> := [], [], [];
    var i := 0;
    while i < |decisions|
      invariant 0 <= i <= |decisions|
      invariant mkdirOps == OfRank(FilterMap(OpOf(now), decisions[..i]), 0)
      invariant otherOps == OfRank(FilterMap(OpOf(now), decisions[..i]), 1)
      invariant deleteOps == OfRank(FilterMap(OpOf(now), decisions[..i]), 2)
    {
      var d := decisions[i];
      assert decisions[..i + 1][..i] == decisions[..i];
      var kind := d.kind.ToOpKind();
      if kind.Some? {
        var op := MakeOp(d.path, kind.value, now);
        ghost var before := FilterMap(OpOf(now), decisions[..i]);
        RankOfLast(before, op, 0);
        RankOfLast(before, op, 1);
        RankOfLast(before, op, 2);
        match kind.value {
          case OpLocalMkdir => mkdirOps := mkdirOps + [op];
          case OpRemoteMkdir => mkdirOps := mkdirOps + [op];
          case OpLocalDelete => deleteOps := deleteOps + [op];
          case OpRemoteDelete => deleteOps := deleteOps + [op];
          case _ => otherOps := otherOps + [op];
        }
      }
      i := i + 1;
    }
    assert decisions[..|decisions|] == decisions;
    ops := mkdirOps + otherOps + deleteOps;
    ByRankIsStableSort(FilterMap(OpOf(now), decisions));
  }

  /** The plan holds an operation for each actionable decision, and no other. */
  lemma {:induction false} PlannedIsPermutation(decisions: seq<Decision>, now: Timestamp)
    ensures multiset(Planned(decisions, now)) == multiset(FilterMap(OpOf(now), decisions))
  {
    SplitByRank(FilterMap(OpOf(now), decisions));
  }

  lemma {:induction false} SplitByRank(ops: seq<FileOp>)
    ensures multiset(ByRank(ops)) == multiset(ops)
  {
    if ops != [] {
      var front, last := ops[..|ops| - 1], ops[|ops| - 1];
      assert ops == front + [last];
      SplitByRank(front);
      RankOfLast(front, last, 0);
      RankOfLast(front, last, 1);
      RankOfLast(front, last, 2);
    }
  }

  /** Directories are made before anything else is done, and deletions come last. */
  lemma PlanOrder(decisions: seq<Decision>, now: Timestamp, i: nat, j: nat)
    requires i < j < |Planned(decisions, now)|
    ensures
      var first, second := Planned(decisions, now)[i].kind, Planned(decisions, now)[j].kind;
      && (second in {OpLocalMkdir, OpRemoteMkdir} ==> first in {OpLocalMkdir, OpRemoteMkdir})
      && (first in {OpLocalDelete, OpRemoteDelete} ==> second in {OpLocalDelete, OpRemoteDelete})
  {
    hide ByRank;
    ByRankIsSorted(FilterMap(OpOf(now), decisions));
  }

  /** Of two planned directories, the one decided first comes first. */
  lemma MkdirsKeepOrder(decisions: seq<Decision>, now: Timestamp, j: nat, i: nat) returns (a: nat, b: nat)
    requires j < i < |Planned(decisions, now)| && Rank(Planned(decisions, now)[i].kind) == 0
    ensures a < b < |decisions|
    ensures OpOf(now)(decisions[a]) == Some(Planned(decisions, now)[j])
    ensures OpOf(now)(decisions[b]) == Some(Planned(decisions, now)[i])
  {
    hide OpOf;
    var made := FilterMap(OpOf(now), decisions);
    OfRankIs(made, 1);
    OfRankIs(made, 2);
    var first := OfRank(made, 0);
    assert i < |first| by { BeyondMkdirs(made, i); }
    var x, y := FilterMapOrder(Keep(0), made, j, i);
    a, b := FilterMapOrder(OpOf(now), decisions, x, y);
  }

  lemma BeyondMkdirs(made: seq<FileOp>, i: nat)
    requires i < |ByRank(made)| && Rank(ByRank(made)[i].kind) == 0
    ensures i < |OfRank(made, 0)|
  {
    OfRankIs(made, 1);
    OfRankIs(made, 2);
    var n, m := |OfRank(made, 0)|, |OfRank(made, 1)|;
    forall k | n <= k < |ByRank(made)| ensures Rank(ByRank(made)[k].kind) != 0 {
      if k < n + m {
        assert ByRank(made)[k] == OfRank(made, 1)[k - n];
      } else {
        assert ByRank(made)[k] == OfRank(made, 2)[k - n - m];
      }
    }
  }
}
