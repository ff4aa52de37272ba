/** The job graph of include/lith/job.h and framework/src/job.cpp: job nodes with a fixed
    array of 16 continuation slots, a continuation counter and a dependency counter, and the
    builders that wire them (`Then`, `Fork`, `For`).

    Nodes live in an arena (`JobTree.nodes`) and are named by their position in it; a
    continuation slot holds a position, or `Null` for `nullptr`.  The atomics are plain
    integers: one sequential worker uses them. */
module JobGraph {
  import opened Wrappers

  const JOB_MAX_CONTINUATIONS: int := 16
  /** The `nullptr` of a continuation slot. */
  const Null: int := -1

  /** The `std::function` a node runs: none, an opaque callable, or the batch closure that
      `Job::For` builds (apply the per-item function to `count` items from `start`). */
  datatype Work = NoWork | Task(tag: nat) | Batch(start: int, count: int)

  datatype JobNode = JobNode(
    continuations: seq<int>,
    continuationCount: int,
    dependencies: int,
    work: Work,
    name: string,
    id: int)

  datatype JobError = ContinuationOverflow

  function Nulls(n: nat): (r: seq<int>)
    ensures |r| == n && forall k :: 0 <= k < n ==> r[k] == Null
  {
    if n == 0 then [] else Nulls(n - 1) + [Null]
  }

  /** A freshly allocated node: empty slots, no continuations, no dependencies, no name. */
  function NewNode(work: Work, id: int): JobNode
  {
    JobNode(Nulls(JOB_MAX_CONTINUATIONS), 0, 0, work, "", id)
  }

  /** Every slot is `Null` or a node of the arena, and the first `continuationCount` slots
      name nodes. */
  predicate NodeOk(nd: JobNode, n: int)
  {
    |nd.continuations| == JOB_MAX_CONTINUATIONS &&
    0 <= nd.continuationCount <= JOB_MAX_CONTINUATIONS &&
    (forall k :: 0 <= k < JOB_MAX_CONTINUATIONS ==> Null <= nd.continuations[k] < n) &&
    (forall k :: 0 <= k < nd.continuationCount ==> 0 <= nd.continuations[k])
  }

  predicate WellFormed(nodes: seq<JobNode>)
  {
    forall i :: 0 <= i < |nodes| ==> NodeOk(nodes[i], |nodes|)
  }

  lemma WellFormedGrow(nodes: seq<JobNode>, nd: JobNode)
    requires WellFormed(nodes) && NodeOk(nd, |nodes| + 1)
    ensures WellFormed(nodes + [nd])
  {
    forall i | 0 <= i < |nodes| + 1
      ensures NodeOk((nodes + [nd])[i], |nodes| + 1)
    {
      if i < |nodes| {
        assert (nodes + [nd])[i] == nodes[i];
      }
    }
  }

  // ---------------------------------------------------------------------------------------
  // inc_if_not_greator_than

  /** The slot claimed from counter `x` and the counter's new value.  The `max` argument is
      ignored: the bound is the literal 16. */
  function ClaimSlot(x: int, max: int): (r: (int, int))
  {
    if x < 16 then (x, x + 1) else (x, x)
  }

  /** The claim returns the old counter and bumps it exactly when it is below 16, whatever
      `max` is passed. */
  lemma ClaimSlotIgnoresMax(x: int, m1: int, m2: int)
    ensures ClaimSlot(x, m1) == ClaimSlot(x, m2)
    ensures ClaimSlot(x, m1).0 == x
    ensures ClaimSlot(x, m1).1 == if x < JOB_MAX_CONTINUATIONS then x + 1 else x
  {
  }

  // ---------------------------------------------------------------------------------------
  // MoveContinuationsInto as a function of the arena

  /** The arena after `nodes[from].MoveContinuationsInto(nodes[into])`: the destination takes
      the source's count and first `size` slots, the source is emptied, and the tail loop
      nulls destination slots `size .. 16 - size - 1` only.  When `from == into` the node
      ends with no continuations. */
  function MovedInto(nodes: seq<JobNode>, from: nat, into: nat): (r: seq<JobNode>)
    requires from < |nodes| && into < |nodes|
    requires NodeOk(nodes[from], |nodes|) && NodeOk(nodes[into], |nodes|)
    ensures |r| == |nodes|
  {
    var size := nodes[from].continuationCount;
    var f := nodes[from];
    var t := nodes[into];
    if from == into then
      nodes[from := f.(continuationCount := 0,
                       continuations := seq(16, j requires 0 <= j < 16 =>
                         if j < size || j < 16 - size then Null else f.continuations[j]))]
    else
      nodes[into := t.(continuationCount := size,
                       continuations := seq(16, j requires 0 <= j < 16 =>
                         if j < size then f.continuations[j]
                         else if j < 16 - size then Null
                         else t.continuations[j]))]
           [from := f.(continuationCount := 0,
                       continuations := seq(16, j requires 0 <= j < 16 =>
                         if j < size then Null else f.continuations[j]))]
  }

  /** What a move promises: the destination holds the source's continuations, the source is
      left with none, no dependency counter changes, no other node changes, and the
      destination slots from `max(size, 16 - size)` on keep their old values. */
  lemma MovedIntoFacts(nodes: seq<JobNode>, from: nat, into: nat)
    requires from < |nodes| && into < |nodes| && WellFormed(nodes)
    ensures var r := MovedInto(nodes, from, into);
      var size := nodes[from].continuationCount;
      WellFormed(r) &&
      r[from].continuationCount == 0 &&
      (from != into ==> r[into].continuationCount == size &&
                        r[into].continuations[..size] == nodes[from].continuations[..size]) &&
      (forall k :: 0 <= k < size ==> r[from].continuations[k] == Null) &&
      (forall i :: 0 <= i < |nodes| ==> r[i].dependencies == nodes[i].dependencies &&
                                         r[i].work == nodes[i].work) &&
      (forall i :: 0 <= i < |nodes| && i != from && i != into ==> r[i] == nodes[i]) &&
      (from != into ==> forall k :: size <= k < 16 && 16 - size <= k ==>
                          r[into].continuations[k] == nodes[into].continuations[k])
  {
    var r := MovedInto(nodes, from, into);
    forall i | 0 <= i < |r| ensures NodeOk(r[i], |r|) {
      assert NodeOk(nodes[i], |nodes|);
    }
  }

  /** With eight or more continuations the tail loop of the move clears no slot. */
  lemma MoveTailClearsNothingFromEight(nodes: seq<JobNode>, from: nat, into: nat)
    requires from < |nodes| && into < |nodes| && from != into && WellFormed(nodes)
    requires nodes[from].continuationCount >= 8
    ensures forall k :: nodes[from].continuationCount <= k < 16 ==>
      MovedInto(nodes, from, into)[into].continuations[k] == nodes[into].continuations[k]
  {
  }

  // ---------------------------------------------------------------------------------------
  // Job::For batches

  /** The batches of `Job::For(batchSize, xs, f)` over `n` items: batch `k` starts at
      `k * batchSize` and covers `min(n - k * batchSize, batchSize)` items. */
  function BatchesFrom(i: int, n: int, batchSize: int): (r: seq<Work>)
    requires batchSize > 0 && 0 <= i
    decreases n - i
  {
    if i >= n then []
    else [Batch(i, if n - i < batchSize then n - i else batchSize)] + BatchesFrom(i + batchSize, n, batchSize)
  }

  function Batches(n: int, batchSize: int): seq<Work>
    requires batchSize > 0
  {
    BatchesFrom(0, n, batchSize)
  }

  function CeilDiv(a: int, b: int): int
    requires a >= 0 && b > 0
  {
    (a + b - 1) / b
  }

  predicate Covers(w: Work, x: int)
  {
    w.Batch? && w.start <= x < w.start + w.count
  }

  /** `(x + b) / b == x / b + 1` for a positive `b`. */
  lemma DivShift(x: int, b: int)
    requires b > 0
    ensures (x + b) / b == x / b + 1
  {
    var q := x / b;
    assert q * b <= x < q * b + b;
    assert (q + 1) * b == q * b + b;
    DivUnique(x + b, b, q + 1);
  }

  lemma {:induction false} BatchesFromLength(i: int, n: int, batchSize: int)
    requires batchSize > 0 && 0 <= i
    ensures |BatchesFrom(i, n, batchSize)| == (if i >= n then 0 else CeilDiv(n - i, batchSize))
    decreases n - i
  {
    if i < n {
      BatchesFromLength(i + batchSize, n, batchSize);
      if i + batchSize >= n {
        DivUnique(n - i + batchSize - 1, batchSize, 1);
      } else {
        DivShift(n - (i + batchSize) + batchSize - 1, batchSize);
      }
    }
  }

  lemma {:induction false} BatchesFromAt(i: int, n: int, batchSize: int, k: nat)
    requires batchSize > 0 && 0 <= i && k < |BatchesFrom(i, n, batchSize)|
    ensures BatchesFrom(i, n, batchSize)[k] ==
      Batch(i + k * batchSize,
            if n - (i + k * batchSize) < batchSize then n - (i + k * batchSize) else batchSize)
    decreases k
  {
    if k > 0 {
      BatchesFromAt(i + batchSize, n, batchSize, k - 1);
      assert (k - 1) * batchSize == k * batchSize - batchSize;
    }
  }

  lemma BatchesFromShape(i: int, n: int, batchSize: int)
    requires batchSize > 0 && 0 <= i
    ensures var r := BatchesFrom(i, n, batchSize);
      |r| == (if i >= n then 0 else CeilDiv(n - i, batchSize)) &&
      forall k :: 0 <= k < |r| ==>
        r[k] == Batch(i + k * batchSize,
                      if n - (i + k * batchSize) < batchSize then n - (i + k * batchSize) else batchSize)
  {
    BatchesFromLength(i, n, batchSize);
    forall k | 0 <= k < |BatchesFrom(i, n, batchSize)|
      ensures BatchesFrom(i, n, batchSize)[k] ==
        Batch(i + k * batchSize,
              if n - (i + k * batchSize) < batchSize then n - (i + k * batchSize) else batchSize)
    {
      BatchesFromAt(i, n, batchSize, k);
    }
  }

  /** `For` creates `ceil(n / batchSize)` batches, batch `k` covering
      `[k * batchSize, min(n, (k + 1) * batchSize))`, and every item index in `[0, n)` is
      covered by exactly one batch: batch `x / batchSize`. */
  lemma BatchesPartition(n: int, batchSize: int)
    requires n > 0 && batchSize > 0
    ensures |Batches(n, batchSize)| == CeilDiv(n, batchSize)
    ensures forall k :: 0 <= k < |Batches(n, batchSize)| ==>
      (Batches(n, batchSize)[k].Batch? && Batches(n, batchSize)[k].start == k * batchSize &&
       Batches(n, batchSize)[k].start + Batches(n, batchSize)[k].count ==
         (if n < (k + 1) * batchSize then n else (k + 1) * batchSize))
    ensures forall x :: 0 <= x < n ==>
      0 <= x / batchSize < |Batches(n, batchSize)| && Covers(Batches(n, batchSize)[x / batchSize], x)
    ensures forall x, k ::
      (0 <= x < n && 0 <= k < |Batches(n, batchSize)| && Covers(Batches(n, batchSize)[k], x)) ==>
        k == x / batchSize
  {
    BatchesFromLength(0, n, batchSize);
    BatchesInOrder(n, batchSize);
    ItemsCovered(n, batchSize);
    CoveredOnce(n, batchSize);
  }

  lemma BatchesInOrder(n: int, batchSize: int)
    requires n > 0 && batchSize > 0
    ensures var r := Batches(n, batchSize);
      forall k :: 0 <= k < |r| ==>
        r[k].Batch? && r[k].start == k * batchSize &&
        r[k].start + r[k].count == (if n < (k + 1) * batchSize then n else (k + 1) * batchSize)
  {
    var r := Batches(n, batchSize);
    forall k | 0 <= k < |r|
      ensures r[k].Batch? && r[k].start == k * batchSize &&
              r[k].start + r[k].count == (if n < (k + 1) * batchSize then n else (k + 1) * batchSize)
    {
      BatchAt(n, batchSize, k);
    }
  }

  lemma ItemsCovered(n: int, batchSize: int)
    requires n > 0 && batchSize > 0
    ensures var r := Batches(n, batchSize);
      forall x :: 0 <= x < n ==> 0 <= x / batchSize < |r| && Covers(r[x / batchSize], x)
  {
    var r := Batches(n, batchSize);
    BatchesFromLength(0, n, batchSize);
    forall x | 0 <= x < n
      ensures 0 <= x / batchSize < |r| && Covers(r[x / batchSize], x)
    {
      BatchOfItem(n, batchSize, x);
      BatchAt(n, batchSize, x / batchSize);
    }
  }

  lemma CoveredOnce(n: int, batchSize: int)
    requires n > 0 && batchSize > 0
    ensures var r := Batches(n, batchSize);
      forall x, k :: (0 <= x < n && 0 <= k < |r| && Covers(r[k], x)) ==> k == x / batchSize
  {
    var r := Batches(n, batchSize);
    forall x, k | 0 <= x < n && 0 <= k < |r| && Covers(r[k], x)
      ensures k == x / batchSize
    {
      BatchAt(n, batchSize, k);
      DivUnique(x, batchSize, k);
    }
  }

  /** Batch `k` starts at `k * batchSize` and ends at `min(n, (k + 1) * batchSize)`. */
  lemma BatchAt(n: int, batchSize: int, k: int)
    requires n > 0 && batchSize > 0 && 0 <= k < |Batches(n, batchSize)|
    ensures var w := Batches(n, batchSize)[k];
      w.Batch? && w.start == k * batchSize && (k + 1) * batchSize == k * batchSize + batchSize &&
      w.start + w.count == (if n < (k + 1) * batchSize then n else (k + 1) * batchSize)
  {
    BatchesFromAt(0, n, batchSize, k);
    assert (k + 1) * batchSize == k * batchSize + batchSize;
  }

  /** Item `x` lies in batch `x / batchSize`, which is below the batch count. */
  lemma BatchOfItem(n: int, batchSize: int, x: int)
    requires n > 0 && batchSize > 0 && 0 <= x < n
    ensures x / batchSize < CeilDiv(n, batchSize)
    ensures var q := x / batchSize;
      q * batchSize <= x < (if n < (q + 1) * batchSize then n else (q + 1) * batchSize)
  {
    var q := x / batchSize;
    assert q * batchSize <= x < q * batchSize + batchSize;
    assert (q + 1) * batchSize == q * batchSize + batchSize;
    DivBound(n + batchSize - 1, batchSize, q + 1);
  }

  /** Multiplying by a positive `b` preserves and reflects `<=`. */
  lemma MulLe(x: int, y: int, b: int)
    requires b > 0
    ensures (x * b <= y * b) == (x <= y)
  {
    assert y * b - x * b == (y - x) * b;
  }

  lemma DivBound(a: int, b: int, q: int)
    requires b > 0 && q * b <= a
    ensures q <= a / b
  {
    var d := a / b;
    assert a < (d + 1) * b;
    MulLe(d + 1, q, b);
  }

  lemma DivUpper(a: int, b: int, q: int)
    requires b > 0 && a < (q + 1) * b
    ensures a / b <= q
  {
    var d := a / b;
    assert d * b <= a;
    MulLe(q + 1, d, b);
  }

  lemma DivUnique(x: int, b: int, k: int)
    requires b > 0 && k * b <= x < k * b + b
    ensures x / b == k
  {
    var q := x / b;
    assert q * b <= x < q * b + b;
    MulLe(q + 1, k, b);
    MulLe(k + 1, q, b);
  }

  /** The automatic batch size of `Job::For(xs, f)`: `(n + 16) / 16`, which for `n = 16`
      is 2 where `ceil(n / 16)` would be 1. */
  function AutoBatchSize(n: nat): (b: int)
    ensures b >= 1
  {
    (n + JOB_MAX_CONTINUATIONS) / JOB_MAX_CONTINUATIONS
  }

  /** With the automatic batch size there are never more than 16 batches, so `For(xs, f)`
      never overflows the continuation slots. */
  lemma AutoBatchCountAtMost16(n: nat)
    ensures |Batches(n, AutoBatchSize(n))| <= JOB_MAX_CONTINUATIONS
  {
    var b := AutoBatchSize(n);
    BatchesFromShape(0, n, b);
    if n > 0 {
      assert n < 16 * b;
      assert n + b - 1 < 16 * b + b - 1;
      DivUpper(n + b - 1, b, 16);
    }
  }

  /** The automatic batch size is `ceil(n / 16)` except on a multiple of 16, where it is
      one more. */
  lemma AutoBatchSizeIsNotCeil(n: nat)
    ensures AutoBatchSize(n) == CeilDiv(n, 16) + (if n % 16 == 0 then 1 else 0)
  {
    var q, r := n / 16, n % 16;
    assert n == 16 * q + r;
    if r == 0 {
      assert n + 16 == 16 * (q + 1);
      assert n + 15 == 16 * q + 15;
    } else {
      assert n + 16 == 16 * (q + 1) + r;
      assert n + 15 == 16 * (q + 1) + (r - 1);
    }
  }

  // ---------------------------------------------------------------------------------------
  // The tree

  class JobTree {
    var nodes: seq<JobNode>
    var jobIdNext: int
    var nodeCount: int
    /** Declared by the source and never read or written after construction. */
    var ownedByTree: bool

    ghost predicate Valid()
      reads this
    {
      WellFormed(nodes)
    }

    constructor ()
      ensures Valid() && nodes == [] && jobIdNext == 0 && nodeCount == 0 && !ownedByTree
    {
      nodes := [];
      jobIdNext := 0;
      nodeCount := 0;
      ownedByTree := false;
    }

    /** `_alloc_node`: appends a fresh node, numbered from `jobIdNext`, and counts it. */
    method AllocNode(work: Work) returns (h: nat)
      requires Valid()
      modifies this
      ensures Valid()
      ensures h == |old(nodes)| && nodes == old(nodes) + [NewNode(work, old(jobIdNext))]
      ensures jobIdNext == old(jobIdNext) + 1 && nodeCount == old(nodeCount) + 1
      ensures ownedByTree == old(ownedByTree)
    {
      var nd := NewNode(work, jobIdNext);
      jobIdNext := jobIdNext + 1;
      h := |nodes|;
      WellFormedGrow(nodes, nd);
      nodes := nodes + [nd];
      nodeCount := nodeCount + 1;
    }

    /** `JobTree::CreateEmpty`. */
    method CreateEmpty() returns (h: nat)
      requires Valid()
      modifies this
      ensures Valid()
      ensures h == |old(nodes)| && nodes == old(nodes) + [NewNode(NoWork, old(jobIdNext))]
      ensures jobIdNext == old(jobIdNext) + 1 && nodeCount == old(nodeCount) + 1
      ensures ownedByTree == old(ownedByTree)
    {
      h := AllocNode(NoWork);
    }

    /** `JobTree::Create(work)`. */
    method Create(work: Work) returns (h: nat)
      requires Valid()
      modifies this
      ensures Valid()
      ensures h == |old(nodes)| && nodes == old(nodes) + [NewNode(work, old(jobIdNext))]
      ensures jobIdNext == old(jobIdNext) + 1 && nodeCount == old(nodeCount) + 1
      ensures ownedByTree == old(ownedByTree)
    {
      h := AllocNode(work);
    }

    /** `Job::SetName`. */
    method SetName(h: nat, name: string)
      requires Valid() && h < |nodes|
      modifies this
      ensures Valid()
      ensures nodes == old(nodes)[h := old(nodes)[h].(name := name)]
      ensures unchanged(this`jobIdNext) && unchanged(this`nodeCount) && unchanged(this`ownedByTree)
    {
      nodes := nodes[h := nodes[h].(name := name)];
    }

    /** `JobNode::AddContinuation`: a self edge is ignored; otherwise a slot is claimed, and
        at 16 continuations the add fails (the source throws) with nothing changed. */
    method AddContinuation(from: nat, to: nat) returns (r: Result<(), JobError>)
      requires Valid() && from < |nodes| && to < |nodes|
      modifies this
      ensures Valid()
      ensures from == to ==> r.Ok? && nodes == old(nodes)
      ensures from != to && old(nodes)[from].continuationCount >= JOB_MAX_CONTINUATIONS ==>
        r == Err(ContinuationOverflow) && nodes == old(nodes)
      ensures from != to && old(nodes)[from].continuationCount < JOB_MAX_CONTINUATIONS ==>
        var c := old(nodes)[from].continuationCount;
        r.Ok? &&
        nodes == old(nodes)[from := old(nodes)[from].(continuationCount := c + 1,
                                                       continuations := old(nodes)[from].continuations[c := to])]
                           [to := old(nodes)[to].(dependencies := old(nodes)[to].dependencies + 1)]
      ensures unchanged(this`jobIdNext) && unchanged(this`nodeCount) && unchanged(this`ownedByTree)
    {
      if from == to {
        return Ok(());
      }
      var claim := ClaimSlot(nodes[from].continuationCount, JOB_MAX_CONTINUATIONS);
      var idx := claim.0;
      if idx >= JOB_MAX_CONTINUATIONS {
        return Err(ContinuationOverflow);
      }
      var f := nodes[from];
      nodes := nodes[from := f.(continuationCount := claim.1, continuations := f.continuations[idx := to])];
      var t := nodes[to];
      nodes := nodes[to := t.(dependencies := t.dependencies + 1)];
      r := Ok(());
      assert NodeOk(nodes[from], |nodes|);
    }

    /** `JobNode::MoveContinuationsInto`, with the source's two loops. */
    method MoveContinuationsInto(from: nat, into: nat)
      requires Valid() && from < |nodes| && into < |nodes|
      modifies this
      ensures Valid()
      ensures nodes == MovedInto(old(nodes), from, into)
      ensures unchanged(this`jobIdNext) && unchanged(this`nodeCount) && unchanged(this`ownedByTree)
    {
      ghost var o := nodes;
      var ns := nodes;
      assert NodeOk(o[from], |o|) && NodeOk(o[into], |o|);
      var size := ns[from].continuationCount;
      ns := ns[into := ns[into].(continuationCount := size)];
      ns := ns[from := ns[from].(continuationCount := 0)];
      var i := 0;
      while i < size
        invariant 0 <= i <= size
        invariant |ns| == |o|
        invariant forall n :: 0 <= n < |o| && n != from && n != into ==> ns[n] == o[n]
        invariant ns[into] == o[into].(continuationCount := ns[into].continuationCount,
                                          continuations := ns[into].continuations)
        invariant ns[from] == o[from].(continuationCount := ns[from].continuationCount,
                                          continuations := ns[from].continuations)
        invariant ns[from].continuationCount == 0
        invariant from != into ==> ns[into].continuationCount == size
        invariant |ns[from].continuations| == 16 && |ns[into].continuations| == 16
        invariant from != into ==> forall j :: 0 <= j < 16 ==>
          ns[into].continuations[j] == (if j < i then o[from].continuations[j] else o[into].continuations[j]) &&
          ns[from].continuations[j] == (if j < i then Null else o[from].continuations[j])
        invariant from == into ==> forall j :: 0 <= j < 16 ==>
          ns[from].continuations[j] == (if j < i then Null else o[from].continuations[j])
      {
        var v := ns[from].continuations[i];
        ns := ns[into := ns[into].(continuations := ns[into].continuations[i := v])];
        ns := ns[from := ns[from].(continuations := ns[from].continuations[i := Null])];
        i := i + 1;
      }
      i := size;
      while i < 16 - size
        invariant size <= i && (i <= 16 - size || i == size)
        invariant |ns| == |o|
        invariant forall n :: 0 <= n < |o| && n != from && n != into ==> ns[n] == o[n]
        invariant ns[into] == o[into].(continuationCount := ns[into].continuationCount,
                                          continuations := ns[into].continuations)
        invariant ns[from] == o[from].(continuationCount := ns[from].continuationCount,
                                          continuations := ns[from].continuations)
        invariant ns[from].continuationCount == 0
        invariant from != into ==> ns[into].continuationCount == size
        invariant |ns[from].continuations| == 16 && |ns[into].continuations| == 16
        invariant from != into ==> forall j :: 0 <= j < 16 ==>
          ns[into].continuations[j] ==
            (if j < size then o[from].continuations[j] else if j < i then Null else o[into].continuations[j]) &&
          ns[from].continuations[j] == (if j < size then Null else o[from].continuations[j])
        invariant from == into ==> forall j :: 0 <= j < 16 ==>
          ns[from].continuations[j] == (if j < size || j < i then Null else o[from].continuations[j])
      {
        ns := ns[into := ns[into].(continuations := ns[into].continuations[i := Null])];
        i := i + 1;
      }
      nodes := ns;
      ghost var m := MovedInto(o, from, into);
      assert ns[from] == m[from];
      assert ns[into] == m[into];
      assert ns == m;
      MovedIntoFacts(o, from, into);
    }

    /** `Job::ThenJob(j)`: `j` takes over `h`'s continuations and becomes `h`'s only one. */
    method ThenJob(h: nat, j: nat) returns (r: nat)
      requires Valid() && h < |nodes| && j < |nodes|
      modifies this
      ensures Valid()
      ensures r == j
      ensures h == j ==> nodes == MovedInto(old(nodes), h, h)
      ensures h != j ==>
        var m := MovedInto(old(nodes), h, j);
        nodes == m[h := m[h].(continuationCount := 1, continuations := m[h].continuations[0 := j])]
                  [j := m[j].(dependencies := m[j].dependencies + 1)]
      ensures unchanged(this`jobIdNext) && unchanged(this`nodeCount) && unchanged(this`ownedByTree)
    {
      MoveContinuationsInto(h, j);
      MovedIntoFacts(old(nodes), h, j);
      var added := AddContinuation(h, j);
      r := j;
    }

    /** `Job::Then(work)`: a new node between `h` and its continuations. */
    method Then(h: nat, work: Work) returns (j: nat)
      requires Valid() && h < |nodes|
      modifies this
      ensures Valid()
      ensures j == |old(nodes)| && |nodes| == |old(nodes)| + 1
      ensures var m := MovedInto(old(nodes) + [NewNode(work, old(jobIdNext))], h, j);
        nodes == m[h := m[h].(continuationCount := 1, continuations := m[h].continuations[0 := j])]
                  [j := m[j].(dependencies := m[j].dependencies + 1)]
      ensures jobIdNext == old(jobIdNext) + 1 && nodeCount == old(nodeCount) + 1
      ensures ownedByTree == old(ownedByTree)
    {
      j := Create(work);
      j := ThenJob(h, j);
    }

    /** `Job::Fork(works)`: a new join node takes over `h`'s continuations; then, per
        callable, a new node whose only continuation is the join becomes a continuation of
        `h`.  Adding the 17th continuation to `h` fails. */
    method Fork(h: nat, works: seq<Work>) returns (r: Result<nat, JobError>)
      requires Valid() && h < |nodes|
      modifies this
      ensures Valid()
      ensures r.Ok? <==> |works| <= JOB_MAX_CONTINUATIONS
      ensures r.Ok? ==> ForkedShape(old(nodes), old(jobIdNext), h, works, nodes) && r.value == |old(nodes)|
      ensures r.Ok? ==> jobIdNext == old(jobIdNext) + 1 + |works| && nodeCount == old(nodeCount) + 1 + |works|
      ensures ownedByTree == old(ownedByTree)
    {
      ghost var o := nodes;
      ghost var id0 := jobIdNext;
      ghost var nc0 := nodeCount;
      var join := CreateEmpty();
      MoveContinuationsInto(h, join);
      ghost var m := nodes;
      MovedIntoFacts(o + [NewNode(NoWork, id0)], h, join);
      var added := AddForkJobs(h, join, works, o, id0, m);
      if added.Err? {
        return Err(added.error);
      }
      r := Ok(join);
    }

    /** The loop of `Job::Fork`: one new node per callable, each a continuation of `h`
        leading to `join`; it stops at the first continuation `h` has no slot for. */
    method AddForkJobs(h: nat, join: nat, works: seq<Work>, ghost o: seq<JobNode>, ghost id0: int,
                       ghost m: seq<JobNode>) returns (r: Result<(), JobError>)
      requires Valid() && join == |o| && ForkInvariant(o, id0, h, works, 0, m, nodes)
      requires WellFormed(o + [NewNode(NoWork, id0)]) && jobIdNext == id0 + 1
      modifies this
      ensures Valid()
      ensures r.Ok? <==> |works| <= JOB_MAX_CONTINUATIONS
      ensures r.Ok? ==> ForkInvariant(o, id0, h, works, |works|, m, nodes)
      ensures r.Ok? ==> jobIdNext == old(jobIdNext) + |works| && nodeCount == old(nodeCount) + |works|
      ensures ownedByTree == old(ownedByTree)
    {
      var k := 0;
      while k < |works|
        invariant 0 <= k <= |works| && k <= JOB_MAX_CONTINUATIONS
        invariant Valid()
        invariant ForkInvariant(o, id0, h, works, k, m, nodes)
        invariant jobIdNext == old(jobIdNext) + k && nodeCount == old(nodeCount) + k
        invariant ownedByTree == old(ownedByTree)
      {
        ghost var before := nodes;
        var added := AddForkJob(h, join, works[k]);
        if added.Err? {
          return Err(added.error);
        }
        ForkStep(o, id0, h, works, k, m, before, nodes);
        k := k + 1;
      }
      r := Ok(());
    }

    /** One iteration of the loops of `Job::Fork` and `Job::For`: a new node for `work`
        whose continuation is `join` becomes the next continuation of `h`. */
    method AddForkJob(h: nat, join: nat, work: Work) returns (r: Result<(), JobError>)
      requires Valid() && h < |nodes| && join < |nodes| && h != join
      modifies this
      ensures Valid()
      ensures r.Ok? <==> old(nodes)[h].continuationCount < JOB_MAX_CONTINUATIONS
      ensures r.Ok? ==> nodes == ForkJobAdded(old(nodes), old(jobIdNext), h, join, work)
      ensures jobIdNext == old(jobIdNext) + 1 && nodeCount == old(nodeCount) + 1
      ensures ownedByTree == old(ownedByTree)
    {
      var job := Create(work);
      var a := AddContinuation(job, join);
      r := AddContinuation(h, job);
    }

    /** `Job::For(batchSize, xs, f)` over a collection of `n` items: with no items or a
        non-positive batch size, `h` itself is returned and nothing is allocated; otherwise
        one batch node per `batchSize` items is forked from `h`. */
    method For(h: nat, batchSize: int, n: int) returns (r: Result<nat, JobError>)
      requires Valid() && h < |nodes| && n >= 0
      modifies this
      ensures Valid()
      ensures n == 0 || batchSize <= 0 ==>
        r == Ok(h) && nodes == old(nodes) && jobIdNext == old(jobIdNext) && nodeCount == old(nodeCount)
      ensures n > 0 && batchSize > 0 ==>
        (r.Ok? <==> CeilDiv(n, batchSize) <= JOB_MAX_CONTINUATIONS) &&
        (r.Ok? ==> ForkedShape(old(nodes), old(jobIdNext), h, Batches(n, batchSize), nodes) &&
                   r.value == |old(nodes)|)
      ensures ownedByTree == old(ownedByTree)
    {
      if n == 0 || batchSize <= 0 {
        return Ok(h);
      }
      var batches := MakeBatches(n, batchSize);
      BatchesPartition(n, batchSize);
      r := Fork(h, batches);
    }

    /** `Job::For(xs, f)`: `For` with the automatic batch size; it never overflows. */
    method ForAuto(h: nat, n: int) returns (r: Result<nat, JobError>)
      requires Valid() && h < |nodes| && n >= 0
      modifies this
      ensures Valid()
      ensures r.Ok?
      ensures n == 0 ==> r == Ok(h) && nodes == old(nodes)
      ensures n > 0 ==> ForkedShape(old(nodes), old(jobIdNext), h, Batches(n, AutoBatchSize(n)), nodes) &&
                        r.value == |old(nodes)|
      ensures ownedByTree == old(ownedByTree)
    {
      var batchSize := (n + JOB_MAX_CONTINUATIONS) / JOB_MAX_CONTINUATIONS;
      AutoBatchCountAtMost16(n);
      if n > 0 {
        BatchesFromShape(0, n, batchSize);
      }
      r := For(h, batchSize, n);
    }

    /** `JobTree::GetRoots`: the nodes with no pending dependency, in allocation order. */
    method GetRoots() returns (roots: seq<nat>)
      ensures roots == RootsOf(nodes, |nodes|)
      ensures forall x: nat :: x in roots <==> x < |nodes| && nodes[x].dependencies == 0
      ensures forall p, q :: 0 <= p < q < |roots| ==> roots[p] < roots[q]
    {
      roots := [];
      var i := 0;
      while i < |nodes|
        invariant 0 <= i <= |nodes|
        invariant forall x: nat :: x in roots <==> x < i && nodes[x].dependencies == 0
        invariant forall p, q :: 0 <= p < q < |roots| ==> roots[p] < roots[q]
        invariant forall p :: 0 <= p < |roots| ==> roots[p] < i
        invariant roots == RootsOf(nodes, i)
      {
        if nodes[i].dependencies == 0 {
          roots := roots + [i];
        }
        i := i + 1;
      }
    }

    /** `JobTree::Cleanup`: frees every node; `nodeCount` and `jobIdNext` are kept. */
    method Cleanup()
      modifies this
      ensures Valid() && nodes == []
      ensures unchanged(this`jobIdNext) && unchanged(this`nodeCount) && unchanged(this`ownedByTree)
    {
      nodes := [];
    }

    /** `JobTree::PrintGraphviz`: one `"a"->"b"` line per filled continuation slot, in node
        order and then slot order, between the graph header and footer. */
    method PrintGraphviz() returns (out: string)
      requires Valid()
      ensures out == GraphvizHeader + EdgeLines(nodes, |nodes|) + "}\n"
    {
      var body := "";
      var i := 0;
      while i < |nodes|
        invariant 0 <= i <= |nodes|
        invariant body == EdgeLines(nodes, i)
      {
        var lines := NodeEdges(nodes, i);
        body := body + lines;
        i := i + 1;
      }
      out := GraphvizHeader + body + "}\n";
    }
  }

  /** The inner loop of `JobTree::PrintGraphviz`: the lines for node `i`'s filled slots. */
  method NodeEdges(nodes: seq<JobNode>, i: nat) returns (out: string)
    requires i < |nodes| && WellFormed(nodes)
    ensures NodeOk(nodes[i], |nodes|) && out == NodeLines(nodes, i, nodes[i].continuationCount)
  {
    assert NodeOk(nodes[i], |nodes|);
    var count := nodes[i].continuationCount;
    out := "";
    var k := 0;
    while k < count
      invariant 0 <= k <= count
      invariant out == NodeLines(nodes, i, k)
    {
      var cont := nodes[i].continuations[k];
      out := out + EdgeLine(nodes[i].name, nodes[cont].name);
      k := k + 1;
    }
  }

  /** The nodes among the first `i` whose dependency counter is 0, in allocation order. */
  function RootsOf(nodes: seq<JobNode>, i: nat): seq<nat>
    requires i <= |nodes|
  {
    if i == 0 then [] else RootsOf(nodes, i - 1) + (if nodes[i - 1].dependencies == 0 then [i - 1] else [])
  }

  const GraphvizHeader: string := "digraph G {\n"

  function EdgeLine(a: string, b: string): string
  {
    "\t\"" + a + "\"" + "->" + "\"" + b + "\"" + "\n"
  }

  /** The lines for the first `k` continuations of node `i`. */
  function NodeLines(nodes: seq<JobNode>, i: nat, k: nat): string
    requires i < |nodes| && WellFormed(nodes) && k <= nodes[i].continuationCount
  {
    if k == 0 then ""
    else
      assert NodeOk(nodes[i], |nodes|);
      NodeLines(nodes, i, k - 1) + EdgeLine(nodes[i].name, nodes[nodes[i].continuations[k - 1]].name)
  }

  /** The lines for every node before position `i`. */
  function EdgeLines(nodes: seq<JobNode>, i: nat): string
    requires i <= |nodes| && WellFormed(nodes)
  {
    if i == 0 then ""
    else
      assert NodeOk(nodes[i - 1], |nodes|);
      EdgeLines(nodes, i - 1) + NodeLines(nodes, i - 1, nodes[i - 1].continuationCount)
  }

  /** The batch works of `Job::For`, built by the source's `for (i = 0; i < size; i += batchSize)`
      loop. */
  method MakeBatches(n: int, batchSize: int) returns (batches: seq<Work>)
    requires batchSize > 0
    ensures batches == Batches(n, batchSize)
  {
    batches := [];
    var i := 0;
    while i < n
      invariant 0 <= i
      invariant batches + BatchesFrom(i, n, batchSize) == Batches(n, batchSize)
      decreases n - i
    {
      var thisBlockSize := if n - i < batchSize then n - i else batchSize;
      batches := batches + [Batch(i, thisBlockSize)];
      i := i + batchSize;
    }
  }

  // ---------------------------------------------------------------------------------------
  // The shape a fork leaves behind

  /** The node created for callable `k` of a fork whose join is at `join`. */
  function ForkJob(work: Work, id: int, join: nat): JobNode
  {
    JobNode(Nulls(16)[0 := join], 1, 1, work, "", id)
  }

  /** The state of a fork from `o` (next id `id0`) on node `h` after its first `k` callables:
      `m` is the arena right after the join was created and `h`'s continuations moved into
      it. */
  ghost predicate ForkInvariant(o: seq<JobNode>, id0: int, h: nat, works: seq<Work>, k: nat,
                                m: seq<JobNode>, nodes: seq<JobNode>)
  {
    var join := |o|;
    h < |o| && k <= |works| && WellFormed(o) &&
    m == MovedInto(o + [NewNode(NoWork, id0)], h, join) &&
    |nodes| == |o| + 1 + k &&
    (forall i :: 0 <= i < |o| && i != h ==> nodes[i] == o[i]) &&
    nodes[h] == m[h].(continuationCount := k,
                      continuations := seq(16, j requires 0 <= j < 16 =>
                                             if j < k then join + 1 + j else m[h].continuations[j])) &&
    nodes[join] == m[join].(dependencies := k) &&
    (forall q :: 0 <= q < k ==> nodes[join + 1 + q] == ForkJob(works[q], id0 + 1 + q, join))
  }

  /** The arena after `AddForkJob(h, join, work)` succeeds. */
  function ForkJobAdded(nodes: seq<JobNode>, id: int, h: nat, join: nat, work: Work): seq<JobNode>
    requires h < |nodes| && join < |nodes|
    requires |nodes[h].continuations| == JOB_MAX_CONTINUATIONS
    requires 0 <= nodes[h].continuationCount < JOB_MAX_CONTINUATIONS
  {
    var job := |nodes|;
    var n1 := nodes + [NewNode(work, id)];
    var n2 := n1[job := n1[job].(continuationCount := 1, continuations := n1[job].continuations[0 := join])]
                [join := n1[join].(dependencies := n1[join].dependencies + 1)];
    var c := n2[h].continuationCount;
    n2[h := n2[h].(continuationCount := c + 1, continuations := n2[h].continuations[c := job])]
      [job := n2[job].(dependencies := n2[job].dependencies + 1)]
  }

  lemma ForkStep(o: seq<JobNode>, id0: int, h: nat, works: seq<Work>, k: nat,
                 m: seq<JobNode>, before: seq<JobNode>, after: seq<JobNode>)
    requires ForkInvariant(o, id0, h, works, k, m, before) && k < |works| && k < JOB_MAX_CONTINUATIONS
    requires WellFormed(o + [NewNode(NoWork, id0)])
    requires after == ForkJobAdded(before, id0 + 1 + k, h, |o|, works[k])
    ensures ForkInvariant(o, id0, h, works, k + 1, m, after)
  {
    var join := |o|;
    var job := |before|;
    MovedIntoFacts(o + [NewNode(NoWork, id0)], h, join);
    assert after[job] == ForkJob(works[k], id0 + 1 + k, join);
    assert after[join] == m[join].(dependencies := k + 1);
    assert after[h].continuations == seq(16, j requires 0 <= j < 16 =>
                                          if j < k + 1 then join + 1 + j else m[h].continuations[j]);
    forall q | 0 <= q < k + 1
      ensures after[join + 1 + q] == ForkJob(works[q], id0 + 1 + q, join)
    {
      if q < k {
        assert after[join + 1 + q] == before[join + 1 + q];
      }
    }
  }

  /** A finished fork: the join (at `|o|`) holds `h`'s old continuations and waits on every
      new node; node `|o| + 1 + q` runs `works[q]`, waits on `h` and continues to the join;
      `h`'s continuations are exactly the new nodes; no other node changes. */
  ghost predicate ForkedShape(o: seq<JobNode>, id0: int, h: nat, works: seq<Work>, nodes: seq<JobNode>)
  {
    |works| <= JOB_MAX_CONTINUATIONS && h < |o| && WellFormed(o) && WellFormed(nodes) &&
    ForkInvariant(o, id0, h, works, |works|, MovedInto(o + [NewNode(NoWork, id0)], h, |o|), nodes)
  }

  /** What `ForkedShape` means for the edges and counters. */
  lemma ForkedShapeFacts(o: seq<JobNode>, id0: int, h: nat, works: seq<Work>, nodes: seq<JobNode>)
    requires ForkedShape(o, id0, h, works, nodes)
    ensures var join := |o|;
      |nodes| == |o| + 1 + |works| &&
      nodes[h].continuationCount == |works| &&
      (forall q :: 0 <= q < |works| ==> nodes[h].continuations[q] == join + 1 + q) &&
      nodes[join].continuationCount == o[h].continuationCount &&
      nodes[join].continuations[..o[h].continuationCount] == o[h].continuations[..o[h].continuationCount] &&
      nodes[join].dependencies == |works| &&
      (forall j :: join < j < |nodes| ==>
        nodes[j].continuationCount == 1 && nodes[j].continuations[0] == join &&
        nodes[j].dependencies == 1 && nodes[j].work == works[j - join - 1]) &&
      (forall i :: 0 <= i < |o| ==> nodes[i].dependencies == o[i].dependencies)
  {
    ForkedJoinFacts(o, id0, h, works, nodes);
    ForkedJobFacts(o, id0, h, works, nodes);
  }

  /** After a fork, `h` continues to the new nodes, the join holds `h`'s old continuations
      and waits on every new node, and the old nodes keep their counters. */
  lemma ForkedJoinFacts(o: seq<JobNode>, id0: int, h: nat, works: seq<Work>, nodes: seq<JobNode>)
    requires ForkedShape(o, id0, h, works, nodes)
    ensures var join := |o|;
      |nodes| == |o| + 1 + |works| &&
      nodes[h].continuationCount == |works| &&
      (forall q :: 0 <= q < |works| ==> nodes[h].continuations[q] == join + 1 + q) &&
      nodes[join].continuationCount == o[h].continuationCount &&
      nodes[join].continuations[..o[h].continuationCount] == o[h].continuations[..o[h].continuationCount] &&
      nodes[join].dependencies == |works| &&
      (forall i :: 0 <= i < |o| ==> nodes[i].dependencies == o[i].dependencies)
  {
    var join := |o|;
    var ext := o + [NewNode(NoWork, id0)];
    assert NodeOk(NewNode(NoWork, id0), |ext|);
    WellFormedGrow(o, NewNode(NoWork, id0));
    MovedIntoFacts(ext, h, join);
    assert ext[h] == o[h];
    var m := MovedInto(ext, h, join);
    assert nodes[join] == m[join].(dependencies := |works|);
    assert m[join].dependencies == 0;
    assert nodes[h].dependencies == o[h].dependencies;
  }

  /** After a fork, new node `|o| + 1 + q` runs `works[q]`, waits on `h` alone and
      continues to the join alone. */
  lemma ForkedJobFacts(o: seq<JobNode>, id0: int, h: nat, works: seq<Work>, nodes: seq<JobNode>)
    requires ForkedShape(o, id0, h, works, nodes)
    ensures |nodes| == |o| + 1 + |works|
    ensures forall j :: |o| < j < |nodes| ==>
      nodes[j].continuationCount == 1 && nodes[j].continuations[0] == |o| &&
      nodes[j].dependencies == 1 && nodes[j].work == works[j - |o| - 1]
  {
    forall j | |o| < j < |nodes|
      ensures nodes[j].continuationCount == 1 && nodes[j].continuations[0] == |o| &&
        nodes[j].dependencies == 1 && nodes[j].work == works[j - |o| - 1]
    {
      ForkedJobAt(o, id0, h, works, nodes, j - |o| - 1);
    }
  }

  /** New node `|o| + 1 + q` of a fork is the fork job for `works[q]`. */
  lemma ForkedJobAt(o: seq<JobNode>, id0: int, h: nat, works: seq<Work>, nodes: seq<JobNode>, q: int)
    requires ForkedShape(o, id0, h, works, nodes) && 0 <= q < |works|
    ensures |o| + 1 + q < |nodes|
    ensures var nd := nodes[|o| + 1 + q];
      nd.continuationCount == 1 && nd.continuations[0] == |o| && nd.dependencies == 1 && nd.work == works[q]
  {
    assert nodes[|o| + 1 + q] == ForkJob(works[q], id0 + 1 + q, |o|);
  }
}
