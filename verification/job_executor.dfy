/** `JobExecutor` of include/lith/job.h and framework/src/job.cpp, as one sequential worker:
    `Run` queues a tree's roots, and `ThreadWorkStep` is one pass of the `ThreadWork` loop
    (pop a ready node, run it, release its continuations, retire its tree when its last node
    finishes).  The wavefront is the `tsque` of JobQueue reduced to its `push_front` /
    `pop_back` use. */
module JobExecutor {
  import opened Wrappers
  import opened JobGraph
  import JobQueue

  /** A `JobNode*`: the tree that owns the node and its position in that tree's arena. */
  datatype NodeRef = NodeRef(tree: JobTree, index: nat)

  datatype ExecError = EraseAtEnd

  function Refs(t: JobTree, xs: seq<nat>): (r: seq<NodeRef>)
    ensures |r| == |xs| && forall k :: 0 <= k < |xs| ==> r[k] == NodeRef(t, xs[k])
  {
    if xs == [] then [] else [NodeRef(t, xs[0])] + Refs(t, xs[1..])
  }

  /** The dependency release of a finished node, slot by slot: each continuation's counter
      drops by one, and the continuations whose counter lands on 0 are listed in the order
      they become ready. */
  function Release(nodes: seq<JobNode>, cs: seq<int>): (r: (seq<JobNode>, seq<nat>))
    requires forall k :: 0 <= k < |cs| ==> 0 <= cs[k] < |nodes|
    ensures |r.0| == |nodes| && forall x :: x in r.1 ==> x < |nodes|
    decreases |cs|
  {
    if cs == [] then (nodes, [])
    else ReleaseSlot(Release(nodes, cs[..|cs| - 1]), cs[|cs| - 1])
  }

  /** The release through one slot naming node `c`. */
  function ReleaseSlot(prev: (seq<JobNode>, seq<nat>), c: nat): (r: (seq<JobNode>, seq<nat>))
    requires c < |prev.0|
    ensures |r.0| == |prev.0| && forall x :: x in r.1 ==> x in prev.1 || x == c
  {
    var d := prev.0[c].dependencies - 1;
    (prev.0[c := prev.0[c].(dependencies := d)], prev.1 + (if d == 0 then [c] else []))
  }

  /** One more slot: the release of `cs[..i + 1]` is the release of `cs[..i]` followed by
      the step for `cs[i]`. */
  lemma ReleaseSnoc(nodes: seq<JobNode>, cs: seq<int>, i: nat)
    requires forall k :: 0 <= k < |cs| ==> 0 <= cs[k] < |nodes|
    requires i < |cs|
    ensures Release(nodes, cs[..i + 1]) == ReleaseSlot(Release(nodes, cs[..i]), cs[i])
  {
    assert cs[..i + 1][..i] == cs[..i];
  }

  function Occurrences(cs: seq<int>, x: int): nat
  {
    if cs == [] then 0 else Occurrences(cs[..|cs| - 1], x) + (if cs[|cs| - 1] == x then 1 else 0)
  }

  /** A node's counter drops by the number of slots naming it, nothing else changes, and a
      node is made ready exactly when its counter passes through 0: it was positive before
      and is at most 0 after.  No node is made ready twice. */
  lemma {:induction false} ReleaseFacts(nodes: seq<JobNode>, cs: seq<int>)
    requires forall k :: 0 <= k < |cs| ==> 0 <= cs[k] < |nodes|
    ensures var r := Release(nodes, cs);
      (forall i :: 0 <= i < |nodes| ==>
         r.0[i] == nodes[i].(dependencies := nodes[i].dependencies - Occurrences(cs, i))) &&
      (forall i :: 0 <= i < |nodes| ==>
         (i in r.1 <==> nodes[i].dependencies > 0 && nodes[i].dependencies - Occurrences(cs, i) <= 0)) &&
      (forall p, q :: 0 <= p < q < |r.1| ==> r.1[p] != r.1[q])
    decreases |cs|
  {
    if cs != [] {
      var init := cs[..|cs| - 1];
      assert forall k :: 0 <= k < |init| ==> init[k] == cs[k];
      ReleaseFacts(nodes, init);
      var prev := Release(nodes, init);
      var c := cs[|cs| - 1];
      forall i | 0 <= i < |nodes|
        ensures Occurrences(cs, i) == Occurrences(init, i) + (if c == i then 1 else 0)
      {
      }
    }
  }

  /** The executor's vector of owned trees after `ownedTrees.erase(std::find(..., t))`: when
      `t` was never registered (a tree the caller created itself) the erase is handed
      `end()`, which is undefined. */
  function RetireAsWritten(owned: seq<JobTree>, t: JobTree): (r: Result<seq<JobTree>, ExecError>)
    ensures r.Ok? <==> t in owned
    ensures r.Ok? ==> |r.value| == |owned| - 1
  {
    var i := IndexOf(owned, t);
    if i == |owned| then Err(EraseAtEnd) else Ok(owned[..i] + owned[i + 1..])
  }

  /** The first position of `t` in `owned`, or `|owned|` (`std::find` returning `end()`). */
  function IndexOf(owned: seq<JobTree>, t: JobTree): (i: nat)
    ensures i <= |owned|
    ensures i < |owned| <==> t in owned
    ensures i < |owned| ==> owned[i] == t && t !in owned[..i]
  {
    if owned == [] then 0
    else if owned[0] == t then 0
    else
      assert owned[1..][..IndexOf(owned[1..], t)] == owned[..IndexOf(owned[1..], t) + 1][1..];
      1 + IndexOf(owned[1..], t)
  }

  /** Retiring a finished tree as intended: only a tree the executor owns is unregistered
      (and then deleted); a caller-owned tree is left to its owner. */
  function RetireOwned(owned: seq<JobTree>, t: JobTree): (r: seq<JobTree>)
    ensures t in owned ==> |r| == |owned| - 1
    ensures t !in owned ==> r == owned
    ensures forall u :: u in r ==> u in owned
    ensures forall u :: u in owned && u != t ==> u in r
  {
    if t in owned then
      var i := IndexOf(owned, t);
      assert owned == owned[..i] + [t] + owned[i + 1..];
      owned[..i] + owned[i + 1..]
    else owned
  }

  /** A tree the executor never registered makes the as-written retirement erase `end()`;
      for registered trees the two retirements agree. */
  lemma RetireCallerOwnedTree(owned: seq<JobTree>, t: JobTree)
    ensures t !in owned ==> RetireAsWritten(owned, t) == Err(EraseAtEnd) && RetireOwned(owned, t) == owned
    ensures t in owned ==> RetireAsWritten(owned, t) == Ok(RetireOwned(owned, t))
  {
  }

  /** The indices below `n`. */
  function Below(n: nat): (r: set<nat>)
    ensures forall i: nat :: i in r <==> i < n
    ensures |r| == n
  {
    if n == 0 then {} else Below(n - 1) + {n - 1}
  }

  /** A set of indices below `n` with `n` members holds every index below `n`. */
  lemma FullIndexSet(s: set<nat>, n: nat)
    requires forall i :: i in s ==> i < n
    requires |s| == n
    ensures forall i: nat :: i < n ==> i in s
  {
    var full := Below(n);
    assert s <= full;
    assert |full - s| == |full| - |s|;
    assert full - s == {};
    forall i: nat | i < n ensures i in s {
      assert i in full;
    }
  }

  function Elems(xs: seq<nat>): (s: set<nat>)
    ensures forall x :: x in s <==> x in xs
  {
    set x | x in xs
  }

  predicate Distinct<T(==)>(s: seq<T>)
  {
    forall p, q :: 0 <= p < q < |s| ==> s[p] != s[q]
  }

  lemma DistinctAppend<T>(a: seq<T>, b: seq<T>)
    requires Distinct(a) && Distinct(b) && forall x :: x in a ==> x !in b
    ensures Distinct(a + b)
  {
    forall p, q | 0 <= p < q < |a + b| ensures (a + b)[p] != (a + b)[q] {
      if p < |a| <= q {
        assert (a + b)[p] in a;
        assert (a + b)[q] == b[q - |a|];
      }
    }
  }

  lemma RefsFacts(t: JobTree, xs: seq<nat>)
    ensures Distinct(xs) ==> Distinct(Refs(t, xs))
    ensures forall r :: r in Refs(t, xs) ==> r.tree == t && r.index in xs
    ensures forall x :: x in xs ==> NodeRef(t, x) in Refs(t, xs)
  {
    var rs := Refs(t, xs);
    forall r | r in rs ensures r.tree == t && r.index in xs {
      var k :| 0 <= k < |rs| && rs[k] == r;
    }
    forall x | x in xs ensures NodeRef(t, x) in rs {
      var k :| 0 <= k < |xs| && xs[k] == x;
      assert rs[k] == NodeRef(t, x);
    }
  }

  lemma ReverseDistinct<T>(s: seq<T>)
    requires Distinct(s)
    ensures Distinct(JobQueue.Reverse(s))
  {
    var f := JobQueue.Reverse(s);
    JobQueue.ReverseIndex(s);
    forall p, q | 0 <= p < q < |f| ensures f[p] != f[q] {
      assert f[p] == s[|s| - 1 - p] && f[q] == s[|s| - 1 - q];
    }
  }

  /** The block of references pushed at the front for distinct positions `xs` of `t` (the
      last of them first) is distinct and holds exactly the references to those positions. */
  lemma FrontFacts(t: JobTree, xs: seq<nat>)
    requires Distinct(xs)
    ensures var f := JobQueue.Reverse(Refs(t, xs));
      Distinct(f) &&
      (forall r :: r in f ==> r.tree == t && r.index in xs) &&
      (forall x :: x in xs ==> NodeRef(t, x) in f)
  {
    RefsFacts(t, xs);
    ReverseDistinct(Refs(t, xs));
    JobQueue.ReverseIndex(Refs(t, xs));
  }

  lemma PushOne(t: JobTree, xs: seq<nat>, x: nat)
    ensures JobQueue.Reverse(Refs(t, xs + [x])) == [NodeRef(t, x)] + JobQueue.Reverse(Refs(t, xs))
  {
    assert Refs(t, xs + [x]) == Refs(t, xs) + [NodeRef(t, x)];
    JobQueue.ReverseAppend(Refs(t, xs), [NodeRef(t, x)]);
    assert JobQueue.Reverse([NodeRef(t, x)]) == [NodeRef(t, x)];
  }

  /** The positions whose counter is 0. */
  function ZeroSet(nodes: seq<JobNode>): set<nat>
  {
    set i: nat | i < |nodes| && nodes[i].dependencies == 0
  }

  /** The positions whose counter is at or below 0. */
  function SettledSet(nodes: seq<JobNode>): set<nat>
  {
    set i: nat | i < |nodes| && nodes[i].dependencies <= 0
  }

  /** The per-tree part of the dispatch invariant, over an arena value, the positions ever
      queued and the positions that have finished: a node whose counter is 0 has been
      queued, a queued node's counter is at or below 0, only queued nodes finish, and
      `nodeCount` is the number of nodes that have not finished. */
  predicate TreeOk(nodes: seq<JobNode>, nodeCount: int, queued: set<nat>, done: set<nat>)
  {
    ZeroSet(nodes) <= queued <= SettledSet(nodes) &&
    done <= queued &&
    nodeCount == |nodes| - |done|
  }

  /** The queue part of the dispatch invariant: the wavefront holds distinct references,
      each to a node of a live tree that has been queued and has not finished. */
  predicate QueueOk(wavefront: seq<NodeRef>, trees: set<JobTree>, queued: map<JobTree, set<nat>>,
                    done: map<JobTree, set<nat>>)
  {
    Distinct(wavefront) &&
    forall r :: r in wavefront ==>
      r.tree in trees && r.tree in queued && r.tree in done &&
      r.index in queued[r.tree] && r.index !in done[r.tree]
  }

  /** Queuing the roots of a tree none of whose nodes was queued or has finished
      establishes its invariant. */
  lemma TreeRun(nodes: seq<JobNode>, roots: seq<nat>)
    requires forall x: nat :: x in roots <==> x < |nodes| && nodes[x].dependencies == 0
    ensures TreeOk(nodes, |nodes|, Elems(roots), {})
  {
  }

  /** Finishing queued node `i` and releasing its continuations `cs` keeps the tree's
      invariant; the nodes it makes ready are distinct and had never been queued. */
  lemma TreeStep(o: seq<JobNode>, nodeCount: int, cs: seq<int>, i: nat, queued: set<nat>, done: set<nat>)
    requires forall k :: 0 <= k < |cs| ==> 0 <= cs[k] < |o|
    requires TreeOk(o, nodeCount, queued, done) && i in queued && i !in done
    ensures var rel := Release(o, cs);
      Distinct(rel.1) &&
      (forall x :: x in rel.1 ==> x !in queued) &&
      TreeOk(rel.0, nodeCount - 1, queued + Elems(rel.1), done + {i})
  {
    var rel := Release(o, cs);
    ReleaseFacts(o, cs);
    forall x | x in rel.1 ensures x !in queued {
      assert o[x].dependencies > 0;
    }
  }

  /** A tree whose node count has dropped to 0 has finished every one of its nodes. */
  lemma AllDone(nodes: seq<JobNode>, queued: set<nat>, done: set<nat>)
    requires TreeOk(nodes, 0, queued, done)
    ensures forall i :: 0 <= i < |nodes| ==> i in done
  {
    FullIndexSet(done, |nodes|);
  }

  /** Queuing the distinct roots of a tree that was never run keeps the queue invariant. */
  lemma QueueRun(wavefront: seq<NodeRef>, trees: set<JobTree>, queued: map<JobTree, set<nat>>,
                 done: map<JobTree, set<nat>>, t: JobTree, roots: seq<nat>)
    requires QueueOk(wavefront, trees, queued, done) && t !in queued && Distinct(roots)
    ensures QueueOk(JobQueue.Reverse(Refs(t, roots)) + wavefront, trees + {t},
                    queued[t := Elems(roots)], done[t := {}])
  {
    var f := JobQueue.Reverse(Refs(t, roots));
    FrontFacts(t, roots);
    DistinctAppend(f, wavefront);
  }

  /** Popping `ran`, marking it finished, and queuing the distinct, never queued positions
      `xs` of its tree keeps the queue invariant. */
  lemma QueueStep(wf1: seq<NodeRef>, ran: NodeRef, trees: set<JobTree>, queued: map<JobTree, set<nat>>,
                  done: map<JobTree, set<nat>>, xs: seq<nat>)
    requires QueueOk(wf1 + [ran], trees, queued, done) && Distinct(xs)
    requires ran.tree in queued && ran.tree in done && done[ran.tree] <= queued[ran.tree]
    requires forall x :: x in xs ==> x !in queued[ran.tree]
    ensures var t := ran.tree;
      QueueOk(JobQueue.Reverse(Refs(t, xs)) + wf1, trees,
              queued[t := queued[t] + Elems(xs)], done[t := done[t] + {ran.index}])
  {
    var t := ran.tree;
    var f := JobQueue.Reverse(Refs(t, xs));
    FrontFacts(t, xs);
    assert ran in wf1 + [ran];
    forall p, q | 0 <= p < q < |wf1| ensures wf1[p] != wf1[q] {
      assert wf1[p] == (wf1 + [ran])[p] && wf1[q] == (wf1 + [ran])[q];
    }
    forall r | r in wf1 ensures r != ran && r in wf1 + [ran] {
      var k :| 0 <= k < |wf1| && wf1[k] == r;
      assert (wf1 + [ran])[k] == r && (wf1 + [ran])[|wf1|] == ran;
    }
    DistinctAppend(f, wf1);
    var q' := queued[t := queued[t] + Elems(xs)];
    var d' := done[t := done[t] + {ran.index}];
    forall r | r in f + wf1
      ensures r.tree in trees && r.tree in q' && r.tree in d' && r.index in q'[r.tree] && r.index !in d'[r.tree]
    {
      if r in f {
        assert r.tree == t && r.index in xs;
      } else {
        assert r in wf1 + [ran] && r != ran;
      }
    }
  }

  /** The loop of `JobExecutor::Run` that pushes each root at the front of the wavefront. */
  method PushRoots(t: JobTree, roots: seq<nat>, wavefront: seq<NodeRef>) returns (wf: seq<NodeRef>)
    ensures wf == JobQueue.Reverse(Refs(t, roots)) + wavefront
  {
    wf := wavefront;
    var k := 0;
    while k < |roots|
      invariant 0 <= k <= |roots|
      invariant wf == JobQueue.Reverse(Refs(t, roots[..k])) + wavefront
    {
      wf := [NodeRef(t, roots[k])] + wf;
      PushOne(t, roots[..k], roots[k]);
      assert roots[..k + 1] == roots[..k] + [roots[k]];
      k := k + 1;
    }
    assert roots[..k] == roots;
  }

  /** The continuations a finished node releases: its first `continuationCount` slots. */
  function Filled(nd: JobNode): seq<int>
    requires 0 <= nd.continuationCount <= |nd.continuations|
  {
    nd.continuations[..nd.continuationCount]
  }

  /** The release only moves counters, so the arena stays well formed. */
  lemma ReleaseWellFormed(nodes: seq<JobNode>, cs: seq<int>)
    requires forall k :: 0 <= k < |cs| ==> 0 <= cs[k] < |nodes|
    requires WellFormed(nodes)
    ensures WellFormed(Release(nodes, cs).0)
  {
    ReleaseFacts(nodes, cs);
    var r := Release(nodes, cs).0;
    forall i | 0 <= i < |r| ensures NodeOk(r[i], |r|) {
      assert NodeOk(nodes[i], |nodes|);
    }
  }

  /** One dispatch step on values: popping `ran` from `wf1 + [ran]`, releasing its filled
      slots, marking it finished and queuing what became ready keeps the invariants of its
      tree and of the queue. */
  lemma StepKeeps(o: seq<JobNode>, nodeCount: int, ran: NodeRef, wf1: seq<NodeRef>, trees: set<JobTree>,
                  queued: map<JobTree, set<nat>>, done: map<JobTree, set<nat>>)
    requires WellFormed(o) && ran.tree in queued && ran.tree in done
    requires TreeOk(o, nodeCount, queued[ran.tree], done[ran.tree])
    requires QueueOk(wf1 + [ran], trees, queued, done)
    ensures ran.index < |o| && NodeOk(o[ran.index], |o|)
    ensures var t := ran.tree;
      var cs := Filled(o[ran.index]);
      (forall k :: 0 <= k < |cs| ==> 0 <= cs[k] < |o|) &&
      var rel := Release(o, cs);
      var q' := queued[t := queued[t] + Elems(rel.1)];
      var d' := done[t := done[t] + {ran.index}];
      WellFormed(rel.0) &&
      TreeOk(rel.0, nodeCount - 1, q'[t], d'[t]) &&
      QueueOk(JobQueue.Reverse(Refs(t, rel.1)) + wf1, trees, q', d')
  {
    assert ran in wf1 + [ran];
    assert NodeOk(o[ran.index], |o|);
    var cs := Filled(o[ran.index]);
    ReleaseWellFormed(o, cs);
    TreeStep(o, nodeCount, cs, ran.index, queued[ran.tree], done[ran.tree]);
    QueueStep(wf1, ran, trees, queued, done, Release(o, cs).1);
  }

  /** The release loop of `JobExecutor::ThreadWork`: each continuation's counter drops by
      one, and a continuation whose counter lands on 0 is pushed at the front of the
      wavefront and counted (`IncWaitCount(1)`). */
  method ReleaseContinuations(t: JobTree, nodes: seq<JobNode>, cs: seq<int>, wavefront: seq<NodeRef>)
    returns (ns: seq<JobNode>, wf: seq<NodeRef>, pushes: nat)
    requires forall k :: 0 <= k < |cs| ==> 0 <= cs[k] < |nodes|
    ensures ns == Release(nodes, cs).0
    ensures wf == JobQueue.Reverse(Refs(t, Release(nodes, cs).1)) + wavefront
    ensures pushes == |Release(nodes, cs).1|
  {
    ns, wf, pushes := nodes, wavefront, 0;
    var i := 0;
    while i < |cs|
      invariant 0 <= i <= |cs|
      invariant ns == Release(nodes, cs[..i]).0
      invariant wf == JobQueue.Reverse(Refs(t, Release(nodes, cs[..i]).1)) + wavefront
      invariant pushes == |Release(nodes, cs[..i]).1|
    {
      ReleaseSnoc(nodes, cs, i);
      var child := cs[i];
      var d := ns[child].dependencies - 1;
      ghost var ready := Release(nodes, cs[..i]).1;
      ns := ns[child := ns[child].(dependencies := d)];
      if d == 0 {
        pushes := pushes + 1;
        wf := [NodeRef(t, child)] + wf;
        PushOne(t, ready, child);
        assert Release(nodes, cs[..i + 1]).1 == ready + [child];
      } else {
        assert Release(nodes, cs[..i + 1]).1 == ready + [] == ready;
      }
      i := i + 1;
    }
    assert cs[..i] == cs;
  }

  class Executor {
    var ownedTrees: seq<JobTree>
    /** Front is index 0; `Run` and the dispatch step push at the front, the worker pops at
        the back. */
    var wavefront: seq<NodeRef>
    var workCount: int
    /** The nodes whose work has run, in order. */
    var executed: seq<NodeRef>
    /** Trees that have been run and not yet retired. */
    ghost var trees: set<JobTree>
    /** For every tree ever run, the positions of its nodes ever queued. */
    ghost var queued: map<JobTree, set<nat>>
    /** For every tree ever run, the positions of its nodes that have finished. */
    ghost var done: map<JobTree, set<nat>>

    /** The dispatch invariant: every live tree is well formed and keeps `TreeOk`, the
        wavefront keeps `QueueOk`, and `workCount` is the wavefront's length. */
    ghost predicate Valid()
      reads this, trees
    {
      trees <= queued.Keys && done.Keys == queued.Keys &&
      (forall t :: t in trees ==> t.Valid() && TreeOk(t.nodes, t.nodeCount, queued[t], done[t])) &&
      QueueOk(wavefront, trees, queued, done) &&
      workCount == |wavefront|
    }

    constructor ()
      ensures Valid() && ownedTrees == [] && wavefront == [] && workCount == 0 && executed == []
      ensures trees == {} && queued == map[] && done == map[]
    {
      ownedTrees := [];
      wavefront := [];
      workCount := 0;
      executed := [];
      trees := {};
      queued := map[];
      done := map[];
    }

    /** `JobExecutor::CreateTree`: a new empty tree that the executor owns. */
    method CreateTree() returns (t: JobTree)
      requires Valid()
      modifies this
      ensures Valid() && fresh(t) && t.Valid() && t.nodes == [] && t.nodeCount == 0
      ensures ownedTrees == old(ownedTrees) + [t]
      ensures wavefront == old(wavefront) && workCount == old(workCount) && executed == old(executed)
      ensures trees == old(trees) && queued == old(queued) && done == old(done)
    {
      t := new JobTree();
      ownedTrees := ownedTrees + [t];
    }

    /** `JobExecutor::Run`: every root of `t`, in allocation order, is counted and pushed at
        the front, so the first root is the first to be popped.  A tree is run once, before
        any of its nodes has finished. */
    method Run(t: JobTree)
      requires Valid() && t.Valid() && t !in queued && t.nodeCount == |t.nodes|
      modifies this
      ensures Valid()
      ensures wavefront == JobQueue.Reverse(Refs(t, RootsOf(t.nodes, |t.nodes|))) + old(wavefront)
      ensures workCount == old(workCount) + |RootsOf(t.nodes, |t.nodes|)|
      ensures ownedTrees == old(ownedTrees) && executed == old(executed)
      ensures trees == old(trees) + {t}
    {
      var roots := t.GetRoots();
      assert Distinct(roots);
      QueueRun(wavefront, trees, queued, done, t, roots);
      TreeRun(t.nodes, roots);
      var wf := PushRoots(t, roots, wavefront);
      Admit(t, wf, |roots|, Elems(roots));
    }

    /** The state updates that close `Run`: the tree becomes live with its roots queued and
        none of its nodes finished, and the wavefront and its count take their new values. */
    method Admit(t: JobTree, wf: seq<NodeRef>, pushes: int, ghost q: set<nat>)
      requires Valid() && t.Valid() && t !in queued
      requires TreeOk(t.nodes, t.nodeCount, q, {})
      requires QueueOk(wf, trees + {t}, queued[t := q], done[t := {}])
      requires |wf| == workCount + pushes
      modifies this
      ensures Valid()
      ensures wavefront == wf && workCount == old(workCount) + pushes
      ensures ownedTrees == old(ownedTrees) && executed == old(executed)
      ensures trees == old(trees) + {t}
    {
      wavefront, workCount := wf, workCount + pushes;
      trees := trees + {t};
      queued, done := queued[t := q], done[t := {}];
    }

    /** One pass of the `ThreadWork` loop: the back of the wavefront is popped and its work
        runs; each of its continuations is released in slot order and pushed at the front
        the moment its counter lands on 0; the node is counted off its tree, and a tree
        whose last node has finished is retired. */
    method ThreadWorkStep() returns (ran: NodeRef)
      requires Valid() && wavefront != []
      modifies this, wavefront[|wavefront| - 1].tree
      ensures Valid()
      ensures ran == old(wavefront)[|old(wavefront)| - 1]
      ensures executed == old(executed) + [ran]
      ensures var t := ran.tree;
        var rel := Release(old(t.nodes), Filled(old(t.nodes)[ran.index]));
        wavefront == JobQueue.Reverse(Refs(t, rel.1)) + old(wavefront)[..|old(wavefront)| - 1] &&
        t.nodeCount == old(t.nodeCount) - 1 &&
        (t.nodeCount != 0 ==> t.nodes == rel.0 && ownedTrees == old(ownedTrees) && trees == old(trees)) &&
        (t.nodeCount == 0 ==> ownedTrees == RetireOwned(old(ownedTrees), t) && trees == old(trees) - {t} &&
                               t.nodes == (if t in old(ownedTrees) then [] else rel.0))
    {
      ran := FinishNode();
      if ran.tree.nodeCount == 0 {
        RetireTree(ran.tree);
      }
    }

    /** The part of the `ThreadWork` pass up to the node count update. */
    method FinishNode() returns (ran: NodeRef)
      requires Valid() && wavefront != []
      modifies this, wavefront[|wavefront| - 1].tree
      ensures Valid() && ran.tree in trees
      ensures ran == old(wavefront)[|old(wavefront)| - 1]
      ensures executed == old(executed) + [ran]
      ensures var t := ran.tree;
        var rel := Release(old(t.nodes), Filled(old(t.nodes)[ran.index]));
        wavefront == JobQueue.Reverse(Refs(t, rel.1)) + old(wavefront)[..|old(wavefront)| - 1] &&
        t.nodeCount == old(t.nodeCount) - 1 && t.nodes == rel.0 &&
        ownedTrees == old(ownedTrees) && trees == old(trees)
    {
      ran := wavefront[|wavefront| - 1];
      var t := ran.tree;
      var wf1 := wavefront[..|wavefront| - 1];
      assert wavefront == wf1 + [ran];
      var o := t.nodes;
      StepKeeps(o, t.nodeCount, ran, wf1, trees, queued, done);
      var cs := Filled(o[ran.index]);
      ghost var ready := Release(o, cs).1;
      // node->work runs here; its effect is not part of the model
      var ns, wf, pushes := ReleaseContinuations(t, o, cs, wf1);
      Commit(ran, ns, wf, pushes, queued[t] + Elems(ready), done[t] + {ran.index});
    }

    /** The state updates that close a dispatch step: the finished node's tree takes its
        released arena and loses one from its count, the node is recorded as executed, and
        the wavefront and its count take their new values. */
    method Commit(ran: NodeRef, ns: seq<JobNode>, wf: seq<NodeRef>, pushes: int,
                  ghost q: set<nat>, ghost d: set<nat>)
      requires Valid() && ran.tree in trees
      requires WellFormed(ns) && TreeOk(ns, ran.tree.nodeCount - 1, q, d)
      requires QueueOk(wf, trees, queued[ran.tree := q], done[ran.tree := d])
      requires |wf| == workCount - 1 + pushes
      modifies this, ran.tree
      ensures Valid()
      ensures ran.tree.nodes == ns && ran.tree.nodeCount == old(ran.tree.nodeCount) - 1
      ensures executed == old(executed) + [ran] && wavefront == wf
      ensures ownedTrees == old(ownedTrees) && trees == old(trees)
    {
      var t := ran.tree;
      t.nodes, t.nodeCount := ns, t.nodeCount - 1;
      executed, wavefront, workCount := executed + [ran], wf, workCount - 1 + pushes;
      queued, done := queued[t := q], done[t := d];
    }

    /** The retirement of a tree whose last node has finished: it leaves the live trees, and
        when the executor owns it, it is unregistered and deleted. */
    method RetireTree(t: JobTree)
      requires Valid() && t in trees && t.nodeCount == 0
      modifies this, t
      ensures Valid()
      ensures trees == old(trees) - {t} && ownedTrees == RetireOwned(old(ownedTrees), t)
      ensures t.nodes == (if t in old(ownedTrees) then [] else old(t.nodes)) && t.nodeCount == 0
      ensures wavefront == old(wavefront) && executed == old(executed)
    {
      AllDone(t.nodes, queued[t], done[t]);
      trees := trees - {t};
      if t in ownedTrees {
        ownedTrees := RetireOwned(ownedTrees, t);
        t.Cleanup();
      }
    }
  }
}
