/** The deferred entity list of `Scene` in lithProjects/DashGame/src/entity.cpp: entities are
    added to and removed from a scene only between frames, through a pending-add queue and a
    pending-remove set that `afterUpdate` applies.  Entities are objects compared by identity,
    as the source compares pointers; their physics bodies, behaviour and drawing are not part
    of this model. */
module Entities {

  /** An entity; the only state the scene bookkeeping touches is its scene pointer. */
  class Entity {
    var scene: Scene?

    /** `Entity()`: no scene yet. */
    constructor ()
      ensures scene == null
    {
      scene := null;
    }
  }

  /** The position of the first occurrence of `x` in `es`, what `std::find` returns. */
  function IndexOf(es: seq<Entity>, x: Entity): (i: nat)
    requires x in es
    ensures i < |es| && es[i] == x && x !in es[..i]
  {
    if es[0] == x then 0
    else
      var j := IndexOf(es[1..], x);
      assert es[1..][..j] == es[1..j + 1];
      1 + j
  }

  /** `*itr = entities.back(); entities.pop_back();` for the first occurrence of `x`: the last
      entity moves into its slot. */
  function SwapRemove(es: seq<Entity>, x: Entity): (r: seq<Entity>)
    requires x in es
  {
    var i := IndexOf(es, x);
    es[i := es[|es| - 1]][..|es| - 1]
  }

  /** Swap-and-pop removes exactly one copy of `x`, and nothing else. */
  lemma SwapRemoveContents(es: seq<Entity>, x: Entity)
    requires x in es
    ensures multiset(SwapRemove(es, x)) == multiset(es) - multiset{x}
    ensures |SwapRemove(es, x)| == |es| - 1
  {
    var i := IndexOf(es, x);
    var n := |es| - 1;
    var w := es[i := es[n]];
    assert SwapRemove(es, x) == w[..n];
    assert w == w[..n] + [es[n]];
    assert multiset(w) == multiset(w[..n]) + multiset{es[n]};
    assert multiset(w) == multiset(es) - multiset{x} + multiset{es[n]};
    forall e
      ensures multiset(w[..n])[e] == (multiset(es) - multiset{x})[e]
    {
      assert multiset(w)[e] == multiset(w[..n])[e] + multiset{es[n]}[e];
      assert multiset(w)[e] == (multiset(es) - multiset{x})[e] + multiset{es[n]}[e];
    }
  }

  /** Every entity other than `x` keeps its place unless it was the last one, which moves into
      the slot `x` left. */
  lemma SwapRemoveOrder(es: seq<Entity>, x: Entity)
    requires x in es
    ensures var i := IndexOf(es, x);
            var r := SwapRemove(es, x);
            r[..i] == es[..i] && (i < |es| - 1 ==> r[i] == es[|es| - 1] && r[i + 1..] == es[i + 1..|es| - 1])
  {
  }

  /** No entity appears twice. */
  predicate Distinct(xs: seq<Entity>)
  {
    forall i, j :: 0 <= i < j < |xs| ==> xs[i] != xs[j]
  }

  /** The removal loop of `afterUpdate` over the pending set, visited in `order` (the
      unspecified iteration order of the `unordered_set`). */
  function RemoveAll(es: seq<Entity>, order: seq<Entity>): (r: seq<Entity>)
    requires Distinct(order) && forall x :: x in order ==> x in es
    ensures multiset(r) == multiset(es) - multiset(order)
    ensures |r| == |es| - |order|
    decreases |order|
  {
    if order == [] then es
    else
      var n := |order| - 1;
      var rest := RemoveAll(es, order[..n]);
      RemovedStillHas(es, order, n);
      SwapRemoveContents(rest, order[n]);
      MinusLast(es, order);
      SwapRemove(rest, order[n])
  }

  /** Taking away all of `order` is taking away all but its last entry, then that one. */
  lemma MinusLast(es: seq<Entity>, order: seq<Entity>)
    requires order != []
    ensures var n := |order| - 1;
      multiset(es) - multiset(order) == multiset(es) - multiset(order[..n]) - multiset{order[n]}
  {
    var n := |order| - 1;
    assert order == order[..n] + [order[n]];
  }

  /** The last entity to remove is still there once the earlier ones are gone. */
  lemma RemovedStillHas(es: seq<Entity>, order: seq<Entity>, n: nat)
    requires Distinct(order) && forall x :: x in order ==> x in es
    requires n < |order|
    ensures order[n] !in multiset(order[..n])
    ensures order[n] in multiset(es) - multiset(order[..n])
  {
    assert order[n] !in order[..n] by {
      forall k | 0 <= k < n
        ensures order[..n][k] != order[n]
      {
        assert order[..n][k] == order[k];
      }
    }
    assert order[n] in es;
  }

  /** Entities kept by the removal loop, whatever the order. */
  lemma RemoveAllKeeps(es: seq<Entity>, order: seq<Entity>, y: Entity)
    requires Distinct(order) && forall x :: x in order ==> x in es
    requires y in es && y !in order
    ensures y in RemoveAll(es, order)
  {
    assert y in multiset(es) && y !in multiset(order);
    assert y in multiset(RemoveAll(es, order));
  }

  /** Entities removed by the removal loop, when no entity is listed twice. */
  lemma RemoveAllDrops(es: seq<Entity>, order: seq<Entity>, y: Entity)
    requires Distinct(order) && forall x :: x in order ==> x in es
    requires Distinct(es) && y in order
    ensures y !in RemoveAll(es, order)
  {
    DistinctCount(es, y);
    assert y in multiset(order);
    assert multiset(RemoveAll(es, order))[y] == 0;
  }

  /** After `afterUpdate`, with no entity live twice, an entity is live exactly when it was
      live and not pending removal, or pending addition. */
  lemma AfterUpdateMembers(es: seq<Entity>, order: seq<Entity>, adds: seq<Entity>, y: Entity)
    requires Distinct(order) && (forall x :: x in order ==> x in es) && Distinct(es)
    ensures y in RemoveAll(es, order) + adds <==> (y in es && y !in order) || y in adds
  {
    if y in es && y !in order {
      RemoveAllKeeps(es, order, y);
    }
    if y in order {
      RemoveAllDrops(es, order, y);
    }
    if y in RemoveAll(es, order) {
      assert y in multiset(RemoveAll(es, order));
    }
  }

  /** In a list without repeats an element occurs once. */
  lemma {:induction false} DistinctCount(es: seq<Entity>, y: Entity)
    requires Distinct(es)
    ensures multiset(es)[y] <= 1
    decreases |es|
  {
    if es != [] {
      var n := |es| - 1;
      assert es == es[..n] + [es[n]];
      assert Distinct(es[..n]) by {
        forall i, j | 0 <= i < j < n
          ensures es[..n][i] != es[..n][j]
        {
          assert es[..n][i] == es[i] && es[..n][j] == es[j];
        }
      }
      DistinctCount(es[..n], y);
      if es[n] == y {
        assert y !in es[..n] by {
          forall k | 0 <= k < n
            ensures es[..n][k] != y
          {
            assert es[..n][k] == es[k];
          }
        }
      }
    }
  }

  /** `Scene`: the live entity list, the pending additions in call order, the pending
      removals as a set, and the level fields the constructor sets. */
  class Scene {
    var entities: seq<Entity>
    var addAfterUpdate: seq<Entity>
    var removeAfterUpdate: set<Entity>
    var gameOver: bool
    var id: int
    var requestId: int
    var enemyCount: int

    /** `Scene()`; the physics world it creates is not modelled. */
    constructor ()
      ensures entities == [] && addAfterUpdate == [] && removeAfterUpdate == {}
      ensures !gameOver && id == 0 && requestId == 0 && enemyCount == 0
    {
      entities := [];
      addAfterUpdate := [];
      removeAfterUpdate := {};
      gameOver := false;
      id := 0;
      requestId := 0;
      enemyCount := 0;
    }

    /** `add`: queue the entity; the live list does not change until `afterUpdate`. */
    method Add(entity: Entity)
      modifies this
      ensures addAfterUpdate == old(addAfterUpdate) + [entity]
      ensures entities == old(entities) && removeAfterUpdate == old(removeAfterUpdate)
    {
      addAfterUpdate := addAfterUpdate + [entity];
    }

    /** `remove`: mark the entity; marking it again changes nothing. */
    method Remove(entity: Entity)
      modifies this
      ensures removeAfterUpdate == old(removeAfterUpdate) + {entity}
      ensures entity in old(removeAfterUpdate) ==> removeAfterUpdate == old(removeAfterUpdate)
      ensures entities == old(entities) && addAfterUpdate == old(addAfterUpdate)
    {
      removeAfterUpdate := removeAfterUpdate + {entity};
    }

    /** `afterUpdate`: swap-and-pop each pending removal out of the live list, in `order`,
        then append the pending additions in queue order, each taking this scene as its
        scene; both pending collections end empty.  `std::find` on an entity that is not
        live dereferences `end()`, so every pending removal must be live. */
    method AfterUpdate(order: seq<Entity>)
      requires Distinct(order) && (forall x :: x in order <==> x in removeAfterUpdate)
      requires forall x :: x in removeAfterUpdate ==> x in entities
      modifies this, set x | x in addAfterUpdate
      ensures entities == RemoveAll(old(entities), order) + old(addAfterUpdate)
      ensures addAfterUpdate == [] && removeAfterUpdate == {}
      ensures forall x :: x in old(addAfterUpdate) ==> x.scene == this
    {
      var live := RemovePending(entities, order);
      removeAfterUpdate := {};
      var adds := addAfterUpdate;
      var kept := live;
      var j := 0;
      while j < |adds|
        invariant 0 <= j <= |adds|
        invariant live == kept + adds[..j]
        invariant forall x :: x in adds[..j] ==> x.scene == this
        invariant addAfterUpdate == adds && removeAfterUpdate == {}
        decreases |adds| - j
      {
        adds[j].scene := this;
        live := live + [adds[j]];
        assert adds[..j + 1] == adds[..j] + [adds[j]];
        j := j + 1;
      }
      assert adds[..j] == adds;
      entities := live;
      addAfterUpdate := [];
    }
  }

  /** The removal loop of `afterUpdate`: find each pending entity and swap-and-pop it. */
  method RemovePending(es: seq<Entity>, order: seq<Entity>) returns (live: seq<Entity>)
    requires Distinct(order) && forall x :: x in order ==> x in es
    ensures live == RemoveAll(es, order)
  {
    live := es;
    var k := 0;
    PrefixOk(es, order, 0);
    while k < |order|
      invariant 0 <= k <= |order|
      invariant Distinct(order[..k]) && forall x :: x in order[..k] ==> x in es
      invariant live == RemoveAll(es, order[..k])
      decreases |order| - k
    {
      RemoveAllStep(es, order, k);
      live := SwapPop(live, order[k]);
      k := k + 1;
    }
    assert order[..k] == order;
  }

  /** The body of that loop for one entity. */
  method SwapPop(es: seq<Entity>, x: Entity) returns (r: seq<Entity>)
    requires x in es
    ensures r == SwapRemove(es, x)
  {
    var i := Find(es, x);
    r := es[i := es[|es| - 1]];
    r := r[..|r| - 1];
  }

  /** A prefix of the removal order is a removal order. */
  lemma PrefixOk(es: seq<Entity>, order: seq<Entity>, k: nat)
    requires Distinct(order) && (forall x :: x in order ==> x in es) && k <= |order|
    ensures Distinct(order[..k]) && forall x :: x in order[..k] ==> x in es
  {
    assert forall i :: 0 <= i < k ==> order[..k][i] == order[i];
  }

  /** One turn of the removal loop. */
  lemma RemoveAllStep(es: seq<Entity>, order: seq<Entity>, k: nat)
    requires Distinct(order) && (forall x :: x in order ==> x in es) && k < |order|
    ensures Distinct(order[..k]) && (forall x :: x in order[..k] ==> x in es)
    ensures Distinct(order[..k + 1]) && (forall x :: x in order[..k + 1] ==> x in es)
    ensures order[k] in RemoveAll(es, order[..k])
    ensures RemoveAll(es, order[..k + 1]) == SwapRemove(RemoveAll(es, order[..k]), order[k])
  {
    PrefixOk(es, order, k);
    PrefixOk(es, order, k + 1);
    assert order[..k + 1][..k] == order[..k];
    RemovedStillHas(es, order[..k + 1], k);
    assert multiset(RemoveAll(es, order[..k])) == multiset(es) - multiset(order[..k]);
  }

  /** `std::find` over the live list. */
  method Find(es: seq<Entity>, x: Entity) returns (i: nat)
    requires x in es
    ensures i == IndexOf(es, x)
  {
    i := 0;
    while es[i] != x
      invariant i < |es| && x in es[i..] && i + IndexOf(es[i..], x) == IndexOf(es, x)
      decreases |es| - i
    {
      assert es[i..][1..] == es[i + 1..];
      i := i + 1;
    }
  }
}
