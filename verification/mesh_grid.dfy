/** What the grid-shaped mesh generators (`MakePlane`, `MakeUVSphere`, `MakeCapsule`) share:
    two nested counting loops that write one vertex per pair of counters, inner counter
    fastest, and index buffers written a few entries at a time.  A vertex is named by its
    pair of loop counters; its floating-point position and UV are not modelled. */
module MeshGrid {
  import opened Arith

  /** The vertex written when the outer loop counter is `outer` and the inner one `inner`. */
  datatype GridVertex = GridVertex(outer: int, inner: int)

  /** The vertices the inner loop writes for one value of the outer counter. */
  function GridRow(outer: int, innerCount: nat): (row: seq<GridVertex>)
    ensures |row| == innerCount + 1
    ensures forall b :: 0 <= b <= innerCount ==> row[b] == GridVertex(outer, b)
  {
    seq(innerCount + 1, b => GridVertex(outer, b))
  }

  /** The vertices written while the outer counter is below `outers`. */
  function GridPrefix(outers: nat, innerCount: nat): seq<GridVertex>
  {
    if outers == 0 then [] else GridPrefix(outers - 1, innerCount) + GridRow(outers - 1, innerCount)
  }

  /** All vertices of a grid with counters `0..outerCount` and `0..innerCount`. */
  function GridVertices(outerCount: nat, innerCount: nat): seq<GridVertex>
  {
    GridPrefix(outerCount + 1, innerCount)
  }

  /** The flat position of the vertex with counters `(a, b)`. */
  function GridSlot(a: int, b: int, innerCount: nat): int
  {
    a * (innerCount + 1) + b
  }

  /** Every outer value contributes one full row: the prefix holds `outers * (innerCount + 1)`
      vertices, and vertex `(a, b)` sits at `a * (innerCount + 1) + b`. */
  lemma {:induction false} GridPrefixLayout(outers: nat, innerCount: nat)
    ensures |GridPrefix(outers, innerCount)| == outers * (innerCount + 1)
    ensures forall a, b :: 0 <= a < outers && 0 <= b <= innerCount ==>
              0 <= GridSlot(a, b, innerCount) < |GridPrefix(outers, innerCount)| &&
              GridPrefix(outers, innerCount)[GridSlot(a, b, innerCount)] == GridVertex(a, b)
  {
    if outers > 0 {
      var n := innerCount;
      GridPrefixLayout(outers - 1, n);
      MulSucc(outers - 1, n + 1);
      var prefix := GridPrefix(outers - 1, n);
      forall a, b | 0 <= a < outers && 0 <= b <= n
        ensures 0 <= GridSlot(a, b, n) < |GridPrefix(outers, n)|
        ensures GridPrefix(outers, n)[GridSlot(a, b, n)] == GridVertex(a, b)
      {
        MulNonNeg(a, n + 1);
        if a < outers - 1 {
          assert GridPrefix(outers, n)[GridSlot(a, b, n)] == prefix[GridSlot(a, b, n)];
        } else {
          assert GridSlot(a, b, n) == |prefix| + b;
        }
      }
    }
  }

  /** Vertex `(a, b)` of the whole grid is stored at `a * (innerCount + 1) + b`, and the grid
      holds `(outerCount + 1) * (innerCount + 1)` vertices. */
  lemma GridVertexAt(outerCount: nat, innerCount: nat, a: int, b: int)
    requires 0 <= a <= outerCount && 0 <= b <= innerCount
    ensures |GridVertices(outerCount, innerCount)| == (outerCount + 1) * (innerCount + 1)
    ensures 0 <= GridSlot(a, b, innerCount) < |GridVertices(outerCount, innerCount)|
    ensures GridVertices(outerCount, innerCount)[GridSlot(a, b, innerCount)] == GridVertex(a, b)
  {
    GridPrefixLayout(outerCount + 1, innerCount);
  }

  /** The nested vertex loops: for each outer counter `0..outerCount`, for each inner counter
      `0..innerCount`, write the vertex at the next position. */
  method FillGrid(pos: array<GridVertex>, outerCount: nat, innerCount: nat)
    requires pos.Length == (outerCount + 1) * (innerCount + 1)
    modifies pos
    ensures pos[..] == GridVertices(outerCount, innerCount)
  {
    var n := innerCount;
    var current := 0;
    var a := 0;
    while a <= outerCount
      invariant 0 <= a <= outerCount + 1
      invariant current == a * (n + 1) && pos[..current] == GridPrefix(a, n)
    {
      MulSucc(a, n + 1);
      MulLe(a + 1, outerCount + 1, n + 1);
      var b := 0;
      while b <= n
        invariant 0 <= b <= n + 1
        invariant current == a * (n + 1) + b && a * (n + 1) + n + 1 <= pos.Length
        invariant pos[..current] == GridPrefix(a, n) + GridRow(a, n)[..b]
      {
        pos[current] := GridVertex(a, b);
        current := current + 1;
        b := b + 1;
      }
      assert GridRow(a, n)[..b] == GridRow(a, n);
      a := a + 1;
    }
    assert pos[..] == pos[..current];
  }

  /** Writes `values` into `index` from position `at` on and returns the position after
      them; the rest of the buffer is left alone. */
  method WriteIndices(index: array<int>, at: int, values: seq<int>) returns (next: int)
    requires 0 <= at && at + |values| <= index.Length
    modifies index
    ensures next == at + |values|
    ensures index[..next] == old(index[..at]) + values
    ensures index[next..] == old(index[next..])
  {
    forall i | 0 <= i < |values| {
      index[at + i] := values[i];
    }
    next := at + |values|;
    assert index[..next] == old(index[..at]) + values;
  }

  /** Every entry of `s` lies in `[lo, hi)`. */
  predicate AllIn(s: seq<int>, lo: int, hi: int)
  {
    forall i :: 0 <= i < |s| ==> lo <= s[i] < hi
  }

  /** Bounds on both halves widen to bounds on their concatenation. */
  lemma AllInAppend(s: seq<int>, t: seq<int>, lo: int, hi: int)
    requires AllIn(s, lo, hi) && AllIn(t, lo, hi)
    ensures AllIn(s + t, lo, hi)
  {
    forall i | 0 <= i < |s + t| ensures lo <= (s + t)[i] < hi {
      if i < |s| {
        assert (s + t)[i] == s[i];
      } else {
        assert (s + t)[i] == t[i - |s|];
      }
    }
  }

  /** A slice inside the left part of a concatenation. */
  lemma SliceLeft<T>(s: seq<T>, t: seq<T>, i: int, n: int)
    requires 0 <= i && 0 <= n && i + n <= |s|
    ensures (s + t)[i..i + n] == s[i..i + n]
  {
    assert (s + t)[i..i + n] == s[i..i + n];
  }

  /** A slice inside the right part of a concatenation. */
  lemma SliceRight<T>(s: seq<T>, t: seq<T>, i: int, n: int)
    requires 0 <= i && 0 <= n && i + n <= |t|
    ensures (s + t)[|s| + i..|s| + i + n] == t[i..i + n]
  {
    assert (s + t)[|s| + i..|s| + i + n] == t[i..i + n];
  }

  /** Bounds widen. */
  lemma AllInWiden(s: seq<int>, lo: int, hi: int, lo': int, hi': int)
    requires AllIn(s, lo, hi) && lo' <= lo && hi <= hi'
    ensures AllIn(s, lo', hi')
  {
  }
}
