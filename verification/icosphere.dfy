/** `MakeIcosphere` of src/icosphere.cpp: a 22-vertex, 20-triangle icosahedron net whose
    triangles are split into four, `resolution` times, with one new vertex per edge that is
    shared by the triangles on both sides of the edge.  A vertex is named by where it comes
    from (a base vertex of the net or the midpoint of two earlier vertices); the
    floating-point positions, UVs and the final normalisation are not modelled. */
module Icosphere {
  import opened Arith
  import opened MeshGrid

  const IcoVertexCount: int := 22
  const IcoIndexCount: int := 60

  /** `IcoIndex`: the five top, ten middle and five bottom triangles of the net. */
  const IcoTop: seq<int> := [2, 6, 4,  6, 10, 8,  10, 14, 12,  14, 18, 16,  18, 21, 20]
  const IcoMiddle: seq<int> := [
     0,  3,  2,   2,  3,  6,   3,  7,  6,   6,  7, 10,   7, 11, 10,
    10, 11, 14,  11, 15, 14,  14, 15, 18,  15, 19, 18,  18, 19, 21]
  const IcoBottom: seq<int> := [0, 1, 3,  3, 5, 7,  7, 9, 11,  11, 13, 15,  15, 17, 19]
  const IcoIndex: seq<int> := IcoTop + IcoMiddle + IcoBottom

  /** A slot of the vertex buffers: never written, base vertex `corner` of the net, or the
      average of vertices `first` and `second`. */
  datatype IcoVertex = Unset | Base(corner: int) | Midpoint(first: int, second: int)

  datatype Triangle = Triangle(a: int, b: int, c: int)

  /** An edge as the pair of its end vertices, smaller first. */
  type Edge = (int, int)

  /** `triangleFromEdge` of one round, with the vertices it has created so far in order. */
  datatype EdgeTable = EdgeTable(edges: map<Edge, int>, made: seq<IcoVertex>)

  datatype IcosphereMesh = IcosphereMesh(pos: seq<IcoVertex>, index: seq<int>)

  /** The copied base vertices `IcoVerts` / `IcoUvs`. */
  function BaseVertices(): (vs: seq<IcoVertex>)
    ensures |vs| == IcoVertexCount && forall i :: 0 <= i < |vs| ==> vs[i] == Base(i)
  {
    seq(IcoVertexCount, i => Base(i))
  }

  /** `rn = pow(4, resolution)`. */
  function Pow4(r: nat): (p: nat)
    ensures 1 <= p
  {
    if r == 0 then 1 else 4 * Pow4(r - 1)
  }

  /** `totalIndexCount`. */
  function TotalIndexCount(resolution: nat): int
  {
    IcoIndexCount * Pow4(resolution)
  }

  /** `totalVertexCount`, with the source's division (exact here, so C's truncation and
      Dafny's Euclidean division agree). */
  function TotalVertexCount(resolution: nat): (total: int)
    ensures IcoVertexCount <= total
  {
    IcoVertexCount + IcoIndexCount * (1 - Pow4(resolution)) / (1 - 4)
  }

  /** The vertex count is the geometric series: the base vertices plus one vertex for every
      index entry of every earlier round. */
  lemma VertexSeries(r: nat)
    ensures TotalVertexCount(r) == IcoVertexCount + 20 * (Pow4(r) - 1)
    ensures TotalVertexCount(r + 1) == TotalVertexCount(r) + TotalIndexCount(r)
  {
    assert IcoIndexCount * (1 - Pow4(r)) == (1 - 4) * (20 * (Pow4(r) - 1));
    assert IcoIndexCount * (1 - Pow4(r + 1)) == (1 - 4) * (20 * (Pow4(r + 1) - 1));
  }

  /** The counts grow with the resolution. */
  lemma {:induction false} TotalsMono(r: nat, s: nat)
    requires r <= s
    ensures TotalVertexCount(r) <= TotalVertexCount(s) && TotalIndexCount(r) <= TotalIndexCount(s)
    decreases s
  {
    if r < s {
      TotalsMono(r, s - 1);
      VertexSeries(s - 1);
    }
  }

  /** The hash key `first | second << 32` of two vertex numbers below 2^32. */
  function EdgeHash(first: nat, second: nat): nat
    requires first < 0x1_0000_0000 && second < 0x1_0000_0000
  {
    first + second * 0x1_0000_0000
  }

  /** Distinct edges have distinct hash keys, so the map may be keyed by the edge itself. */
  lemma EdgeHashInjective(f1: nat, s1: nat, f2: nat, s2: nat)
    requires f1 < 0x1_0000_0000 && s1 < 0x1_0000_0000 && f2 < 0x1_0000_0000 && s2 < 0x1_0000_0000
    requires EdgeHash(f1, s1) == EdgeHash(f2, s2)
    ensures f1 == f2 && s1 == s2
  {
  }

  /** Corner `e` of a triangle. */
  function Corner(tri: Triangle, e: int): int
  {
    if e == 0 then tri.a else if e == 1 then tri.b else tri.c
  }

  /** The swap `if (first > second)`: the same two vertices, smaller first. */
  function Key(first: int, second: int): (k: Edge)
    ensures k.0 <= k.1 && ((k.0 == first && k.1 == second) || (k.0 == second && k.1 == first))
  {
    if first > second then (second, first) else (first, second)
  }

  /** Edge `e` of a triangle runs from corner `e` to the next corner. */
  function EdgeOf(tri: Triangle, e: int): Edge
  {
    Key(Corner(tri, e), Corner(tri, (e + 1) % 3))
  }

  /** The second corner of edge `e` is read at `t + (t + e + 1) % 3`; since the triangle
      starts at a multiple of three this is the next corner, `(e + 1) % 3`. */
  lemma NextCornerOffset(t: int, e: int)
    requires 0 <= t && t % 3 == 0 && 0 <= e < 3
    ensures (t + e + 1) % 3 == (e + 1) % 3
  {
  }

  function TriEdges(tri: Triangle): set<Edge>
  {
    {EdgeOf(tri, 0), EdgeOf(tri, 1), EdgeOf(tri, 2)}
  }

  /** The edges of the triangles. */
  function EdgeSet(tris: seq<Triangle>): set<Edge>
  {
    if tris == [] then {} else EdgeSet(tris[..|tris| - 1]) + TriEdges(tris[|tris| - 1])
  }

  /** The triangles of an index buffer, three entries each. */
  function Triangles(s: seq<int>): (tris: seq<Triangle>)
    ensures 3 * |tris| <= |s| < 3 * |tris| + 3
  {
    if |s| < 3 then [] else [Triangle(s[0], s[1], s[2])] + Triangles(s[3..])
  }

  /** The index entries of the triangles. */
  function Flat(tris: seq<Triangle>): (s: seq<int>)
    ensures |s| == 3 * |tris|
  {
    if tris == [] then [] else [tris[0].a, tris[0].b, tris[0].c] + Flat(tris[1..])
  }

  lemma {:induction false} FlatTriangles(s: seq<int>)
    requires |s| % 3 == 0
    ensures Flat(Triangles(s)) == s
    decreases |s|
  {
    if |s| >= 3 {
      FlatTriangles(s[3..]);
      assert Triangles(s)[1..] == Triangles(s[3..]);
    }
  }

  /** `insert({hash, currentVertexCount})`: an edge already in the map keeps its vertex;
      a new edge gets the next vertex, the midpoint of its ends. */
  function AddEdge(tb: EdgeTable, k: Edge, roundStart: int): EdgeTable
  {
    if k in tb.edges then tb
    else EdgeTable(tb.edges[k := roundStart + |tb.made|], tb.made + [Midpoint(k.0, k.1)])
  }

  /** The first `e` edges of a triangle, in order. */
  function AddEdges(tb: EdgeTable, tri: Triangle, e: nat, roundStart: int): EdgeTable
  {
    if e == 0 then tb else AddEdge(AddEdges(tb, tri, e - 1, roundStart), EdgeOf(tri, e - 1), roundStart)
  }

  /** The table after the round has visited the triangles. */
  function BuildTable(tris: seq<Triangle>, roundStart: int): EdgeTable
  {
    if tris == [] then EdgeTable(map[], [])
    else AddEdges(BuildTable(tris[..|tris| - 1], roundStart), tris[|tris| - 1], 3, roundStart)
  }

  /** `triangle->second` for an edge the round has visited. */
  function Lookup(edges: map<Edge, int>, k: Edge): int
  {
    if k in edges then edges[k] else -1
  }

  /** The midpoint triangle `(m0, m1, m2)` that replaces `tri`. */
  function Inner(tri: Triangle, edges: map<Edge, int>): seq<int>
  {
    [Lookup(edges, EdgeOf(tri, 0)), Lookup(edges, EdgeOf(tri, 1)), Lookup(edges, EdgeOf(tri, 2))]
  }

  /** The three corner triangles `(a, m0, m2)`, `(b, m1, m0)`, `(c, m2, m1)` appended for `tri`. */
  function Outer(tri: Triangle, edges: map<Edge, int>): seq<int>
  {
    var m0, m1, m2 := Lookup(edges, EdgeOf(tri, 0)), Lookup(edges, EdgeOf(tri, 1)), Lookup(edges, EdgeOf(tri, 2));
    [tri.a, m0, m2, tri.b, m1, m0, tri.c, m2, m1]
  }

  function InnerAll(tris: seq<Triangle>, edges: map<Edge, int>): (s: seq<int>)
    ensures |s| == 3 * |tris|
  {
    if tris == [] then [] else InnerAll(tris[..|tris| - 1], edges) + Inner(tris[|tris| - 1], edges)
  }

  function OuterAll(tris: seq<Triangle>, edges: map<Edge, int>): (s: seq<int>)
    ensures |s| == 9 * |tris|
  {
    if tris == [] then [] else OuterAll(tris[..|tris| - 1], edges) + Outer(tris[|tris| - 1], edges)
  }

  /** One round on the triangles: the midpoint triangles in place, then the corner
      triangles after them. */
  function Subdivide(tris: seq<Triangle>, roundStart: int): (s: seq<int>)
    ensures |s| == 12 * |tris|
  {
    var edges := BuildTable(tris, roundStart).edges;
    InnerAll(tris, edges) + OuterAll(tris, edges)
  }

  /** One round on a mesh: its triangles subdivided, the created vertices appended. */
  function NextRound(prev: IcosphereMesh): (next: IcosphereMesh)
    ensures |next.index| == 12 * |Triangles(prev.index)|
  {
    var tris := Triangles(prev.index);
    IcosphereMesh(prev.pos + BuildTable(tris, |prev.pos|).made, Subdivide(tris, |prev.pos|))
  }

  /** The vertices and indices after `r` rounds, without the unwritten tail. */
  function Rounds(r: nat): (m: IcosphereMesh)
    ensures |m.index| == TotalIndexCount(r)
  {
    if r == 0 then IcosphereMesh(BaseVertices(), IcoIndex)
    else
      var prev := Rounds(r - 1);
      assert |Triangles(prev.index)| == 20 * Pow4(r - 1);
      NextRound(prev)
  }

  /** The buffers `MakeIcosphere` returns: `totalVertexCount` vertex slots, of which the
      ones never written keep their default, and the index buffer of the last round. */
  function IcoMesh(resolution: nat): IcosphereMesh
  {
    var m := Rounds(resolution);
    IcosphereMesh(seq(TotalVertexCount(resolution), v => if 0 <= v < |m.pos| then m.pos[v] else Unset), m.index)
  }

  // Properties of the edge table

  /** `edges` only gains entries on the way to `edges'`. */
  predicate Extends(edges: map<Edge, int>, edges': map<Edge, int>)
  {
    forall k :: k in edges ==> k in edges' && edges'[k] == edges[k]
  }

  /** The map and the created vertices agree: the map sends different edges to different
      created vertices, and created vertex `roundStart + i` is the midpoint of the edge the
      map sends to it. */
  ghost predicate TableOK(tb: EdgeTable, roundStart: int)
  {
    (forall k :: k in tb.edges ==> roundStart <= tb.edges[k] < roundStart + |tb.made|) &&
    (forall k1, k2 :: k1 in tb.edges && k2 in tb.edges && tb.edges[k1] == tb.edges[k2] ==> k1 == k2) &&
    (forall i :: 0 <= i < |tb.made| ==>
       tb.made[i].Midpoint? && (tb.made[i].first, tb.made[i].second) in tb.edges &&
       tb.edges[(tb.made[i].first, tb.made[i].second)] == roundStart + i)
  }

  /** In a consistent table, the vertex of an edge is the midpoint of that edge. */
  lemma TableMidpoint(tb: EdgeTable, roundStart: int, k: Edge)
    requires TableOK(tb, roundStart) && k in tb.edges
    ensures roundStart <= tb.edges[k] < roundStart + |tb.made|
    ensures tb.made[tb.edges[k] - roundStart] == Midpoint(k.0, k.1)
  {
    var i := tb.edges[k] - roundStart;
    assert tb.edges[(tb.made[i].first, tb.made[i].second)] == tb.edges[k];
  }

  /** Adding an edge keeps the earlier entries and at most one vertex is created. */
  lemma AddEdgeGrows(tb: EdgeTable, k: Edge, roundStart: int)
    ensures var tb' := AddEdge(tb, k, roundStart);
            Extends(tb.edges, tb'.edges) && tb'.edges.Keys == tb.edges.Keys + {k} &&
            |tb'.made| <= |tb.made| + 1
  {
  }

  /** Adding an edge keeps the table consistent. */
  lemma AddEdgeKeeps(tb: EdgeTable, k: Edge, roundStart: int)
    requires TableOK(tb, roundStart)
    ensures TableOK(AddEdge(tb, k, roundStart), roundStart)
  {
    if k !in tb.edges {
      var tb' := AddEdge(tb, k, roundStart);
      var n := roundStart + |tb.made|;
      assert tb'.edges == tb.edges[k := n] && tb'.made == tb.made + [Midpoint(k.0, k.1)];
      forall k1, k2 | k1 in tb'.edges && k2 in tb'.edges && tb'.edges[k1] == tb'.edges[k2]
        ensures k1 == k2
      {
        if k1 != k && k2 != k {
          assert tb.edges[k1] == tb.edges[k2];
        }
      }
      forall i | 0 <= i < |tb'.made|
        ensures tb'.made[i].Midpoint? && (tb'.made[i].first, tb'.made[i].second) in tb'.edges &&
                tb'.edges[(tb'.made[i].first, tb'.made[i].second)] == roundStart + i
      {
        if i < |tb.made| {
          assert tb'.made[i] == tb.made[i];
          assert (tb.made[i].first, tb.made[i].second) != k;
        } else {
          assert tb'.made[i] == Midpoint(k.0, k.1);
        }
      }
    }
  }

  /** The first `e` edges of a triangle. */
  function PartialEdges(tri: Triangle, e: nat): set<Edge>
  {
    if e == 0 then {} else PartialEdges(tri, e - 1) + {EdgeOf(tri, e - 1)}
  }

  lemma AllTriEdges(tri: Triangle)
    ensures PartialEdges(tri, 3) == TriEdges(tri)
  {
    assert PartialEdges(tri, 1) == {EdgeOf(tri, 0)};
    assert PartialEdges(tri, 2) == {EdgeOf(tri, 0), EdgeOf(tri, 1)};
  }

  lemma {:induction false} AddEdgesGrows(tb: EdgeTable, tri: Triangle, e: nat, roundStart: int)
    ensures var tb' := AddEdges(tb, tri, e, roundStart);
            Extends(tb.edges, tb'.edges) &&
            tb'.edges.Keys == tb.edges.Keys + PartialEdges(tri, e) && |tb'.made| <= |tb.made| + e
  {
    if e > 0 {
      AddEdgesGrows(tb, tri, e - 1, roundStart);
      AddEdgeGrows(AddEdges(tb, tri, e - 1, roundStart), EdgeOf(tri, e - 1), roundStart);
    }
  }

  lemma {:induction false} AddEdgesKeeps(tb: EdgeTable, tri: Triangle, e: nat, roundStart: int)
    requires TableOK(tb, roundStart)
    ensures TableOK(AddEdges(tb, tri, e, roundStart), roundStart)
  {
    if e > 0 {
      AddEdgesKeeps(tb, tri, e - 1, roundStart);
      AddEdgeKeeps(AddEdges(tb, tri, e - 1, roundStart), EdgeOf(tri, e - 1), roundStart);
    }
  }

  /** The map holds exactly the edges of the triangles and at most three vertices were
      created per triangle. */
  lemma {:induction false} BuildTableGrows(tris: seq<Triangle>, roundStart: int)
    ensures var tb := BuildTable(tris, roundStart);
            tb.edges.Keys == EdgeSet(tris) && |tb.made| <= 3 * |tris|
  {
    if tris != [] {
      var prefix, last := tris[..|tris| - 1], tris[|tris| - 1];
      BuildTableGrows(prefix, roundStart);
      AddEdgesGrows(BuildTable(prefix, roundStart), last, 3, roundStart);
      AllTriEdges(last);
    }
  }

  /** After a round the map holds exactly the edges of the triangles, each with its own
      midpoint vertex, and at most three vertices were created per triangle. */
  lemma {:induction false} BuildTableKeeps(tris: seq<Triangle>, roundStart: int)
    ensures var tb := BuildTable(tris, roundStart);
            TableOK(tb, roundStart) && tb.edges.Keys == EdgeSet(tris) && |tb.made| <= 3 * |tris|
  {
    BuildTableGrows(tris, roundStart);
    if tris != [] {
      var prefix, last := tris[..|tris| - 1], tris[|tris| - 1];
      BuildTableKeeps(prefix, roundStart);
      AddEdgesKeeps(BuildTable(prefix, roundStart), last, 3, roundStart);
    }
  }

  /** The table of a prefix of the triangles is part of the final table. */
  lemma {:induction false} BuildTablePrefix(tris: seq<Triangle>, j: nat, roundStart: int)
    requires j <= |tris|
    ensures Extends(BuildTable(tris[..j], roundStart).edges, BuildTable(tris, roundStart).edges)
    decreases |tris|
  {
    if j < |tris| {
      var prefix := tris[..|tris| - 1];
      BuildTablePrefix(prefix, j, roundStart);
      assert prefix[..j] == tris[..j];
      AddEdgesGrows(BuildTable(prefix, roundStart), tris[|tris| - 1], 3, roundStart);
    } else {
      assert tris[..j] == tris;
    }
  }

  /** Two different edges never share a midpoint vertex. */
  lemma TableInjective(tb: EdgeTable, roundStart: int, k1: Edge, k2: Edge)
    requires TableOK(tb, roundStart) && k1 in tb.edges && k2 in tb.edges
    ensures tb.edges[k1] == tb.edges[k2] <==> k1 == k2
  {
  }

  // Layout of a round's output

  /** Once the edges of the triangles are in the map, more entries change nothing. */
  lemma {:induction false} SplitStable(tris: seq<Triangle>, edges: map<Edge, int>, edges': map<Edge, int>)
    requires EdgeSet(tris) <= edges.Keys && Extends(edges, edges')
    ensures InnerAll(tris, edges) == InnerAll(tris, edges') && OuterAll(tris, edges) == OuterAll(tris, edges')
  {
    if tris != [] {
      SplitStable(tris[..|tris| - 1], edges, edges');
    }
  }

  lemma {:induction false} InnerAllAt(tris: seq<Triangle>, edges: map<Edge, int>, j: int)
    requires 0 <= j < |tris|
    ensures InnerAll(tris, edges)[3 * j..3 * j + 3] == Inner(tris[j], edges)
  {
    var prefix := tris[..|tris| - 1];
    if j < |tris| - 1 {
      InnerAllAt(prefix, edges, j);
      SliceLeft(InnerAll(prefix, edges), Inner(tris[|tris| - 1], edges), 3 * j, 3);
    } else {
      SliceRight(InnerAll(prefix, edges), Inner(tris[|tris| - 1], edges), 0, 3);
    }
  }

  lemma {:induction false} OuterAllAt(tris: seq<Triangle>, edges: map<Edge, int>, j: int)
    requires 0 <= j < |tris|
    ensures OuterAll(tris, edges)[9 * j..9 * j + 9] == Outer(tris[j], edges)
  {
    var prefix := tris[..|tris| - 1];
    if j < |tris| - 1 {
      OuterAllAt(prefix, edges, j);
      SliceLeft(OuterAll(prefix, edges), Outer(tris[|tris| - 1], edges), 9 * j, 9);
    } else {
      SliceRight(OuterAll(prefix, edges), Outer(tris[|tris| - 1], edges), 0, 9);
    }
  }

  /** Triangle `(a, b, c)` at `j` becomes the midpoint triangle `(m0, m1, m2)` at the same
      place, and the corner triangles `(a, m0, m2)`, `(b, m1, m0)`, `(c, m2, m1)` at
      `indexCount + 9 * j`, where `m_e` is the vertex of edge `e`. */
  lemma SubdivideAt(tris: seq<Triangle>, roundStart: int, j: int)
    requires 0 <= j < |tris|
    ensures var edges := BuildTable(tris, roundStart).edges;
            var s := Subdivide(tris, roundStart);
            |s| == 12 * |tris| &&
            s[3 * j..3 * j + 3] == Inner(tris[j], edges) &&
            s[3 * |tris| + 9 * j..3 * |tris| + 9 * j + 9] == Outer(tris[j], edges)
  {
    var edges := BuildTable(tris, roundStart).edges;
    InnerOuterAt(tris, edges, j);
    assert Subdivide(tris, roundStart) == InnerAll(tris, edges) + OuterAll(tris, edges);
  }

  /** The same placement for any edge map. */
  lemma InnerOuterAt(tris: seq<Triangle>, edges: map<Edge, int>, j: int)
    requires 0 <= j < |tris|
    ensures var s := InnerAll(tris, edges) + OuterAll(tris, edges);
            s[3 * j..3 * j + 3] == Inner(tris[j], edges) &&
            s[3 * |tris| + 9 * j..3 * |tris| + 9 * j + 9] == Outer(tris[j], edges)
  {
    InnerAllAt(tris, edges, j);
    OuterAllAt(tris, edges, j);
    PlacedSlices(InnerAll(tris, edges), OuterAll(tris, edges), |tris|, j,
                 Inner(tris[j], edges), Outer(tris[j], edges));
  }

  /** Slices of three and nine entries at `j` in two buffers of `3 * n` and `9 * n` entries
      are found at `3 * j` and `3 * n + 9 * j` of their concatenation. */
  lemma PlacedSlices(s: seq<int>, t: seq<int>, n: int, j: int, x: seq<int>, y: seq<int>)
    requires 0 <= j < n && |s| == 3 * n && |t| == 9 * n
    requires s[3 * j..3 * j + 3] == x && t[9 * j..9 * j + 9] == y
    ensures (s + t)[3 * j..3 * j + 3] == x
    ensures (s + t)[3 * n + 9 * j..3 * n + 9 * j + 9] == y
  {
    SliceLeft(s, t, 3 * j, 3);
    SliceRight(s, t, 9 * j, 9);
  }

  /** Entry `e` of the midpoint triangle at `j` is the map's vertex for edge `e`. */
  lemma SubdivideEntry(tris: seq<Triangle>, roundStart: int, j: int, e: int)
    requires 0 <= j < |tris| && 0 <= e < 3
    ensures Subdivide(tris, roundStart)[3 * j + e] == Lookup(BuildTable(tris, roundStart).edges, EdgeOf(tris[j], e))
  {
    var s := Subdivide(tris, roundStart);
    SubdivideAt(tris, roundStart, j);
    assert s[3 * j + e] == s[3 * j..3 * j + 3][e];
  }

  /** The new vertex written for edge `e` of triangle `j` is a vertex created in the round,
      and it is the midpoint of that edge. */
  lemma MidpointOfEdge(tris: seq<Triangle>, roundStart: int, j: int, e: int)
    requires 0 <= j < |tris| && 0 <= e < 3
    ensures var tb := BuildTable(tris, roundStart);
            var m := Subdivide(tris, roundStart)[3 * j + e];
            EdgeOf(tris[j], e) in tb.edges && m == tb.edges[EdgeOf(tris[j], e)] &&
            roundStart <= m < roundStart + |tb.made| &&
            tb.made[m - roundStart] == Midpoint(EdgeOf(tris[j], e).0, EdgeOf(tris[j], e).1)
  {
    var tb := BuildTable(tris, roundStart);
    var k := EdgeOf(tris[j], e);
    SubdivideEntry(tris, roundStart, j, e);
    BuildTableKeeps(tris, roundStart);
    EdgeInSet(tris, j, e);
    TableMidpoint(tb, roundStart, k);
  }

  lemma {:induction false} EdgeInSet(tris: seq<Triangle>, j: int, e: int)
    requires 0 <= j < |tris| && 0 <= e < 3
    ensures EdgeOf(tris[j], e) in EdgeSet(tris)
  {
    if j < |tris| - 1 {
      EdgeInSet(tris[..|tris| - 1], j, e);
    }
  }

  /** Two triangles get the same midpoint vertex for two of their edges exactly when the
      edges join the same two vertices: each edge has one midpoint, shared on both sides. */
  lemma SharedMidpoint(tris: seq<Triangle>, roundStart: int, j1: int, e1: int, j2: int, e2: int)
    requires 0 <= j1 < |tris| && 0 <= e1 < 3 && 0 <= j2 < |tris| && 0 <= e2 < 3
    ensures Subdivide(tris, roundStart)[3 * j1 + e1] == Subdivide(tris, roundStart)[3 * j2 + e2]
            <==> EdgeOf(tris[j1], e1) == EdgeOf(tris[j2], e2)
  {
    MidpointOfEdge(tris, roundStart, j1, e1);
    MidpointOfEdge(tris, roundStart, j2, e2);
  }

  /** Every corner of the triangles lies in `[lo, hi)`. */
  predicate CornersIn(tris: seq<Triangle>, lo: int, hi: int)
  {
    forall j :: 0 <= j < |tris| ==>
      lo <= tris[j].a < hi && lo <= tris[j].b < hi && lo <= tris[j].c < hi
  }

  lemma {:induction false} FlatCorners(tris: seq<Triangle>, lo: int, hi: int)
    requires AllIn(Flat(tris), lo, hi)
    ensures CornersIn(tris, lo, hi)
  {
    if tris != [] {
      var head := [tris[0].a, tris[0].b, tris[0].c];
      assert Flat(tris) == head + Flat(tris[1..]);
      assert Flat(tris)[0] == tris[0].a && Flat(tris)[1] == tris[0].b && Flat(tris)[2] == tris[0].c;
      forall i | 0 <= i < |Flat(tris[1..])| ensures lo <= Flat(tris[1..])[i] < hi {
        assert Flat(tris[1..])[i] == Flat(tris)[i + 3];
      }
      FlatCorners(tris[1..], lo, hi);
      forall j | 1 <= j < |tris| ensures lo <= tris[j].a < hi && lo <= tris[j].b < hi && lo <= tris[j].c < hi {
        assert tris[j] == tris[1..][j - 1];
      }
    }
  }

  /** The edges of triangles with corners in `[lo, hi)` join vertices in `[lo, hi)`. */
  lemma {:induction false} EdgeSetBounds(tris: seq<Triangle>, lo: int, hi: int)
    requires CornersIn(tris, lo, hi)
    ensures forall k :: k in EdgeSet(tris) ==> lo <= k.0 <= k.1 < hi
  {
    if tris != [] {
      EdgeSetBounds(tris[..|tris| - 1], lo, hi);
    }
  }

  /** The corner and midpoint entries lie in `[lo, hi)` when the corners and the map do. */
  lemma {:induction false} SplitBounds(tris: seq<Triangle>, edges: map<Edge, int>, lo: int, hi: int)
    requires CornersIn(tris, lo, hi) && EdgeSet(tris) <= edges.Keys
    requires forall k :: k in edges ==> lo <= edges[k] < hi
    ensures AllIn(InnerAll(tris, edges), lo, hi) && AllIn(OuterAll(tris, edges), lo, hi)
  {
    if tris != [] {
      var prefix, last := tris[..|tris| - 1], tris[|tris| - 1];
      SplitBounds(prefix, edges, lo, hi);
      var inner, outer := Inner(last, edges), Outer(last, edges);
      assert AllIn(inner, lo, hi) by {
        forall i | 0 <= i < 3 ensures lo <= inner[i] < hi {
          if i == 0 {} else if i == 1 {} else {}
        }
      }
      assert AllIn(outer, lo, hi) by {
        forall i | 0 <= i < 9 ensures lo <= outer[i] < hi {
          if i == 0 {} else if i == 1 {} else if i == 2 {} else if i == 3 {}
          else if i == 4 {} else if i == 5 {} else if i == 6 {} else if i == 7 {} else {}
        }
      }
      AllInAppend(InnerAll(prefix, edges), inner, lo, hi);
      AllInAppend(OuterAll(prefix, edges), outer, lo, hi);
    }
  }

  /** A round whose input names only the `roundStart` vertices so far produces indices below
      the new vertex count. */
  lemma SubdivideInRange(tris: seq<Triangle>, roundStart: int)
    requires 0 <= roundStart && CornersIn(tris, 0, roundStart)
    ensures AllIn(Subdivide(tris, roundStart), 0, roundStart + |BuildTable(tris, roundStart).made|)
  {
    var tb := BuildTable(tris, roundStart);
    var hi := roundStart + |tb.made|;
    BuildTableKeeps(tris, roundStart);
    assert CornersIn(tris, 0, hi);
    SplitBounds(tris, tb.edges, 0, hi);
    AllInAppend(InnerAll(tris, tb.edges), OuterAll(tris, tb.edges), 0, hi);
  }

  // The rounds together

  /** Every vertex after the base vertices is the midpoint of two earlier vertices. */
  ghost predicate MidpointsEarlier(pos: seq<IcoVertex>)
  {
    forall v :: IcoVertexCount <= v < |pos| ==>
      pos[v].Midpoint? && 0 <= pos[v].first <= pos[v].second < v
  }

  /** What holds after `r` rounds: between 22 and `totalVertexCount` written vertices, the
      base vertices first and midpoints of earlier vertices after them, and every index
      naming a written vertex. */
  ghost predicate Shaped(m: IcosphereMesh, r: nat)
  {
    IcoVertexCount <= |m.pos| <= TotalVertexCount(r) &&
    AllIn(m.index, 0, |m.pos|) &&
    m.pos[..IcoVertexCount] == BaseVertices() &&
    MidpointsEarlier(m.pos)
  }

  lemma {:induction false} RoundsFacts(r: nat)
    ensures Shaped(Rounds(r), r)
  {
    if r == 0 {
      BaseIndexInRange();
    } else {
      RoundsFacts(r - 1);
      var prev := Rounds(r - 1);
      assert Rounds(r) == NextRound(prev);
      NextRoundCounts(prev, r - 1);
      NextRoundVertices(prev);
    }
  }

  /** `IcoIndex` names base vertices only. */
  lemma BaseIndexInRange()
    ensures |IcoIndex| == IcoIndexCount && AllIn(IcoIndex, 0, IcoVertexCount)
  {
    forall i | 0 <= i < |IcoTop| ensures 0 <= IcoTop[i] < IcoVertexCount {
    }
    forall i | 0 <= i < |IcoMiddle| ensures 0 <= IcoMiddle[i] < IcoVertexCount {
    }
    forall i | 0 <= i < |IcoBottom| ensures 0 <= IcoBottom[i] < IcoVertexCount {
    }
    AllInAppend(IcoTop, IcoMiddle, 0, IcoVertexCount);
    AllInAppend(IcoTop + IcoMiddle, IcoBottom, 0, IcoVertexCount);
  }

  /** A round keeps the counts and the index range: the new vertices fit in the geometric
      series and every index names a written vertex. */
  lemma NextRoundCounts(prev: IcosphereMesh, r: nat)
    requires |prev.index| == TotalIndexCount(r) && Shaped(prev, r)
    ensures var next := NextRound(prev);
            IcoVertexCount <= |next.pos| <= TotalVertexCount(r + 1) && AllIn(next.index, 0, |next.pos|)
  {
    var rs := |prev.pos|;
    var tris := Triangles(prev.index);
    FlatTriangles(prev.index);
    FlatCorners(tris, 0, rs);
    SubdivideInRange(tris, rs);
    BuildTableKeeps(tris, rs);
    VertexSeries(r);
  }

  /** A round keeps the base vertices and appends midpoints of vertices written before it. */
  lemma NextRoundVertices(prev: IcosphereMesh)
    requires IcoVertexCount <= |prev.pos| && |prev.index| % 3 == 0
    requires AllIn(prev.index, 0, |prev.pos|) && MidpointsEarlier(prev.pos)
    requires prev.pos[..IcoVertexCount] == BaseVertices()
    ensures var next := NextRound(prev);
            next.pos[..IcoVertexCount] == BaseVertices() && MidpointsEarlier(next.pos)
  {
    var rs := |prev.pos|;
    var tris := Triangles(prev.index);
    var tb := BuildTable(tris, rs);
    var pos := prev.pos + tb.made;
    assert NextRound(prev).pos == pos;
    FlatTriangles(prev.index);
    FlatCorners(tris, 0, rs);
    BuildTableKeeps(tris, rs);
    EdgeSetBounds(tris, 0, rs);
    assert pos[..IcoVertexCount] == prev.pos[..IcoVertexCount];
    forall v | IcoVertexCount <= v < |pos|
      ensures pos[v].Midpoint? && 0 <= pos[v].first <= pos[v].second < v
    {
      if v >= rs {
        var p := tb.made[v - rs];
        assert pos[v] == p;
        assert (p.first, p.second) in EdgeSet(tris);
      }
    }
  }

  /** The returned buffers: `totalIndexCount` indices and `totalVertexCount` vertex slots;
      every index names a written slot; the written slots come first, base vertices then
      midpoints of earlier vertices; the unwritten slots keep their default. */
  lemma IcoMeshFacts(resolution: nat)
    ensures var mesh := IcoMesh(resolution);
            |mesh.index| == TotalIndexCount(resolution) &&
            |mesh.pos| == TotalVertexCount(resolution) &&
            (forall i :: 0 <= i < |mesh.index| ==>
               0 <= mesh.index[i] < |mesh.pos| && mesh.pos[mesh.index[i]] != Unset) &&
            (forall v, w :: 0 <= v < w < |mesh.pos| && mesh.pos[w] != Unset ==> mesh.pos[v] != Unset) &&
            (forall v :: 0 <= v < IcoVertexCount ==> mesh.pos[v] == Base(v)) &&
            (forall v :: IcoVertexCount <= v < |mesh.pos| && mesh.pos[v] != Unset ==>
               mesh.pos[v].Midpoint? && 0 <= mesh.pos[v].first <= mesh.pos[v].second < v)
  {
    var m := Rounds(resolution);
    RoundsFacts(resolution);
    var mesh := IcoMesh(resolution);
    forall v | 0 <= v < IcoVertexCount ensures mesh.pos[v] == Base(v) {
      assert m.pos[v] == m.pos[..IcoVertexCount][v];
    }
  }

  // The generator

  /** `MakeIcosphere`: buffers sized for the geometric series up front, the base net copied
      in, then `resolution` rounds. */
  method MakeIcosphere(resolution: nat) returns (sphere: IcosphereMesh)
    ensures sphere == IcoMesh(resolution)
  {
    var rn: int := Pow4(resolution);
    var totalIndexCount := IcoIndexCount * rn;
    var totalVertexCount := IcoVertexCount + IcoIndexCount * (1 - rn) / (1 - 4);
    assert totalVertexCount == TotalVertexCount(resolution);
    var index := new int[totalIndexCount](_ => 0);
    var pos := new IcoVertex[totalVertexCount](_ => Unset);
    TotalsMono(0, resolution);
    CopyBase(index, pos);
    var vertexCount := RunRounds(index, pos, resolution);
    sphere := IcosphereMesh(pos[..], index[..]);
    PaddedRounds(pos[..], vertexCount, resolution);
  }

  /** A buffer of the full vertex count that starts with the vertices of the rounds and is
      unset after them is the vertex list of `IcoMesh`. */
  lemma PaddedRounds(p: seq<IcoVertex>, count: int, resolution: nat)
    requires |p| == TotalVertexCount(resolution)
    requires count == |Rounds(resolution).pos| <= |p| && p[..count] == Rounds(resolution).pos
    requires forall v :: count <= v < |p| ==> p[v] == Unset
    ensures p == IcoMesh(resolution).pos
  {
    var m := Rounds(resolution);
    forall v | 0 <= v < |p|
      ensures p[v] == if 0 <= v < |m.pos| then m.pos[v] else Unset
    {
      if v < |m.pos| {
        assert p[v] == p[..count][v];
      }
    }
  }

  /** The two copy loops: the 22 base vertices and the 60 base indices. */
  method CopyBase(index: array<int>, pos: array<IcoVertex>)
    requires IcoIndexCount <= index.Length && IcoVertexCount <= pos.Length
    requires forall v :: 0 <= v < pos.Length ==> pos[v] == Unset
    modifies index, pos
    ensures index[..IcoIndexCount] == Rounds(0).index
    ensures pos[..IcoVertexCount] == Rounds(0).pos
    ensures forall v :: IcoVertexCount <= v < pos.Length ==> pos[v] == Unset
  {
    BaseIndexInRange();
    for i := 0 to IcoVertexCount
      modifies pos
      invariant pos[..i] == BaseVertices()[..i]
      invariant forall v :: i <= v < pos.Length ==> pos[v] == Unset
    {
      pos[i] := Base(i);
    }
    for i := 0 to IcoIndexCount
      modifies index
      invariant index[..i] == IcoIndex[..i]
    {
      index[i] := IcoIndex[i];
    }
  }

  /** The rounds loop: round `r` subdivides the mesh of round `r - 1`.  The buffers end up
      holding the mesh after `resolution` rounds, with the unused vertex slots untouched. */
  method RunRounds(index: array<int>, pos: array<IcoVertex>, resolution: nat) returns (currentVertexCount: int)
    requires index.Length == TotalIndexCount(resolution) && pos.Length == TotalVertexCount(resolution)
    requires index[..IcoIndexCount] == Rounds(0).index && pos[..IcoVertexCount] == Rounds(0).pos
    requires forall v :: IcoVertexCount <= v < pos.Length ==> pos[v] == Unset
    modifies index, pos
    ensures index[..] == Rounds(resolution).index
    ensures currentVertexCount == |Rounds(resolution).pos| <= pos.Length && pos[..currentVertexCount] == Rounds(resolution).pos
    ensures forall v :: currentVertexCount <= v < pos.Length ==> pos[v] == Unset
  {
    var currentVertexCount' := IcoVertexCount;
    var currentIndexCount := IcoIndexCount;
    for r := 0 to resolution
      invariant currentIndexCount == TotalIndexCount(r) <= index.Length && index[..currentIndexCount] == Rounds(r).index
      invariant currentVertexCount' == |Rounds(r).pos| <= pos.Length && pos[..currentVertexCount'] == Rounds(r).pos
      invariant forall v :: currentVertexCount' <= v < pos.Length ==> pos[v] == Unset
    {
      RoundRoom(r, resolution);
      RoundsStep(r);
      currentIndexCount, currentVertexCount' := SubdivideRound(index, pos, currentIndexCount, currentVertexCount');
    }
    TotalsMono(resolution, resolution);
    assert index[..] == index[..currentIndexCount];
    currentVertexCount := currentVertexCount';
  }

  /** Room for round `r + 1` in buffers sized for `resolution` rounds. */
  lemma RoundRoom(r: nat, resolution: nat)
    requires r < resolution
    ensures TotalIndexCount(r) % 3 == 0 && 4 * TotalIndexCount(r) <= TotalIndexCount(resolution)
    ensures |Rounds(r).pos| + TotalIndexCount(r) <= TotalVertexCount(resolution)
  {
    RoundsSize(r);
    SeriesRoom(r, resolution);
  }

  /** The vertex and index buffers for `resolution` rounds hold the next round after `r`. */
  lemma SeriesRoom(r: nat, resolution: nat)
    requires r < resolution
    ensures TotalIndexCount(r) % 3 == 0 && 4 * TotalIndexCount(r) <= TotalIndexCount(resolution)
    ensures TotalVertexCount(r) + TotalIndexCount(r) <= TotalVertexCount(resolution)
  {
    VertexSeries(r);
    TotalsMono(r + 1, resolution);
    IndexCountSplit(r);
  }

  /** The index count of round `r` is a whole number of triangles, a quarter of the next
      round's. */
  lemma IndexCountSplit(r: nat)
    ensures TotalIndexCount(r) % 3 == 0 && TotalIndexCount(r + 1) == 4 * TotalIndexCount(r)
  {
    var p := Pow4(r);
    assert TotalIndexCount(r) == (20 * p) * 3;
    DivUnique(TotalIndexCount(r), 3, 20 * p, 0);
  }

  /** The vertex count after `r` rounds stays within the buffer. */
  lemma RoundsSize(r: nat)
    ensures |Rounds(r).pos| <= TotalVertexCount(r)
  {
    RoundsFacts(r);
  }

  /** Round `r + 1` subdivides the mesh of round `r`. */
  lemma RoundsStep(r: nat)
    ensures Rounds(r + 1) == NextRound(Rounds(r))
  {
  }

  /** One round: for every triangle of the first `indexCount` entries, its three midpoints,
      the corner triangles appended and the midpoint triangle written over it.  Returns the
      new index and vertex counts. */
  method SubdivideRound(index: array<int>, pos: array<IcoVertex>, indexCount: int, vertexCount: int)
    returns (currentIndexCount: int, currentVertexCount: int)
    requires 0 <= indexCount && indexCount % 3 == 0 && 4 * indexCount <= index.Length
    requires 0 <= vertexCount && vertexCount + indexCount <= pos.Length
    requires forall v :: vertexCount <= v < pos.Length ==> pos[v] == Unset
    modifies index, pos
    ensures var next := NextRound(IcosphereMesh(old(pos[..vertexCount]), old(index[..indexCount])));
            currentIndexCount == |next.index| && index[..currentIndexCount] == next.index &&
            currentVertexCount == |next.pos| && currentVertexCount <= pos.Length &&
            pos[..currentVertexCount] == next.pos
    ensures forall v :: currentVertexCount <= v < pos.Length ==> pos[v] == Unset
  {
    ghost var tris := Triangles(index[..indexCount]);
    ghost var start := pos[..vertexCount];
    ghost var next := NextRound(IcosphereMesh(start, index[..indexCount]));
    RoundBegins(index[..indexCount], start);
    var triangleFromEdge: map<Edge, int> := map[];
    ghost var made: seq<IcoVertex> := [];
    currentIndexCount := indexCount;
    currentVertexCount := vertexCount;
    var t := 0;
    ghost var j := 0;
    while t < indexCount
      invariant 0 <= j <= |tris| && t == 3 * j && currentIndexCount == indexCount + 9 * j
      invariant currentVertexCount == vertexCount + |made| && currentIndexCount <= index.Length && currentVertexCount <= pos.Length
      invariant RoundProgress(tris, j, vertexCount, start, triangleFromEdge, made,
                              index[..currentIndexCount], pos[..currentVertexCount])
      invariant forall v :: currentVertexCount <= v < pos.Length ==> pos[v] == Unset
    {
      triangleFromEdge, currentIndexCount, currentVertexCount, made :=
        SubdivideTriangle(index, pos, t, currentIndexCount, triangleFromEdge, currentVertexCount,
                          tris, j, made, vertexCount, start);
      t := t + 3;
      j := j + 1;
    }
    RoundComplete(tris, vertexCount, start, triangleFromEdge, made, index[..currentIndexCount], pos[..currentVertexCount]);
  }

  /** Before the triangle loop the buffer holds the triangles still to do, one per three
      entries, and nothing has been created. */
  lemma RoundBegins(s: seq<int>, start: seq<IcoVertex>)
    requires |s| % 3 == 0
    ensures 3 * |Triangles(s)| == |s|
    ensures RoundProgress(Triangles(s), 0, |start|, start, map[], [], s, start)
  {
    var tris := Triangles(s);
    FlatTriangles(s);
    assert tris[..0] == [] && tris[0..] == tris;
  }

  /** After the last triangle the buffers hold the next round. */
  lemma RoundComplete(tris: seq<Triangle>, roundStart: int, start: seq<IcoVertex>, edges: map<Edge, int>,
                      made: seq<IcoVertex>, written: seq<int>, placed: seq<IcoVertex>)
    requires RoundProgress(tris, |tris|, roundStart, start, edges, made, written, placed)
    ensures written == Subdivide(tris, roundStart) && placed == start + BuildTable(tris, roundStart).made
  {
    assert tris[..|tris|] == tris && tris[|tris|..] == [];
  }

  /** Where a round stands after its first `j` triangles: the table built from them, the
      vertices created for their edges after the round's `start`, and the buffer holding
      their midpoint triangles, the triangles still to do, and their corner triangles. */
  ghost predicate RoundProgress(tris: seq<Triangle>, j: int, roundStart: int, start: seq<IcoVertex>,
                                edges: map<Edge, int>, made: seq<IcoVertex>, written: seq<int>, placed: seq<IcoVertex>)
  {
    0 <= j <= |tris| && |start| == roundStart &&
    EdgeTable(edges, made) == BuildTable(tris[..j], roundStart) && |made| <= 3 * j &&
    placed == start + made &&
    written == InnerAll(tris[..j], edges) + Flat(tris[j..]) + OuterAll(tris[..j], edges)
  }

  /** The body of the triangle loop for the triangle at `t`, the `j`-th: its midpoints, the
      corner triangles appended at `at`, the midpoint triangle written over it. */
  method SubdivideTriangle(index: array<int>, pos: array<IcoVertex>, t: int, at: int, edges0: map<Edge, int>,
                           vertexCount0: int, ghost tris: seq<Triangle>, ghost j: int,
                           ghost made0: seq<IcoVertex>, ghost roundStart: int, ghost start: seq<IcoVertex>)
    returns (edges: map<Edge, int>, next: int, vertexCount: int, ghost made: seq<IcoVertex>)
    requires 0 <= j < |tris| && t == 3 * j && 0 <= at && at + 9 <= index.Length
    requires 0 <= vertexCount0 == roundStart + |made0| && vertexCount0 + 3 <= pos.Length
    requires RoundProgress(tris, j, roundStart, start, edges0, made0, index[..at], pos[..vertexCount0])
    requires forall v :: vertexCount0 <= v < pos.Length ==> pos[v] == Unset
    modifies index, pos
    ensures next == at + 9
    ensures vertexCount == roundStart + |made| && vertexCount <= vertexCount0 + 3
    ensures RoundProgress(tris, j + 1, roundStart, start, edges, made, index[..next], pos[..vertexCount])
    ensures forall v :: vertexCount <= v < pos.Length ==> pos[v] == Unset
  {
    ghost var before := index[..at];
    TriangleInPlace(tris, j, roundStart, start, edges0, made0, before, pos[..vertexCount0]);
    assert Triangle(index[t], index[t + 1], index[t + 2]) == tris[j] by {
      assert index[t] == before[t] && index[t + 1] == before[t + 1] && index[t + 2] == before[t + 2];
    }
    var midpoints;
    midpoints, edges, vertexCount, made :=
      TriangleMidpoints(index, t, pos, edges0, vertexCount0, made0, roundStart, start);
    next := WriteTriangles(index, t, at, midpoints);
    TriangleDone(tris, j, roundStart, start, edges0, made0, before, edges, made, midpoints);
  }

  /** The triangle a round is about to visit is still in place in the buffer. */
  lemma TriangleInPlace(tris: seq<Triangle>, j: int, roundStart: int, start: seq<IcoVertex>, edges: map<Edge, int>,
                        made: seq<IcoVertex>, written: seq<int>, placed: seq<IcoVertex>)
    requires j < |tris| && RoundProgress(tris, j, roundStart, start, edges, made, written, placed)
    ensures 3 * j + 3 + 9 * j <= |written|
    ensures written[3 * j] == tris[j].a && written[3 * j + 1] == tris[j].b && written[3 * j + 2] == tris[j].c
  {
    FlatAt(tris, j);
    assert written[3 * j..3 * j + 3] == [tris[j].a, tris[j].b, tris[j].c];
  }

  /** After the edge loop and the writes for triangle `j`, the round has done `j + 1`
      triangles. */
  lemma TriangleDone(tris: seq<Triangle>, j: int, roundStart: int, start: seq<IcoVertex>,
                     edges0: map<Edge, int>, made0: seq<IcoVertex>, written: seq<int>,
                     edges: map<Edge, int>, made: seq<IcoVertex>, midpoints: seq<int>)
    requires j < |tris| && RoundProgress(tris, j, roundStart, start, edges0, made0, written, start + made0)
    requires EdgeTable(edges, made) == AddEdges(EdgeTable(edges0, made0), tris[j], 3, roundStart)
    requires |made| <= |made0| + 3 && midpoints == Inner(tris[j], edges)
    ensures var m0, m1, m2 := midpoints[0], midpoints[1], midpoints[2];
            var tri := tris[j];
            RoundProgress(tris, j + 1, roundStart, start, edges, made,
                          (written + [tri.a, m0, m2, tri.b, m1, m0, tri.c, m2, m1])[3 * j := m0][3 * j + 1 := m1][3 * j + 2 := m2],
                          start + made)
  {
    assert tris[..j + 1][..j] == tris[..j];
    BuildTableGrows(tris[..j], roundStart);
    AddEdgesGrows(EdgeTable(edges0, made0), tris[j], 3, roundStart);
    SplitStable(tris[..j], edges0, edges);
    RoundStep(tris, j, edges, written + Outer(tris[j], edges), midpoints);
  }

  /** The writes for one triangle: the corner triangles `(a, m0, m2)`, `(b, m1, m0)`,
      `(c, m2, m1)` appended at `at`, then the midpoint triangle over the triangle at `t`. */
  method WriteTriangles(index: array<int>, t: int, at: int, midpoints: seq<int>) returns (next: int)
    requires 0 <= t && t + 3 <= at && at + 9 <= index.Length && |midpoints| == 3
    modifies index
    ensures next == at + 9
    ensures var a, b, c := old(index[t]), old(index[t + 1]), old(index[t + 2]);
            var m0, m1, m2 := midpoints[0], midpoints[1], midpoints[2];
            index[..next] == (old(index[..at]) + [a, m0, m2, b, m1, m0, c, m2, m1])[t := m0][t + 1 := m1][t + 2 := m2]
  {
    var a, b, c := index[t], index[t + 1], index[t + 2];
    next := WriteIndices(index, at, [a, midpoints[0], midpoints[2], b, midpoints[1], midpoints[0], c, midpoints[2], midpoints[1]]);
    index[t], index[t + 1], index[t + 2] := midpoints[0], midpoints[1], midpoints[2];
  }

  /** Writing the corner triangles and then the midpoint triangle of triangle `j` moves it
      from the untouched part of the buffer to the finished parts. */
  lemma RoundStep(tris: seq<Triangle>, j: int, edges: map<Edge, int>, appended: seq<int>, midpoints: seq<int>)
    requires 0 <= j < |tris|
    requires appended == InnerAll(tris[..j], edges) + Flat(tris[j..]) + OuterAll(tris[..j], edges) + Outer(tris[j], edges)
    requires midpoints == Inner(tris[j], edges)
    ensures appended[3 * j := midpoints[0]][3 * j + 1 := midpoints[1]][3 * j + 2 := midpoints[2]] ==
            InnerAll(tris[..j + 1], edges) + Flat(tris[j + 1..]) + OuterAll(tris[..j + 1], edges)
  {
    FlatAt(tris, j);
    SplitSnoc(tris, j, edges);
    ShiftTriple(InnerAll(tris[..j], edges), [tris[j].a, tris[j].b, tris[j].c], Flat(tris[j + 1..]),
                OuterAll(tris[..j], edges), Outer(tris[j], edges), midpoints);
  }

  /** The untouched triangles start with triangle `j`. */
  lemma FlatAt(tris: seq<Triangle>, j: int)
    requires 0 <= j < |tris|
    ensures Flat(tris[j..]) == [tris[j].a, tris[j].b, tris[j].c] + Flat(tris[j + 1..])
  {
    assert tris[j..][1..] == tris[j + 1..];
  }

  /** The finished parts grow by the parts of triangle `j`. */
  lemma SplitSnoc(tris: seq<Triangle>, j: int, edges: map<Edge, int>)
    requires 0 <= j < |tris|
    ensures InnerAll(tris[..j + 1], edges) == InnerAll(tris[..j], edges) + Inner(tris[j], edges)
    ensures OuterAll(tris[..j + 1], edges) == OuterAll(tris[..j], edges) + Outer(tris[j], edges)
  {
    assert tris[..j + 1][..j] == tris[..j];
  }

  /** Overwriting the triple after `done` with `y` moves it to the finished part. */
  lemma ShiftTriple(done: seq<int>, x: seq<int>, rest: seq<int>, doneAfter: seq<int>, more: seq<int>, y: seq<int>)
    requires |x| == 3 && |y| == 3
    ensures (done + (x + rest) + doneAfter + more)[|done| := y[0]][|done| + 1 := y[1]][|done| + 2 := y[2]] ==
            (done + y) + rest + (doneAfter + more)
  {
    var n := |done|;
    var s := (done + (x + rest) + doneAfter + more)[n := y[0]][n + 1 := y[1]][n + 2 := y[2]];
    var t := (done + y) + rest + (doneAfter + more);
    assert |s| == |t|;
    forall i | 0 <= i < |s| ensures s[i] == t[i] {
      if i < n {
      } else if i < n + 3 {
      } else {
      }
    }
  }

  /** The edge loop of the triangle at `t`: for each edge, the vertex the map already holds
      for it or, for a new edge, the next vertex, written as the midpoint of its ends. */
  method TriangleMidpoints(index: array<int>, t: int, pos: array<IcoVertex>, edges0: map<Edge, int>,
                           vertexCount0: int, ghost made0: seq<IcoVertex>, ghost roundStart: int,
                           ghost start: seq<IcoVertex>)
    returns (midpoints: seq<int>, edges: map<Edge, int>, vertexCount: int, ghost made: seq<IcoVertex>)
    requires 0 <= t && t % 3 == 0 && t + 3 <= index.Length
    requires |start| == roundStart && vertexCount0 == roundStart + |made0| && vertexCount0 + 3 <= pos.Length
    requires pos[..vertexCount0] == start + made0
    requires forall v :: vertexCount0 <= v < pos.Length ==> pos[v] == Unset
    modifies pos
    ensures var tri := Triangle(index[t], index[t + 1], index[t + 2]);
            EdgeTable(edges, made) == AddEdges(EdgeTable(edges0, made0), tri, 3, roundStart) &&
            midpoints == Inner(tri, edges)
    ensures vertexCount == roundStart + |made| && vertexCount <= vertexCount0 + 3
    ensures pos[..vertexCount] == start + made
    ensures forall v :: vertexCount <= v < pos.Length ==> pos[v] == Unset
  {
    ghost var tri := Triangle(index[t], index[t + 1], index[t + 2]);
    midpoints := [0, 0, 0];
    edges, vertexCount, made := edges0, vertexCount0, made0;
    var e := 0;
    while e < 3
      invariant 0 <= e <= 3 && |midpoints| == 3
      invariant EdgeTable(edges, made) == AddEdges(EdgeTable(edges0, made0), tri, e, roundStart)
      invariant vertexCount == roundStart + |made| && vertexCount <= vertexCount0 + e
      invariant pos[..vertexCount] == start + made
      invariant forall v :: vertexCount <= v < pos.Length ==> pos[v] == Unset
      invariant forall i :: 0 <= i < e ==> EdgeOf(tri, i) in edges && midpoints[i] == edges[EdgeOf(tri, i)]
    {
      var first := index[t + e];
      var second := index[t + (t + e + 1) % 3];
      NextCornerOffset(t, e);
      assert first == Corner(tri, e) && second == Corner(tri, (e + 1) % 3);
      ghost var edgesBefore := edges;
      ghost var before := EdgeTable(edges, made);
      var m;
      m, edges, vertexCount, made := EdgeMidpoint(pos, first, second, edges, vertexCount, made, roundStart, start);
      assert EdgeTable(edges, made) == AddEdges(EdgeTable(edges0, made0), tri, e + 1, roundStart) by {
        assert AddEdges(EdgeTable(edges0, made0), tri, e + 1, roundStart) == AddEdge(before, EdgeOf(tri, e), roundStart);
      }
      ghost var previous := midpoints;
      midpoints := midpoints[e := m];
      forall i | 0 <= i < e + 1 ensures EdgeOf(tri, i) in edges && midpoints[i] == edges[EdgeOf(tri, i)] {
        if i < e {
          assert EdgeOf(tri, i) in edgesBefore && midpoints[i] == previous[i];
        }
      }
      e := e + 1;
    }
  }

  /** One pass of the edge loop: the edge's ends ordered, then the vertex the map holds for
      the edge or, for a new edge, the next vertex, written as the midpoint and entered in
      the map. */
  method EdgeMidpoint(pos: array<IcoVertex>, first0: int, second0: int, edges0: map<Edge, int>,
                      vertexCount0: int, ghost made0: seq<IcoVertex>, ghost roundStart: int,
                      ghost start: seq<IcoVertex>)
    returns (m: int, edges: map<Edge, int>, vertexCount: int, ghost made: seq<IcoVertex>)
    requires |start| == roundStart && vertexCount0 == roundStart + |made0| && vertexCount0 < pos.Length
    requires pos[..vertexCount0] == start + made0
    requires forall v :: vertexCount0 <= v < pos.Length ==> pos[v] == Unset
    modifies pos
    ensures EdgeTable(edges, made) == AddEdge(EdgeTable(edges0, made0), Key(first0, second0), roundStart)
    ensures Key(first0, second0) in edges && m == edges[Key(first0, second0)]
    ensures Extends(edges0, edges)
    ensures vertexCount == roundStart + |made| && vertexCount <= vertexCount0 + 1
    ensures pos[..vertexCount] == start + made
    ensures forall v :: vertexCount <= v < pos.Length ==> pos[v] == Unset
  {
    var first, second := first0, second0;
    if first > second {
      first, second := second, first;
    }
    edges, vertexCount, made := edges0, vertexCount0, made0;
    if (first, second) in edges {
      m := edges[(first, second)];
    } else {
      edges := edges[(first, second) := vertexCount];
      pos[vertexCount] := Midpoint(first, second);
      made := made + [Midpoint(first, second)];
      m := vertexCount;
      vertexCount := vertexCount + 1;
      assert pos[..vertexCount] == pos[..vertexCount0] + [Midpoint(first, second)];
    }
  }
}
