/** `MakeUVSphere` of src/uvsphere.cpp: `latCount + 1` rings of `lonCount + 1` vertices
    (a ring repeats its first vertex so that UVs can wrap), a top cap of one triangle per
    longitude, two triangles per longitude between the inner rings, and a bottom cap. */
module UvSphere {
  import opened Arith
  import opened MeshGrid

  /** The generated mesh: vertex `(lat, lon)` stands for the position and UV computed from
      the ring and the longitude. */
  datatype SphereMesh = SphereMesh(pos: seq<GridVertex>, index: seq<int>)

  /** Top-cap triangle `k`: vertex `k` of ring 0 and vertices `k`, `k + 1` of ring 1. */
  function TopTriangle(k: int, lonCount: int): seq<int>
  {
    [k, lonCount + 1 + k, lonCount + 2 + k]
  }

  /** The top-cap triangles `k, k + 1, ..., k + n - 1`. */
  function TopCap(k: int, n: nat, lonCount: int): (s: seq<int>)
    ensures |s| == 3 * n
    decreases n
  {
    if n == 0 then [] else TopTriangle(k, lonCount) + TopCap(k + 1, n - 1, lonCount)
  }

  /** The two triangles between vertex `v` of one ring and the same longitude of the next
      ring, `lonCount + 1` vertices on. */
  function BandQuad(v: int, lonCount: int): seq<int>
  {
    [v, v + lonCount + 1, v + 1, v + 1, v + lonCount + 1, v + lonCount + 2]
  }

  /** The quads at `v, v + 1, ..., v + n - 1`: one band between two rings when `n == lonCount`. */
  function Band(v: int, n: nat, lonCount: int): (s: seq<int>)
    ensures |s| == 6 * n
    decreases n
  {
    if n == 0 then [] else BandQuad(v, lonCount) + Band(v + 1, n - 1, lonCount)
  }

  /** `rows` bands, the first starting at vertex `base`. */
  function Middle(base: int, rows: nat, lonCount: nat): seq<int>
    decreases rows
  {
    if rows == 0 then [] else Band(base, lonCount, lonCount) + Middle(base + lonCount + 1, rows - 1, lonCount)
  }

  /** Bottom-cap triangle at vertex `v` of the last inner ring, towards the pole ring. */
  function BottomTriangle(v: int, lonCount: int): seq<int>
  {
    [v, v + lonCount + 1, v + 1]
  }

  /** The bottom-cap triangles at `v, v + 1, ..., v + n - 1`. */
  function BottomCap(v: int, n: nat, lonCount: int): (s: seq<int>)
    ensures |s| == 3 * n
    decreases n
  {
    if n == 0 then [] else BottomTriangle(v, lonCount) + BottomCap(v + 1, n - 1, lonCount)
  }

  /** The index buffer of a sphere with `latCount` rings after the pole: the top cap, the
      bands between rings 1 and `latCount - 1`, and the bottom cap, which starts at the first
      vertex of ring `latCount - 1`. */
  function SphereIndex(latCount: nat, lonCount: nat): seq<int>
    requires 2 <= latCount
  {
    TopCap(0, lonCount, lonCount) + Middle(lonCount + 1, latCount - 2, lonCount)
      + BottomCap(Times(latCount - 1, lonCount + 1), lonCount, lonCount)
  }

  /** `MakeUVSphere`: an empty sphere when either count is below 2; otherwise every vertex
      ring by ring and the index buffer of the three index loops. */
  method MakeUVSphere(latCount: int, lonCount: int) returns (sphere: SphereMesh)
    ensures latCount < 2 || lonCount < 2 ==> sphere == SphereMesh([], [])
    ensures latCount >= 2 && lonCount >= 2 ==>
              sphere.pos == GridVertices(latCount, lonCount) && sphere.index == SphereIndex(latCount, lonCount)
  {
    if latCount < 2 || lonCount < 2 {
      return SphereMesh([], []);
    }
    var totalIndexCount := 6 * (latCount - 1) * lonCount;
    var totalVertexCount := (latCount + 1) * (lonCount + 1);
    var pos := new GridVertex[totalVertexCount](_ => GridVertex(0, 0));
    var index := new int[totalIndexCount](_ => 0);
    FillGrid(pos, latCount, lonCount);
    SphereIndexSize(latCount, lonCount);
    IndexLoops(index, latCount, lonCount);
    sphere := SphereMesh(pos[..], index[..]);
  }

  /** The three index loops of `MakeUVSphere` (and of `MakeCapsule`), which fill the index
      buffer exactly. */
  method IndexLoops(index: array<int>, latCount: nat, lonCount: nat)
    requires 2 <= latCount && index.Length == |SphereIndex(latCount, lonCount)|
    modifies index
    ensures index[..] == SphereIndex(latCount, lonCount)
  {
    var top := TopCapLoop(index, lonCount);
    var middle, v := MiddleLoop(index, top, latCount, lonCount);
    var bottom := BottomCapLoop(index, middle, v, lonCount);
    assert index[..] == index[..bottom];
  }

  /** The top-cap loop: for each longitude, vertex `lon` of ring 0 and the next two of ring 1. */
  method TopCapLoop(index: array<int>, lonCount: nat) returns (currentIndex: int)
    requires 3 * lonCount <= index.Length
    modifies index
    ensures currentIndex == 3 * lonCount && index[..currentIndex] == TopCap(0, lonCount, lonCount)
  {
    var v := lonCount + 1;
    currentIndex := 0;
    var lon := 0;
    while lon < lonCount
      invariant 0 <= lon <= lonCount && v == lonCount + 1 + lon && currentIndex == 3 * lon
      invariant index[..currentIndex] + TopCap(lon, lonCount - lon, lonCount) == TopCap(0, lonCount, lonCount)
    {
      ghost var before := index[..currentIndex];
      currentIndex := WriteIndices(index, currentIndex, [lon, v, v + 1]);
      assert before + TopCap(lon, lonCount - lon, lonCount)
             == index[..currentIndex] + TopCap(lon + 1, lonCount - lon - 1, lonCount);
      v := v + 1;
      lon := lon + 1;
    }
  }

  /** The middle loops: for each ring `lat` from 1 to `latCount - 2`, the band down to the
      next ring; `v` then steps over the ring's repeated last vertex.  Returns where `v`
      stops: the first vertex of ring `latCount - 1`. */
  method MiddleLoop(index: array<int>, start: int, latCount: nat, lonCount: nat)
    returns (currentIndex: int, v: int)
    requires 2 <= latCount && 0 <= start
    requires start + |Middle(lonCount + 1, latCount - 2, lonCount)| <= index.Length
    modifies index
    ensures currentIndex == start + |Middle(lonCount + 1, latCount - 2, lonCount)|
    ensures index[..currentIndex] == old(index[..start]) + Middle(lonCount + 1, latCount - 2, lonCount)
    ensures v == Times(latCount - 1, lonCount + 1)
  {
    ghost var whole := old(index[..start]) + Middle(lonCount + 1, latCount - 2, lonCount);
    v := lonCount + 1;
    currentIndex := start;
    var lat := 1;
    while lat < latCount - 1
      invariant 1 <= lat <= latCount - 1 && v == Times(lat, lonCount + 1)
      invariant 0 <= currentIndex && currentIndex + |Middle(v, latCount - 1 - lat, lonCount)| <= index.Length
      invariant index[..currentIndex] + Middle(v, latCount - 1 - lat, lonCount) == whole
    {
      MiddleStep(index[..currentIndex], v, latCount - 1 - lat, lonCount);
      currentIndex, v := BandLoop(index, currentIndex, v, lonCount);
      v := v + 1;
      lat := lat + 1;
    }
  }

  /** Writing one more band moves it from the remaining bands to the written prefix. */
  lemma MiddleStep(done: seq<int>, v: int, rows: nat, lonCount: nat)
    requires rows > 0
    ensures done + Middle(v, rows, lonCount)
            == (done + Band(v, lonCount, lonCount)) + Middle(v + lonCount + 1, rows - 1, lonCount)
    ensures |Middle(v, rows, lonCount)| == 6 * lonCount + |Middle(v + lonCount + 1, rows - 1, lonCount)|
  {
  }

  /** The inner middle loop: one quad per longitude from vertex `v0` on. */
  method BandLoop(index: array<int>, start: int, v0: int, lonCount: nat) returns (currentIndex: int, v: int)
    requires 0 <= start && start + 6 * lonCount <= index.Length
    modifies index
    ensures currentIndex == start + 6 * lonCount && v == v0 + lonCount
    ensures index[..currentIndex] == old(index[..start]) + Band(v0, lonCount, lonCount)
  {
    ghost var whole := old(index[..start]) + Band(v0, lonCount, lonCount);
    v := v0;
    currentIndex := start;
    var lon := 0;
    while lon < lonCount
      invariant 0 <= lon <= lonCount && v == v0 + lon && currentIndex == start + 6 * lon
      invariant index[..currentIndex] + Band(v, lonCount - lon, lonCount) == whole
    {
      ghost var before := index[..currentIndex];
      currentIndex := WriteIndices(index, currentIndex,
        [v, v + lonCount + 1, v + 1, v + 1, v + lonCount + 1, v + lonCount + 2]);
      assert before + Band(v, lonCount - lon, lonCount)
             == index[..currentIndex] + Band(v + 1, lonCount - lon - 1, lonCount);
      v := v + 1;
      lon := lon + 1;
    }
  }

  /** The bottom-cap loop: from vertex `v` on, one triangle per longitude towards the pole ring. */
  method BottomCapLoop(index: array<int>, start: int, v0: int, lonCount: nat) returns (currentIndex: int)
    requires 0 <= start && start + 3 * lonCount <= index.Length
    modifies index
    ensures currentIndex == start + 3 * lonCount
    ensures index[..currentIndex] == old(index[..start]) + BottomCap(v0, lonCount, lonCount)
  {
    ghost var whole := old(index[..start]) + BottomCap(v0, lonCount, lonCount);
    var v := v0;
    currentIndex := start;
    var lon := 0;
    while lon < lonCount
      invariant 0 <= lon <= lonCount && v == v0 + lon && currentIndex == start + 3 * lon
      invariant index[..currentIndex] + BottomCap(v, lonCount - lon, lonCount) == whole
    {
      ghost var before := index[..currentIndex];
      currentIndex := WriteIndices(index, currentIndex, [v, v + lonCount + 1, v + 1]);
      assert before + BottomCap(v, lonCount - lon, lonCount)
             == index[..currentIndex] + BottomCap(v + 1, lonCount - lon - 1, lonCount);
      v := v + 1;
      lon := lon + 1;
    }
  }

  /** `rows` bands of `lonCount` quads hold `6 * rows * lonCount` indices. */
  lemma {:induction false} MiddleSize(base: int, rows: nat, lonCount: nat)
    ensures |Middle(base, rows, lonCount)| == 6 * Times(rows, lonCount)
    decreases rows
  {
    if rows > 0 {
      MiddleSize(base + lonCount + 1, rows - 1, lonCount);
    }
  }

  /** The caps and bands together are `3 * lon + 6 * lon * (lat - 2) + 3 * lon`, which is the
      `6 * (latCount - 1) * lonCount` entries the index buffer is given. */
  lemma SphereIndexSize(latCount: nat, lonCount: nat)
    requires 2 <= latCount
    ensures |SphereIndex(latCount, lonCount)| == 6 * (latCount - 1) * lonCount
    ensures |Middle(lonCount + 1, latCount - 2, lonCount)| == 6 * lonCount * (latCount - 2)
  {
    MiddleSize(lonCount + 1, latCount - 2, lonCount);
    TimesIsMul(latCount - 2, lonCount);
    TimesIsMul(latCount - 1, lonCount);
    assert Times(latCount - 1, lonCount) == Times(latCount - 2, lonCount) + lonCount;
  }

  /** Top-cap triangle `k` is `(k, lonCount + 1 + k, lonCount + 2 + k)`. */
  lemma TopTriangleAt(lonCount: nat, k: nat)
    requires k < lonCount
    ensures SphereIndex(2, lonCount)[3 * k..3 * k + 3] == [k, lonCount + 1 + k, lonCount + 2 + k]
    ensures forall latCount :: 2 <= latCount ==>
              SphereIndex(latCount, lonCount)[3 * k..3 * k + 3] == SphereIndex(2, lonCount)[3 * k..3 * k + 3]
  {
    TopCapAt(0, lonCount, lonCount, k);
    TopCapFirst(2, lonCount, k);
    forall latCount | 2 <= latCount
      ensures SphereIndex(latCount, lonCount)[3 * k..3 * k + 3] == TopCap(0, lonCount, lonCount)[3 * k..3 * k + 3]
    {
      TopCapFirst(latCount, lonCount, k);
    }
  }

  /** The top cap comes first in the index buffer. */
  lemma TopCapFirst(latCount: nat, lonCount: nat, k: nat)
    requires 2 <= latCount && k < lonCount
    ensures 3 * k + 3 <= |SphereIndex(latCount, lonCount)|
    ensures SphereIndex(latCount, lonCount)[3 * k..3 * k + 3] == TopCap(0, lonCount, lonCount)[3 * k..3 * k + 3]
  {
    var rest := Middle(lonCount + 1, latCount - 2, lonCount)
                + BottomCap(Times(latCount - 1, lonCount + 1), lonCount, lonCount);
    assert SphereIndex(latCount, lonCount) == TopCap(0, lonCount, lonCount) + rest;
    SliceLeft(TopCap(0, lonCount, lonCount), rest, 3 * k, 3);
  }

  lemma {:induction false} TopCapAt(k0: int, n: nat, lonCount: int, k: nat)
    requires k < n
    ensures TopCap(k0, n, lonCount)[3 * k..3 * k + 3] == TopTriangle(k0 + k, lonCount)
    decreases k
  {
    if k > 0 {
      TopCapAt(k0 + 1, n - 1, lonCount, k - 1);
    }
  }

  /** The top cap from triangle `k` names vertices `k` to `k + n + lonCount + 1`. */
  lemma {:induction false} TopCapBounds(k: int, n: nat, lonCount: nat)
    ensures AllIn(TopCap(k, n, lonCount), k, k + n + lonCount + 2)
    decreases n
  {
    if n > 0 {
      TopCapBounds(k + 1, n - 1, lonCount);
      var t, rest := TopTriangle(k, lonCount), TopCap(k + 1, n - 1, lonCount);
      assert TopCap(k, n, lonCount) == t + rest;
      assert AllIn(t, k, k + n + lonCount + 2) by {
        forall i | 0 <= i < 3 ensures k <= t[i] < k + n + lonCount + 2 {
          if i == 0 {} else if i == 1 {} else {}
        }
      }
      AllInWiden(rest, k + 1, k + n + lonCount + 2, k, k + n + lonCount + 2);
      AllInAppend(t, rest, k, k + n + lonCount + 2);
    }
  }

  /** A band of `n` quads from `v` names vertices `v` to `v + n + lonCount + 1`. */
  lemma {:induction false} BandBounds(v: int, n: nat, lonCount: nat)
    ensures AllIn(Band(v, n, lonCount), v, v + n + lonCount + 2)
    decreases n
  {
    if n > 0 {
      BandBounds(v + 1, n - 1, lonCount);
      var q, rest := BandQuad(v, lonCount), Band(v + 1, n - 1, lonCount);
      assert Band(v, n, lonCount) == q + rest;
      assert AllIn(q, v, v + n + lonCount + 2) by {
        forall i | 0 <= i < 6 ensures v <= q[i] < v + n + lonCount + 2 {
          if i == 0 {} else if i == 1 {} else if i == 2 {} else if i == 3 {} else if i == 4 {} else {}
        }
      }
      AllInWiden(rest, v + 1, v + n + lonCount + 2, v, v + n + lonCount + 2);
      AllInAppend(q, rest, v, v + n + lonCount + 2);
    }
  }

  /** `rows` bands from `base` name vertices below `base` plus `rows + 1` rings. */
  lemma {:induction false} MiddleBounds(base: int, rows: nat, lonCount: nat)
    ensures AllIn(Middle(base, rows, lonCount), base, base + Times(rows + 1, lonCount + 1))
    decreases rows
  {
    if rows > 0 {
      MiddleBounds(base + lonCount + 1, rows - 1, lonCount);
      BandBounds(base, lonCount, lonCount);
      TimesMono(2, rows + 1, lonCount + 1);
      var hi := base + Times(rows + 1, lonCount + 1);
      var b, rest := Band(base, lonCount, lonCount), Middle(base + lonCount + 1, rows - 1, lonCount);
      assert Middle(base, rows, lonCount) == b + rest;
      AllInWiden(b, base, base + lonCount + lonCount + 2, base, hi);
      AllInWiden(rest, base + lonCount + 1, hi, base, hi);
      AllInAppend(b, rest, base, hi);
    }
  }

  /** The bottom cap from `v` names vertices `v` to `v + n + lonCount`. */
  lemma {:induction false} BottomCapBounds(v: int, n: nat, lonCount: nat)
    ensures AllIn(BottomCap(v, n, lonCount), v, v + n + lonCount + 1)
    decreases n
  {
    if n > 0 {
      BottomCapBounds(v + 1, n - 1, lonCount);
      var t, rest := BottomTriangle(v, lonCount), BottomCap(v + 1, n - 1, lonCount);
      assert BottomCap(v, n, lonCount) == t + rest;
      assert AllIn(t, v, v + n + lonCount + 1) by {
        forall i | 0 <= i < 3 ensures v <= t[i] < v + n + lonCount + 1 {
          if i == 0 {} else if i == 1 {} else {}
        }
      }
      AllInWiden(rest, v + 1, v + n + lonCount + 1, v, v + n + lonCount + 1);
      AllInAppend(t, rest, v, v + n + lonCount + 1);
    }
  }

  /** Every index names one of the `(latCount + 1) * (lonCount + 1)` vertices. */
  lemma SphereIndexInRange(latCount: nat, lonCount: nat)
    requires 2 <= latCount
    ensures AllIn(SphereIndex(latCount, lonCount), 0, (latCount + 1) * (lonCount + 1))
  {
    SphereIndexBounds(latCount, lonCount);
    TimesIsMul(latCount + 1, lonCount + 1);
    AllInSameBound(SphereIndex(latCount, lonCount), Times(latCount + 1, lonCount + 1), (latCount + 1) * (lonCount + 1));
  }

  /** A bound can be replaced by an equal one. */
  lemma AllInSameBound(s: seq<int>, hi: int, hi': int)
    requires AllIn(s, 0, hi) && hi == hi'
    ensures AllIn(s, 0, hi')
  {
  }

  /** The same bound, with the vertex count as repeated addition. */
  lemma SphereIndexBounds(latCount: nat, lonCount: nat)
    requires 2 <= latCount
    ensures AllIn(SphereIndex(latCount, lonCount), 0, Times(latCount + 1, lonCount + 1))
  {
    var lc, total := lonCount, Times(latCount + 1, lonCount + 1);
    var top, middle := TopCap(0, lc, lc), Middle(lc + 1, latCount - 2, lc);
    var last := BottomCap(Times(latCount - 1, lc + 1), lc, lc);
    PartsInRange(latCount, lonCount);
    AllInAppend(top, middle, 0, total);
    AllInAppend(top + middle, last, 0, total);
  }

  /** Each of the caps and the bands stays below the vertex count. */
  lemma PartsInRange(latCount: nat, lonCount: nat)
    requires 2 <= latCount
    ensures AllIn(TopCap(0, lonCount, lonCount), 0, Times(latCount + 1, lonCount + 1))
    ensures AllIn(Middle(lonCount + 1, latCount - 2, lonCount), 0, Times(latCount + 1, lonCount + 1))
    ensures AllIn(BottomCap(Times(latCount - 1, lonCount + 1), lonCount, lonCount), 0, Times(latCount + 1, lonCount + 1))
  {
    VertexTotal(latCount, lonCount);
    var lc := lonCount;
    var bottom := Times(latCount - 1, lc + 1);
    var total := Times(latCount + 1, lc + 1);
    TopCapBounds(0, lc, lc);
    AllInWiden(TopCap(0, lc, lc), 0, lc + lc + 2, 0, total);
    MiddleBounds(lc + 1, latCount - 2, lc);
    AllInWiden(Middle(lc + 1, latCount - 2, lc), lc + 1, bottom + lc + 1, 0, total);
    BottomCapBounds(bottom, lc, lc);
    AllInWiden(BottomCap(bottom, lc, lc), bottom, bottom + lc + lc + 1, 0, total);
  }

  /** The vertex count is the first `latCount - 1` rings plus two more, and the first
      `latCount - 1` rings hold at least one ring. */
  lemma VertexTotal(latCount: nat, lonCount: nat)
    requires 2 <= latCount
    ensures Times(latCount + 1, lonCount + 1) == Times(latCount - 1, lonCount + 1) + 2 * (lonCount + 1)
    ensures Times(latCount - 1, lonCount + 1) >= lonCount + 1
    ensures Times(latCount - 2 + 1, lonCount + 1) == Times(latCount - 1, lonCount + 1)
  {
    TimesMono(1, latCount - 1, lonCount + 1);
  }
}
