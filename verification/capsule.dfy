/** `MakeCapsule` of src/capsule.cpp: the UV sphere's rings and index loops with `lonCount`
    equal to the resolution and `latCount` the resolution forced odd, so that the rings split
    evenly between the two hemispheres, which are pushed apart by a height offset. */
module Capsule {
  import opened Arith
  import opened MeshGrid
  import opened UvSphere

  /** The generated mesh: vertices as ring and longitude, and the index buffer. */
  datatype CapsuleMesh = CapsuleMesh(pos: seq<GridVertex>, index: seq<int>)

  /** `latCount`: the resolution, plus one when it is even. */
  function CapsuleLatCount(resolution: nat): (latCount: nat)
    ensures latCount % 2 == 1
    ensures resolution <= latCount <= resolution + 1
    ensures latCount == resolution <==> resolution % 2 == 1
  {
    if resolution % 2 == 0 then resolution + 1 else resolution
  }

  /** Whether ring `lat` gets the upper offset `+zOffset` rather than `-zOffset`. */
  predicate UpperHalf(lat: int, latCount: nat)
  {
    lat > latCount / 2
  }

  /** `MakeCapsule`: nothing below resolution 2; otherwise the rings of an odd-latitude UV
      sphere and its index buffer. */
  method MakeCapsule(resolution: int) returns (capsule: CapsuleMesh)
    ensures resolution < 2 ==> capsule == CapsuleMesh([], [])
    ensures resolution >= 2 ==>
              capsule.pos == GridVertices(CapsuleLatCount(resolution), resolution) &&
              capsule.index == SphereIndex(CapsuleLatCount(resolution), resolution)
  {
    if resolution < 2 {
      return CapsuleMesh([], []);
    }
    var latCount := resolution;
    var lonCount := resolution;
    if latCount % 2 == 0 {
      latCount := latCount + 1;
    }
    var totalIndexCount := 6 * (latCount - 1) * lonCount;
    var totalVertexCount := (latCount + 1) * (lonCount + 1);
    var pos := new GridVertex[totalVertexCount](_ => GridVertex(0, 0));
    var index := new int[totalIndexCount](_ => 0);
    FillGrid(pos, latCount, lonCount);
    SphereIndexSize(latCount, lonCount);
    IndexLoops(index, latCount, lonCount);
    capsule := CapsuleMesh(pos[..], index[..]);
  }

  /** The capsule's buffers are exactly filled: `6 * (latCount - 1) * lonCount` indices, each
      naming one of the `(latCount + 1) * (lonCount + 1)` vertices. */
  lemma CapsuleCounts(resolution: nat)
    requires 2 <= resolution
    ensures var latCount := CapsuleLatCount(resolution);
            |GridVertices(latCount, resolution)| == (latCount + 1) * (resolution + 1) &&
            |SphereIndex(latCount, resolution)| == 6 * (latCount - 1) * resolution &&
            AllIn(SphereIndex(latCount, resolution), 0, |GridVertices(latCount, resolution)|)
  {
    var latCount := CapsuleLatCount(resolution);
    GridVertexAt(latCount, resolution, 0, 0);
    SphereIndexSize(latCount, resolution);
    SphereIndexInRange(latCount, resolution);
  }

  /** With an odd ring count the offsets mirror: ring `lat` is in the upper half exactly when
      its mirror ring `latCount - lat` is in the lower half. */
  lemma HalvesMirror(latCount: nat, lat: int)
    requires latCount % 2 == 1 && 0 <= lat <= latCount
    ensures UpperHalf(lat, latCount) <==> !UpperHalf(latCount - lat, latCount)
  {
    var k := latCount / 2;
    assert latCount == 2 * k + 1;
  }

  /** With an even ring count the middle ring and its mirror are the same ring, in the lower
      half: the split is uneven, which is why the resolution is forced odd. */
  lemma EvenCountUneven(latCount: nat)
    requires latCount % 2 == 0
    ensures var lat := latCount / 2;
            latCount - lat == lat && !UpperHalf(lat, latCount) && !UpperHalf(latCount - lat, latCount)
  {
  }

  /** The number of rings below `n` that get the upper offset. */
  function UpperRings(n: nat, latCount: nat): nat
  {
    if n == 0 then 0 else UpperRings(n - 1, latCount) + (if UpperHalf(n - 1, latCount) then 1 else 0)
  }

  /** Rings `0..latCount / 2` are lowered and the others raised. */
  lemma {:induction false} UpperRingsCount(n: nat, latCount: nat)
    ensures UpperRings(n, latCount) == if n <= latCount / 2 + 1 then 0 else n - latCount / 2 - 1
  {
    if n > 0 {
      UpperRingsCount(n - 1, latCount);
    }
  }

  /** For the capsule's odd ring count, as many of the `latCount + 1` rings are raised as are
      lowered. */
  lemma CapsuleHalvesEven(resolution: nat)
    ensures var latCount := CapsuleLatCount(resolution);
            2 * UpperRings(latCount + 1, latCount) == latCount + 1
  {
    var latCount := CapsuleLatCount(resolution);
    UpperRingsCount(latCount + 1, latCount);
  }
}
