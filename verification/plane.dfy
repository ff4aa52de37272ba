/** `MakePlane` of framework/src/plane.cpp: a grid of `xCount` by `yCount` quads, two
    triangles each, over `(xCount + 1) * (yCount + 1)` vertices stored column by column. */
module Plane {
  import opened Arith
  import opened MeshGrid

  /** The generated mesh: vertex `(x, y)` stands for the position and UV computed from the
      two loop counters. */
  datatype PlaneMesh = PlaneMesh(pos: seq<GridVertex>, index: seq<int>)

  /** The two triangles of the quad whose lower-left vertex is `v`: `(v, v+1, v+y+1)` and
      `(v+1, v+y+2, v+y+1)`, where `v + yCount + 1` is the same row in the next column. */
  function Quad(v: int, yCount: int): (q: seq<int>)
    ensures |q| == 6
  {
    [v, v + 1, v + yCount + 1, v + 1, v + yCount + 2, v + yCount + 1]
  }

  /** The quads at `v, v + 1, ..., v + n - 1`, one column's worth when `n == yCount`. */
  function Strip(v: int, n: nat, yCount: int): (s: seq<int>)
    ensures |s| == 6 * n
    decreases n
  {
    if n == 0 then [] else Quad(v, yCount) + Strip(v + 1, n - 1, yCount)
  }

  /** The quads of `cols` columns, the first starting at vertex `base`; each column is
      `yCount + 1` vertices further on. */
  function Columns(base: int, cols: nat, yCount: nat): seq<int>
    decreases cols
  {
    if cols == 0 then [] else Strip(base, yCount, yCount) + Columns(base + yCount + 1, cols - 1, yCount)
  }

  /** The index buffer the generator is meant to produce: every quad, column by column. */
  function PlaneIndex(xCount: nat, yCount: nat): seq<int>
  {
    Columns(0, xCount, yCount)
  }

  /** `MakePlane`: an empty plane when either count is zero; otherwise every vertex of the
      grid in column order, and an index buffer of `6 * xCount * yCount` entries that walks
      `v` over the vertices, jumping over the last vertex of each column (whose
      `v + 1` is a multiple of `yCount + 1`), and emits the quad at each `v` it keeps. */
  method MakePlane(xCount: nat, yCount: nat) returns (plane: PlaneMesh)
    ensures xCount == 0 || yCount == 0 ==> plane == PlaneMesh([], [])
    ensures xCount != 0 && yCount != 0 ==>
              plane.pos == GridVertices(xCount, yCount) && plane.index == PlaneIndex(xCount, yCount)
  {
    if xCount == 0 || yCount == 0 {
      return PlaneMesh([], []);
    }
    var totalIndexCount := 6 * xCount * yCount;
    var totalVertexCount := (xCount + 1) * (yCount + 1);
    var pos := new GridVertex[totalVertexCount](_ => GridVertex(0, 0));
    var index := new int[totalIndexCount](_ => 0);
    FillGrid(pos, xCount, yCount);
    PlaneCounts(xCount, yCount);
    IndexLoop(index, xCount, yCount, totalVertexCount);
    plane := PlaneMesh(pos[..], index[..]);
  }

  /** The two counts of `MakePlane` as column sums. */
  lemma PlaneCounts(xCount: nat, yCount: nat)
    ensures 6 * xCount * yCount == 6 * Times(xCount, yCount)
    ensures (xCount + 1) * (yCount + 1) == Times(xCount, yCount + 1) + yCount + 1
  {
    TimesIsMul(xCount, yCount);
    TimesIsMul(xCount + 1, yCount + 1);
  }

  /** The index loop of `MakePlane`: `v` runs up to `totalVertexCount - yCount - 2`, skips
      the top vertex of each column and emits one quad per vertex it keeps. */
  method IndexLoop(index: array<int>, xCount: nat, yCount: nat, totalVertexCount: int)
    requires 0 < xCount && 0 < yCount
    requires totalVertexCount == Times(xCount, yCount + 1) + yCount + 1
    requires index.Length == 6 * Times(xCount, yCount)
    modifies index
    ensures index[..] == PlaneIndex(xCount, yCount)
  {
    var y := yCount;
    ghost var c, r, colBase, done := LoopStart(xCount, y, totalVertexCount);
    ghost var whole := PlaneIndex(xCount, y);
    var currentIndex := 0;
    var v := 0;
    while v < totalVertexCount - y - 2
      invariant Progress(done, v, r, c, colBase, xCount, y, totalVertexCount, whole)
      invariant currentIndex == |done| && index[..currentIndex] == done
      decreases totalVertexCount - v
    {
      ghost var v', r', c', colBase' := LoopStep(done, v, r, c, colBase, xCount, y, totalVertexCount, whole);
      v, currentIndex := EmitQuad(index, v, currentIndex, y, v', done);
      done, r, c, colBase := done + Quad(v', y), r' + 1, c', colBase';
    }
    LoopEnd(done, v, r, c, colBase, xCount, y, totalVertexCount, whole);
    assert index[..] == index[..currentIndex];
  }

  /** One turn of the index loop: step over `v` when it is the top vertex of its column, so
      that the loop continues at the bottom of the next one, then emit the quad at the
      vertex reached. */
  method EmitQuad(index: array<int>, v0: int, at: int, y: nat, ghost target: int, ghost done: seq<int>)
    returns (v: int, next: int)
    requires target == if (v0 + 1) % (y + 1) == 0 then v0 + 1 else v0
    requires at == |done| && at + 6 <= index.Length && index[..at] == done
    modifies index
    ensures v == target + 1 && next == at + 6 && index[..next] == done + Quad(target, y)
  {
    v := v0;
    if (v + 1) % (y + 1) == 0 {
      v := v + 1;
    }
    next := WriteIndices(index, at, Quad(v, y));
    v := v + 1;
  }

  /** What the index loop still has to emit when it stands at vertex `r` of column `c`: the
      rest of that column and the columns after it. */
  function Rest(v: int, r: int, c: int, colBase: int, xCount: nat, y: nat): seq<int>
    requires 0 <= r <= y && 0 <= c < xCount
  {
    Strip(v, y - r, y) + Columns(colBase + y + 1, xCount - c - 1, y)
  }

  /** The state of the index loop at vertex `v`, vertex `r` of column `c` which starts at
      vertex `colBase`, having emitted `done`: what is left to emit completes the plane's
      index buffer. */
  ghost predicate Progress(done: seq<int>, v: int, r: int, c: int, colBase: int, xCount: nat, y: nat,
                           totalVertexCount: int, whole: seq<int>)
  {
    0 <= c < xCount && 0 <= r <= y && 0 < y && colBase == Times(c, y + 1) && v == colBase + r &&
    totalVertexCount == Times(xCount, y + 1) + y + 1 &&
    |whole| == 6 * Times(xCount, y) &&
    done + Rest(v, r, c, colBase, xCount, y) == whole
  }

  lemma LoopStart(xCount: nat, y: nat, totalVertexCount: int)
    returns (c: int, r: int, colBase: int, done: seq<int>)
    requires 0 < xCount && 0 < y && totalVertexCount == Times(xCount, y + 1) + y + 1
    ensures Progress(done, 0, r, c, colBase, xCount, y, totalVertexCount, PlaneIndex(xCount, y)) && done == []
  {
    c, r, colBase, done := 0, 0, 0, [];
    ColumnsSize(0, xCount, y);
    assert Rest(0, 0, 0, 0, xCount, y) == PlaneIndex(xCount, y);
  }

  /** One turn of the loop: the quad emitted is the next one owed, after stepping over the
      top vertex of a column, and it fits in the buffer. */
  lemma LoopStep(done: seq<int>, v: int, r: int, c: int, colBase: int, xCount: nat, y: nat,
                 totalVertexCount: int, whole: seq<int>)
    returns (v': int, r': int, c': int, colBase': int)
    requires Progress(done, v, r, c, colBase, xCount, y, totalVertexCount, whole)
    requires v < totalVertexCount - y - 2
    ensures v' == if (v + 1) % (y + 1) == 0 then v + 1 else v
    ensures |done| + 6 <= 6 * Times(xCount, y)
    ensures Progress(done + Quad(v', y), v' + 1, r' + 1, c', colBase', xCount, y, totalVertexCount, whole)
  {
    ModStep(v, c, r, y + 1);
    v', r', c', colBase' := v, r, c, colBase;
    if (v + 1) % (y + 1) == 0 {
      SkipColumn(c, xCount, y + 1);
      RestSkip(v, c, colBase, xCount, y);
      v', r', c', colBase' := v + 1, 0, c + 1, colBase + y + 1;
    }
    RestQuad(done, v', r', c', colBase', xCount, y);
  }

  /** When the loop stops, everything owed has been emitted. */
  lemma LoopEnd(done: seq<int>, v: int, r: int, c: int, colBase: int, xCount: nat, y: nat,
                totalVertexCount: int, whole: seq<int>)
    requires Progress(done, v, r, c, colBase, xCount, y, totalVertexCount, whole)
    requires v >= totalVertexCount - y - 2
    ensures done == whole
  {
    LastColumn(c, r, xCount, y + 1);
    assert Rest(v, r, c, colBase, xCount, y) == [];
  }

  /** Below the top of a column the loop emits the quad at `v` next. */
  lemma RestQuad(done: seq<int>, v: int, r: int, c: int, colBase: int, xCount: nat, y: nat)
    requires 0 <= r < y && 0 <= c < xCount
    ensures done + Rest(v, r, c, colBase, xCount, y)
            == (done + Quad(v, y)) + Rest(v + 1, r + 1, c, colBase, xCount, y)
  {
    assert Rest(v, r, c, colBase, xCount, y) == Quad(v, y) + Rest(v + 1, r + 1, c, colBase, xCount, y);
  }

  /** At the top of a column the rest is the next column from its bottom. */
  lemma RestSkip(v: int, c: int, colBase: int, xCount: nat, y: nat)
    requires 0 <= c && c + 1 < xCount && v == colBase + y
    ensures Rest(v, y, c, colBase, xCount, y) == Rest(v + 1, 0, c + 1, colBase + y + 1, xCount, y)
  {
    assert Strip(v, 0, y) == [];
    assert Columns(v + 1, xCount - c - 1, y) == Strip(v + 1, y, y) + Columns(v + 1 + y + 1, xCount - c - 2, y);
  }

  /** A skip below the last vertex bound still lands inside the grid. */
  lemma SkipColumn(c: nat, xCount: nat, s: int)
    requires 0 < s && Times(c, s) + s < Times(xCount, s)
    ensures c + 1 < xCount
  {
    if xCount <= c + 1 {
      TimesMono(xCount, c + 1, s);
    }
  }

  /** The loop stops exactly at the top of the last column. */
  lemma LastColumn(c: nat, r: int, xCount: nat, s: int)
    requires c < xCount && 0 <= r < s && Times(c, s) + r >= Times(xCount, s) - 1
    ensures r == s - 1 && c == xCount - 1
  {
    TimesMono(c + 1, xCount, s);
    if c + 1 < xCount {
      TimesMono(c + 2, xCount, s);
    }
  }

  /** The column skip fires exactly at the top vertex of a column. */
  lemma ModStep(v: int, c: nat, r: int, s: int)
    requires 0 <= r < s && v == Times(c, s) + r
    ensures (v + 1) % s == 0 <==> r == s - 1
  {
    TimesIsMul(c, s);
    if r == s - 1 {
      MulSucc(c, s);
      DivUnique(v + 1, s, c + 1, 0);
    } else {
      DivUnique(v + 1, s, c, r + 1);
    }
  }

  /** `cols` columns of `yCount` quads hold `6 * cols * yCount` indices. */
  lemma {:induction false} ColumnsSize(base: int, cols: nat, yCount: nat)
    ensures |Columns(base, cols, yCount)| == 6 * Times(cols, yCount)
    decreases cols
  {
    if cols > 0 {
      ColumnsSize(base + yCount + 1, cols - 1, yCount);
    }
  }

  /** Quad `r` of column `c` occupies the entries after the `c * yCount + r` quads before it
      and has lower-left vertex `c * (yCount + 1) + r`. */
  lemma {:induction false} QuadAt(base: int, cols: nat, yCount: nat, c: nat, r: nat, k: int, v: int)
    requires c < cols && r < yCount
    requires k == Times(c, yCount) + r && v == base + Times(c, yCount + 1) + r
    ensures 0 <= 6 * k && 6 * k + 6 <= |Columns(base, cols, yCount)|
    ensures Columns(base, cols, yCount)[6 * k..6 * k + 6] == Quad(v, yCount)
    decreases c, 1
  {
    if c == 0 {
      QuadInFirstColumn(base, cols, yCount, r);
    } else {
      QuadAtLater(base, cols, yCount, c, r, k, v);
    }
  }

  /** The step of `QuadAt` for a column after the first. */
  lemma {:induction false} QuadAtLater(base: int, cols: nat, yCount: nat, c: nat, r: nat, k: int, v: int)
    requires 0 < c < cols && r < yCount
    requires k == Times(c, yCount) + r && v == base + Times(c, yCount + 1) + r
    ensures 0 <= 6 * k && 6 * k + 6 <= |Columns(base, cols, yCount)|
    ensures Columns(base, cols, yCount)[6 * k..6 * k + 6] == Quad(v, yCount)
    decreases c, 0
  {
    var k' := Times(c - 1, yCount) + r;
    assert k == yCount + k' && v == base + yCount + 1 + Times(c - 1, yCount + 1) + r;
    QuadAt(base + yCount + 1, cols - 1, yCount, c - 1, r, k', v);
    QuadInLaterColumn(base, cols, yCount, 6 * k', 6 * k, Quad(v, yCount));
  }

  /** Quad `r` of the first column. */
  lemma QuadInFirstColumn(base: int, cols: nat, yCount: nat, r: nat)
    requires 0 < cols && r < yCount
    ensures 6 * r + 6 <= |Columns(base, cols, yCount)|
    ensures Columns(base, cols, yCount)[6 * r..6 * r + 6] == Quad(base + r, yCount)
  {
    var strip := Strip(base, yCount, yCount);
    var rest := Columns(base + yCount + 1, cols - 1, yCount);
    assert Columns(base, cols, yCount) == strip + rest;
    StripQuadAt(base, yCount, yCount, r);
    SliceLeft(strip, rest, 6 * r, 6);
  }

  /** A slice of the columns after the first sits `6 * yCount` further on. */
  lemma QuadInLaterColumn(base: int, cols: nat, yCount: nat, i: int, j: int, q: seq<int>)
    requires 0 < cols && 0 <= i && i + 6 <= |Columns(base + yCount + 1, cols - 1, yCount)|
    requires Columns(base + yCount + 1, cols - 1, yCount)[i..i + 6] == q
    requires j == 6 * yCount + i
    ensures 0 <= j && j + 6 <= |Columns(base, cols, yCount)|
    ensures Columns(base, cols, yCount)[j..j + 6] == q
  {
    var strip := Strip(base, yCount, yCount);
    var rest := Columns(base + yCount + 1, cols - 1, yCount);
    assert Columns(base, cols, yCount) == strip + rest;
    SliceRight(strip, rest, i, 6);
  }

  lemma {:induction false} StripQuadAt(v: int, n: nat, yCount: int, r: nat)
    requires r < n
    ensures Strip(v, n, yCount)[6 * r..6 * r + 6] == Quad(v + r, yCount)
    decreases r
  {
    if r > 0 {
      StripQuadAt(v + 1, n - 1, yCount, r - 1);
      SliceRight(Quad(v, yCount), Strip(v + 1, n - 1, yCount), 6 * (r - 1), 6);
    }
  }

  /** One quad per column below `xCount` and row below `yCount`: the six entries from
      `6 * (c * yCount + r)` on are the two triangles at vertex `c * (yCount + 1) + r`. */
  lemma PlaneQuad(xCount: nat, yCount: nat, c: nat, r: nat)
    requires c < xCount && r < yCount
    ensures 6 * (c * yCount + r) + 6 <= |PlaneIndex(xCount, yCount)|
    ensures PlaneIndex(xCount, yCount)[6 * (c * yCount + r)..6 * (c * yCount + r) + 6]
            == Quad(c * (yCount + 1) + r, yCount)
  {
    TimesIsMul(c, yCount);
    TimesIsMul(c, yCount + 1);
    QuadAt(0, xCount, yCount, c, r, c * yCount + r, c * (yCount + 1) + r);
  }

  /** The quad at `v` names vertices `v` to `v + yCount + 2`. */
  lemma QuadBounds(v: int, yCount: nat)
    ensures AllIn(Quad(v, yCount), v, v + yCount + 3)
  {
    var q := Quad(v, yCount);
    forall i | 0 <= i < 6 ensures v <= q[i] < v + yCount + 3 {
      if i == 0 {} else if i == 1 {} else if i == 2 {} else if i == 3 {} else if i == 4 {} else {}
    }
  }

  /** Every index of the strip at `v` of length `n` lies in `[v, v + n + yCount + 2)`. */
  lemma {:induction false} StripBounds(v: int, n: nat, yCount: nat)
    ensures AllIn(Strip(v, n, yCount), v, v + n + yCount + 2)
    decreases n
  {
    if n > 0 {
      StripBounds(v + 1, n - 1, yCount);
      var q, t := Quad(v, yCount), Strip(v + 1, n - 1, yCount);
      assert Strip(v, n, yCount) == q + t;
      QuadBounds(v, yCount);
      assert AllIn(q, v, v + n + yCount + 2);
      assert AllIn(t, v, v + n + yCount + 2);
      AllInAppend(q, t, v, v + n + yCount + 2);
    }
  }

  /** Every index of `cols` columns from `base` lies below `base` plus the vertices of
      `cols + 1` columns. */
  lemma {:induction false} ColumnsBounds(base: int, cols: nat, yCount: nat)
    ensures AllIn(Columns(base, cols, yCount), base, base + Times(cols + 1, yCount + 1))
    decreases cols
  {
    if cols > 0 {
      ColumnsBounds(base + yCount + 1, cols - 1, yCount);
      StripBounds(base, yCount, yCount);
      TimesMono(0, cols - 1, yCount + 1);
      var hi := base + Times(cols + 1, yCount + 1);
      var s, t := Strip(base, yCount, yCount), Columns(base + yCount + 1, cols - 1, yCount);
      assert Columns(base, cols, yCount) == s + t;
      assert AllIn(s, base, hi);
      assert AllIn(t, base, hi);
      AllInAppend(s, t, base, hi);
    }
  }

  /** The plane's index buffer has `6 * xCount * yCount` entries, each naming one of the
      `(xCount + 1) * (yCount + 1)` vertices. */
  lemma PlaneIndexInRange(xCount: nat, yCount: nat)
    ensures |PlaneIndex(xCount, yCount)| == 6 * xCount * yCount
    ensures AllIn(PlaneIndex(xCount, yCount), 0, (xCount + 1) * (yCount + 1))
  {
    ColumnsSize(0, xCount, yCount);
    ColumnsBounds(0, xCount, yCount);
    PlaneCounts(xCount, yCount);
    assert Times(xCount + 1, yCount + 1) == Times(xCount, yCount + 1) + yCount + 1;
  }
}
