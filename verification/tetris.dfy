/** The rules of lithProjects/lithTetris/src/Tetris.cpp: shapes and the playing grid, cell
    addressing, rotation with its offset and kick tables, collision, placing, line clearing
    and the 7-bag randomiser.

    Grid rows grow upwards: row 0 is the bottom and moving down is `(0, -1)`.  Anchors are
    `vec2` in the source but only ever hold whole numbers (spawn positions, `ivec2` moves,
    integer offset tables), so they are integers here. */
module Tetris {
  import opened Wrappers

  // ---------------------------------------------------------------------------------------
  // Vectors, shape types, rotations

  datatype IVec2 = IVec2(x: int, y: int)

  function Add(a: IVec2, b: IVec2): IVec2 { IVec2(a.x + b.x, a.y + b.y) }
  function Neg(a: IVec2): IVec2 { IVec2(-a.x, -a.y) }

  /** The `ShapeType` enum; `NoShape` is `ShapeTypeNone`, the type of an empty slot. */
  datatype ShapeType = NoShape | I | J | L | O | S | T | Z

  datatype Rotation = Clockwise | CounterClockwise

  /** The turn that undoes `rotation`. */
  function Opposite(rotation: Rotation): Rotation
  {
    if rotation == Clockwise then CounterClockwise else Clockwise
  }

  /** C++ integer division, which truncates toward zero (Dafny's `/` is Euclidean). */
  function TruncDiv(a: int, b: int): int
    requires b > 0
  {
    if a >= 0 then a / b else -((-a) / b)
  }

  /** Truncation is symmetric about zero: `(-a) / b == -(a / b)`, which a flooring division
      is not (`-1 / 2 == -1` but `1 / 2 == 0`). */
  lemma TruncDivNeg(a: int, b: int)
    requires b == 1 || b == 2
    ensures TruncDiv(-a, b) == -TruncDiv(a, b)
  {
    if a == 0 {
      assert 0 / b == 0;
    }
  }

  /** `wrap(x, max)`: a negative `x` is moved up by `max`, any other is reduced modulo `max`. */
  function Wrap(x: int, max: int): (r: int)
    requires max > 0
    ensures -max <= x ==> 0 <= r < max
  {
    if x < 0 then max + x else x % max
  }

  function RotationSign(rotation: Rotation): int
  {
    if rotation == Clockwise then 1 else -1
  }

  /** The row of the offset and kick tables used for a turn from `rotationIndex`. */
  function RootRotationIndex(rotationIndex: int, rotation: Rotation): int
    requires 0 <= rotationIndex < 4
  {
    if rotation == CounterClockwise then Wrap(rotationIndex - 1, 4) else rotationIndex
  }

  function NextRotationIndex(rotationIndex: int, rotation: Rotation): (r: int)
    requires 0 <= rotationIndex < 4
    ensures 0 <= r < 4
  {
    Wrap(rotationIndex + RotationSign(rotation), 4)
  }

  /** A turn and the opposite turn cancel, and the table row of a counter-clockwise turn is
      the row of the clockwise turn it undoes. */
  lemma NextRotationInverse(ri: int)
    requires 0 <= ri < 4
    ensures NextRotationIndex(NextRotationIndex(ri, Clockwise), CounterClockwise) == ri
    ensures NextRotationIndex(NextRotationIndex(ri, CounterClockwise), Clockwise) == ri
    ensures RootRotationIndex(NextRotationIndex(ri, Clockwise), CounterClockwise) == ri
    ensures RootRotationIndex(NextRotationIndex(ri, CounterClockwise), Clockwise)
         == RootRotationIndex(ri, CounterClockwise)
  {
  }

  function NextN(ri: int, rotation: Rotation, n: nat): (r: int)
    requires 0 <= ri < 4
    ensures 0 <= r < 4
  {
    if n == 0 then ri else NextRotationIndex(NextN(ri, rotation, n - 1), rotation)
  }

  /** A clockwise turn steps the rotation index up and a counter-clockwise one down, going
      round between 3 and 0. */
  lemma NextRotationStep(ri: int, rotation: Rotation)
    requires 0 <= ri < 4
    ensures NextRotationIndex(ri, rotation)
         == if rotation == Clockwise then (if ri == 3 then 0 else ri + 1)
            else (if ri == 0 then 3 else ri - 1)
  {
  }

  /** Four turns in the same direction come back to the starting rotation index. */
  lemma {:induction false} FourTurnsReturn(ri: int, rotation: Rotation)
    requires 0 <= ri < 4
    ensures NextN(ri, rotation, 4) == ri
  {
    assert NextN(ri, rotation, 0) == ri;
    var a := NextN(ri, rotation, 1);
    NextRotationStep(ri, rotation);
    var b := NextN(ri, rotation, 2);
    NextRotationStep(a, rotation);
    var c := NextN(ri, rotation, 3);
    NextRotationStep(b, rotation);
    NextRotationStep(c, rotation);
  }

  // ---------------------------------------------------------------------------------------
  // Offset and kick tables

  /** `offsetsForBasicRotation`, indexed by the root rotation index. */
  const BasicOffsets: seq<IVec2> := [IVec2(2, -2), IVec2(-2, 1), IVec2(1, -1), IVec2(-1, 2)]

  /** `divFactorForBasicRotation`, indexed by shape type (never read for `O`). */
  function DivFactor(kind: ShapeType): int
    requires kind != NoShape
  {
    match kind
    case I => 1
    case J => 2
    case L => 2
    case O => 0
    case S => 2
    case T => 2
    case Z => 2
  }

  /** `kicksForJLTSZ`, flattened row by row: entry `4 * root + k` is test `k + 2` of row
      `root`, the turn `root >> root + 1`. */
  const KicksJLTSZ: seq<IVec2> := [
    IVec2(-1, 0), IVec2(-1, 1), IVec2(0, -2), IVec2(-1, -2),
    IVec2(1, 0), IVec2(1, -1), IVec2(0, 2), IVec2(1, 2),
    IVec2(1, 0), IVec2(1, 1), IVec2(0, -2), IVec2(1, -2),
    IVec2(-1, 0), IVec2(-1, -1), IVec2(0, 2), IVec2(-1, 2)]

  /** `kicksForI`, flattened the same way. */
  const KicksI: seq<IVec2> := [
    IVec2(-2, 0), IVec2(1, 0), IVec2(-2, -1), IVec2(1, 2),
    IVec2(-1, 0), IVec2(2, 0), IVec2(-1, 2), IVec2(2, -1),
    IVec2(2, 0), IVec2(-1, 0), IVec2(2, 1), IVec2(-1, -2),
    IVec2(1, 0), IVec2(-2, 0), IVec2(1, -2), IVec2(-2, 1)]

  function Scale(k: int, v: IVec2): IVec2 { IVec2(k * v.x, k * v.y) }

  /** A vector divided (truncating) component-wise. */
  function DivVec(v: IVec2, d: int): IVec2
    requires d > 0
  {
    IVec2(TruncDiv(v.x, d), TruncDiv(v.y, d))
  }

  /** `getBaseRotationOffset`: the anchor shift of a basic turn from `rotationIndex`, the
      signed table entry divided (truncating) by the shape's factor; none for `O`. */
  function BaseRotationOffset(kind: ShapeType, rotationIndex: int, rotation: Rotation): IVec2
    requires kind != NoShape && 0 <= rotationIndex < 4
  {
    if kind == O then IVec2(0, 0)
    else DivVec(Scale(RotationSign(rotation), BasicOffsets[RootRotationIndex(rotationIndex, rotation)]), DivFactor(kind))
  }

  /** Turning back undoes the anchor shift of a turn, in both directions.  This rests on the
      truncating division: with a flooring one `-1 / 2` and `1 / 2` would not cancel. */
  lemma BaseOffsetsCancel(kind: ShapeType, ri: int)
    requires kind != NoShape && 0 <= ri < 4
    ensures BaseRotationOffset(kind, NextRotationIndex(ri, Clockwise), CounterClockwise)
         == Neg(BaseRotationOffset(kind, ri, Clockwise))
    ensures BaseRotationOffset(kind, NextRotationIndex(ri, CounterClockwise), Clockwise)
         == Neg(BaseRotationOffset(kind, ri, CounterClockwise))
  {
    BaseOffsetCancels(kind, ri, Clockwise);
    BaseOffsetCancels(kind, ri, CounterClockwise);
  }

  /** One direction of `BaseOffsetsCancel`. */
  lemma BaseOffsetCancels(kind: ShapeType, ri: int, rotation: Rotation)
    requires kind != NoShape && 0 <= ri < 4
    ensures BaseRotationOffset(kind, NextRotationIndex(ri, rotation), Opposite(rotation))
         == Neg(BaseRotationOffset(kind, ri, rotation))
  {
    var n := NextRotationIndex(ri, rotation);
    var root := RootRotationIndex(ri, rotation);
    RootAfterTurn(ri, rotation);
    if kind != O {
      var b := BasicOffsets[root];
      var d := DivFactor(kind);
      var back := Scale(RotationSign(Opposite(rotation)), b);
      var there := Scale(RotationSign(rotation), b);
      assert BaseRotationOffset(kind, n, Opposite(rotation)) == DivVec(back, d);
      assert BaseRotationOffset(kind, ri, rotation) == DivVec(there, d);
      ScaleOpposite(rotation, b);
      DivVecNeg(there, d);
    }
  }

  /** The table row of the turn back is the row of the turn. */
  lemma RootAfterTurn(ri: int, rotation: Rotation)
    requires 0 <= ri < 4
    ensures RootRotationIndex(NextRotationIndex(ri, rotation), Opposite(rotation)) == RootRotationIndex(ri, rotation)
  {
  }

  lemma ScaleOpposite(rotation: Rotation, v: IVec2)
    ensures Scale(RotationSign(Opposite(rotation)), v) == Neg(Scale(RotationSign(rotation), v))
  {
  }

  lemma DivVecNeg(v: IVec2, d: int)
    requires d == 1 || d == 2
    ensures DivVec(Neg(v), d) == Neg(DivVec(v, d))
  {
    TruncDivNeg(v.x, d);
    TruncDivNeg(v.y, d);
  }

  /** The kick of test `testIndex + 2` for a turn from `rotationIndex` (the index before the
      turn), the table entry negated for a counter-clockwise turn; none for `O`. */
  function KickOffset(kind: ShapeType, rotationIndex: int, rotation: Rotation, testIndex: int): IVec2
    requires kind != NoShape && 0 <= rotationIndex < 4 && 0 <= testIndex < 4
  {
    if kind == O then IVec2(0, 0)
    else
      var root := RootRotationIndex(rotationIndex, rotation);
      var table := if kind == I then KicksI else KicksJLTSZ;
      Scale(RotationSign(rotation), table[4 * root + testIndex])
  }

  /** Every kick tried when turning back is the exact reverse of the kick of the turn it
      undoes, as in the Super Rotation System the tables come from. */
  lemma KicksReverse(kind: ShapeType, ri: int, k: int)
    requires kind != NoShape && 0 <= ri < 4 && 0 <= k < 4
    ensures KickOffset(kind, NextRotationIndex(ri, Clockwise), CounterClockwise, k)
         == Neg(KickOffset(kind, ri, Clockwise, k))
  {
    NextRotationInverse(ri);
  }

  /** `getKickOffset` as `tryRotateShape` calls it: with the rotation index of the already
      turned shape and with `testIndex` running to 4.  The row is a flat C++ array, so entry 4
      of a row is entry 0 of the next, and of the last row a read past the table (`None`). */
  function KickAsWritten(kind: ShapeType, turnedIndex: int, rotation: Rotation, testIndex: int): (r: Option<IVec2>)
    requires kind != NoShape && 0 <= turnedIndex < 4 && 0 <= testIndex <= 4
    ensures r.None? <==> kind != O && RootRotationIndex(turnedIndex, rotation) == 3 && testIndex == 4
  {
    if kind == O then Some(IVec2(0, 0))
    else
      var root := RootRotationIndex(turnedIndex, rotation);
      var table := if kind == I then KicksI else KicksJLTSZ;
      if 4 * root + testIndex < |table| then Some(Scale(RotationSign(rotation), table[4 * root + testIndex]))
      else None
  }

  /** The kick defect: a T piece turning clockwise from rotation 0 first tries the kick of
      the 1 >> 2 turn, (1, 0), instead of (-1, 0); its fifth test reads the first kick of the
      2 >> 3 row; and a turn to rotation 3 reads past the end of the table. */
  lemma KickAsWrittenDefect()
    ensures KickAsWritten(T, NextRotationIndex(0, Clockwise), Clockwise, 0) == Some(IVec2(1, 0))
    ensures KickOffset(T, 0, Clockwise, 0) == IVec2(-1, 0)
    ensures KickAsWritten(T, NextRotationIndex(0, Clockwise), Clockwise, 4) == Some(KicksJLTSZ[8])
    ensures KickAsWritten(T, NextRotationIndex(2, Clockwise), Clockwise, 4) == None
  {
  }

  // ---------------------------------------------------------------------------------------
  // Integer arithmetic of flat cell indices

  lemma MulLeMono(a: int, b: int, k: int)
    requires 0 <= a <= b && 0 <= k
    ensures a * k <= b * k
  {
    assert b * k - a * k == (b - a) * k;
  }

  lemma MulSubDistrib(d: int, a: int, b: int, k: int)
    requires d == a - b
    ensures d * k == a * k - b * k
  {
  }

  /** Cell `(c, r)` of a `cols`-wide block of `rows` rows sits inside the buffer. */
  lemma CellInRange(c: int, r: int, cols: int, rows: int)
    requires 0 <= c < cols && 0 <= r < rows
    ensures 0 <= c + r * cols < cols * rows
  {
    MulLeMono(r, rows - 1, cols);
    assert (rows - 1) * cols == cols * rows - cols;
  }

  /** Reading a flat index back as a column and a row. */
  lemma DivModOf(a: int, b: int, n: int)
    requires 0 <= a < n && 0 <= b
    ensures (a + b * n) / n == b && (a + b * n) % n == a
  {
    var q, m := (a + b * n) / n, (a + b * n) % n;
    assert a + b * n == q * n + m && 0 <= m < n;
    assert (b - q) * n == m - a;
    if b - q >= 1 {
      MulLeMono(1, b - q, n);
    } else if q - b >= 1 {
      assert (q - b) * n == a - m;
      MulLeMono(1, q - b, n);
    }
  }

  /** Distinct cells have distinct flat indices. */
  lemma CellIndexInjective(c: int, r: int, c2: int, r2: int, cols: int)
    requires 0 <= c < cols && 0 <= c2 < cols && 0 <= r && 0 <= r2
    requires c + r * cols == c2 + r2 * cols
    ensures c == c2 && r == r2
  {
    DivModOf(c, r, cols);
    DivModOf(c2, r2, cols);
  }

  /** Every index of a `cols * rows` buffer is the flat index of one cell. */
  lemma IndexCell(p: int, cols: int, rows: int)
    requires 0 <= cols && 0 <= rows && 0 <= p < cols * rows
    ensures 0 < cols && 0 <= p % cols < cols && 0 <= p / cols < rows
    ensures p == p % cols + (p / cols) * cols
  {
    if p / cols >= rows {
      MulLeMono(rows, p / cols, cols);
    }
  }

  function Zeros(n: int): (z: seq<int>)
    requires 0 <= n
    ensures |z| == n && forall k :: 0 <= k < n ==> z[k] == 0
  {
    seq(n, _ => 0)
  }

  // ---------------------------------------------------------------------------------------
  // Shapes

  /** A `Shape`: `blocks` holds `cols * rows` cells stored top row first, a cell being 0
      (empty) or the colour of its shape type. */
  datatype Shape = Shape(
    kind: ShapeType,
    blocks: seq<int>,
    cols: int,
    rows: int,
    anchor: IVec2,
    rotationIndex: int)

  predicate ShapeOk(s: Shape)
  {
    0 <= s.cols && 0 <= s.rows && |s.blocks| == s.cols * s.rows
  }

  /** `Shape()`: the empty slot of `heldShape` before the first hold. */
  const EmptyShape: Shape := Shape(NoShape, [], 0, 0, IVec2(0, 0), 0)

  /** `Shape(type, cols, rows, blocks)`, anchored at the origin in rotation 0; an empty
      block list is replaced by `cols * rows` empty cells. */
  function MakeShape(kind: ShapeType, cols: int, rows: int, blocks: seq<int>): (s: Shape)
    requires 0 <= cols && 0 <= rows
    ensures s.kind == kind && s.cols == cols && s.rows == rows
    ensures s.anchor == IVec2(0, 0) && s.rotationIndex == 0
    ensures blocks == [] ==> ShapeOk(s) && s.blocks == Zeros(cols * rows)
    ensures blocks != [] ==> s.blocks == blocks
  {
    Shape(kind, if blocks == [] then Zeros(cols * rows) else blocks, cols, rows, IVec2(0, 0), 0)
  }

  /** `shapeLookup`: the seven tetrominoes in their spawn orientation. */
  const ShapeLookup: seq<Shape> := [
    Shape(I, [1, 1, 1, 1], 4, 1, IVec2(0, 0), 0),
    Shape(J, [2, 0, 0, 2, 2, 2], 3, 2, IVec2(0, 0), 0),
    Shape(L, [0, 0, 3, 3, 3, 3], 3, 2, IVec2(0, 0), 0),
    Shape(O, [4, 4, 4, 4], 2, 2, IVec2(0, 0), 0),
    Shape(S, [0, 5, 5, 5, 5, 0], 3, 2, IVec2(0, 0), 0),
    Shape(T, [0, 6, 0, 6, 6, 6], 3, 2, IVec2(0, 0), 0),
    Shape(Z, [7, 7, 0, 0, 7, 7], 3, 2, IVec2(0, 0), 0)]

  /** A shape the game can hold in play: well-formed, typed, in one of the four rotations. */
  predicate Playable(s: Shape)
  {
    ShapeOk(s) && s.kind != NoShape && 0 <= s.rotationIndex < 4
  }

  lemma LookupPlayable()
    ensures |ShapeLookup| == 7
    ensures forall k :: 0 <= k < 7 ==> Playable(ShapeLookup[k]) && ShapeLookup[k].anchor == IVec2(0, 0)
  {
  }

  function ShapeOutOfBounds(s: Shape, c: int, r: int): bool
  {
    c < 0 || r < 0 || c >= s.cols || r >= s.rows
  }

  /** `Shape::index`: rows are counted from the bottom but stored from the top. */
  function ShapeIndex(s: Shape, c: int, r: int): (i: int)
    requires ShapeOk(s)
    ensures i == -1 <==> ShapeOutOfBounds(s, c, r)
    ensures i != -1 ==> 0 <= i < |s.blocks|
  {
    var stored := s.rows - 1 - r;
    if ShapeOutOfBounds(s, c, stored) then -1
    else
      CellInRange(c, stored, s.cols, s.rows);
      c + stored * s.cols
  }

  /** `Shape::get`: the cell at column `c`, row `r` (from the bottom), or -1 off the shape. */
  function ShapeGet(s: Shape, c: int, r: int): int
    requires ShapeOk(s)
  {
    if ShapeOutOfBounds(s, c, r) then -1 else s.blocks[ShapeIndex(s, c, r)]
  }

  /** `Shape::set`: writes one cell, ignoring positions off the shape. */
  function ShapeSet(s: Shape, c: int, r: int, v: int): (s': Shape)
    requires ShapeOk(s)
    ensures ShapeOk(s') && s'.kind == s.kind && s'.cols == s.cols && s'.rows == s.rows
    ensures s'.anchor == s.anchor && s'.rotationIndex == s.rotationIndex
  {
    if ShapeOutOfBounds(s, c, r) then s else s.(blocks := s.blocks[ShapeIndex(s, c, r) := v])
  }

  /** A write lands on its own cell only: reading it back gives the value, every other cell
      keeps its value, and a write off the shape changes nothing. */
  lemma ShapeSetGet(s: Shape, c: int, r: int, v: int, c2: int, r2: int)
    requires ShapeOk(s)
    ensures ShapeGet(ShapeSet(s, c, r, v), c2, r2)
         == if !ShapeOutOfBounds(s, c, r) && c2 == c && r2 == r then v else ShapeGet(s, c2, r2)
  {
    if !ShapeOutOfBounds(s, c, r) && !ShapeOutOfBounds(s, c2, r2) && (c2 != c || r2 != r) {
      if ShapeIndex(s, c, r) == ShapeIndex(s, c2, r2) {
        CellIndexInjective(c, s.rows - 1 - r, c2, s.rows - 1 - r2, s.cols);
      }
    }
  }

  // ---------------------------------------------------------------------------------------
  // Rotation

  /** The cells of the turned shape, `rows` wide and `cols` high, in stored order: position
      `p` is column `p % rows` of stored row `p / rows`. */
  function RotatedBlocks(s: Shape, rotation: Rotation): (b: seq<int>)
    requires ShapeOk(s)
    ensures |b| == s.rows * s.cols
  {
    seq(s.cols * s.rows, p requires 0 <= p < s.cols * s.rows =>
      if rotation == Clockwise then ShapeGet(s, p / s.rows, p % s.rows)
      else ShapeGet(s, s.cols - 1 - p / s.rows, s.rows - 1 - p % s.rows))
  }

  /** What `getRotatedShape` returns: the blocks turned, cols and rows swapped, the rotation
      index advanced and the anchor shifted by the basic offset of the turn. */
  function Rotated(s: Shape, rotation: Rotation): (r: Shape)
    requires Playable(s)
    ensures Playable(r) && r.kind == s.kind && r.cols == s.rows && r.rows == s.cols
  {
    Shape(s.kind, RotatedBlocks(s, rotation), s.rows, s.cols,
          Add(s.anchor, BaseRotationOffset(s.kind, s.rotationIndex, rotation)),
          NextRotationIndex(s.rotationIndex, rotation))
  }

  /** Position `q * rows + m` of the turned blocks, with `m` below `rows`. */
  lemma RotatedBlocksAt(s: Shape, rotation: Rotation, p: int, q: int, m: int)
    requires ShapeOk(s) && 0 <= p < s.cols * s.rows && 0 <= m < s.rows && 0 <= q && p == m + q * s.rows
    ensures RotatedBlocks(s, rotation)[p]
         == if rotation == Clockwise then ShapeGet(s, q, m) else ShapeGet(s, s.cols - 1 - q, s.rows - 1 - m)
  {
    DivModOf(m, q, s.rows);
  }

  /** A clockwise turn moves cell `(c, r)` to `(r, cols - 1 - c)` and a counter-clockwise
      one to `(rows - 1 - r, c)`. */
  lemma RotatedGet(s: Shape, c: int, r: int)
    requires Playable(s) && 0 <= c < s.cols && 0 <= r < s.rows
    ensures ShapeGet(Rotated(s, Clockwise), r, s.cols - 1 - c) == ShapeGet(s, c, r)
    ensures ShapeGet(Rotated(s, CounterClockwise), s.rows - 1 - r, c) == ShapeGet(s, c, r)
  {
    CellInRange(r, c, s.rows, s.cols);
    var cw := Rotated(s, Clockwise);
    assert ShapeIndex(cw, r, s.cols - 1 - c) == r + c * s.rows;
    RotatedBlocksAt(s, Clockwise, r + c * s.rows, c, r);
    CellInRange(s.rows - 1 - r, s.cols - 1 - c, s.rows, s.cols);
    var ccw := Rotated(s, CounterClockwise);
    assert ShapeIndex(ccw, s.rows - 1 - r, c) == s.rows - 1 - r + (s.cols - 1 - c) * s.rows;
    RotatedBlocksAt(s, CounterClockwise, s.rows - 1 - r + (s.cols - 1 - c) * s.rows, s.cols - 1 - c, s.rows - 1 - r);
  }

  /** One cell of the round trip. */
  lemma RoundTripCell(s: Shape, rotation: Rotation, p: int)
    requires Playable(s) && 0 <= p < |s.blocks|
    ensures RotatedBlocks(Rotated(s, rotation), Opposite(rotation))[p] == s.blocks[p]
  {
    var r1 := Rotated(s, rotation);
    IndexCell(p, s.cols, s.rows);
    var c, t := p % s.cols, p / s.cols;
    var r := s.rows - 1 - t;
    assert ShapeIndex(s, c, r) == p;
    RotatedGet(s, c, r);
    RotatedBlocksAt(r1, Opposite(rotation), p, t, c);
  }

  /** Turning clockwise and then counter-clockwise, or the other way round, gives back the
      same shape: blocks, size, rotation index and anchor. */
  lemma RotateRoundTrip(s: Shape, rotation: Rotation)
    requires Playable(s)
    ensures Rotated(Rotated(s, rotation), Opposite(rotation)) == s
  {
    var r1 := Rotated(s, rotation);
    var r2 := Rotated(r1, Opposite(rotation));
    NextRotationInverse(s.rotationIndex);
    assert r2.rotationIndex == s.rotationIndex;
    BaseOffsetCancels(s.kind, s.rotationIndex, rotation);
    AddNegCancels(s.anchor, BaseRotationOffset(s.kind, s.rotationIndex, rotation));
    assert r2.anchor == s.anchor;
    RoundTripBlocks(s, rotation);
  }

  lemma RoundTripBlocks(s: Shape, rotation: Rotation)
    requires Playable(s)
    ensures RotatedBlocks(Rotated(s, rotation), Opposite(rotation)) == s.blocks
  {
    var b := RotatedBlocks(Rotated(s, rotation), Opposite(rotation));
    forall p | 0 <= p < |s.blocks|
      ensures b[p] == s.blocks[p]
    {
      RoundTripCell(s, rotation, p);
    }
  }

  lemma AddNegCancels(a: IVec2, d: IVec2)
    ensures Add(Add(a, d), Neg(d)) == a
  {
  }

  /** The first `k` cells that `getRotatedShape` writes hold their final value and the rest
      are still empty: a clockwise turn writes front to back, a counter-clockwise one back
      to front. */
  predicate WrittenUpTo(s: Shape, rotation: Rotation, b: seq<int>, k: int)
    requires ShapeOk(s)
  {
    var n := s.cols * s.rows;
    var want := RotatedBlocks(s, rotation);
    |b| == n &&
    forall p :: 0 <= p < n ==>
      b[p] == if (rotation == Clockwise && p < k) || (rotation == CounterClockwise && n - k <= p)
              then want[p] else 0
  }

  /** The cell of the turned shape that source cell `(sc, sr)` goes to. */
  function RotateTarget(s: Shape, rotation: Rotation, sc: int, sr: int): (int, int)
  {
    if rotation == Clockwise then (sr, s.cols - 1 - sc) else (s.rows - 1 - sr, sc)
  }

  /** Source cell `(sc, sr)` lands at position `k = sc * rows + sr` of a clockwise turn and
      at position `n - 1 - k` of a counter-clockwise one, and that is where the turned
      blocks hold its value. */
  lemma RotateTargetIndex(s: Shape, rotation: Rotation, r: Shape, sc: int, sr: int)
    requires Playable(s) && ShapeOk(r) && r.cols == s.rows && r.rows == s.cols
    requires 0 <= sc < s.cols && 0 <= sr < s.rows
    ensures var k := sc * s.rows + sr;
            var idx := if rotation == Clockwise then k else s.cols * s.rows - 1 - k;
            var t := RotateTarget(s, rotation, sc, sr);
            0 <= k < s.cols * s.rows && ShapeIndex(r, t.0, t.1) == idx &&
            RotatedBlocks(s, rotation)[idx] == ShapeGet(s, sc, sr)
  {
    var k := sc * s.rows + sr;
    CellInRange(sr, sc, s.rows, s.cols);
    if rotation == Clockwise {
      DivModOf(sr, sc, s.rows);
    } else {
      DivModOf(s.rows - 1 - sr, s.cols - 1 - sc, s.rows);
      MulSubDistrib(s.cols - 1 - sc, s.cols, sc + 1, s.rows);
      assert (sc + 1) * s.rows == k - sr + s.rows;
    }
  }

  /** The write for source cell `(sc, sr)` is the write of position `sc * rows + sr` in
      the order of `WrittenUpTo`. */
  lemma RotateWriteStep(s: Shape, rotation: Rotation, r: Shape, sc: int, sr: int, k: int, r': Shape)
    requires Playable(s) && ShapeOk(r) && r == Rotated(s, rotation).(blocks := r.blocks)
    requires 0 <= sc < s.cols && 0 <= sr < s.rows && k == sc * s.rows + sr
    requires WrittenUpTo(s, rotation, r.blocks, k)
    requires r' == ShapeSet(r, RotateTarget(s, rotation, sc, sr).0, RotateTarget(s, rotation, sc, sr).1, ShapeGet(s, sc, sr))
    ensures ShapeOk(r') && r' == Rotated(s, rotation).(blocks := r'.blocks)
    ensures WrittenUpTo(s, rotation, r'.blocks, k + 1)
  {
    RotateTargetIndex(s, rotation, r, sc, sr);
  }

  /** The inner loop of `getRotatedShape`: the cells of source column `sc`, bottom to
      top, written to where the turn takes them. */
  method RotateColumn(s: Shape, rotation: Rotation, r0: Shape, sc: int) returns (r: Shape)
    requires Playable(s) && 0 <= sc < s.cols
    requires ShapeOk(r0) && r0 == Rotated(s, rotation).(blocks := r0.blocks)
    requires WrittenUpTo(s, rotation, r0.blocks, sc * s.rows)
    ensures ShapeOk(r) && r == Rotated(s, rotation).(blocks := r.blocks)
    ensures WrittenUpTo(s, rotation, r.blocks, (sc + 1) * s.rows)
  {
    r := r0;
    ghost var k := sc * s.rows;
    var sr := 0;
    while sr < s.rows
      invariant 0 <= sr <= s.rows && k == sc * s.rows + sr
      invariant ShapeOk(r) && r == Rotated(s, rotation).(blocks := r.blocks)
      invariant WrittenUpTo(s, rotation, r.blocks, k)
    {
      var sblock := ShapeGet(s, sc, sr);
      ghost var before := r;
      if rotation == Clockwise {
        r := ShapeSet(r, sr, s.cols - 1 - sc, sblock);
      } else {
        r := ShapeSet(r, s.rows - 1 - sr, sc, sblock);
      }
      RotateWriteStep(s, rotation, before, sc, sr, k, r);
      sr, k := sr + 1, k + 1;
    }
    assert k == (sc + 1) * s.rows;
  }

  /** `getRotatedShape`: a fresh shape of swapped size filled cell by cell. */
  method GetRotatedShape(s: Shape, rotation: Rotation) returns (r: Shape)
    requires Playable(s)
    ensures r == Rotated(s, rotation)
  {
    r := MakeShape(s.kind, s.rows, s.cols, []);
    r := r.(rotationIndex := NextRotationIndex(s.rotationIndex, rotation),
            anchor := Add(s.anchor, BaseRotationOffset(s.kind, s.rotationIndex, rotation)));
    var sc := 0;
    while sc < s.cols
      invariant 0 <= sc <= s.cols
      invariant ShapeOk(r) && r == Rotated(s, rotation).(blocks := r.blocks)
      invariant WrittenUpTo(s, rotation, r.blocks, sc * s.rows)
    {
      r := RotateColumn(s, rotation, r, sc);
      sc := sc + 1;
    }
    assert r.blocks == RotatedBlocks(s, rotation);
  }

  // ---------------------------------------------------------------------------------------
  // The grid

  /** `Grid::outOfBounds`: off either side, below row 0 or above the top row. */
  function OutOfBounds(cols: int, rows: int, c: int, r: int): bool
  {
    c < 0 || r < 0 || c >= cols || r >= rows
  }

  /** `Grid::index`: the flat index `c + r * cols`, or -1 off the grid. */
  function GridIndex(cols: int, rows: int, c: int, r: int): (i: int)
    requires 0 <= cols && 0 <= rows
    ensures i == -1 <==> OutOfBounds(cols, rows, c, r)
    ensures i != -1 ==> 0 <= i < cols * rows
  {
    if OutOfBounds(cols, rows, c, r) then -1
    else
      CellInRange(c, r, cols, rows);
      c + r * cols
  }

  /** `Grid::get` on the buffer `g`: the cell, or -1 off the grid. */
  function GridGet(g: seq<int>, cols: int, rows: int, c: int, r: int): int
    requires 0 <= cols && 0 <= rows && |g| == cols * rows
  {
    if OutOfBounds(cols, rows, c, r) then -1 else g[GridIndex(cols, rows, c, r)]
  }

  /** `Grid::set` on the buffer `g`: writes one cell; a position off the grid is ignored. */
  function GridSet(g: seq<int>, cols: int, rows: int, c: int, r: int, v: int): (g': seq<int>)
    requires 0 <= cols && 0 <= rows && |g| == cols * rows
    ensures |g'| == |g|
  {
    if OutOfBounds(cols, rows, c, r) then g else g[GridIndex(cols, rows, c, r) := v]
  }

  /** Reading a cell back after a write: the written cell holds the value, every other cell
      keeps its value, and a write off the grid changes nothing. */
  lemma GridSetGet(g: seq<int>, cols: int, rows: int, c: int, r: int, v: int, c2: int, r2: int)
    requires 0 <= cols && 0 <= rows && |g| == cols * rows
    ensures GridGet(GridSet(g, cols, rows, c, r, v), cols, rows, c2, r2)
         == if !OutOfBounds(cols, rows, c, r) && c2 == c && r2 == r then v else GridGet(g, cols, rows, c2, r2)
  {
    if !OutOfBounds(cols, rows, c, r) && !OutOfBounds(cols, rows, c2, r2) && (c2 != c || r2 != r) {
      if GridIndex(cols, rows, c, r) == GridIndex(cols, rows, c2, r2) {
        CellIndexInjective(c, r, c2, r2, cols);
      }
    }
  }

  /** The grid as a sequence of rows, bottom row first. */
  function RowsOf(g: seq<int>, cols: int, rows: int): (rs: seq<seq<int>>)
    requires 0 <= cols && 0 <= rows && |g| == cols * rows
    ensures |rs| == rows && forall r :: 0 <= r < rows ==> |rs[r]| == cols
  {
    seq(rows, r => seq(cols, c => GridGet(g, cols, rows, c, r)))
  }

  /** The rows determine the buffer. */
  lemma RowsOfInjective(g: seq<int>, g': seq<int>, cols: int, rows: int)
    requires 0 <= cols && 0 <= rows && |g| == cols * rows && |g'| == cols * rows
    requires RowsOf(g, cols, rows) == RowsOf(g', cols, rows)
    ensures g == g'
  {
    forall p | 0 <= p < |g|
      ensures g[p] == g'[p]
    {
      IndexCell(p, cols, rows);
      var c, r := p % cols, p / cols;
      assert RowsOf(g, cols, rows)[r][c] == RowsOf(g', cols, rows)[r][c];
    }
  }

  /** A write seen row by row: one cell of one row changes. */
  lemma RowsOfSet(g: seq<int>, cols: int, rows: int, c: int, r: int, v: int)
    requires 0 <= cols && 0 <= rows && |g| == cols * rows
    ensures RowsOf(GridSet(g, cols, rows, c, r, v), cols, rows)
         == if OutOfBounds(cols, rows, c, r) then RowsOf(g, cols, rows)
            else RowsOf(g, cols, rows)[r := RowsOf(g, cols, rows)[r][c := v]]
  {
    var rs := RowsOf(g, cols, rows);
    var rs' := RowsOf(GridSet(g, cols, rows, c, r, v), cols, rows);
    if !OutOfBounds(cols, rows, c, r) {
      var want := rs[r := rs[r][c := v]];
      forall r2 | 0 <= r2 < rows
        ensures rs'[r2] == want[r2]
      {
        forall c2 | 0 <= c2 < cols
          ensures rs'[r2][c2] == want[r2][c2]
        {
          GridSetGet(g, cols, rows, c, r, v, c2, r2);
        }
      }
    }
  }

  /** One cell of the row copy: the source cell still holds its old value, and writing it
      extends the copied prefix by one. */
  lemma CopyRowStep(g: seq<int>, cols: int, rows: int, from: int, to: int, c: int, rs: seq<seq<int>>)
    requires 0 <= cols && 0 <= rows && |g| == cols * rows
    requires 0 <= from < rows && 0 <= to < rows && 0 <= c < cols
    requires |rs| == rows && forall r :: 0 <= r < rows ==> |rs[r]| == cols
    requires RowsOf(g, cols, rows) == rs[to := rs[from][..c] + rs[to][c..]]
    ensures GridGet(g, cols, rows, c, from) == rs[from][c]
    ensures RowsOf(GridSet(g, cols, rows, c, to, rs[from][c]), cols, rows)
         == rs[to := rs[from][..c + 1] + rs[to][c + 1..]]
  {
    var cur := rs[to := rs[from][..c] + rs[to][c..]];
    assert RowsOf(g, cols, rows)[from][c] == GridGet(g, cols, rows, c, from);
    assert cur[from][c] == rs[from][c];
    RowsOfSet(g, cols, rows, c, to, rs[from][c]);
    assert rs[from][..c + 1] + rs[to][c + 1..] == (rs[from][..c] + rs[to][c..])[c := rs[from][c]];
  }

  /** One cell of emptying a row. */
  lemma ClearRowStep(g: seq<int>, cols: int, rows: int, r: int, c: int, rs: seq<seq<int>>)
    requires 0 <= cols && 0 <= rows && |g| == cols * rows
    requires 0 <= r < rows && 0 <= c < cols
    requires |rs| == rows && forall i :: 0 <= i < rows ==> |rs[i]| == cols
    requires RowsOf(g, cols, rows) == rs[r := Zeros(c) + rs[r][c..]]
    ensures RowsOf(GridSet(g, cols, rows, c, r, 0), cols, rows) == rs[r := Zeros(c + 1) + rs[r][c + 1..]]
  {
    RowsOfSet(g, cols, rows, c, r, 0);
    assert Zeros(c + 1) + rs[r][c + 1..] == (Zeros(c) + rs[r][c..])[c := 0];
  }

  /** `Grid`: a `cols * rows` buffer of cells, 0 for empty, owned by the grid. */
  class Grid {
    const cols: int
    const rows: int
    const cells: array<int>

    ghost predicate Valid()
      reads this
    {
      0 <= cols && 0 <= rows && cells.Length == cols * rows
    }

    /** The cells row by row, bottom row first. */
    ghost function Rows(): (rs: seq<seq<int>>)
      reads this, cells
      requires Valid()
      ensures |rs| == rows
    {
      RowsOf(cells[..], cols, rows)
    }

    /** `Grid(cols, rows)`: allocates the buffer and empties it. */
    constructor (cols: int, rows: int)
      requires 0 <= cols && 0 <= rows
      ensures Valid() && this.cols == cols && this.rows == rows && fresh(cells)
      ensures cells[..] == Zeros(cols * rows)
    {
      this.cols := cols;
      this.rows := rows;
      cells := new int[cols * rows];
      new;
      Reset();
    }

    /** `Grid::reset`: every cell becomes empty. */
    method Reset()
      requires Valid()
      modifies cells
      ensures cells[..] == Zeros(cells.Length)
    {
      var i := 0;
      while i < cols * rows
        invariant 0 <= i <= cells.Length
        invariant forall k :: 0 <= k < i ==> cells[k] == 0
      {
        cells[i] := 0;
        i := i + 1;
      }
    }

    function Index(c: int, r: int): int
      reads this
      requires Valid()
    {
      GridIndex(cols, rows, c, r)
    }

    function Get(c: int, r: int): int
      reads this, cells
      requires Valid()
    {
      GridGet(cells[..], cols, rows, c, r)
    }

    method Set(c: int, r: int, v: int)
      requires Valid()
      modifies cells
      ensures cells[..] == GridSet(old(cells[..]), cols, rows, c, r, v)
    {
      if OutOfBounds(cols, rows, c, r) {
        return;
      }
      cells[Index(c, r)] := v;
    }

    /** The row test of `clearLines`: scans the row and stops at the first empty cell. */
    method RowFilled(gr: int) returns (full: bool)
      requires Valid() && 0 <= gr < rows
      ensures full == RowFull(Rows()[gr])
    {
      var gc := 0;
      while gc < cols
        invariant 0 <= gc <= cols
        invariant forall c :: 0 <= c < gc ==> Rows()[gr][c] != 0
      {
        if Get(gc, gr) == 0 {
          assert Rows()[gr][gc] == 0;
          return false;
        }
        gc := gc + 1;
      }
      return true;
    }

    /** The inner loop of the row shift: copies row `from` over row `to`, cell by cell. */
    method CopyRow(from: int, to: int)
      requires Valid() && 0 <= from < rows && 0 <= to < rows
      modifies cells
      ensures Rows() == old(Rows())[to := old(Rows())[from]]
    {
      ghost var rs := Rows();
      var c := 0;
      assert rs[from][..0] + rs[to][0..] == rs[to];
      while c < cols
        invariant 0 <= c <= cols
        invariant Rows() == rs[to := rs[from][..c] + rs[to][c..]]
      {
        CopyRowStep(cells[..], cols, rows, from, to, c, rs);
        var block := Get(c, from);
        Set(c, to, block);
        c := c + 1;
      }
      assert rs[from][..cols] + rs[to][cols..] == rs[from];
    }

    /** The row shift of `clearLines` as written: every row above `line` moves down one,
        and the top row stays where it was, so it ends up twice. */
    method ShiftRowsDown(line: int)
      requires Valid() && 0 <= line < rows
      modifies cells
      ensures Rows() == ShiftAsWritten(old(Rows()), line)
    {
      ghost var rs := Rows();
      var l := line;
      var swap := line + 1;
      assert ShiftPartial(rs, line, swap) == rs;
      while swap < rows
        invariant line + 1 <= swap <= rows && l == swap - 1
        invariant Rows() == ShiftPartial(rs, line, swap)
      {
        CopyRow(swap, l);
        ShiftPartialStep(rs, line, swap);
        swap, l := swap + 1, l + 1;
      }
    }

    /** Empties row `r`. */
    method ClearRow(r: int)
      requires Valid() && 0 <= r < rows
      modifies cells
      ensures Rows() == old(Rows())[r := Zeros(cols)]
    {
      ghost var rs := Rows();
      var c := 0;
      assert Zeros(0) + rs[r][0..] == rs[r];
      while c < cols
        invariant 0 <= c <= cols
        invariant Rows() == rs[r := Zeros(c) + rs[r][c..]]
      {
        ClearRowStep(cells[..], cols, rows, r, c, rs);
        Set(c, r, 0);
        c := c + 1;
      }
      assert Zeros(cols) + rs[r][cols..] == Zeros(cols);
    }

    /** The body of the line-clearing loop for a full row: the rows above it move down and
        the top row is emptied, which removes the row from the rows still to examine and
        adds an empty row on top. */
    method RemoveFullRow(ghost rs: seq<seq<int>>, gr: int, ghost cleared: int)
      requires Valid() && ClearInv(rs, gr, cleared) && gr + cleared < |rs| && |rs| == rows
      requires RowFull(rs[gr + cleared]) && Rows() == ClearState(rs, gr, cleared, cols)
      modifies cells
      ensures Rows() == ClearState(rs, gr, cleared + 1, cols)
    {
      ghost var cur := Rows();
      ClearStateFull(rs, gr, cleared, cols, cur, rows - 1);
      ShiftRowsDown(gr);
      ClearRow(rows - 1);
    }

    /** `clearLines`, with the top row emptied after each shift: removes every full row,
        moves the rows above down, and returns how many rows it removed.  Rows that have
        become empty at the top are not examined again. */
    method ClearLines() returns (cleared: int)
      requires Valid()
      modifies cells
      ensures Rows() == Cleared(old(Rows()), cols)
      ensures cleared == FullCount(old(Rows()))
    {
      ghost var rs := Rows();
      var gr := 0;
      cleared := 0;
      ClearStateStart(rs, cols);
      while gr + cleared < rows
        invariant ClearInv(rs, gr, cleared) && |rs| == rows
        invariant Rows() == ClearState(rs, gr, cleared, cols)
        decreases rows - gr - cleared
      {
        ClearStateRow(rs, gr, cleared, cols);
        var full := RowFilled(gr);
        if full {
          RemoveFullRow(rs, gr, cleared);
          cleared := cleared + 1;
        } else {
          ClearStateKeep(rs, gr, cleared, cols);
          gr := gr + 1;
        }
      }
      ClearStateEnd(rs, gr, cleared, cols);
    }
  }

  // ---------------------------------------------------------------------------------------
  // Collision

  /** `glm::clamp`: `min(max(x, lo), hi)`. */
  function Clamp(x: int, lo: int, hi: int): int
  {
    var m := if x < lo then lo else x;
    if m > hi then hi else m
  }

  /** Block `(sc, sr)` of `s`, moved by `offset`, stops the shape: it is filled and the grid
      cell under it is occupied or off the grid, rows above the top being read as the top
      row. */
  predicate BlockHits(s: Shape, g: seq<int>, cols: int, rows: int, offset: IVec2, sc: int, sr: int)
    requires ShapeOk(s) && 0 <= cols && 0 <= rows && |g| == cols * rows
  {
    ShapeGet(s, sc, sr) != 0 &&
    GridGet(g, cols, rows, sc + s.anchor.x + offset.x, Clamp(sr + s.anchor.y + offset.y, -1, rows - 1)) != 0
  }

  /** `shapeCollidesGrid`: a shape with no blocks at all always collides; otherwise some block
      stops it. */
  predicate Collides(s: Shape, g: seq<int>, cols: int, rows: int, offset: IVec2)
    requires ShapeOk(s) && 0 <= cols && 0 <= rows && |g| == cols * rows
  {
    |s.blocks| == 0 ||
    exists sc, sr :: 0 <= sc < s.cols && 0 <= sr < s.rows && BlockHits(s, g, cols, rows, offset, sc, sr)
  }

  /** A filled block stops the shape when it is off either side, below row 0, on an
      occupied cell, or above the top over an occupied top-row cell. */
  lemma CollidesWhenBlocked(s: Shape, g: seq<int>, cols: int, rows: int, offset: IVec2, sc: int, sr: int)
    requires ShapeOk(s) && 0 <= cols && 0 <= rows && |g| == cols * rows
    requires 0 <= sc < s.cols && 0 <= sr < s.rows && ShapeGet(s, sc, sr) != 0
    ensures var gc, gr := sc + s.anchor.x + offset.x, sr + s.anchor.y + offset.y;
            (gc < 0 || gc >= cols || gr < 0 ||
             (gr < rows && GridGet(g, cols, rows, gc, gr) != 0) ||
             (rows <= gr && GridGet(g, cols, rows, gc, rows - 1) != 0))
            ==> Collides(s, g, cols, rows, offset)
  {
    var gc, gr := sc + s.anchor.x + offset.x, sr + s.anchor.y + offset.y;
    if gc < 0 || gc >= cols || gr < 0 ||
       (gr < rows && GridGet(g, cols, rows, gc, gr) != 0) ||
       (rows <= gr && GridGet(g, cols, rows, gc, rows - 1) != 0) {
      assert BlockHits(s, g, cols, rows, offset, sc, sr);
    }
  }

  /** A shape that does not collide has every filled block inside the side walls and above
      the floor, on an empty cell or above an empty top-row cell. */
  lemma FreeShapeInside(s: Shape, g: seq<int>, cols: int, rows: int, offset: IVec2, sc: int, sr: int)
    requires ShapeOk(s) && 0 <= cols && 0 <= rows && |g| == cols * rows
    requires !Collides(s, g, cols, rows, offset)
    requires 0 <= sc < s.cols && 0 <= sr < s.rows && ShapeGet(s, sc, sr) != 0
    ensures var gc, gr := sc + s.anchor.x + offset.x, sr + s.anchor.y + offset.y;
            0 <= gc < cols && 0 <= gr &&
            GridGet(g, cols, rows, gc, if gr < rows then gr else rows - 1) == 0
  {
    assert !BlockHits(s, g, cols, rows, offset, sc, sr);
  }

  /** `shapeCollidesGrid`: scans the blocks column by column and stops at the first one that
      is stopped. */
  method ShapeCollidesGrid(shape: Shape, grid: Grid, offset: IVec2) returns (hit: bool)
    requires ShapeOk(shape) && grid.Valid()
    ensures hit == Collides(shape, grid.cells[..], grid.cols, grid.rows, offset)
  {
    if |shape.blocks| == 0 {
      return true;
    }
    ghost var g := grid.cells[..];
    var sc := 0;
    while sc < shape.cols
      invariant 0 <= sc <= shape.cols
      invariant forall c, r :: 0 <= c < sc && 0 <= r < shape.rows ==>
                  !BlockHits(shape, g, grid.cols, grid.rows, offset, c, r)
    {
      var sr := 0;
      while sr < shape.rows
        invariant 0 <= sr <= shape.rows
        invariant forall c, r :: ((0 <= c < sc && 0 <= r < shape.rows) || (c == sc && 0 <= r < sr)) ==>
                    !BlockHits(shape, g, grid.cols, grid.rows, offset, c, r)
      {
        if ShapeGet(shape, sc, sr) != 0 {
          var gc := sc + shape.anchor.x + offset.x;
          var gr := sr + shape.anchor.y + offset.y;
          gr := Clamp(gr, -1, grid.rows - 1);
          if grid.Get(gc, gr) != 0 {
            assert BlockHits(shape, g, grid.cols, grid.rows, offset, sc, sr);
            return true;
          }
        }
        sr := sr + 1;
      }
      sc := sc + 1;
    }
    return false;
  }

  /** Block `(sc, sr)` of `s` is filled and neither above the grid nor on an empty cell. */
  predicate BlockBuried(s: Shape, g: seq<int>, cols: int, rows: int, sc: int, sr: int)
    requires ShapeOk(s) && 0 <= cols && 0 <= rows && |g| == cols * rows
  {
    ShapeGet(s, sc, sr) != 0 && sr + s.anchor.y < rows &&
    GridGet(g, cols, rows, sc + s.anchor.x, sr + s.anchor.y) == 0
  }

  /** `shapeTotallyCollidesGrid`: every filled block is above the grid or on a cell that is
      occupied (or off the grid), so no block could be placed; no block is "buried" free. */
  predicate TotallyCollides(s: Shape, g: seq<int>, cols: int, rows: int)
    requires ShapeOk(s) && 0 <= cols && 0 <= rows && |g| == cols * rows
  {
    forall sc, sr :: 0 <= sc < s.cols && 0 <= sr < s.rows ==> !BlockBuried(s, g, cols, rows, sc, sr)
  }

  method ShapeTotallyCollidesGrid(shape: Shape, grid: Grid) returns (total: bool)
    requires ShapeOk(shape) && grid.Valid()
    ensures total == TotallyCollides(shape, grid.cells[..], grid.cols, grid.rows)
  {
    ghost var g := grid.cells[..];
    var sc := 0;
    while sc < shape.cols
      invariant 0 <= sc <= shape.cols
      invariant forall c, r :: 0 <= c < sc && 0 <= r < shape.rows ==>
                  !BlockBuried(shape, g, grid.cols, grid.rows, c, r)
    {
      var sr := 0;
      while sr < shape.rows
        invariant 0 <= sr <= shape.rows
        invariant forall c, r :: ((0 <= c < sc && 0 <= r < shape.rows) || (c == sc && 0 <= r < sr)) ==>
                    !BlockBuried(shape, g, grid.cols, grid.rows, c, r)
      {
        if ShapeGet(shape, sc, sr) != 0 {
          var gc := sc + shape.anchor.x;
          var gr := sr + shape.anchor.y;
          if gr < grid.rows {
            if grid.Get(gc, gr) == 0 {
              assert BlockBuried(shape, g, grid.cols, grid.rows, sc, sr);
              return false;
            }
          }
        }
        sr := sr + 1;
      }
      sc := sc + 1;
    }
    return true;
  }

  // ---------------------------------------------------------------------------------------
  // Moving and turning

  function Moved(s: Shape, move: IVec2): Shape
  {
    s.(anchor := Add(s.anchor, move))
  }

  /** Moving a shape does not change its cells. */
  lemma ShapeGetMoved(s: Shape, move: IVec2, c: int, r: int)
    requires ShapeOk(s)
    ensures ShapeOk(Moved(s, move)) && ShapeGet(Moved(s, move), c, r) == ShapeGet(s, c, r)
  {
  }

  /** Testing a shape with an offset is testing the shape moved by it. */
  lemma CollidesMoved(s: Shape, g: seq<int>, cols: int, rows: int, offset: IVec2)
    requires ShapeOk(s) && 0 <= cols && 0 <= rows && |g| == cols * rows
    ensures Collides(s, g, cols, rows, offset) == Collides(Moved(s, offset), g, cols, rows, IVec2(0, 0))
  {
    var m := Moved(s, offset);
    forall sc, sr | 0 <= sc < s.cols && 0 <= sr < s.rows
      ensures BlockHits(s, g, cols, rows, offset, sc, sr) == BlockHits(m, g, cols, rows, IVec2(0, 0), sc, sr)
    {
      BlockHitsMoved(s, g, cols, rows, offset, sc, sr);
    }
  }

  lemma BlockHitsMoved(s: Shape, g: seq<int>, cols: int, rows: int, offset: IVec2, sc: int, sr: int)
    requires ShapeOk(s) && 0 <= cols && 0 <= rows && |g| == cols * rows
    ensures BlockHits(s, g, cols, rows, offset, sc, sr) == BlockHits(Moved(s, offset), g, cols, rows, IVec2(0, 0), sc, sr)
  {
    var m := Moved(s, offset);
    assert ShapeGet(m, sc, sr) == ShapeGet(s, sc, sr);
    assert sc + m.anchor.x + 0 == sc + s.anchor.x + offset.x;
    assert sr + m.anchor.y + 0 == sr + s.anchor.y + offset.y;
  }

  /** `tryMoveShape`: shifts the anchor by `move`, and shifts it back if the shape then
      collides. */
  method TryMoveShape(shape: Shape, grid: Grid, move: IVec2) returns (moved: bool, s': Shape)
    requires ShapeOk(shape) && grid.Valid()
    ensures moved == !Collides(Moved(shape, move), grid.cells[..], grid.cols, grid.rows, IVec2(0, 0))
    ensures s' == if moved then Moved(shape, move) else shape
  {
    s' := Moved(shape, move);
    var hit := ShapeCollidesGrid(s', grid, IVec2(0, 0));
    if hit {
      s' := s'.(anchor := IVec2(s'.anchor.x - move.x, s'.anchor.y - move.y));
      return false, s';
    }
    return true, s';
  }

  /** The offsets `tryRotateShape` tries in order: the basic turn, then the four kicks of the
      turn from `rotationIndex`. */
  function Candidates(kind: ShapeType, rotationIndex: int, rotation: Rotation): (cs: seq<IVec2>)
    requires kind != NoShape && 0 <= rotationIndex < 4
    ensures |cs| == 5 && cs[0] == IVec2(0, 0)
    ensures forall k :: 0 <= k < 4 ==> cs[k + 1] == KickOffset(kind, rotationIndex, rotation, k)
  {
    [IVec2(0, 0)] + seq(4, k requires 0 <= k < 4 => KickOffset(kind, rotationIndex, rotation, k))
  }

  /** The turned shape moved by the first candidate offset at which it does not collide. */
  function FirstFree(n: Shape, g: seq<int>, cols: int, rows: int, cands: seq<IVec2>): Option<Shape>
    requires ShapeOk(n) && 0 <= cols && 0 <= rows && |g| == cols * rows
  {
    if cands == [] then None
    else if !Collides(n, g, cols, rows, cands[0]) then Some(Moved(n, cands[0]))
    else FirstFree(n, g, cols, rows, cands[1..])
  }

  /** The first free candidate is free, and if there is none every candidate collides. */
  lemma {:induction false} FirstFreeFacts(n: Shape, g: seq<int>, cols: int, rows: int, cands: seq<IVec2>)
    requires ShapeOk(n) && 0 <= cols && 0 <= rows && |g| == cols * rows
    ensures var r := FirstFree(n, g, cols, rows, cands);
            (r.Some? ==> exists k :: 0 <= k < |cands| && r.value == Moved(n, cands[k]) &&
                           !Collides(r.value, g, cols, rows, IVec2(0, 0)) &&
                           forall j :: 0 <= j < k ==> Collides(n, g, cols, rows, cands[j])) &&
            (r.None? ==> forall k :: 0 <= k < |cands| ==> Collides(n, g, cols, rows, cands[k]))
  {
    if cands != [] {
      CollidesMoved(n, g, cols, rows, cands[0]);
      FirstFreeFacts(n, g, cols, rows, cands[1..]);
      var r := FirstFree(n, g, cols, rows, cands);
      if r.Some? && Collides(n, g, cols, rows, cands[0]) {
        var k :| 0 <= k < |cands[1..]| && r.value == Moved(n, cands[1..][k]) &&
                 !Collides(r.value, g, cols, rows, IVec2(0, 0)) &&
                 forall j :: 0 <= j < k ==> Collides(n, g, cols, rows, cands[1..][j]);
        assert r.value == Moved(n, cands[k + 1]);
        assert forall j :: 0 <= j < k + 1 ==> Collides(n, g, cols, rows, cands[j]) by {
          forall j | 0 <= j < k + 1 ensures Collides(n, g, cols, rows, cands[j]) {
            if j > 0 { assert cands[j] == cands[1..][j - 1]; }
          }
        }
      }
      if r.None? {
        forall k | 0 <= k < |cands| ensures Collides(n, g, cols, rows, cands[k]) {
          if k > 0 { assert cands[k] == cands[1..][k - 1]; }
        }
      }
    }
  }

  /** What `tryRotateShape` commits: the turned shape at the first free candidate, testing
      the kicks of the turn from the shape's own rotation index (see `KickAsWritten` for the
      lookup as written). */
  function RotateResult(s: Shape, g: seq<int>, cols: int, rows: int, rotation: Rotation): Option<Shape>
    requires Playable(s) && 0 <= cols && 0 <= rows && |g| == cols * rows
  {
    FirstFree(Rotated(s, rotation), g, cols, rows, Candidates(s.kind, s.rotationIndex, rotation))
  }

  /** `tryRotateShape`: commits the first candidate that fits, or leaves the shape as it
      was. */
  method TryRotateShape(shape: Shape, grid: Grid, rotation: Rotation) returns (ok: bool, s': Shape)
    requires Playable(shape) && grid.Valid()
    ensures var r := RotateResult(shape, grid.cells[..], grid.cols, grid.rows, rotation);
            ok == r.Some? && s' == if ok then r.value else shape
  {
    ghost var g := grid.cells[..];
    ghost var cands := Candidates(shape.kind, shape.rotationIndex, rotation);
    var n := GetRotatedShape(shape, rotation);
    var hit := ShapeCollidesGrid(n, grid, IVec2(0, 0));
    if !hit {
      assert Moved(n, IVec2(0, 0)) == n;
      return true, n;
    }
    var testIndex := 0;
    while testIndex < 4
      invariant 0 <= testIndex <= 4
      invariant FirstFree(n, g, grid.cols, grid.rows, cands)
             == FirstFree(n, g, grid.cols, grid.rows, cands[testIndex + 1..])
    {
      var kick := KickOffset(n.kind, shape.rotationIndex, rotation, testIndex);
      assert cands[testIndex + 1..][0] == kick;
      hit := ShapeCollidesGrid(n, grid, kick);
      if !hit {
        return true, n.(anchor := Add(n.anchor, kick));
      }
      assert cands[testIndex + 1..][1..] == cands[testIndex + 2..];
      testIndex := testIndex + 1;
    }
    return false, shape;
  }

  /** A committed turn leaves the shape free of the grid, and a refused one leaves it as it
      was because every candidate collides. */
  lemma RotateResultFree(s: Shape, g: seq<int>, cols: int, rows: int, rotation: Rotation)
    requires Playable(s) && 0 <= cols && 0 <= rows && |g| == cols * rows
    ensures var r := RotateResult(s, g, cols, rows, rotation);
            (r.Some? ==> Playable(r.value) && !Collides(r.value, g, cols, rows, IVec2(0, 0)) &&
                         r.value.rotationIndex == NextRotationIndex(s.rotationIndex, rotation)) &&
            (r.None? ==> Collides(Rotated(s, rotation), g, cols, rows, IVec2(0, 0)))
  {
    FirstFreeFacts(Rotated(s, rotation), g, cols, rows, Candidates(s.kind, s.rotationIndex, rotation));
  }

  // ---------------------------------------------------------------------------------------
  // Placing

  /** Whether shape cell `(sc, sr)` comes before the cursor `(vc, vr)` of `placeShape`'s
      column-by-column scan. */
  predicate Visited(sc: int, sr: int, vc: int, vr: int)
  {
    sc < vc || (sc == vc && sr < vr)
  }

  /** Grid cell `(c, r)` once the blocks of `s` visited before `(vc, vr)` are written: the
      filled block of `s` over it, else the old cell. */
  function PlacedCell(g: seq<int>, cols: int, rows: int, s: Shape, vc: int, vr: int, c: int, r: int): int
    requires ShapeOk(s) && 0 <= cols && 0 <= rows && |g| == cols * rows
  {
    var sc, sr := c - s.anchor.x, r - s.anchor.y;
    if !ShapeOutOfBounds(s, sc, sr) && ShapeGet(s, sc, sr) != 0 && Visited(sc, sr, vc, vr)
    then ShapeGet(s, sc, sr) else GridGet(g, cols, rows, c, r)
  }

  function PlacedUpTo(g: seq<int>, cols: int, rows: int, s: Shape, vc: int, vr: int): (rs: seq<seq<int>>)
    requires ShapeOk(s) && 0 <= cols && 0 <= rows && |g| == cols * rows
    ensures |rs| == rows && forall r :: 0 <= r < rows ==> |rs[r]| == cols
  {
    seq(rows, r => seq(cols, c => PlacedCell(g, cols, rows, s, vc, vr, c, r)))
  }

  /** The grid after `placeShape`, row by row: every filled block of `s` that lands on the
      grid is written over its cell, blocks off the grid are dropped, and every other cell
      keeps its value. */
  function Placed(g: seq<int>, cols: int, rows: int, s: Shape): (rs: seq<seq<int>>)
    requires ShapeOk(s) && 0 <= cols && 0 <= rows && |g| == cols * rows
    ensures |rs| == rows && forall r :: 0 <= r < rows ==> |rs[r]| == cols
    ensures forall c, r :: 0 <= c < cols && 0 <= r < rows ==>
      rs[r][c] == if !ShapeOutOfBounds(s, c - s.anchor.x, r - s.anchor.y) &&
                     ShapeGet(s, c - s.anchor.x, r - s.anchor.y) != 0
                  then ShapeGet(s, c - s.anchor.x, r - s.anchor.y) else GridGet(g, cols, rows, c, r)
  {
    PlacedUpTo(g, cols, rows, s, s.cols, 0)
  }

  /** Writing block `(sc, sr)` advances the scan by one block. */
  lemma PlaceStep(g0: seq<int>, g: seq<int>, cols: int, rows: int, s: Shape, sc: int, sr: int)
    requires ShapeOk(s) && 0 <= cols && 0 <= rows && |g0| == cols * rows && |g| == cols * rows
    requires 0 <= sc < s.cols && 0 <= sr < s.rows
    requires RowsOf(g, cols, rows) == PlacedUpTo(g0, cols, rows, s, sc, sr)
    ensures var v := ShapeGet(s, sc, sr);
            v != 0 ==> RowsOf(GridSet(g, cols, rows, sc + s.anchor.x, sr + s.anchor.y, v), cols, rows)
                       == PlacedUpTo(g0, cols, rows, s, sc, sr + 1)
    ensures ShapeGet(s, sc, sr) == 0 ==> RowsOf(g, cols, rows) == PlacedUpTo(g0, cols, rows, s, sc, sr + 1)
  {
    var v := ShapeGet(s, sc, sr);
    var gc, gr := sc + s.anchor.x, sr + s.anchor.y;
    var before := PlacedUpTo(g0, cols, rows, s, sc, sr);
    var after := PlacedUpTo(g0, cols, rows, s, sc, sr + 1);
    RowsOfSet(g, cols, rows, gc, gr, v);
    if v != 0 && !OutOfBounds(cols, rows, gc, gr) {
      forall r | 0 <= r < rows ensures after[r] == before[gr := before[gr][gc := v]][r] {
        assert after[r] == before[gr := before[gr][gc := v]][r];
      }
    } else {
      forall r | 0 <= r < rows ensures after[r] == before[r] {
        assert after[r] == before[r];
      }
    }
  }

  /** Finishing a column of the scan is starting the next one. */
  lemma PlaceNextColumn(g0: seq<int>, cols: int, rows: int, s: Shape, sc: int)
    requires ShapeOk(s) && 0 <= cols && 0 <= rows && |g0| == cols * rows
    ensures PlacedUpTo(g0, cols, rows, s, sc, s.rows) == PlacedUpTo(g0, cols, rows, s, sc + 1, 0)
  {
    var a := PlacedUpTo(g0, cols, rows, s, sc, s.rows);
    var b := PlacedUpTo(g0, cols, rows, s, sc + 1, 0);
    forall r | 0 <= r < rows ensures a[r] == b[r] {
      assert a[r] == b[r];
    }
  }

  /** Before the scan nothing is written. */
  lemma PlaceStart(g0: seq<int>, cols: int, rows: int, s: Shape)
    requires ShapeOk(s) && 0 <= cols && 0 <= rows && |g0| == cols * rows
    ensures PlacedUpTo(g0, cols, rows, s, 0, 0) == RowsOf(g0, cols, rows)
  {
    var a := PlacedUpTo(g0, cols, rows, s, 0, 0);
    forall r | 0 <= r < rows ensures a[r] == RowsOf(g0, cols, rows)[r] {
      assert a[r] == RowsOf(g0, cols, rows)[r];
    }
  }

  /** `placeShape`: writes every filled block of the shape to the grid cell under it. */
  method PlaceShape(shape: Shape, grid: Grid)
    requires ShapeOk(shape) && grid.Valid()
    modifies grid.cells
    ensures grid.Rows() == Placed(old(grid.cells[..]), grid.cols, grid.rows, shape)
  {
    ghost var g0 := grid.cells[..];
    var sc := 0;
    PlaceStart(g0, grid.cols, grid.rows, shape);
    while sc < shape.cols
      invariant 0 <= sc <= shape.cols
      invariant grid.Rows() == PlacedUpTo(g0, grid.cols, grid.rows, shape, sc, 0)
    {
      var sr := 0;
      while sr < shape.rows
        invariant 0 <= sr <= shape.rows
        invariant grid.Rows() == PlacedUpTo(g0, grid.cols, grid.rows, shape, sc, sr)
      {
        var sblock := ShapeGet(shape, sc, sr);
        PlaceStep(g0, grid.cells[..], grid.cols, grid.rows, shape, sc, sr);
        if sblock != 0 {
          var gc := sc + shape.anchor.x;
          var gr := sr + shape.anchor.y;
          grid.Set(gc, gr, sblock);
        }
        sr := sr + 1;
      }
      PlaceNextColumn(g0, grid.cols, grid.rows, shape, sc);
      sc := sc + 1;
    }
  }

  // ---------------------------------------------------------------------------------------
  // Line clearing

  /** A row with no empty cell. */
  predicate RowFull(row: seq<int>)
  {
    forall c :: 0 <= c < |row| ==> row[c] != 0
  }

  /** The rows that are not full, in their order. */
  function KeepRows(rs: seq<seq<int>>): (k: seq<seq<int>>)
    ensures |k| <= |rs|
  {
    if rs == [] then []
    else KeepRows(rs[..|rs| - 1]) + (if RowFull(rs[|rs| - 1]) then [] else [rs[|rs| - 1]])
  }

  /** No kept row is full. */
  lemma {:induction false} KeepRowsNotFull(rs: seq<seq<int>>)
    ensures forall i :: 0 <= i < |KeepRows(rs)| ==> !RowFull(KeepRows(rs)[i])
  {
    if rs != [] {
      KeepRowsNotFull(rs[..|rs| - 1]);
    }
  }

  /** The number of full rows. */
  function FullCount(rs: seq<seq<int>>): (n: int)
    ensures n == |rs| - |KeepRows(rs)|
  {
    if rs == [] then 0
    else FullCount(rs[..|rs| - 1]) + (if RowFull(rs[|rs| - 1]) then 1 else 0)
  }

  lemma KeepRowsSnoc(rs: seq<seq<int>>, row: seq<int>)
    ensures KeepRows(rs + [row]) == KeepRows(rs) + (if RowFull(row) then [] else [row])
    ensures FullCount(rs + [row]) == FullCount(rs) + (if RowFull(row) then 1 else 0)
  {
    assert (rs + [row])[..|rs|] == rs;
  }

  function ZeroRows(n: int, cols: int): (z: seq<seq<int>>)
    requires 0 <= n && 0 <= cols
    ensures |z| == n && forall i :: 0 <= i < n ==> z[i] == Zeros(cols)
  {
    seq(n, _ => Zeros(cols))
  }

  /** The grid after line clearing: the rows that were not full, moved down to the bottom in
      their order, with empty rows above in place of the full ones. */
  function Cleared(rs: seq<seq<int>>, cols: int): (r: seq<seq<int>>)
    requires 0 <= cols
    ensures |r| == |rs|
  {
    KeepRows(rs) + ZeroRows(FullCount(rs), cols)
  }

  /** The rows while `clearLines` runs: the kept rows of the examined prefix, the rows not
      yet examined, and one empty row per row removed. */
  function ClearState(rs: seq<seq<int>>, gr: int, cleared: int, cols: int): seq<seq<int>>
    requires 0 <= gr && 0 <= cleared && gr + cleared <= |rs| && 0 <= cols
  {
    KeepRows(rs[..gr + cleared]) + rs[gr + cleared..] + ZeroRows(cleared, cols)
  }

  /** The counters of `clearLines`: `gr` rows kept and `cleared` rows removed so far, out
      of the first `gr + cleared` rows. */
  predicate ClearInv(rs: seq<seq<int>>, gr: int, cleared: int)
  {
    0 <= gr && 0 <= cleared && gr + cleared <= |rs| &&
    |KeepRows(rs[..gr + cleared])| == gr && FullCount(rs[..gr + cleared]) == cleared
  }

  lemma ClearStateStart(rs: seq<seq<int>>, cols: int)
    requires 0 <= cols
    ensures ClearInv(rs, 0, 0) && ClearState(rs, 0, 0, cols) == rs
  {
    assert rs[..0] == [];
  }

  lemma ClearStateEnd(rs: seq<seq<int>>, gr: int, cleared: int, cols: int)
    requires 0 <= cols && ClearInv(rs, gr, cleared) && gr + cleared == |rs|
    ensures ClearState(rs, gr, cleared, cols) == Cleared(rs, cols) && cleared == FullCount(rs)
  {
    assert rs[..gr + cleared] == rs;
    assert cleared == FullCount(rs);
    DropEmptyMiddle(KeepRows(rs), rs[gr + cleared..], ZeroRows(cleared, cols));
  }

  lemma DropEmptyMiddle<T>(a: seq<T>, b: seq<T>, c: seq<T>)
    requires b == []
    ensures a + b + c == a + c
  {
  }

  /** The row the loop examines is the next original row. */
  lemma ClearStateRow(rs: seq<seq<int>>, gr: int, cleared: int, cols: int)
    requires ClearInv(rs, gr, cleared) && gr + cleared < |rs| && 0 <= cols
    ensures var cur := ClearState(rs, gr, cleared, cols);
            |cur| == |rs| && cur[gr] == rs[gr + cleared]
  {
  }

  /** A full row is removed by the shift and the emptied top row. */
  lemma ClearStateFull(rs: seq<seq<int>>, gr: int, cleared: int, cols: int, cur: seq<seq<int>>, top: int)
    requires ClearInv(rs, gr, cleared) && gr + cleared < |rs| && 0 <= cols && top == |rs| - 1
    requires RowFull(rs[gr + cleared])
    requires cur == ClearState(rs, gr, cleared, cols)
    ensures ShiftAsWritten(cur, gr)[top := Zeros(cols)] == ClearState(rs, gr, cleared + 1, cols)
    ensures ClearInv(rs, gr, cleared + 1)
  {
    var prefix := rs[..gr + cleared];
    var row := rs[gr + cleared];
    ClearInvFull(rs, gr, cleared, prefix, row);
    var kept := KeepRows(prefix);
    var after := rs[gr + cleared + 1..];
    assert rs[gr + cleared..] == [row] + after;
    var zeros := ZeroRows(cleared, cols);
    assert ZeroRows(cleared + 1, cols) == zeros + [Zeros(cols)];
    ShiftOutRow(kept, row, after, zeros, Zeros(cols));
  }

  /** The counters after a full row. */
  lemma ClearInvFull(rs: seq<seq<int>>, gr: int, cleared: int, prefix: seq<seq<int>>, row: seq<int>)
    requires ClearInv(rs, gr, cleared) && gr + cleared < |rs|
    requires prefix == rs[..gr + cleared] && row == rs[gr + cleared] && RowFull(row)
    ensures KeepRows(rs[..gr + cleared + 1]) == KeepRows(prefix)
    ensures ClearInv(rs, gr, cleared + 1)
  {
    assert rs[..gr + cleared + 1] == prefix + [row];
    KeepRowsSnoc(prefix, row);
  }

  /** Shifting the rows above `row` down by one and emptying the top row. */
  lemma ShiftOutRow<T>(kept: seq<T>, row: T, after: seq<T>, zeros: seq<T>, empty: T)
    ensures var cur := kept + ([row] + after) + zeros;
            ShiftAsWrittenOf(cur, |kept|)[|cur| - 1 := empty] == kept + after + (zeros + [empty])
  {
    var cur := kept + ([row] + after) + zeros;
    SplitAround(kept, row, after, zeros);
    var body := kept + after + zeros;
    assert ShiftAsWrittenOf(cur, |kept|) == body + [cur[|cur| - 1]];
    ReplaceLast(body, cur[|cur| - 1], empty);
  }

  lemma SplitAround<T>(a: seq<T>, x: T, b: seq<T>, c: seq<T>)
    ensures var s := a + ([x] + b) + c;
            s[..|a|] == a && s[|a| + 1..] == b + c
  {
    var s := a + ([x] + b) + c;
    assert s == a + [x] + (b + c);
  }

  lemma ReplaceLast<T>(s: seq<T>, x: T, y: T)
    ensures (s + [x])[|s| := y] == s + [y]
  {
  }

  /** A row that is not full is kept. */
  lemma ClearStateKeep(rs: seq<seq<int>>, gr: int, cleared: int, cols: int)
    requires ClearInv(rs, gr, cleared) && gr + cleared < |rs| && 0 <= cols
    requires !RowFull(rs[gr + cleared])
    ensures ClearState(rs, gr, cleared, cols) == ClearState(rs, gr + 1, cleared, cols)
    ensures ClearInv(rs, gr + 1, cleared)
  {
    var prefix := rs[..gr + cleared];
    var row := rs[gr + cleared];
    assert rs[..gr + cleared + 1] == prefix + [row];
    KeepRowsSnoc(prefix, row);
    assert rs[gr + cleared..] == [row] + rs[gr + cleared + 1..];
  }

  /** With at least one column, clearing leaves no full row, and clearing again changes
      nothing. */
  lemma ClearedSettled(rs: seq<seq<int>>, cols: int)
    requires 0 < cols && forall i :: 0 <= i < |rs| ==> |rs[i]| == cols
    ensures forall i :: 0 <= i < |rs| ==> !RowFull(Cleared(rs, cols)[i])
    ensures FullCount(Cleared(rs, cols)) == 0 && Cleared(Cleared(rs, cols), cols) == Cleared(rs, cols)
  {
    var c := Cleared(rs, cols);
    KeepRowsNotFull(rs);
    forall i | 0 <= i < |rs| ensures !RowFull(c[i]) {
      if i >= |KeepRows(rs)| {
        assert c[i] == Zeros(cols) && c[i][0] == 0;
      }
    }
    NoneFull(c);
  }

  lemma {:induction false} NoneFull(rs: seq<seq<int>>)
    requires forall i :: 0 <= i < |rs| ==> !RowFull(rs[i])
    ensures KeepRows(rs) == rs && FullCount(rs) == 0
  {
    if rs != [] {
      NoneFull(rs[..|rs| - 1]);
    }
  }

  /** The row shift as written (the top row is copied down and also kept). */
  function ShiftAsWritten(rs: seq<seq<int>>, line: int): (r: seq<seq<int>>)
    requires 0 <= line < |rs|
    ensures |r| == |rs|
  {
    ShiftAsWrittenOf(rs, line)
  }

  function ShiftAsWrittenOf<T>(rs: seq<T>, line: int): (r: seq<T>)
    requires 0 <= line < |rs|
    ensures |r| == |rs|
  {
    rs[..line] + rs[line + 1..] + [rs[|rs| - 1]]
  }

  /** The rows during the shift loop, before copying row `swap` down. */
  function ShiftPartial(rs: seq<seq<int>>, line: int, swap: int): (r: seq<seq<int>>)
    requires 0 <= line < swap <= |rs|
    ensures line + 1 == swap ==> r == rs
    ensures swap == |rs| ==> r == ShiftAsWritten(rs, line)
  {
    assert rs[..line] + rs[line + 1..line + 1] + rs[line..] == rs;
    rs[..line] + rs[line + 1..swap] + rs[swap - 1..]
  }

  lemma ShiftPartialStep(rs: seq<seq<int>>, line: int, swap: int)
    requires 0 <= line < swap < |rs|
    ensures ShiftPartial(rs, line, swap)[swap - 1 := rs[swap]] == ShiftPartial(rs, line, swap + 1)
  {
  }

  /** One pass of the outer loop of `clearLines` as written, from the state `(rows, gr)` at
      the loop test: a full row is shifted out and `gr--; gr++` leaves `gr` in place. */
  function ClearStepAsWritten(rs: seq<seq<int>>, gr: int): (seq<seq<int>>, int)
    requires 0 <= gr < |rs|
  {
    if RowFull(rs[gr]) then (ShiftAsWritten(rs, gr), gr) else (rs, gr + 1)
  }

  /** The line-clearing defects as written: clearing a row below the top leaves the top row
      in place as well as one row down; and a full top row is a fixed point of the loop with
      `gr < rows`, so the loop never ends. */
  lemma ClearLinesAsWrittenDefects(rs: seq<seq<int>>, line: int)
    requires 0 <= line < |rs| - 1
    ensures var sh := ShiftAsWritten(rs, line);
            sh[|rs| - 1] == rs[|rs| - 1] && sh[|rs| - 2] == rs[|rs| - 1]
    ensures RowFull(rs[|rs| - 1]) ==> ClearStepAsWritten(rs, |rs| - 1) == (rs, |rs| - 1)
  {
    assert rs[..|rs| - 1] + rs[|rs|..] + [rs[|rs| - 1]] == rs;
  }

  // ---------------------------------------------------------------------------------------
  // The 7-bag randomiser

  /** The random draws of one `generateNextPieces`: the insert position of each of the seven
      shapes (at most the number already inserted) and the partner of each swap (a position
      of the full bag).  `rand_im` itself, in lith/random.h, is not part of this model. */
  predicate DrawsOk(inserts: seq<int>, swaps: seq<int>)
  {
    |inserts| == 7 && |swaps| == 7 &&
    (forall i :: 0 <= i < 7 ==> 0 <= inserts[i] <= i) &&
    (forall i :: 0 <= i < 7 ==> 0 <= swaps[i] < 7)
  }

  /** `bag2` after the first `n` inserts of `ShapeLookup[i]` at position `inserts[i]`. */
  function Inserted(inserts: seq<int>, n: nat): (b: seq<Shape>)
    requires n <= 7 && |inserts| == 7 && forall i :: 0 <= i < 7 ==> 0 <= inserts[i] <= i
    ensures |b| == n
  {
    if n == 0 then []
    else
      var b := Inserted(inserts, n - 1);
      b[..inserts[n - 1]] + [ShapeLookup[n - 1]] + b[inserts[n - 1]..]
  }

  function Swap(b: seq<Shape>, i: int, j: int): (r: seq<Shape>)
    requires 0 <= i < |b| && 0 <= j < |b|
    ensures |r| == |b|
  {
    b[i := b[j]][j := b[i]]
  }

  /** `bag2` after the first `n` swaps of position `i` with position `swaps[i]`. */
  function Shuffled(b: seq<Shape>, swaps: seq<int>, n: nat): (r: seq<Shape>)
    requires n <= 7 && |b| == 7 && |swaps| == 7 && forall i :: 0 <= i < 7 ==> 0 <= swaps[i] < 7
    ensures |r| == 7
  {
    if n == 0 then b else Swap(Shuffled(b, swaps, n - 1), n - 1, swaps[n - 1])
  }

  /** The next seven shapes `generateNextPieces` lays out for the given draws. */
  function NextPieces(inserts: seq<int>, swaps: seq<int>): seq<Shape>
    requires DrawsOk(inserts, swaps)
  {
    Shuffled(Inserted(inserts, 7), swaps, 7)
  }

  lemma {:induction false} InsertedPermutation(inserts: seq<int>, n: nat)
    requires n <= 7 && |inserts| == 7 && forall i :: 0 <= i < 7 ==> 0 <= inserts[i] <= i
    ensures multiset(Inserted(inserts, n)) == multiset(ShapeLookup[..n])
  {
    if n > 0 {
      InsertedPermutation(inserts, n - 1);
      InsertMultiset(Inserted(inserts, n - 1), inserts[n - 1], ShapeLookup[n - 1]);
      PrefixMultiset(ShapeLookup, n);
    }
  }

  /** Inserting `x` anywhere adds one `x`. */
  lemma InsertMultiset<T>(b: seq<T>, k: int, x: T)
    requires 0 <= k <= |b|
    ensures multiset(b[..k] + [x] + b[k..]) == multiset(b) + multiset{x}
  {
    assert b == b[..k] + b[k..];
  }

  /** A prefix one longer has one more element. */
  lemma PrefixMultiset<T>(s: seq<T>, n: int)
    requires 0 < n <= |s|
    ensures multiset(s[..n]) == multiset(s[..n - 1]) + multiset{s[n - 1]}
  {
    assert s[..n] == s[..n - 1] + [s[n - 1]];
  }

  lemma {:induction false} ShuffledPermutation(b: seq<Shape>, swaps: seq<int>, n: nat)
    requires n <= 7 && |b| == 7 && |swaps| == 7 && forall i :: 0 <= i < 7 ==> 0 <= swaps[i] < 7
    ensures multiset(Shuffled(b, swaps, n)) == multiset(b)
  {
    if n > 0 {
      ShuffledPermutation(b, swaps, n - 1);
      var c := Shuffled(b, swaps, n - 1);
      SwapPermutation(c, n - 1, swaps[n - 1]);
    }
  }

  lemma SwapPermutation(b: seq<Shape>, i: int, j: int)
    requires 0 <= i < |b| && 0 <= j < |b|
    ensures multiset(Swap(b, i, j)) == multiset(b)
  {
    if i != j {
      var b1 := b[i := b[j]];
      assert multiset(b1) == multiset(b) - multiset{b[i]} + multiset{b[j]};
      assert multiset(b1[j := b[i]]) == multiset(b1) - multiset{b1[j]} + multiset{b[i]};
    }
  }

  /** Every batch of seven is a permutation of the seven tetrominoes: each shape exactly
      once. */
  lemma NextPiecesPermutation(inserts: seq<int>, swaps: seq<int>)
    requires DrawsOk(inserts, swaps)
    ensures multiset(NextPieces(inserts, swaps)) == multiset(ShapeLookup)
    ensures forall k :: 0 <= k < 7 ==> ShapeLookup[k] in NextPieces(inserts, swaps)
  {
    InsertedPermutation(inserts, 7);
    ShuffledPermutation(Inserted(inserts, 7), swaps, 7);
    assert ShapeLookup[..7] == ShapeLookup;
    forall k | 0 <= k < 7 ensures ShapeLookup[k] in NextPieces(inserts, swaps) {
      assert ShapeLookup[k] in multiset(ShapeLookup);
    }
  }

  /** `RandomBag`: `bag` is drawn from the back; `bag2` holds the batch after it, so that the
      upcoming pieces can always be shown. */
  class RandomBag {
    var bag: seq<Shape>
    var bag2: seq<Shape>

    constructor ()
      ensures bag == [] && bag2 == []
    {
      bag, bag2 := [], [];
    }

    /** `generateNextPieces`: `bag2` moves into `bag` (leaving `bag2` empty), then each
        shape is inserted into `bag2` at a random position and `bag2` is shuffled by seven
        random swaps. */
    method GenerateNextPieces(inserts: seq<int>, swaps: seq<int>)
      requires DrawsOk(inserts, swaps)
      modifies this
      ensures bag == old(bag2) && bag2 == NextPieces(inserts, swaps)
    {
      var next: seq<Shape> := [];
      var i := 0;
      while i < 7
        invariant 0 <= i <= 7 && next == Inserted(inserts, i)
      {
        next := next[..inserts[i]] + [ShapeLookup[i]] + next[inserts[i]..];
        i := i + 1;
      }
      i := 0;
      ghost var laid := next;
      while i < 7
        invariant 0 <= i <= 7 && next == Shuffled(laid, swaps, i)
      {
        next := Swap(next, i, swaps[i]);
        i := i + 1;
      }
      bag, bag2 := bag2, next;
    }

    /** `getNextShape`: refills when `bag` is empty, then pops its back.  The back of an
        empty vector is undefined, so one of the two bags must hold a shape. */
    method GetNextShape(inserts: seq<int>, swaps: seq<int>) returns (out: Shape)
      requires DrawsOk(inserts, swaps) && (bag != [] || bag2 != [])
      modifies this
      ensures var src := if old(bag) == [] then old(bag2) else old(bag);
              out == src[|src| - 1] && bag == src[..|src| - 1]
      ensures bag2 == if old(bag) == [] then NextPieces(inserts, swaps) else old(bag2)
    {
      if bag == [] {
        GenerateNextPieces(inserts, swaps);
      }
      out := bag[|bag| - 1];
      bag := bag[..|bag| - 1];
    }

    /** `RandomBag::reset`: two refills, so both batches are fresh. */
    method Reset(inserts1: seq<int>, swaps1: seq<int>, inserts2: seq<int>, swaps2: seq<int>)
      requires DrawsOk(inserts1, swaps1) && DrawsOk(inserts2, swaps2)
      modifies this
      ensures bag == NextPieces(inserts1, swaps1) && bag2 == NextPieces(inserts2, swaps2)
    {
      GenerateNextPieces(inserts1, swaps1);
      GenerateNextPieces(inserts2, swaps2);
    }
  }
}
