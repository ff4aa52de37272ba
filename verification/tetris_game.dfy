/** The game loop of lithProjects/lithTetris/src/sketch.cpp: spawning, the automatic drop,
    locking, player moves, turns, hard drop, hold, scoring, reset and pause, over a 10 x 20
    grid.

    The three timers are reduced to whether they fired this frame, and the keys to the one
    button pressed; sounds, drawing, fonts and the score text are not modelled. */
module TetrisGame {
  import opened Tetris

  const GridCols: int := 10
  const GridRows: int := 20

  /** The initial `lithTimer(1.f)` delay of the automatic drop, in seconds. */
  const InitialMoveDownDelay: real := 1.0

  /** The delays of the input timer: its initial `lithTimer(.03f)` and the repeat delay, and
      the longer delay before the first repeat. */
  const InputRepeatDelay: real := 0.03
  const InputFirstDelay: real := 0.1

  /** The random draws one refill of the bag consumes. */
  datatype Draws = Draws(inserts: seq<int>, swaps: seq<int>)

  predicate DrawsValid(d: Draws)
  {
    DrawsOk(d.inserts, d.swaps)
  }

  /** The buttons the game reacts to (`keyCodeOnce` / `keyCode` compared with `Button`). */
  datatype Key = NoKey | RotateClockwiseKey | RotateCounterClockwiseKey | HardDropKey | HoldKey
               | ResetKey | EscapeKey | OtherKey

  /** What one call of `gameUpdate` sees: which timers fired, which direction keys are held
      down, the button pressed this frame, and the draws of the refills it may need. */
  datatype Frame = Frame(
    moveDownFired: bool,
    lockFired: bool,
    inputFired: bool,
    left: bool,
    right: bool,
    down: bool,
    keyOnce: Key,
    lockDraws: Draws,
    dropDraws: Draws,
    holdDraws: Draws)

  predicate FrameOk(f: Frame)
  {
    DrawsValid(f.lockDraws) && DrawsValid(f.dropDraws) && DrawsValid(f.holdDraws)
  }

  /** The score for clearing `n` lines at once; other counts add nothing. */
  function ScoreFor(n: int): (points: int)
    ensures points >= 0
    ensures n <= 0 || n > 4 <==> points == 0
  {
    if n == 1 then 100
    else if n == 2 then 300
    else if n == 3 then 800
    else if n == 4 then 1200
    else 0
  }

  /** More lines at once always score more, and more than that many single clears would. */
  lemma ScoreForGrows(n: int)
    requires 1 <= n < 4
    ensures ScoreFor(n) < ScoreFor(n + 1) && n * ScoreFor(1) <= ScoreFor(n)
  {
  }

  /** Where a spawned shape appears: centred (rounding the shape's half width up) and two
      rows above the top of the grid. */
  function SpawnAnchor(gridCols: int, gridRows: int, shapeCols: int): (a: IVec2)
    requires 0 <= gridCols
    ensures a.y == gridRows + 1
    ensures 0 <= shapeCols ==> 2 * a.x + shapeCols <= gridCols <= 2 * a.x + shapeCols + 2
  {
    IVec2(gridCols / 2 - (shapeCols + 1) / 2, gridRows + 1)
  }

  /** The shape has at least one filled block. */
  predicate HasBlock(s: Shape)
    requires ShapeOk(s)
  {
    exists sc, sr :: 0 <= sc < s.cols && 0 <= sr < s.rows && ShapeGet(s, sc, sr) != 0
  }

  /** The shapes the game can be handed: the seven tetrominoes in spawn orientation. */
  lemma LookupHasBlock(s: Shape)
    requires s in ShapeLookup
    ensures Playable(s) && HasBlock(s)
  {
    LookupPlayable();
    assert ShapeGet(s, 1, 0) != 0;
  }

  /** A shape keeps its blocks when it moves or turns. */
  lemma HasBlockKept(s: Shape, move: IVec2, rotation: Rotation)
    requires Playable(s) && HasBlock(s)
    ensures HasBlock(Moved(s, move)) && HasBlock(Moved(Rotated(s, rotation), move))
  {
    HasBlockMoved(s, move);
    HasBlockRotated(s, rotation);
    HasBlockMoved(Rotated(s, rotation), move);
  }

  lemma HasBlockMoved(s: Shape, move: IVec2)
    requires ShapeOk(s) && HasBlock(s)
    ensures HasBlock(Moved(s, move))
  {
    var sc, sr :| 0 <= sc < s.cols && 0 <= sr < s.rows && ShapeGet(s, sc, sr) != 0;
    ShapeGetMoved(s, move, sc, sr);
  }

  lemma HasBlockRotated(s: Shape, rotation: Rotation)
    requires Playable(s) && HasBlock(s)
    ensures HasBlock(Rotated(s, rotation))
  {
    var sc, sr :| 0 <= sc < s.cols && 0 <= sr < s.rows && ShapeGet(s, sc, sr) != 0;
    RotatedGet(s, sc, sr);
    var r := Rotated(s, rotation);
    var x, y := if rotation == Clockwise then sr else s.rows - 1 - sr,
                if rotation == Clockwise then s.cols - 1 - sc else sc;
    assert 0 <= x < r.cols && 0 <= y < r.rows && ShapeGet(r, x, y) != 0;
  }

  /** Every shape waiting in the bag is a tetromino and the second batch is full. */
  predicate BagOk(bag: seq<Shape>, bag2: seq<Shape>)
  {
    |bag2| == 7 && (forall x :: x in bag ==> x in ShapeLookup) && (forall x :: x in bag2 ==> x in ShapeLookup)
  }

  lemma NextPiecesOk(d: Draws)
    requires DrawsValid(d)
    ensures |NextPieces(d.inserts, d.swaps)| == 7
    ensures forall x :: x in NextPieces(d.inserts, d.swaps) ==> x in ShapeLookup
  {
    NextPiecesPermutation(d.inserts, d.swaps);
    forall x | x in NextPieces(d.inserts, d.swaps) ensures x in ShapeLookup {
      assert x in multiset(NextPieces(d.inserts, d.swaps));
    }
  }

  /** The shape `spawnNextShape` puts in play. */
  function Spawned(s: Shape): Shape
  {
    s.(anchor := SpawnAnchor(GridCols, GridRows, s.cols))
  }

  /** Only the anchor changes when a shape is put somewhere else. */
  lemma AnchorKeepsBlocks(s: Shape, a: IVec2)
    requires ShapeOk(s) && HasBlock(s)
    ensures ShapeOk(s.(anchor := a)) && HasBlock(s.(anchor := a))
  {
    var sc, sr :| 0 <= sc < s.cols && 0 <= sr < s.rows && ShapeGet(s, sc, sr) != 0;
    assert ShapeGet(s.(anchor := a), sc, sr) != 0;
  }

  lemma SpawnedOk(s: Shape)
    requires s in ShapeLookup
    ensures Playable(Spawned(s)) && HasBlock(Spawned(s))
  {
    LookupHasBlock(s);
    AnchorKeepsBlocks(s, SpawnAnchor(GridCols, GridRows, s.cols));
  }

  /** The bag stays well stocked across `getNextShape`, and hands out a tetromino. */
  lemma PopOk(bag: seq<Shape>, bag2: seq<Shape>, d: Draws)
    requires BagOk(bag, bag2) && DrawsValid(d)
    ensures var src := if bag == [] then bag2 else bag;
            var bag2' := if bag == [] then NextPieces(d.inserts, d.swaps) else bag2;
            src != [] && src[|src| - 1] in ShapeLookup && BagOk(src[..|src| - 1], bag2')
  {
    NextPiecesOk(d);
    var src := if bag == [] then bag2 else bag;
    assert src[|src| - 1] in src;
    forall x | x in src[..|src| - 1] ensures x in ShapeLookup {
      var i :| 0 <= i < |src| - 1 && src[..|src| - 1][i] == x;
      assert src[i] == x;
    }
  }

  /** What `spawnNextShape` does to the bag and the current shape: the back of `bag`, or of
      the refilled batch when `bag` is empty, is popped and put at the spawn anchor. */
  predicate SpawnStep(bag: seq<Shape>, bag2: seq<Shape>, d: Draws, current: Shape, bag': seq<Shape>, bag2': seq<Shape>)
    requires DrawsValid(d)
  {
    var src := if bag == [] then bag2 else bag;
    src != [] && current == Spawned(src[|src| - 1]) && bag' == src[..|src| - 1] &&
    bag2' == if bag == [] then NextPieces(d.inserts, d.swaps) else bag2
  }

  /** The shape after `tryMoveShape(shape, grid, move)`. */
  function AfterMove(s: Shape, g: seq<int>, move: IVec2): Shape
    requires ShapeOk(s) && |g| == GridCols * GridRows
  {
    if Collides(Moved(s, move), g, GridCols, GridRows, IVec2(0, 0)) then s else Moved(s, move)
  }

  /** A move never puts a free shape into the stack or the walls, and keeps its blocks. */
  lemma AfterMoveFacts(s: Shape, g: seq<int>, move: IVec2)
    requires Playable(s) && HasBlock(s) && |g| == GridCols * GridRows
    ensures Playable(AfterMove(s, g, move)) && HasBlock(AfterMove(s, g, move))
    ensures !Collides(s, g, GridCols, GridRows, IVec2(0, 0)) ==>
              !Collides(AfterMove(s, g, move), g, GridCols, GridRows, IVec2(0, 0))
    ensures AfterMove(s, g, move) != s ==> AfterMove(s, g, move) == Moved(s, move)
  {
    AnchorKeepsBlocks(s, Add(s.anchor, move));
  }

  /** The moves of the held direction keys: sideways by `dx`, then down by `dy`, each one
      undone when the shape would collide. */
  method MoveByKeys(s0: Shape, grid: Grid, dx: int, dy: int) returns (s: Shape)
    requires Playable(s0) && HasBlock(s0) && grid.Valid() && grid.cols == GridCols && grid.rows == GridRows
    ensures Playable(s) && HasBlock(s)
    ensures var g := grid.cells[..];
            var sideways := if dx != 0 then AfterMove(s0, g, IVec2(dx, 0)) else s0;
            s == if dy != 0 then AfterMove(sideways, g, IVec2(0, dy)) else sideways
  {
    s := s0;
    var moved;
    if dx != 0 {
      AfterMoveFacts(s, grid.cells[..], IVec2(dx, 0));
      moved, s := TryMoveShape(s, grid, IVec2(dx, 0));
    }
    if dy != 0 {
      AfterMoveFacts(s, grid.cells[..], IVec2(0, dy));
      moved, s := TryMoveShape(s, grid, IVec2(0, dy));
    }
  }

  /** A turn the grid accepts keeps the shape playable and its blocks. */
  lemma TurnKeepsBlocks(s: Shape, g: seq<int>, rotation: Rotation)
    requires Playable(s) && HasBlock(s) && |g| == GridCols * GridRows
    ensures var r := RotateResult(s, g, GridCols, GridRows, rotation);
            r.Some? ==> Playable(r.value) && HasBlock(r.value)
  {
    var n := Rotated(s, rotation);
    var cands := Candidates(s.kind, s.rotationIndex, rotation);
    FirstFreeFacts(n, g, GridCols, GridRows, cands);
    RotateResultFree(s, g, GridCols, GridRows, rotation);
    var r := RotateResult(s, g, GridCols, GridRows, rotation);
    if r.Some? {
      var k :| 0 <= k < |cands| && r.value == Moved(n, cands[k]);
      HasBlockKept(s, cands[k], rotation);
    }
  }

  /** A shape with a block that can still move down is not yet below the floor. */
  lemma DropBound(s: Shape, g: seq<int>)
    requires ShapeOk(s) && HasBlock(s) && |g| == GridCols * GridRows
    requires !Collides(s, g, GridCols, GridRows, IVec2(0, 0))
    ensures s.anchor.y + s.rows > 0
  {
    var sc, sr :| 0 <= sc < s.cols && 0 <= sr < s.rows && ShapeGet(s, sc, sr) != 0;
    FreeShapeInside(s, g, GridCols, GridRows, IVec2(0, 0), sc, sr);
  }

  /** Where a hard drop leaves a shape: moved straight down until one more row down would
      collide. */
  function Dropped(s: Shape, g: seq<int>): (r: Shape)
    requires ShapeOk(s) && HasBlock(s) && |g| == GridCols * GridRows
    ensures r.kind == s.kind && r.blocks == s.blocks && r.cols == s.cols && r.rows == s.rows
    ensures r.rotationIndex == s.rotationIndex
    ensures r.anchor.x == s.anchor.x && r.anchor.y <= s.anchor.y
    ensures Collides(Moved(r, IVec2(0, -1)), g, GridCols, GridRows, IVec2(0, 0))
    ensures r != s ==> !Collides(r, g, GridCols, GridRows, IVec2(0, 0))
    decreases s.anchor.y + s.rows
  {
    var down := Moved(s, IVec2(0, -1));
    if Collides(down, g, GridCols, GridRows, IVec2(0, 0)) then s
    else
      AnchorKeepsBlocks(s, down.anchor);
      DropBound(down, g);
      Dropped(down, g)
  }

  /** The loop of the hard drop: `tryMoveShape` one row down until it fails. */
  method DropShape(shape: Shape, grid: Grid) returns (r: Shape)
    requires Playable(shape) && HasBlock(shape) && grid.Valid()
    requires grid.cols == GridCols && grid.rows == GridRows
    ensures r == Dropped(shape, grid.cells[..])
    ensures Playable(r) && HasBlock(r)
  {
    ghost var g := grid.cells[..];
    r := shape;
    var moved, s := TryMoveShape(r, grid, IVec2(0, -1));
    while moved
      invariant Playable(r) && HasBlock(r) && Dropped(r, g) == Dropped(shape, g)
      invariant moved ==> s == Moved(r, IVec2(0, -1)) && !Collides(s, g, GridCols, GridRows, IVec2(0, 0))
      invariant !moved ==> Collides(Moved(r, IVec2(0, -1)), g, GridCols, GridRows, IVec2(0, 0))
      decreases if moved then s.anchor.y + s.rows else 0
    {
      AnchorKeepsBlocks(r, s.anchor);
      DropBound(s, g);
      r := s;
      moved, s := TryMoveShape(r, grid, IVec2(0, -1));
      if moved {
        AnchorKeepsBlocks(r, s.anchor);
        DropBound(s, g);
      }
    }
  }

  /** The globals of sketch.cpp. */
  class Game {
    const grid: Grid
    const bag: RandomBag
    var current: Shape
    var held: Shape
    var score: int
    var gameOver: bool
    var paused: bool
    var heldShapeThisFrame: bool
    var moveDownDelay: real
    var moves: int
    var inputDelay: real

    ghost predicate Valid()
      reads this, grid, bag
    {
      grid.Valid() && grid.cols == GridCols && grid.rows == GridRows &&
      Playable(current) && HasBlock(current) &&
      (held == EmptyShape || (Playable(held) && HasBlock(held))) &&
      BagOk(bag.bag, bag.bag2)
    }

    /** The global initialisers and `setup`: an empty grid, no held shape, score 0, one
        refill of the bag and the first spawn (which refills again). */
    constructor (first: Draws, second: Draws)
      requires DrawsValid(first) && DrawsValid(second)
      ensures Valid() && fresh(grid) && fresh(grid.cells) && fresh(bag)
      ensures grid.cells[..] == Zeros(GridCols * GridRows)
      ensures held == EmptyShape && score == 0 && !gameOver && !paused && !heldShapeThisFrame
      ensures moveDownDelay == InitialMoveDownDelay && moves == 0 && inputDelay == InputRepeatDelay
      ensures var b := NextPieces(first.inserts, first.swaps);
              current == Spawned(b[6]) && bag.bag == b[..6] && bag.bag2 == NextPieces(second.inserts, second.swaps)
    {
      grid := new Grid(GridCols, GridRows);
      bag := new RandomBag();
      held, score, gameOver, paused, moveDownDelay := EmptyShape, 0, false, false, InitialMoveDownDelay;
      moves, inputDelay := 0, InputRepeatDelay;
      current := EmptyShape;
      new;
      bag.GenerateNextPieces(first.inserts, first.swaps);
      NextPiecesOk(first);
      assert BagOk([], bag.bag2);
      PopOk([], bag.bag2, second);
      var s := bag.GetNextShape(second.inserts, second.swaps);
      SpawnedOk(s);
      current, heldShapeThisFrame := Spawned(s), false;
    }

    /** `spawnNextShape`: the next shape from the bag, at the spawn anchor, and hold is
        allowed again. */
    method SpawnNextShape(d: Draws)
      requires Valid() && DrawsValid(d)
      modifies this, bag
      ensures Valid()
      ensures SpawnStep(old(bag.bag), old(bag.bag2), d, current, bag.bag, bag.bag2)
      ensures !heldShapeThisFrame
      ensures held == old(held) && score == old(score) && gameOver == old(gameOver)
      ensures paused == old(paused) && moveDownDelay == old(moveDownDelay)
      ensures moves == old(moves) && inputDelay == old(inputDelay)
    {
      PopOk(bag.bag, bag.bag2, d);
      var s := bag.GetNextShape(d.inserts, d.swaps);
      SpawnedOk(s);
      current, heldShapeThisFrame := Spawned(s), false;
    }

    /** The shape is locked into the grid, the next one spawns, and full lines are cleared
        (in this order, as both the lock and the hard drop do it). */
    method PlaceSpawnClear(d: Draws) returns (cleared: int)
      requires Valid() && DrawsValid(d)
      modifies this, bag, grid.cells
      ensures Valid()
      ensures grid.Rows() == Cleared(Placed(old(grid.cells[..]), GridCols, GridRows, old(current)), GridCols)
      ensures cleared == FullCount(Placed(old(grid.cells[..]), GridCols, GridRows, old(current)))
      ensures 0 <= cleared <= GridRows
      ensures SpawnStep(old(bag.bag), old(bag.bag2), d, current, bag.bag, bag.bag2)
      ensures !heldShapeThisFrame
      ensures held == old(held) && score == old(score) && gameOver == old(gameOver)
      ensures paused == old(paused) && moveDownDelay == old(moveDownDelay)
      ensures moves == old(moves) && inputDelay == old(inputDelay)
    {
      PlaceShape(current, grid);
      SpawnNextShape(d);
      cleared := grid.ClearLines();
    }

    /** The automatic drop (`moveDownTimer`): one row down when the shape fits there. */
    method MoveDownStep()
      requires Valid()
      modifies this
      ensures Valid()
      ensures current == AfterMove(old(current), grid.cells[..], IVec2(0, -1))
      ensures held == old(held) && score == old(score) && gameOver == old(gameOver)
      ensures heldShapeThisFrame == old(heldShapeThisFrame) && paused == old(paused)
      ensures moveDownDelay == old(moveDownDelay) && moves == old(moves) && inputDelay == old(inputDelay)
    {
      AfterMoveFacts(current, grid.cells[..], IVec2(0, -1));
      var moved, s := TryMoveShape(current, grid, IVec2(0, -1));
      current := s;
    }

    /** The lock (`lockTimer`): a shape resting on the stack or the floor is locked, unless
        none of its blocks is inside the grid on an empty cell, which ends the game. */
    method LockStep(d: Draws) returns (cleared: int, ended: bool)
      requires Valid() && DrawsValid(d)
      modifies this, bag, grid.cells
      ensures Valid()
      ensures var rests := Collides(old(current), old(grid.cells[..]), GridCols, GridRows, IVec2(0, -1));
              ended <==> rests && TotallyCollides(old(current), old(grid.cells[..]), GridCols, GridRows)
      ensures ended ==> gameOver && cleared == 0 && current == old(current) && grid.cells[..] == old(grid.cells[..])
      ensures !Collides(old(current), old(grid.cells[..]), GridCols, GridRows, IVec2(0, -1)) ==>
                cleared == 0 && current == old(current) && grid.cells[..] == old(grid.cells[..]) &&
                bag.bag == old(bag.bag) && bag.bag2 == old(bag.bag2)
      ensures !ended ==> gameOver == old(gameOver)
      ensures 0 <= cleared <= GridRows
      ensures held == old(held) && score == old(score) && paused == old(paused)
      ensures moveDownDelay == old(moveDownDelay) && moves == old(moves) && inputDelay == old(inputDelay)
    {
      cleared, ended := 0, false;
      var rests := ShapeCollidesGrid(current, grid, IVec2(0, -1));
      if rests {
        var total := ShapeTotallyCollidesGrid(current, grid);
        if total {
          gameOver, ended := true, true;
          return;
        }
        cleared := PlaceSpawnClear(d);
      }
    }

    /** The held direction keys, applied when the input timer fires: first the sideways move,
        then the downward one; the move count sets the delay before the next repeat. */
    method InputStep(left: bool, right: bool, down: bool)
      requires Valid()
      modifies this
      ensures Valid()
      ensures var g := grid.cells[..];
              var dx := (if right then 1 else 0) - (if left then 1 else 0);
              var dy := if down then -1 else 0;
              var sideways := if dx != 0 then AfterMove(old(current), g, IVec2(dx, 0)) else old(current);
              current == if dy != 0 then AfterMove(sideways, g, IVec2(0, dy)) else sideways
      ensures inputDelay == if old(moves) + 1 == 1 then InputFirstDelay else InputRepeatDelay
      ensures moves == if left == right && !down then 0 else old(moves) + 1
      ensures held == old(held) && score == old(score) && gameOver == old(gameOver)
      ensures heldShapeThisFrame == old(heldShapeThisFrame) && paused == old(paused)
      ensures moveDownDelay == old(moveDownDelay)
    {
      var dx := (if right then 1 else 0) - (if left then 1 else 0);
      var dy := if down then -1 else 0;
      var m := moves + 1;
      var delay := if m == 1 then InputFirstDelay else InputRepeatDelay;
      if dx == 0 && dy == 0 {
        m := 0;
      }
      var s := MoveByKeys(current, grid, dx, dy);
      current, moves, inputDelay := s, m, delay;
    }

    /** A turn key: the shape turns if the turn or one of its kicks fits. */
    method TurnStep(rotation: Rotation)
      requires Valid()
      modifies this
      ensures Valid()
      ensures var r := RotateResult(old(current), grid.cells[..], GridCols, GridRows, rotation);
              current == if r.Some? then r.value else old(current)
      ensures held == old(held) && score == old(score) && gameOver == old(gameOver)
      ensures heldShapeThisFrame == old(heldShapeThisFrame) && paused == old(paused)
      ensures moveDownDelay == old(moveDownDelay) && moves == old(moves) && inputDelay == old(inputDelay)
    {
      TurnKeepsBlocks(current, grid.cells[..], rotation);
      var ok, s := TryRotateShape(current, grid, rotation);
      current := s;
    }

    /** The hard drop: down while the shape fits, then lock, spawn and clear. */
    method HardDrop(d: Draws) returns (cleared: int)
      requires Valid() && DrawsValid(d)
      modifies this, bag, grid.cells
      ensures Valid()
      ensures var placed := Placed(old(grid.cells[..]), GridCols, GridRows, Dropped(old(current), old(grid.cells[..])));
              grid.Rows() == Cleared(placed, GridCols) && cleared == FullCount(placed)
      ensures 0 <= cleared <= GridRows
      ensures SpawnStep(old(bag.bag), old(bag.bag2), d, current, bag.bag, bag.bag2)
      ensures !heldShapeThisFrame
      ensures held == old(held) && score == old(score) && gameOver == old(gameOver)
      ensures paused == old(paused) && moveDownDelay == old(moveDownDelay)
      ensures moves == old(moves) && inputDelay == old(inputDelay)
    {
      current := DropShape(current, grid);
      cleared := PlaceSpawnClear(d);
    }

    /** Hold, once per spawned shape: the current shape goes to the hold slot (at the origin)
        and the held one comes back at the spawn anchor; with an empty slot the next shape
        spawns instead, which allows holding again. */
    method Hold(d: Draws)
      requires Valid() && DrawsValid(d) && !heldShapeThisFrame
      modifies this, bag
      ensures Valid()
      ensures held == old(current).(anchor := IVec2(0, 0))
      ensures old(held).kind != NoShape ==>
                current == Spawned(old(held)) && heldShapeThisFrame &&
                bag.bag == old(bag.bag) && bag.bag2 == old(bag.bag2)
      ensures old(held).kind == NoShape ==>
                SpawnStep(old(bag.bag), old(bag.bag2), d, current, bag.bag, bag.bag2) && !heldShapeThisFrame
      ensures score == old(score) && gameOver == old(gameOver) && paused == old(paused)
      ensures moveDownDelay == old(moveDownDelay) && moves == old(moves) && inputDelay == old(inputDelay)
    {
      AnchorKeepsBlocks(current, IVec2(0, 0));
      if held.kind != NoShape {
        AnchorKeepsBlocks(held, SpawnAnchor(GridCols, GridRows, held.cols));
        current, held, heldShapeThisFrame := Spawned(held), current.(anchor := IVec2(0, 0)), true;
      } else {
        var h := current;
        heldShapeThisFrame := true;
        SpawnNextShape(d);
        held := h.(anchor := IVec2(0, 0));
      }
    }

    /** The button pressed this frame: a turn, the hard drop, or hold when allowed. */
    method KeyStep(key: Key, dropDraws: Draws, holdDraws: Draws) returns (cleared: int)
      requires Valid() && DrawsValid(dropDraws) && DrawsValid(holdDraws)
      modifies this, bag, grid.cells
      ensures Valid()
      ensures 0 <= cleared <= GridRows && (cleared > 0 ==> key == HardDropKey)
      ensures key != HoldKey ==> held == old(held)
      ensures score == old(score) && gameOver == old(gameOver) && paused == old(paused)
      ensures moveDownDelay == old(moveDownDelay)
    {
      cleared := 0;
      if key == RotateClockwiseKey {
        TurnStep(Clockwise);
      } else if key == RotateCounterClockwiseKey {
        TurnStep(CounterClockwise);
      } else if key == HardDropKey {
        cleared := HardDrop(dropDraws);
      } else if key == HoldKey && !heldShapeThisFrame {
        Hold(holdDraws);
      }
    }

    /** The scoring at the end of `gameUpdate`: points for the lines, and the automatic drop
        twice as fast, whenever lines were cleared. */
    method ScoreStep(cleared: int)
      modifies this
      ensures score == old(score) + ScoreFor(cleared)
      ensures moveDownDelay == if cleared > 0 then old(moveDownDelay) / 2.0 else old(moveDownDelay)
      ensures current == old(current) && held == old(held) && gameOver == old(gameOver)
      ensures paused == old(paused) && heldShapeThisFrame == old(heldShapeThisFrame)
    {
      if cleared > 0 {
        score, moveDownDelay := score + ScoreFor(cleared), moveDownDelay / 2.0;
      }
    }

    /** `gameUpdate`: the automatic drop, the lock (which may end the game and leave the
        frame at once), the held direction keys, the button of the frame, and the score.
        Only the lines of the last clearing of the frame are scored: a hard drop overwrites
        the count of a lock in the same frame. */
    method GameUpdate(f: Frame) returns (cleared: int, ended: bool)
      requires Valid() && FrameOk(f)
      modifies this, bag, grid.cells
      ensures Valid()
      ensures ended ==> f.lockFired && gameOver && cleared == 0
      ensures ended ==> score == old(score) && moveDownDelay == old(moveDownDelay)
      ensures !ended ==> gameOver == old(gameOver) && score == old(score) + ScoreFor(cleared)
      ensures !ended ==> moveDownDelay == if cleared > 0 then old(moveDownDelay) / 2.0 else old(moveDownDelay)
      ensures 0 <= cleared <= GridRows
      ensures cleared > 0 ==> f.lockFired || f.keyOnce == HardDropKey
      ensures f.keyOnce != HoldKey ==> held == old(held)
      ensures paused == old(paused)
    {
      cleared, ended := 0, false;
      if f.moveDownFired {
        MoveDownStep();
      }
      if f.lockFired {
        cleared, ended := LockStep(f.lockDraws);
        if ended {
          return;
        }
      }
      if f.inputFired {
        InputStep(f.left, f.right, f.down);
      }
      var dropped := KeyStep(f.keyOnce, f.dropDraws, f.holdDraws);
      if f.keyOnce == HardDropKey {
        cleared := dropped;
      }
      ScoreStep(cleared);
    }

    /** The reset key: the game restarts on an empty grid with a fresh bag; the score, the
        held shape and the drop delay are kept. */
    method ResetGame(first: Draws, second: Draws)
      requires Valid() && DrawsValid(first) && DrawsValid(second)
      modifies this, bag, grid.cells
      ensures Valid() && !gameOver
      ensures grid.cells[..] == Zeros(GridCols * GridRows)
      ensures var b := NextPieces(first.inserts, first.swaps);
              current == Spawned(b[6]) && bag.bag == b[..6] && bag.bag2 == NextPieces(second.inserts, second.swaps)
      ensures held == old(held) && score == old(score) && paused == old(paused)
      ensures moveDownDelay == old(moveDownDelay) && !heldShapeThisFrame
    {
      gameOver := false;
      grid.Reset();
      bag.Reset(first.inserts, first.swaps, second.inserts, second.swaps);
      NextPiecesOk(first);
      NextPiecesOk(second);
      SpawnNextShape(first);
    }

    /** `draw` without the drawing: the update runs unless the game is over or paused, then
        the reset key restarts and Escape toggles the pause. */
    method Draw(f: Frame, key: Key, first: Draws, second: Draws)
      requires Valid() && FrameOk(f) && DrawsValid(first) && DrawsValid(second)
      modifies this, bag, grid.cells
      ensures Valid()
      ensures score >= old(score)
      ensures paused == if key == EscapeKey then !old(paused) else old(paused)
      ensures key == ResetKey ==> !gameOver && grid.cells[..] == Zeros(GridCols * GridRows)
      ensures (old(gameOver) || old(paused)) ==> score == old(score) && moveDownDelay == old(moveDownDelay)
      ensures (old(gameOver) || old(paused)) && key != ResetKey ==>
                gameOver == old(gameOver) && current == old(current) && grid.cells[..] == old(grid.cells[..])
    {
      if !gameOver && !paused {
        var cleared, ended := GameUpdate(f);
      }
      if key == ResetKey {
        ResetGame(first, second);
      }
      if key == EscapeKey {
        paused := !paused;
      }
    }
  }
}
