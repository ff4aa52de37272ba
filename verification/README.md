# lith core in Dafny

A verified model of the sequential, integer- and structure-oriented logic inside lith, a
creative-coding framework with a runtime and several sample games (lithTetris, DashGame).
Each modelled C++ source file is one Dafny module. The module's header comment names the file
and says how its state is represented. An object whose fields the C++ code updates in place is
a Dafny `class` with those fields. A value type is a `datatype`. Loops in the source are
`while` loops with their invariants. Each method is proved against a specification function,
and lemmas state what the source promises about that function.

| module | file | models |
|---|---|---|
| `Wrappers` | wrappers.dfy | `Option` and `Result`, the error paths of the C++ code (a `nullptr`, an exception, a read out of range) |
| `JobQueue` | job_queue.dfy | `tsque` of include/lith/job.h, the double-ended queue of the job system, without its mutex |
| `JobGraph` | job_graph.dfy | job nodes with 16 continuation slots and the builders `Then`, `ThenJob`, `Fork`, `For`, `GetRoots`, `Cleanup`, `PrintGraphviz` (include/lith/job.h, framework/src/job.cpp) |
| `JobExecutor` | job_executor.dfy | `JobExecutor::Run` and one pass of the `ThreadWork` loop, as a single worker |
| `Tetris` | tetris.dfy | grid and shape addressing, collision, moves, rotation with offset and kick tables, placing, line clearing, the 7-bag (lithProjects/lithTetris/src/Tetris.cpp) |
| `TetrisGame` | tetris_game.dfy | the game loop of lithProjects/lithTetris/src/sketch.cpp: spawn, lock, hard drop, hold, scoring, reset, pause |
| `Bytes` | bytes.dfy | `ByteVector` (include/lith/bytes.h, framework/src/bytes.cpp) |
| `Packing` | packing.dfy | `getFirst`, `packSingle`, `packMany`, `pack` (include/lith/zip.h) |
| `Strings` | strings.dfy | `split` and `trim` (src/string.cpp) |
| `MeshGrid`, `Plane`, `UvSphere`, `Capsule`, `Icosphere` | mesh_grid.dfy, plane.dfy, uvsphere.dfy, capsule.dfy, icosphere.dfy | the index topology of the mesh generators |
| `Texture` | texture.dfy | the texture enum tables and a texture's CPU-side state with its pixel addressing |
| `Timer` | timer.dfy | `lithTimer` and `lithTimerBurst` |
| `Font` | font.dfy | glyph and kerning lookup, line splitting, string and config hashes, `FontTextMeshCache` (src/font.cpp) |
| `PrintfLogger` | printf_logger.dfy | the bounded on-screen log of the runtime |
| `Level` | level.dfy | the DashGame level text format: token readers, parser, serializer |
| `Levels` | levels.dfy | the scene registry of src/game/content/levels.cpp; the `createLevelFromText` it calls is only declared in src/game/level.h, so texts are parsed with the DashGame parser of `Level`, assuming the same format |
| `Entities` | entity.dfy | the deferred add and remove of entities in a DashGame `Scene` |
| `SketchApi` | sketchapi.dfy | per-frame key, mouse and resize handling and frame gating (src/sketchapi.cpp) |
| `Mesh` | mesh.dfy | vertex buffers, attributes, the `VertexArrayBuilder`, and the links and counts of `VertexArray` |
| `Target` | target.dfy | render-target attachments, their ownership and the draw-buffer list |
| `Text` | text.dfy | glyph quads of a `TextMesh`, and the font-grouped instances of `TextRenderer` |
| `Ui` | ui.dfy | the slider registry and slider behaviour of the immediate-mode UI |
| `Assets` | assets.dfy | the asset bank: dependency counts, freeze, lookup by name and by extension |
| `Arith` | arith.dfy | small facts about multiplication and division that the size computations share |

Representation choices that hold throughout:
- C++ pointers into a vector are positions in a sequence, with -1 standing for `nullptr`.
- Objects compared by address are Dafny objects or integer addresses.
- `float` is `real`, so no single-precision rounding is modelled.
- `int` is unbounded. The 32-bit limits are written out where the source's behaviour depends on them: `std::stoi`, `GLuint`, `INT_MAX`, and the 64-bit wrap of the string hash.
- Inputs that come from outside the core are parameters: the directory walk, the GL names, the mouse, the frame time, the random draws of `rand_im` and the iteration order of an `unordered_set`.

The automatic batch size of `Job::For` is `(n + 16) / 16`, as include/lith/job.h:335
computes it, which is not `ceil(n / 16)`: on a multiple of 16 items it is one larger.
`JobGraph.AutoBatchSizeIsNotCeil` states the difference for every `n`, and
`JobGraph.AutoBatchCountAtMost16` proves that the formula keeps the batch count at 16 or
below.

## Model

| member | source | states |
|---|---|---|
| Strings.Find | src/string.cpp:8 | `find` answers the first position at or after the start where the delimiter occurs, or none (`npos`) when it occurs nowhere after it |
| Strings.Split | src/string.cpp:3-16 | the pieces `split` pushes are exactly the pieces of the string between successive delimiters, ending with the rest of the string |
| Strings.SplitStep | src/string.cpp:8-11 | one loop turn: the piece before the delimiter found at `end`, then the pieces after the delimiter |
| Strings.JoinSplit | src/string.cpp:3-16 | joining the pieces with the delimiter gives back the original string |
| Strings.SplitPiecesFree | src/string.cpp:8-14 | no piece contains the delimiter |
| Strings.SplitCount | src/string.cpp:8-14 | there is exactly one more piece than delimiters found |
| Strings.SplitEmpty | src/string.cpp:14 | an empty string splits into a single empty piece |
| Strings.FirstNotSpace | src/string.cpp:19 | the first character that is not one of space, tab, CR, LF, all before it being whitespace; none when all are |
| Strings.LastNotSpace | src/string.cpp:25 | the last such character, all after it being whitespace; none when all are |
| Strings.TrimCuts | src/string.cpp:18-29 | `trim` removes only leading and trailing whitespace, keeps everything in between, yields a result that is empty or starts and ends with non-whitespace, and yields "" exactly for an all-whitespace input |
| Strings.TrimIdempotent | src/string.cpp:18-29 | trimming a trimmed string changes nothing |
| Packing.GetFirst | include/lith/zip.h:12-15 | `getFirst` returns the first argument of the pack |
| Packing.PackSingle | include/lith/zip.h:17-21 | the value's bytes are copied at the offset, every other byte of the buffer is unchanged, and the offset advances by the value's size |
| Packing.PackMany | include/lith/zip.h:23-31 | the record is the values' bytes in argument order and its size is the sum of their sizes |
| Packing.PackStep | include/lith/zip.h:28 | packing one more value appends exactly its bytes and stays within the record |
| Packing.FieldReadBack | include/lith/zip.h:23-31 | each value reads back unchanged from the record at the sum of the sizes before it |
| Packing.Column | include/lith/zip.h:44 | element `i` of every array, in argument order |
| Packing.Pack | include/lith/zip.h:33-48 | one record per element of the first array, record `i` being the packed `i`-th elements of all arrays |
| Packing.PackReadBack | include/lith/zip.h:33-48 | field `k` of record `i` reads back as element `i` of array `k` |
| Bytes.Padded | include/lith/bytes.h:55-56 | what `add` stores for a value: exactly one item, the value's bytes first and zeros after |
| Bytes.ConcatAppend | include/lith/bytes.h:43-47 | the bytes of two lists added one after the other are the bytes of each in order |
| Bytes.ConcatItem | include/lith/bytes.h:59-62 | in a buffer of equal-sized items, item `i` occupies bytes `[i*size, (i+1)*size)` |
| Bytes.ItemCount | framework/src/bytes.cpp:26-32 | 0 for item size 0, a non-negative count for a positive item size |
| Bytes.ByteVector.constructor | framework/src/bytes.cpp:4-6 | a default vector has no bytes, item size 0 and count 0 |
| Bytes.ByteVector.WithItemSize | framework/src/bytes.cpp:8-10 | no bytes, the given item size, count 0 |
| Bytes.ByteVector.FromList | include/lith/bytes.h:28-33 | the element size becomes the item size, the bytes are the elements in order, the count is the number of elements and item `i` reads back as element `i` |
| Bytes.ByteVector.Size | framework/src/bytes.cpp:22-24 | the number of stored bytes |
| Bytes.ByteVector.Stride | framework/src/bytes.cpp:42-44 | the item size |
| Bytes.ByteVector.Count | framework/src/bytes.cpp:26-32 | 0 when the item size is 0, and never negative for a positive item size |
| Bytes.ByteVector.CountBrackets | framework/src/bytes.cpp:31 | with a positive item size the count is the number of whole items in the bytes |
| Bytes.ByteVector.SetRaw | framework/src/bytes.cpp:12-16 | the new item size and exactly the first `byteCount` bytes of the source |
| Bytes.ByteVector.Clear | framework/src/bytes.cpp:18-20 | the bytes are dropped and the item size is kept |
| Bytes.ByteVector.At | include/lith/bytes.h:59-62 | item `index` is exactly one item's worth of bytes |
| Bytes.ByteVector.Back | include/lith/bytes.h:64-67 | the last item is the last item-size bytes of the buffer |
| Bytes.ByteVector.Add | include/lith/bytes.h:49-57 | an item size of 0 throws, and so does a negative one, which `insert` receives as an oversized count; a throw leaves the bytes alone; otherwise one zero-filled item holding the value is appended and the count grows by one |
| Bytes.ByteVector.AddMany | include/lith/bytes.h:42-47 | every element is added in order; with an item size of 0 or below only an empty list succeeds, and a throw leaves the bytes alone |
| Bytes.ListUnpadded | include/lith/bytes.h:28-33 | elements of exactly the item size are stored without padding |
| Bytes.ListCount | include/lith/bytes.h:28-33 | a list of `n` elements makes a vector of count `n` |
| Bytes.ListItems | include/lith/bytes.h:59-62 | item `i` of a list-built vector reads back as element `i` |
| Bytes.AddManyStep | include/lith/bytes.h:44-46 | each loop turn appends exactly the padded element |
| Bytes.AddedIsLast | include/lith/bytes.h:55-56 | after `add` the count is one larger, the earlier bytes are unchanged and the value is the front of the last item |
| JobQueue.TsQueue.constructor | include/lith/job.h:14-17 | a new queue is empty |
| JobQueue.TsQueue.Clear | include/lith/job.h:18-21 | the queue becomes empty |
| JobQueue.TsQueue.PushBack | include/lith/job.h:23-27 | the element joins at the back, the rest unchanged |
| JobQueue.TsQueue.PushFront | include/lith/job.h:29-33 | the element joins at the front, the rest unchanged |
| JobQueue.TsQueue.PopBack | include/lith/job.h:35-42 | returns the back element and removes exactly it |
| JobQueue.TsQueue.PopFront | include/lith/job.h:44-51 | returns the front element and removes exactly it |
| JobQueue.TsQueue.PeekBack | include/lith/job.h:53-61 | the back element, or the default value when empty; the queue is unchanged |
| JobQueue.TsQueue.PeekFront | include/lith/job.h:63-71 | the front element, or the default value when empty; the queue is unchanged |
| JobQueue.TsQueue.Erase | include/lith/job.h:73-76 | removes exactly the element at the index, keeping the order of the others |
| JobQueue.TsQueue.Size | include/lith/job.h:78-81 | the number of queued elements |
| JobQueue.TsQueue.Empty | include/lith/job.h:83-86 | true exactly when no element is queued |
| JobQueue.ReplayIsFifo | framework/src/job.cpp:133-150 | used as the executor uses it (push at the front, pop at the back) the queue is first-in first-out: the old contents and everything pushed come out in order, followed by what is left |
| JobQueue.FifoFromEmpty | framework/src/job.cpp:133-150 | from an empty queue the values come out in exactly the order they were pushed |
| JobGraph.ClaimSlotIgnoresMax | framework/src/job.cpp:3-10 | the slot claim returns the old counter and bumps it exactly when it is below 16, whatever `max` is passed |
| JobGraph.MovedIntoFacts | framework/src/job.cpp:28-42 | after a move the destination holds the source's continuations in order, the source has none, no dependency counter or work changes, no other node changes, and destination slots from `max(size, 16 - size)` on keep their old values |
| JobGraph.MoveTailClearsNothingFromEight | framework/src/job.cpp:39-41 | with eight or more moved continuations the second loop clears no slot |
| JobGraph.BatchesPartition | include/lith/job.h:299-331 | `For` makes `ceil(n / batchSize)` batches, batch `k` covering `[k*batchSize, min(n, (k+1)*batchSize))`, and every item is covered by exactly one batch |
| JobGraph.BatchAt | include/lith/job.h:312-313 | batch `k` starts at `k*batchSize` and ends at `min(n, (k+1)*batchSize)` |
| JobGraph.BatchOfItem | include/lith/job.h:312-322 | item `x` lies in batch `x / batchSize`, which exists |
| JobGraph.AutoBatchSize | include/lith/job.h:333-337 | the automatic batch size is at least 1 |
| JobGraph.AutoBatchCountAtMost16 | include/lith/job.h:333-337 | with the automatic batch size there are never more than 16 batches, so the continuation slots never overflow |
| JobGraph.AutoBatchSizeIsNotCeil | include/lith/job.h:335 | for every item count, the automatic batch size `(n + 16) / 16` is `ceil(n / 16)`, plus one exactly when the count is a multiple of 16 |
| JobGraph.JobTree.constructor | include/lith/job.h:191-227 | a new tree has no nodes and counters at 0 |
| JobGraph.JobTree.AllocNode | framework/src/job.cpp:103-116 | a fresh node is appended with the next id, and `jobIdNext` and `nodeCount` grow by one |
| JobGraph.JobTree.CreateEmpty | framework/src/job.cpp:99-101 | appends a node with no work |
| JobGraph.JobTree.Create | include/lith/job.h:339-344 | appends a node holding the work |
| JobGraph.JobTree.SetName | framework/src/job.cpp:49-52 | only the node's name changes |
| JobGraph.JobTree.AddContinuation | framework/src/job.cpp:12-26 | a self edge changes nothing; at 16 continuations the add fails with nothing changed; otherwise the target fills the next slot and its dependency counter grows by one |
| JobGraph.JobTree.MoveContinuationsInto | framework/src/job.cpp:28-42 | the arena after the move is exactly `MovedInto`, including the partial clearing of the tail loop |
| JobGraph.JobTree.ThenJob | framework/src/job.cpp:54-59 | the job takes over `h`'s continuations and becomes `h`'s only continuation, waiting on it |
| JobGraph.JobTree.Then | include/lith/job.h:275-281 | a new node is placed between `h` and its continuations |
| JobGraph.JobTree.Fork | include/lith/job.h:283-297 | succeeds exactly when there are at most 16 callables; then the join holds `h`'s old continuations and waits on every new node, each new node runs its callable, waits on `h` and continues to the join, and `h` continues to exactly the new nodes |
| JobGraph.JobTree.AddForkJobs | include/lith/job.h:289-294 | the fork loop adds one node per callable and fails at the first one with no free slot on `h` |
| JobGraph.JobTree.AddForkJob | include/lith/job.h:290-293 | one loop turn: the new node continues to the join and becomes `h`'s next continuation, failing exactly when `h` has 16 |
| JobGraph.JobTree.For | include/lith/job.h:299-331 | no items or a non-positive batch size returns `h` with nothing allocated; otherwise the call succeeds exactly when at most 16 batches are needed, and the tree is then a fork of the batches |
| JobGraph.JobTree.ForAuto | include/lith/job.h:333-337 | the automatic `For` always succeeds and forks the automatic batches |
| JobGraph.JobTree.GetRoots | framework/src/job.cpp:65-75 | exactly the nodes whose dependency counter is 0, in allocation order |
| JobGraph.JobTree.Cleanup | framework/src/job.cpp:77-83 | all nodes are freed, the counters stay |
| JobGraph.JobTree.PrintGraphviz | framework/src/job.cpp:85-97 | the header, one `"a"->"b"` line per filled continuation slot in node and then slot order, and the footer |
| JobGraph.NodeEdges | framework/src/job.cpp:89-93 | the inner loop writes exactly the lines of the node's filled slots |
| JobGraph.MakeBatches | include/lith/job.h:312-328 | the batches built by the stepping loop are exactly the partition `Batches` |
| JobGraph.ForkStep | include/lith/job.h:289-294 | one more callable keeps the fork's loop invariant |
| JobGraph.ForkedShapeFacts | include/lith/job.h:160-172 | the shape the header's comment draws: `h` continues to the new nodes, the join holds `h`'s old continuations and waits on all new nodes, each new node waits on `h` alone and continues to the join alone |
| JobGraph.ForkedJoinFacts | include/lith/job.h:286-296 | the join and `h` after a fork, and unchanged counters of the old nodes |
| JobGraph.ForkedJobFacts | include/lith/job.h:289-294 | every new node of a fork runs its callable, waits on `h` and continues to the join |
| JobExecutor.Release | framework/src/job.cpp:166-175 | the release keeps the arena's size and only reports nodes of the arena as ready |
| JobExecutor.ReleaseSnoc | framework/src/job.cpp:167-175 | one more slot extends the release by exactly one step |
| JobExecutor.ReleaseFacts | framework/src/job.cpp:166-175 | each counter drops by the number of slots naming that node, nothing else changes, a node is reported ready exactly when its counter was positive and ends at or below 0, and no node is reported twice |
| JobExecutor.RetireAsWritten | framework/src/job.cpp:182-185 | the erase of `find`'s result succeeds exactly for a registered tree and removes one entry; for any other tree it is handed `end()` |
| JobExecutor.RetireOwned | framework/src/job.cpp:182-185 | retiring as intended: an owned tree is removed and every other registered tree stays; a tree the executor does not own leaves the list unchanged |
| JobExecutor.RetireCallerOwnedTree | framework/src/job.cpp:182-185 | for a caller-created tree the code as written erases `end()`, while for registered trees the written and intended retirements agree |
| JobExecutor.TreeRun | framework/src/job.cpp:130-135 | queuing the roots of a fresh tree establishes its dispatch invariant |
| JobExecutor.TreeStep | framework/src/job.cpp:162-180 | finishing a queued node keeps its tree's invariant, and the nodes it makes ready are distinct and were never queued before, so no node runs twice |
| JobExecutor.AllDone | framework/src/job.cpp:180-182 | when a tree's node count reaches 0, every one of its nodes has finished |
| JobExecutor.QueueRun | framework/src/job.cpp:130-135 | pushing the distinct roots of a tree that was never run keeps the wavefront invariant |
| JobExecutor.QueueStep | framework/src/job.cpp:150-175 | popping a node and pushing the nodes it made ready keeps the wavefront invariant |
| JobExecutor.PushRoots | framework/src/job.cpp:131-134 | the roots are pushed at the front one by one, so the first root ends up at the back and is popped first |
| JobExecutor.ReleaseWellFormed | framework/src/job.cpp:166-175 | the release only moves counters, so the arena stays well formed |
| JobExecutor.StepKeeps | framework/src/job.cpp:148-186 | one dispatch step on values keeps the tree and wavefront invariants |
| JobExecutor.ReleaseContinuations | framework/src/job.cpp:166-175 | the release loop produces exactly `Release`: the new counters, the ready nodes pushed at the front in the order they became ready, and one work count per push |
| JobExecutor.Executor.constructor | framework/src/job.cpp:122-124 | a new executor owns no trees, its wavefront is empty and its work count is 0 |
| JobExecutor.Executor.CreateTree | framework/src/job.cpp:142-146 | a fresh empty tree is registered as owned and nothing else changes |
| JobExecutor.Executor.Run | framework/src/job.cpp:130-135 | every root of the tree is counted and pushed at the front, in allocation order, and the invariant holds |
| JobExecutor.Executor.ThreadWorkStep | framework/src/job.cpp:149-186 | corrected (see Findings): the back of the wavefront runs; its continuations are released and the ready ones pushed at the front; its tree's count drops by one; a tree whose count reaches 0 is retired, and it is deleted only when the executor owns it |
| JobExecutor.Executor.FinishNode | framework/src/job.cpp:150-180 | the pass up to the count update: pop, release, push and count |
| JobExecutor.Executor.RetireTree | framework/src/job.cpp:182-185 | corrected retirement: the tree leaves the live set, and only an owned tree is unregistered and freed |
| Tetris.TruncDivNeg | lithProjects/lithTetris/src/Tetris.cpp:221 | the C++ truncating division used by the offset table is symmetric about zero, which a flooring division is not |
| Tetris.Wrap | lithProjects/lithTetris/src/Tetris.cpp:191-193 | for any `x` no lower than `-max` the wrapped value lies in `[0, max)` |
| Tetris.NextRotationIndex | lithProjects/lithTetris/src/Tetris.cpp:207-209 | the next rotation index is again one of the four rotations |
| Tetris.NextRotationInverse | lithProjects/lithTetris/src/Tetris.cpp:199-209 | a turn followed by the opposite turn returns to the starting index, and the table row of the turn back (`getRootRotationIndex`) is the row of the turn it undoes |
| Tetris.NextRotationStep | lithProjects/lithTetris/src/Tetris.cpp:195-209 | clockwise steps the index up by one and counter-clockwise down by one, going round between 3 and 0 |
| Tetris.FourTurnsReturn | lithProjects/lithTetris/src/Tetris.cpp:207-209 | four turns in the same direction come back to the starting rotation |
| Tetris.BaseOffsetsCancel | lithProjects/lithTetris/src/Tetris.cpp:211-224 | the anchor shift of a basic turn and that of the turn back sum to zero, in both directions and for every shape type |
| Tetris.KicksReverse | lithProjects/lithTetris/src/Tetris.cpp:226-240 | every kick of the turn back is the negation of the kick of the turn it undoes (the Super Rotation System tables) |
| Tetris.KickAsWritten | lithProjects/lithTetris/src/Tetris.cpp:391-392 | the lookup `tryRotateShape` makes: the row of the already turned index, with test 4 reading into the next row or past the table |
| Tetris.KickAsWrittenDefect | lithProjects/lithTetris/src/Tetris.cpp:391-392 | a T piece turning clockwise from 0 first tries (1, 0) where the table of its turn says (-1, 0), its fifth test reads another row, and a turn to rotation 3 reads past the table |
| Tetris.CellIndexInjective | lithProjects/lithTetris/src/Tetris.cpp:92-99 | distinct cells of a shape or grid have distinct flat indices |
| Tetris.IndexCell | lithProjects/lithTetris/src/Tetris.cpp:136-141 | every position of a `cols * rows` buffer is the flat index of exactly one cell |
| Tetris.MakeShape | lithProjects/lithTetris/src/Tetris.cpp:79-90 | the shape has the given type and size, sits at the origin in rotation 0, and an empty block list becomes `cols * rows` empty cells |
| Tetris.LookupPlayable | lithProjects/lithTetris/src/Tetris.cpp:15-42 | the seven lookup shapes are well-formed, typed, in rotation 0 and at the origin |
| Tetris.ShapeIndex | lithProjects/lithTetris/src/Tetris.cpp:92-99 | the index is -1 exactly off the shape and otherwise a position of the block buffer |
| Tetris.ShapeSet | lithProjects/lithTetris/src/Tetris.cpp:108-113 | a write keeps the shape's type, size, anchor and rotation |
| Tetris.ShapeSetGet | lithProjects/lithTetris/src/Tetris.cpp:101-113 | a written cell reads back its value, every other cell keeps its value, and a write off the shape changes nothing |
| Tetris.RotatedGet | lithProjects/lithTetris/src/Tetris.cpp:350-375 | a clockwise turn moves cell `(c, r)` to `(r, cols-1-c)` and a counter-clockwise one to `(rows-1-r, c)` |
| Tetris.Rotated | lithProjects/lithTetris/src/Tetris.cpp:345-348 | the turned shape is playable with rows and cols swapped, the next rotation index and the anchor shifted by the basic offset |
| Tetris.RotateRoundTrip | lithProjects/lithTetris/src/Tetris.cpp:345-378 | turning one way and then the other gives back the same shape: blocks, size, rotation index and anchor |
| Tetris.RotateTargetIndex | lithProjects/lithTetris/src/Tetris.cpp:354-373 | each source cell lands in the turned buffer where the turned blocks hold its value |
| Tetris.RotateColumn | lithProjects/lithTetris/src/Tetris.cpp:352-360 | the inner loop writes one source column to the cells the turn takes it to, leaving the rest untouched |
| Tetris.GetRotatedShape | lithProjects/lithTetris/src/Tetris.cpp:345-378 | the cell-by-cell loop builds exactly the turned shape `Rotated(s, rotation)` |
| Tetris.GridIndex | lithProjects/lithTetris/src/Tetris.cpp:136-141 | the index is -1 exactly off the grid and otherwise inside the buffer |
| Tetris.GridSet | lithProjects/lithTetris/src/Tetris.cpp:150-155 | a write keeps the buffer's length |
| Tetris.GridSetGet | lithProjects/lithTetris/src/Tetris.cpp:143-155 | a written cell reads back its value, every other cell keeps its value, a write off the grid changes nothing |
| Tetris.RowsOfSet | lithProjects/lithTetris/src/Tetris.cpp:150-155 | seen row by row, a write changes one cell of one row |
| Tetris.Grid.constructor | lithProjects/lithTetris/src/Tetris.cpp:119-125 | a fresh `cols * rows` buffer with every cell empty |
| Tetris.Grid.Reset | lithProjects/lithTetris/src/Tetris.cpp:131-134 | every cell becomes empty |
| Tetris.Grid.Set | lithProjects/lithTetris/src/Tetris.cpp:150-155 | the buffer becomes `GridSet` of the old buffer |
| Tetris.Grid.RowFilled | lithProjects/lithTetris/src/Tetris.cpp:320-326 | the early-exit scan answers exactly whether the row has no empty cell |
| Tetris.Grid.CopyRow | lithProjects/lithTetris/src/Tetris.cpp:331-334 | row `to` becomes a copy of row `from` and every other row is unchanged |
| Tetris.Grid.ShiftRowsDown | lithProjects/lithTetris/src/Tetris.cpp:329-335 | the rows become `ShiftAsWritten` of the old rows: every row above `line` moves down one and the top row stays |
| Tetris.Grid.ClearRow | lithProjects/lithTetris/src/Tetris.cpp:329-335 | row `r` becomes empty and no other row changes (the step the corrected line clear adds) |
| Tetris.Grid.RemoveFullRow | lithProjects/lithTetris/src/Tetris.cpp:328-339 | removing a full row advances the line-clear state by one removed row |
| Tetris.Grid.ClearLines | lithProjects/lithTetris/src/Tetris.cpp:316-343 | corrected (see Findings): the grid becomes `Cleared` of the old rows and the count returned is the number of full rows |
| Tetris.CollidesWhenBlocked | lithProjects/lithTetris/src/Tetris.cpp:242-266 | a filled block off either side, below row 0, on an occupied cell or above the top over an occupied top-row cell makes the shape collide |
| Tetris.FreeShapeInside | lithProjects/lithTetris/src/Tetris.cpp:242-266 | a shape that does not collide has every filled block inside the walls, above the floor and on (or above) an empty cell |
| Tetris.ShapeCollidesGrid | lithProjects/lithTetris/src/Tetris.cpp:242-266 | the early-exit scan answers exactly `Collides`: true for a shape without blocks, otherwise whether some block is stopped |
| Tetris.ShapeTotallyCollidesGrid | lithProjects/lithTetris/src/Tetris.cpp:268-287 | the scan answers exactly whether every filled block is above the grid or on an occupied cell |
| Tetris.ShapeGetMoved | lithProjects/lithTetris/src/Tetris.cpp:290 | moving the anchor does not change any cell of the shape |
| Tetris.CollidesMoved | lithProjects/lithTetris/src/Tetris.cpp:255-256 | testing with an offset is testing the shape moved by that offset |
| Tetris.TryMoveShape | lithProjects/lithTetris/src/Tetris.cpp:289-297 | the move succeeds exactly when the moved shape does not collide; then the anchor is shifted, otherwise the shape is unchanged |
| Tetris.Candidates | lithProjects/lithTetris/src/Tetris.cpp:380-401 | the offsets tried are the basic turn followed by the kicks, in order |
| Tetris.FirstFreeFacts | lithProjects/lithTetris/src/Tetris.cpp:380-404 | the first free candidate is free and all earlier ones collide; if none is free every candidate collides |
| Tetris.TryRotateShape | lithProjects/lithTetris/src/Tetris.cpp:380-404 | corrected (see Findings), kicks looked up for the turn being made: the turned shape at the first free candidate is committed and true returned, or the shape is left as it was and false returned |
| Tetris.RotateResultFree | lithProjects/lithTetris/src/Tetris.cpp:380-404 | a committed turn leaves the shape clear of the grid; a refused one happens only when every candidate collides |
| Tetris.Placed | lithProjects/lithTetris/src/Tetris.cpp:299-314 | the placed grid keeps its size: each filled block on the grid is written over its cell and every other cell keeps its value |
| Tetris.PlaceStep | lithProjects/lithTetris/src/Tetris.cpp:303-312 | writing one block advances the scan's placed grid by exactly that block |
| Tetris.PlaceShape | lithProjects/lithTetris/src/Tetris.cpp:299-314 | the grid becomes `Placed` of the old grid and the shape |
| Tetris.KeepRowsNotFull | lithProjects/lithTetris/src/Tetris.cpp:316-343 | no row kept by the clear is full |
| Tetris.FullCount | lithProjects/lithTetris/src/Tetris.cpp:338 | the count of cleared lines is the number of rows not kept |
| Tetris.Cleared | lithProjects/lithTetris/src/Tetris.cpp:316-343 | clearing keeps the number of rows: the kept rows at the bottom in order, empty rows on top |
| Tetris.ClearedSettled | lithProjects/lithTetris/src/Tetris.cpp:316-343 | with at least one column no row is full after clearing, and clearing again changes nothing |
| Tetris.ShiftAsWritten | lithProjects/lithTetris/src/Tetris.cpp:329-335 | the shift as written keeps the row count and leaves the top row duplicated |
| Tetris.ClearLinesAsWrittenDefects | lithProjects/lithTetris/src/Tetris.cpp:316-343 | as written, clearing a row below the top keeps the top row twice, and a full top row is a fixed point of the loop so it does not end |
| Tetris.Inserted | lithProjects/lithTetris/src/Tetris.cpp:160-162 | after `n` inserts the bag holds `n` shapes |
| Tetris.Shuffled | lithProjects/lithTetris/src/Tetris.cpp:165-167 | the swaps keep the bag's length |
| Tetris.NextPiecesPermutation | lithProjects/lithTetris/src/Tetris.cpp:157-168 | every batch of seven is a permutation of the seven lookup shapes, each exactly once |
| Tetris.RandomBag.constructor | lithProjects/lithTetris/src/Tetris.h:64-71 | both bags start empty |
| Tetris.RandomBag.GenerateNextPieces | lithProjects/lithTetris/src/Tetris.cpp:157-168 | `bag` takes the old `bag2` and `bag2` becomes a fresh batch |
| Tetris.RandomBag.GetNextShape | lithProjects/lithTetris/src/Tetris.cpp:170-179 | refills when `bag` is empty, then returns and removes the back of the bag |
| Tetris.RandomBag.Reset | lithProjects/lithTetris/src/Tetris.cpp:181-184 | both bags hold fresh batches |
| TetrisGame.ScoreFor | lithProjects/lithTetris/src/sketch.cpp:216-230 | points are never negative and are zero exactly for a line count outside 1..4 |
| TetrisGame.ScoreForGrows | lithProjects/lithTetris/src/sketch.cpp:216-230 | more lines at once score more, and at least as much as that many single clears |
| TetrisGame.SpawnAnchor | lithProjects/lithTetris/src/sketch.cpp:68-72 | a spawned shape sits two rows above the top of the grid and is centred, within two columns |
| TetrisGame.LookupHasBlock | lithProjects/lithTetris/src/Tetris.cpp:15-42 | every shape the bag can hand out is playable and has a filled block |
| TetrisGame.HasBlockKept | lithProjects/lithTetris/src/sketch.cpp:83-214 | moving or turning a shape keeps a filled block |
| TetrisGame.NextPiecesOk | lithProjects/lithTetris/src/Tetris.cpp:157-168 | each batch holds seven tetrominoes from the lookup table |
| TetrisGame.SpawnedOk | lithProjects/lithTetris/src/sketch.cpp:68-72 | a spawned tetromino is playable and has a filled block |
| TetrisGame.PopOk | lithProjects/lithTetris/src/Tetris.cpp:170-179 | popping the bag (refilling first when it is empty) yields a tetromino and keeps both bags well stocked |
| TetrisGame.AfterMoveFacts | lithProjects/lithTetris/src/Tetris.cpp:289-297 | a move keeps the shape playable, never takes a free shape into the stack or a wall, and either does nothing or moves it exactly |
| TetrisGame.MoveByKeys | lithProjects/lithTetris/src/sketch.cpp:106-174 | the held keys move the shape sideways, then down, each step refused if it would collide |
| TetrisGame.TurnKeepsBlocks | lithProjects/lithTetris/src/sketch.cpp:178-188 | a turn the grid accepts keeps the shape playable with its blocks |
| TetrisGame.DropBound | lithProjects/lithTetris/src/sketch.cpp:192 | a free shape is not yet below the floor, which bounds the hard-drop loop |
| TetrisGame.Dropped | lithProjects/lithTetris/src/sketch.cpp:192 | the hard drop moves the shape straight down, only its height changes, the result rests on something, and it is free whenever it moved |
| TetrisGame.DropShape | lithProjects/lithTetris/src/sketch.cpp:192 | the loop of one-row moves ends, at `Dropped` of the shape |
| TetrisGame.Game.constructor | lithProjects/lithTetris/src/sketch.cpp:10-29 | the game starts on an empty 10 x 20 grid, no held shape, score 0, the timers' delays, and the first spawn from a refilled bag |
| TetrisGame.Game.SpawnNextShape | lithProjects/lithTetris/src/sketch.cpp:68-72 | the next shape is popped from the bag and put at the spawn anchor, hold is allowed again, nothing else changes |
| TetrisGame.Game.PlaceSpawnClear | lithProjects/lithTetris/src/sketch.cpp:97-100 | over the corrected line clear (see Findings): the shape is locked into the grid, the next one spawns, full lines are cleared and their number returned |
| TetrisGame.Game.MoveDownStep | lithProjects/lithTetris/src/sketch.cpp:82-87 | the automatic drop moves the shape one row down when it fits, nothing else |
| TetrisGame.Game.LockStep | lithProjects/lithTetris/src/sketch.cpp:89-103 | over the corrected line clear (see Findings): the game ends exactly when the resting shape totally collides (grid untouched); a resting shape is otherwise locked and lines cleared; a shape not resting is left alone |
| TetrisGame.Game.InputStep | lithProjects/lithTetris/src/sketch.cpp:106-174 | the held keys give the sideways-then-down move, the repeat delay is the first-press delay after one move and the short one otherwise, and releasing the keys resets the count |
| TetrisGame.Game.TurnStep | lithProjects/lithTetris/src/sketch.cpp:178-188 | over the corrected rotation (see Findings): the shape becomes the committed turn when one fits and is otherwise unchanged |
| TetrisGame.Game.HardDrop | lithProjects/lithTetris/src/sketch.cpp:190-198 | over the corrected line clear (see Findings): the grid becomes the cleared grid after locking the dropped shape, and the count is its full rows |
| TetrisGame.Game.Hold | lithProjects/lithTetris/src/sketch.cpp:200-214 | the current shape goes to the hold slot at the origin; a held shape comes back at the spawn anchor, otherwise the next shape spawns |
| TetrisGame.Game.KeyStep | lithProjects/lithTetris/src/sketch.cpp:178-214 | over the corrected line clear and rotation (see Findings): lines are cleared only by the hard drop, and only hold changes the held shape |
| TetrisGame.Game.ScoreStep | lithProjects/lithTetris/src/sketch.cpp:216-240 | the score grows by the points for the cleared lines and the drop delay halves when any were cleared |
| TetrisGame.Game.GameUpdate | lithProjects/lithTetris/src/sketch.cpp:74-253 | over the corrected line clear and rotation (see Findings): a frame that ends the game only comes from the lock and scores nothing; otherwise the score grows by the points of the lines cleared, which come from a lock or a hard drop |
| TetrisGame.Game.ResetGame | lithProjects/lithTetris/src/sketch.cpp:385-390 | the game restarts on an empty grid with fresh batches and a spawned shape; score and held shape are kept |
| TetrisGame.Game.Draw | lithProjects/lithTetris/src/sketch.cpp:347-394 | over the corrected line clear and rotation (see Findings): the score never drops, Escape toggles the pause, the reset key leaves an empty grid, and a paused or ended game does not change |
| MeshGrid.GridRow | framework/src/plane.cpp:31-36 | one pass of the inner loop writes `innerCount + 1` vertices, vertex `b` carrying counters `(outer, b)` |
| MeshGrid.GridPrefixLayout | framework/src/plane.cpp:30-37 | after `outers` passes the buffer holds `outers * (innerCount + 1)` vertices, vertex `(a, b)` at `a * (innerCount + 1) + b` |
| MeshGrid.GridVertexAt | src/uvsphere.cpp:31-46 | the whole grid holds `(outerCount + 1) * (innerCount + 1)` vertices, vertex `(a, b)` at `a * (innerCount + 1) + b` |
| MeshGrid.FillGrid | framework/src/plane.cpp:27-37 | the nested vertex loops fill the buffer with exactly the grid vertices in loop order |
| MeshGrid.WriteIndices | framework/src/plane.cpp:55-61 | consecutive `index[currentIndex++] = ...` writes put the values at `at` onwards, advance the cursor by their number and leave every other entry alone |
| Plane.MakePlane | framework/src/plane.cpp:3-65 | an empty plane when either count is zero; otherwise the grid vertices in column order and the index buffer of every quad, column by column |
| Plane.PlaneCounts | framework/src/plane.cpp:11-12 | the two buffer sizes as column sums |
| Plane.IndexLoop | framework/src/plane.cpp:49-62 | the loop with its column skip fills the index buffer with exactly `PlaneIndex`: one quad per vertex below the top of each column and left of the last column |
| Plane.EmitQuad | framework/src/plane.cpp:50-61 | one turn of the loop: the vertex after the column-top skip is the one the skip test names, the cursor advances by six, and the buffer so far gains exactly that vertex's quad |
| Plane.LoopStep | framework/src/plane.cpp:50-61 | one turn emits the next quad owed, after stepping over a column's top vertex, and stays inside the buffer |
| Plane.LoopEnd | framework/src/plane.cpp:49 | when `v` reaches `totalVertexCount - yCount - 2` every quad has been emitted |
| Plane.ModStep | framework/src/plane.cpp:51 | the skip test `(v + 1) % (yCount + 1) == 0` fires exactly at the top vertex of a column |
| Plane.LastColumn | framework/src/plane.cpp:49 | the loop bound is reached exactly at the top of the last column |
| Plane.ColumnsSize | framework/src/plane.cpp:11 | `cols` columns of `yCount` quads hold `6 * cols * yCount` indices |
| Plane.PlaneQuad | framework/src/plane.cpp:39-61 | the six entries of quad `(c, r)` are the triangles `(v, v+1, v+y+1)` and `(v+1, v+y+2, v+y+1)` at `v = c * (yCount + 1) + r` |
| Plane.PlaneIndexInRange | framework/src/plane.cpp:11-12 | the index buffer has `6 * xCount * yCount` entries, each naming one of the `(xCount + 1) * (yCount + 1)` vertices |
| UvSphere.MakeUVSphere | src/uvsphere.cpp:5-127 | an empty sphere when either count is below 2; otherwise the vertex rings in loop order and the index buffer of top cap, bands and bottom cap |
| UvSphere.IndexLoops | src/uvsphere.cpp:64-124 | the three index loops fill the buffer exactly with `SphereIndex` |
| UvSphere.TopCapLoop | src/uvsphere.cpp:64-71 | the top-cap loop writes `3 * lonCount` entries, triangle `lon` being `(lon, v, v + 1)` |
| UvSphere.MiddleLoop | src/uvsphere.cpp:87-102 | the middle loops append the bands between rings 1 and `latCount - 1` and leave `v` at the first vertex of ring `latCount - 1` |
| UvSphere.BandLoop | src/uvsphere.cpp:89-99 | one band appends `6 * lonCount` entries and moves `v` by `lonCount` |
| UvSphere.BottomCapLoop | src/uvsphere.cpp:118-124 | the bottom-cap loop appends `3 * lonCount` entries towards the pole ring |
| UvSphere.MiddleSize | src/uvsphere.cpp:88-102 | `rows` bands hold `6 * rows * lonCount` entries |
| UvSphere.SphereIndexSize | src/uvsphere.cpp:17 | caps and bands together are exactly the `6 * (latCount - 1) * lonCount` entries the buffer is given |
| UvSphere.TopTriangleAt | src/uvsphere.cpp:64-71 | top-cap triangle `k` is `(k, lonCount + 1 + k, lonCount + 2 + k)` for every ring count |
| UvSphere.SphereIndexInRange | src/uvsphere.cpp:17-18 | every index names one of the `(latCount + 1) * (lonCount + 1)` vertices |
| UvSphere.PartsInRange | src/uvsphere.cpp:64-124 | each of the top cap, the bands and the bottom cap stays below the vertex count |
| Capsule.CapsuleLatCount | src/capsule.cpp:14-19 | the ring count is odd, the resolution or one more, and equal to it exactly for an odd resolution |
| Capsule.MakeCapsule | src/capsule.cpp:6-144 | nothing below resolution 2; otherwise the vertex rings and the UV-sphere index buffer for the odd ring count |
| Capsule.CapsuleCounts | src/capsule.cpp:28-29 | the index buffer is exactly filled and every index names one of the vertices |
| Capsule.HalvesMirror | src/capsule.cpp:44 | with an odd ring count ring `lat` is raised exactly when its mirror ring is lowered |
| Capsule.EvenCountUneven | src/capsule.cpp:11-19 | with an even ring count the middle ring is its own mirror and is lowered, so the halves would be uneven |
| Capsule.UpperRingsCount | src/capsule.cpp:44 | rings `0..latCount / 2` are lowered and the rest raised |
| Capsule.CapsuleHalvesEven | src/capsule.cpp:11-19 | for the capsule's ring count as many rings are raised as lowered |
| Icosphere.BaseVertices | src/icosphere.cpp:7-42 | the 22 base vertices of the unfolded net, vertex `i` being base vertex `i` |
| Icosphere.Pow4 | src/icosphere.cpp:82 | `rn = 4^resolution` is at least 1 |
| Icosphere.TotalVertexCount | src/icosphere.cpp:84 | the vertex count is never below the 22 base vertices |
| Icosphere.VertexSeries | src/icosphere.cpp:82-84 | the geometric series: `22 + 20 * (4^r - 1)` vertices, and each round adds one vertex slot per index entry of the round before |
| Icosphere.TotalsMono | src/icosphere.cpp:82-84 | both counts grow with the resolution |
| Icosphere.EdgeHashInjective | src/icosphere.cpp:128 | `first \| second << 32` of vertex numbers below 2^32 is injective, so the map is keyed by the edge itself |
| Icosphere.Key | src/icosphere.cpp:124-126 | the swap orders the two ends, smaller first, without changing them |
| Icosphere.NextCornerOffset | src/icosphere.cpp:121-122 | for a triangle starting at a multiple of three, `t + (t + e + 1) % 3` is the next corner `(e + 1) % 3` |
| Icosphere.FlatTriangles | src/icosphere.cpp:117 | an index buffer whose length is a multiple of three is exactly its triangles laid end to end |
| Icosphere.Subdivide | src/icosphere.cpp:117-161 | a round turns each triangle into four: 12 entries per triangle |
| Icosphere.NextRound | src/icosphere.cpp:104-162 | the next mesh has 12 index entries per triangle of the previous one |
| Icosphere.Rounds | src/icosphere.cpp:104-162 | after `r` rounds the index buffer holds `60 * 4^r` entries |
| Icosphere.TableMidpoint | src/icosphere.cpp:130-139 | in a consistent table an edge's vertex was created in this round and is the midpoint of that edge |
| Icosphere.AddEdgeGrows | src/icosphere.cpp:130-137 | `insert` keeps every earlier entry and creates at most one vertex |
| Icosphere.AddEdgeKeeps | src/icosphere.cpp:130-137 | `insert` keeps the table consistent: different edges keep different vertices, each the midpoint of its edge |
| Icosphere.BuildTableGrows | src/icosphere.cpp:117-140 | after a round the map holds exactly the edges of the triangles, with at most three new vertices per triangle |
| Icosphere.BuildTableKeeps | src/icosphere.cpp:117-140 | after a round the map is consistent: one distinct midpoint vertex per edge |
| Icosphere.BuildTablePrefix | src/icosphere.cpp:117-140 | the map after some triangles is part of the map after all of them |
| Icosphere.TableInjective | src/icosphere.cpp:130-137 | two edges share a midpoint vertex exactly when they are the same edge |
| Icosphere.SplitStable | src/icosphere.cpp:139-160 | once a triangle's edges are in the map, later entries do not change what is written for it |
| Icosphere.SubdivideAt | src/icosphere.cpp:142-160 | triangle `(a, b, c)` at `j` becomes `(m0, m1, m2)` in place and `(a, m0, m2)`, `(b, m1, m0)`, `(c, m2, m1)` are appended at `indexCount + 9j` |
| Icosphere.MidpointOfEdge | src/icosphere.cpp:130-139 | the vertex written for edge `e` of triangle `j` was created in the round and is the midpoint of that edge |
| Icosphere.SharedMidpoint | src/icosphere.cpp:114-139 | two triangle edges get the same midpoint vertex exactly when they join the same two vertices: no duplicated midpoints |
| Icosphere.SubdivideInRange | src/icosphere.cpp:117-161 | every index a round writes names a vertex that exists after the round |
| Icosphere.RoundsFacts | src/icosphere.cpp:82-162 | after `r` rounds: between 22 and `totalVertexCount` vertices, the base vertices first, each later vertex a midpoint of two earlier ones, every index naming a written vertex |
| Icosphere.BaseIndexInRange | src/icosphere.cpp:44-67 | the 60 base indices name base vertices only |
| Icosphere.NextRoundCounts | src/icosphere.cpp:104-162 | a round keeps the index range and the vertex count within the series |
| Icosphere.NextRoundVertices | src/icosphere.cpp:130-137 | a round keeps the earlier vertices and appends midpoints of earlier vertices |
| Icosphere.IcoMeshFacts | src/icosphere.cpp:82-170 | the returned buffers hold `totalIndexCount` indices and `totalVertexCount` vertex slots, every index names a written slot, and the unwritten slots keep their default |
| Icosphere.MakeIcosphere | src/icosphere.cpp:69-171 | the buffers returned are exactly `IcoMesh(resolution)` |
| Icosphere.CopyBase | src/icosphere.cpp:92-99 | the copy loops put the base vertices and base indices at the front, the rest still unset |
| Icosphere.RunRounds | src/icosphere.cpp:104-162 | the rounds loop leaves the buffers holding the mesh after `resolution` rounds, unused slots untouched |
| Icosphere.RoundRoom | src/icosphere.cpp:83-90 | buffers sized for `resolution` rounds have room for every round before it |
| Icosphere.IndexCountSplit | src/icosphere.cpp:83 | each round's index count is a whole number of triangles, a quarter of the next round's |
| Icosphere.RoundsStep | src/icosphere.cpp:104-162 | round `r + 1` subdivides the mesh of round `r` |
| Icosphere.SubdivideRound | src/icosphere.cpp:114-161 | one pass of the triangle loop turns the buffer prefix into `NextRound` of it |
| Icosphere.SubdivideTriangle | src/icosphere.cpp:118-160 | the body for one triangle writes 9 appended entries, creates at most three vertices and advances the round by one triangle |
| Icosphere.WriteTriangles | src/icosphere.cpp:146-160 | the corner triangles are appended from the original corners and the midpoint triangle is written over the triangle |
| Icosphere.TriangleMidpoints | src/icosphere.cpp:118-140 | the edge loop returns the map's vertex for each edge, creating at most three midpoint vertices |
| Icosphere.EdgeMidpoint | src/icosphere.cpp:121-139 | one edge: the table becomes `AddEdge` of the ordered edge, the returned vertex is its entry, and at most one vertex is written |
| Texture.TransferFormat | framework/src/texture.cpp:9-21 | `GL_NONE` exactly for a value outside the format enum |
| Texture.InternalFormat | framework/src/texture.cpp:23-35 | an error (the `throw`) exactly for a value outside the format enum |
| Texture.ChannelType | framework/src/texture.cpp:37-49 | throws exactly outside the enum; unsigned bytes exactly for the four 8-bit formats |
| Texture.FilterGl | framework/src/texture.cpp:51-58 | maps exactly nearest and linear, to `GL_NEAREST`/`GL_LINEAR`, and throws otherwise |
| Texture.WrapGl | framework/src/texture.cpp:60-67 | maps exactly clamp and repeat, to `GL_CLAMP_TO_EDGE`/`GL_REPEAT`, and throws otherwise |
| Texture.ChannelCount | framework/src/texture.cpp:69-81 | defined exactly on the enum, 1 to 4 channels |
| Texture.ChannelSize | framework/src/texture.cpp:83-95 | defined exactly on the enum: 1 byte for the 8-bit formats, 4 for depth, integer and float |
| Texture.PixelStride | framework/src/texture.cpp:97-99 | defined exactly on the enum, 1 to 4 bytes: the channel count for the 8-bit formats and 4 for the others |
| Texture.ChannelCountOfCast | framework/src/texture.cpp:115-125 | an image's channel count 1 to 4 cast to a format gives back that channel count and stride |
| Texture.FormatNamesDistinct | framework/src/texture.cpp:9-35 | internal formats tell every format apart; transfer formats do too except RGBA and float |
| Texture.UploadStride | framework/src/texture.cpp:216-227 | the bytes per pixel the upload reads are between 1 and 16 |
| Texture.UploadMatchesStride | framework/src/texture.cpp:142-155 | for the 8-bit and depth formats the upload reads exactly the allocated stride per pixel |
| Texture.WideFormatsOverread | framework/src/texture.cpp:142-155 | as written, integer and float textures allocate 4 bytes per pixel but the upload reads 16 |
| Texture.CorrectedChannelCount | framework/src/texture.cpp:69-81 | four channels for the integer and float formats, the source's count for the rest |
| Texture.CorrectedStrideMatchesUpload | framework/src/texture.cpp:142-155 | with the corrected count every format's buffer holds exactly what its upload reads |
| Texture.PixelNumberBelow | framework/src/texture.cpp:183-193 | the row-major pixel number of an in-bounds pixel lies below `width * height` |
| Texture.PixelInBuffer | framework/src/texture.cpp:142-193 | the channels of every in-bounds pixel lie inside the buffer `source` allocated |
| Texture.PixelIndexSeparated | framework/src/texture.cpp:191-193 | for the 8-bit formats, distinct in-bounds pixels get offsets a whole pixel stride apart, so their bytes never overlap |
| Texture.WidePixelsOverlap | framework/src/texture.cpp:191-193 | for Depth, Int and Float, `index` steps by the channel count of 1 while a pixel is 4 bytes wide, so neighbouring pixels' bytes overlap |
| Texture.Texture.constructor | framework/src/texture.cpp:101-113 | no data, zero size, RGBA, linear filtering and clamped wrapping |
| Texture.Texture.SourceImage | framework/src/texture.cpp:115-125 | the format is the image's channel count, and size, channel count and buffer come from the image |
| Texture.Texture.SourceBlank | framework/src/texture.cpp:142-155 | an unmapped format throws with nothing changed; otherwise format, size and channel count are set and the buffer is `width * height * stride` zero bytes, or null when `malloc` fails |
| Texture.Texture.SourceCopy | framework/src/texture.cpp:127-140 | as `SourceBlank`, but the buffer is a copy of the first `width * height * stride` bytes given |
| Texture.Texture.SetFilter | framework/src/texture.cpp:165-170 | sets both filters and nothing else |
| Texture.Texture.SetFilterBoth | framework/src/texture.cpp:157-159 | sets both filters to the same value and nothing else |
| Texture.Texture.SetWrap | framework/src/texture.cpp:172-177 | sets both wrap modes and nothing else |
| Texture.Texture.SetWrapBoth | framework/src/texture.cpp:161-163 | sets both wrap modes to the same value and nothing else |
| Texture.Texture.IndexInData | framework/src/texture.cpp:179-193 | after a blank `source`, every in-bounds pixel's channels lie in the buffer, and on row 0 the two `index` forms agree |
| Font.GetGlyph | src/font.cpp:28-46 | the stored glyph when there is one; otherwise an empty glyph, marked -1 exactly when there is no '?' glyph either |
| Font.MissingGlyphDropsFallback | src/font.cpp:37-43 | as written, a missing character gets the empty glyph even when a '?' glyph exists |
| Font.GetGlyphOrFallback | src/font.cpp:28-46 | the stored glyph, else the '?' glyph, else a glyph marked -1 |
| Font.FallbackFailsAlike | src/font.cpp:28-46 | both lookups fail (-1) for the same characters: exactly those missing with no '?' glyph |
| Font.GetKerning | src/font.cpp:252-266 | the pair's kerning when both characters have glyphs and the pair of glyph indices is in the table; any non-zero answer comes from the table |
| Font.LayoutChar | src/font.cpp:96-151 | one character fails exactly when it is drawn and missing, and the lines stay non-empty |
| Font.LayoutShape | src/font.cpp:90-153 | a laid-out string has one line more than it has newlines, and its lines concatenated are the glyphs of its drawn characters in order |
| Font.LayoutFails | src/font.cpp:128-133 | `createTextMesh` throws exactly when some drawn character is missing |
| Font.LayoutErrPersists | src/font.cpp:128-133 | once a prefix has thrown the whole string throws the same |
| Font.CreateTextLines | src/font.cpp:90-153 | the character loop computes exactly `Layout`: the glyphs per line or the first missing character |
| Font.PolySumSnoc | src/font.cpp:273-275 | one more character shifts the base-31 polynomial one place |
| Font.HashString | src/font.cpp:268-278 | the loop computes the base-31 polynomial of the string modulo 2^64 |
| Font.HashConfigIsPolynomial | src/font.cpp:280-289 | `hash_config` is the base-31 polynomial of the three config numbers modulo 2^64 |
| Font.HashCombine | src/font.cpp:291-294 | the combined hash is a `size_t` value |
| Font.CacheGet | src/font.cpp:296-311 | a key hit answers the stored mesh and keeps it; a miss answers and stores the mesh of the text's layout, or the layout's error; the key's entry is kept alive for two clears; other entries are untouched; a throwing layout leaves the cache as it was |
| Font.CollidingTextsShareMesh | src/font.cpp:296-304 | "Aa" and "BB" hash alike, so asking for "BB" after "Aa" returns the mesh laid out for "Aa" |
| Font.CacheGetByText | src/font.cpp:296-311 | keyed by text, config and font, every entry holds the mesh of its own text laid out in its own font, and the answer is exactly the layout of the text asked for in the font asked for; a hit returns the stored mesh and a failing layout leaves the cache as it was |
| Font.OtherFontSharesMesh | src/font.cpp:296-304 | the hash key leaves the font out, so a text asked for in a second font gets the mesh laid out in the first |
| Font.Decayed | src/font.cpp:313-325 | an entry survives `clear` exactly when its count was above 1, and survivors count one lower |
| Font.TwoClearsEvict | src/font.cpp:307-325 | an entry just used survives one `clear` and is gone after the second |
| Font.DecayStep | src/font.cpp:314-324 | visiting the next key moves it from the unvisited to the decayed entries |
| Font.DecayEntries | src/font.cpp:313-325 | the erase loop, in any iteration order, yields `Decayed` of the cache |
| Font.FontTextMeshCache.constructor | src/font.cpp:296-311 | the cache starts empty |
| Font.FontTextMeshCache.GetOrCreateTextMesh | src/font.cpp:296-311 | the cache and the answer become those of `CacheGet`: a key hit returns the stored mesh, a fresh mesh is built from the text and config asked for |
| Font.FontTextMeshCache.Clear | src/font.cpp:313-325 | the cache becomes `Decayed` of the old cache |
| Font.FontTextMeshCache.ForceClear | src/font.cpp:327-332 | the cache becomes empty |
| Font.Font.constructor | src/font.cpp:48-54 | zero paddings, four spaces per tab, an empty generation input |
| Font.Font.Source | src/font.cpp:56-59 | only the input's file path changes |
| Font.Font.Scale | src/font.cpp:61-64 | only the input's generation scale changes |
| Font.Font.LinePadding | src/font.cpp:66-70 | as written, the input receives the font's own padding fields and the arguments are ignored |
| Font.Font.SetLinePadding | src/font.cpp:66-70 | the input's line paddings become the arguments, nothing else changes |
| Font.Font.CharacterPadding | src/font.cpp:72-76 | only the character paddings change |
| Font.LinePaddingLost | lithProjects/lithTetris/src/sketch.cpp:46-52 | with `linePadding(0, 4)` as written, the generator receives a bottom padding of 0 |
| Font.LinePaddingKept | lithProjects/lithTetris/src/sketch.cpp:46-52 | with the padding stored, the generator receives 0 and 4 |
| Timer.Ratio | framework/src/timer.cpp:14-21 | the ratio lies in `[0, 1]`: `timer / delay` when that is in range, else clamped to 0 or 1 |
| Timer.TrappedStep | framework/src/timer.cpp:27-40 | `dt` is added only when not trapped; the timer fires exactly when past the delay, the trap is set to the answer and a firing subtracts one delay |
| Timer.PassedStep | framework/src/timer.cpp:42-51 | fires exactly when `timer + dt` passes the delay, and then the timer restarts from 0 |
| Timer.OnceStep | framework/src/timer.cpp:53-56 | adds `dt` and fires exactly while the timer is past the delay |
| Timer.OnceUntilResetStep | framework/src/timer.cpp:58-66 | adds `dt` only on the first call since the last reset, marks the pass, and fires exactly while past the delay |
| Timer.ResetIfPassedStep | framework/src/timer.cpp:73-79 | an expired timer restarts from 0, any other keeps its time, and the pass mark is cleared |
| Timer.TrappedCountsDtOnce | framework/src/timer.cpp:27-40 | after a firing, the next call ignores its `dt` |
| Timer.OnceUntilResetIdempotent | framework/src/timer.cpp:58-66 | a second call before `reset_if_passed` changes nothing and answers the same, whatever its `dt` |
| Timer.ResetRearmsOnce | framework/src/timer.cpp:58-79 | after `reset_if_passed` the next call counts its `dt` again |
| Timer.LithTimer.constructor | framework/src/timer.cpp:3-8 | the given delay, time 0, neither trapped nor passed |
| Timer.LithTimer.Reset | framework/src/timer.cpp:10-12 | only the time returns to 0 |
| Timer.LithTimer.RatioNow | framework/src/timer.cpp:14-21 | the ratio of the current state, in `[0, 1]` |
| Timer.LithTimer.Trapped | framework/src/timer.cpp:27-40 | the new state and answer are those of `TrappedStep` |
| Timer.LithTimer.Passed | framework/src/timer.cpp:42-51 | the new state and answer are those of `PassedStep` |
| Timer.LithTimer.Once | framework/src/timer.cpp:53-56 | the new state and answer are those of `OnceStep` |
| Timer.LithTimer.OnceUntilReset | framework/src/timer.cpp:58-66 | the new state and answer are those of `OnceUntilResetStep` |
| Timer.LithTimer.PassedUntilReset | framework/src/timer.cpp:68-71 | behaves exactly as `once`: adds `dt` and fires while past the delay |
| Timer.LithTimer.ResetIfPassed | framework/src/timer.cpp:73-79 | the new state is `ResetIfPassedStep` of the old |
| Timer.BurstStep | framework/src/timer.cpp:93-107 | a burst fires only when the outer timer is past its delay and the inner one passes; each firing advances the counter, and the last of a burst restarts the counter and the outer timer |
| Timer.BurstCounterInRange | framework/src/timer.cpp:93-107 | with a positive burst count the counter stays in `[0, burstCount)` |
| Timer.BurstsAfter | framework/src/timer.cpp:93-107 | bursting keeps the burst count |
| Timer.CounterAfterFirings | framework/src/timer.cpp:93-107 | after `n` firings from 0 the counter is `n`, back to 0 after a full burst |
| Timer.LithTimerBurst.constructor | framework/src/timer.cpp:81-86 | two timers with the given delays, the burst count, counter 0 |
| Timer.LithTimerBurst.Reset | framework/src/timer.cpp:88-91 | both timers' times return to 0, nothing else changes |
| Timer.LithTimerBurst.Burst | framework/src/timer.cpp:93-107 | the new state and answer are those of `BurstStep` |
| Timer.LithTimerBurst.FailedBurst | framework/src/timer.cpp:109-111 | only the counter drops by one |
| PrintfLogger.Lines | runtime/src/printfLogger.cpp:17-29 | no messages give the empty text |
| PrintfLogger.Survivors | runtime/src/printfLogger.cpp:36-48 | removal never adds entries |
| PrintfLogger.SurvivorsLive | runtime/src/printfLogger.cpp:41-46 | no surviving entry has a negative life |
| PrintfLogger.LinesAppend | runtime/src/printfLogger.cpp:20-22 | the text of two runs of messages is the two texts concatenated |
| PrintfLogger.DropOldestLines | runtime/src/printfLogger.cpp:12-14 | dropping the oldest message drops exactly its text from the front |
| PrintfLogger.Aged | runtime/src/printfLogger.cpp:38-39 | every entry keeps its text and loses `dt` of life |
| PrintfLogger.NothingExpires | runtime/src/printfLogger.cpp:36-48 | when every life is at least `dt`, removal only ages the entries |
| PrintfLogger.AgedLines | runtime/src/printfLogger.cpp:17-29 | ageing does not change the text |
| PrintfLogger.SurvivorsFromBuffer | runtime/src/printfLogger.cpp:36-48 | every survivor is an entry of the buffer aged by `dt` |
| PrintfLogger.LiveEntryKept | runtime/src/printfLogger.cpp:36-48 | an entry whose aged life is not negative survives |
| PrintfLogger.PrintfLogger.constructor | runtime/src/printfLogger.cpp:3-5 | no messages and not stale |
| PrintfLogger.PrintfLogger.Log | runtime/src/printfLogger.cpp:7-15 | the message is appended with a life of 3, the oldest dropped beyond 50, and the text marked stale |
| PrintfLogger.PrintfLogger.GetLines | runtime/src/printfLogger.cpp:17-29 | returns the concatenated messages, rebuilding the cached text only when stale, and leaves it fresh |
| PrintfLogger.PrintfLogger.Clear | runtime/src/printfLogger.cpp:31-34 | no messages, text marked stale |
| PrintfLogger.PrintfLogger.RemoveOldLogs | runtime/src/printfLogger.cpp:36-48 | the messages become `Survivors`; the text is marked stale exactly when one was removed, otherwise the mark is kept |
| PrintfLogger.RemoveExpired | runtime/src/printfLogger.cpp:37-47 | the erase-in-place loop leaves exactly `Survivors` and reports whether anything was removed |
| PrintfLogger.NothingRemoved | runtime/src/printfLogger.cpp:36-48 | a removal that drops nothing keeps the text |
| PrintfLogger.AllLive | runtime/src/printfLogger.cpp:36-48 | a removal that drops nothing found every life at least `dt` |
| Level.FindSpace | lithProjects/DashGame/src/level.cpp:15 | a space found at or after `from` lies inside the text |
| Level.FindSpaceFirst | lithProjects/DashGame/src/level.cpp:15 | the space found is the first one at or after `from`, and none is found exactly when there is none |
| Level.FindSepFirst | lithProjects/DashGame/src/level.cpp:16 | the separator found is the first space or newline at or after the position, and none is found exactly when there is none |
| Level.ReadToken | lithProjects/DashGame/src/level.cpp:14-19 | `*index` ends at a separator or at -1 (`npos` stored in an `int`) |
| Level.ReadTokenShape | lithProjects/DashGame/src/level.cpp:14-19 | the token holds no separator; it is the text just before the separator `*index` points at, or the end of the text when none was found |
| Level.SkipBlank | lithProjects/DashGame/src/level.cpp:32 | skipping leading blanks never lengthens the token |
| Level.Stoi | lithProjects/DashGame/src/level.cpp:28-33 | `std::stoi` yields a value only inside the 32-bit `int` range, and throws otherwise |
| Level.ReadInt | lithProjects/DashGame/src/level.cpp:28-33 | an integer read lies in the 32-bit range and leaves `*index` where the token reader does; the read fails exactly when `std::stoi` throws on the token |
| Level.ReadVec2 | lithProjects/DashGame/src/level.cpp:35-39 | two tokens read in a row leave `*index` at a separator or at -1 |
| Level.ReplaceAt | lithProjects/DashGame/src/level.cpp:83-84 | `std::replace` turns every `from` into `to` and changes nothing else |
| Level.ReplaceAbsent | lithProjects/DashGame/src/level.cpp:83-84 | replacing a character the string does not hold changes nothing |
| Level.UnescapeAt | lithProjects/DashGame/src/level.cpp:83-84 | unescaping turns every '\|' into a newline and every '_' into a space, nothing else |
| Level.UnescapeHasNoMarkers | lithProjects/DashGame/src/level.cpp:83-84 | a stored text string never holds an escape character |
| Level.CreateLevelFromText | lithProjects/DashGame/src/level.cpp:41-125 | the loop computes exactly `ParseFrom(text, 0)` over an empty scene |
| Level.ParseStep | lithProjects/DashGame/src/level.cpp:44-122 | one loop turn: an error ends the parse; a record that moves the index backwards is reported; otherwise the loop continues after the record |
| Level.LevelRecordSetsIds | lithProjects/DashGame/src/level.cpp:46-52 | an "L id" record sets both the id and the requested id and queues nothing |
| Level.RecordQueuesOne | lithProjects/DashGame/src/level.cpp:54-88 | a parsed 'd', 'p', 'w' or 't' record queues exactly one entity of its kind and leaves the ids and the enemy count alone |
| Level.InvalidEnemyType | lithProjects/DashGame/src/level.cpp:90-115 | an 'e' record fails as an invalid enemy exactly when its type is neither "spinner" nor "burst" |
| Level.SpinnerRecordQueues | lithProjects/DashGame/src/level.cpp:94-102 | a spinner record queues one spinner and counts one enemy |
| Level.BurstRecordCounts | lithProjects/DashGame/src/level.cpp:104-117 | a burst record counts one enemy and, as written, queues nothing |
| Level.IntText | lithProjects/DashGame/src/level.cpp:130 | an integer is written as a non-empty token without separators |
| Level.EscapeRoundTrip | lithProjects/DashGame/src/level.cpp:83-84 | escaping leaves no separator, and unescaping restores any string that held no escape character |
| Level.CreateTextFromLevel | lithProjects/DashGame/src/level.cpp:127-175 | the stream yields exactly the "L id" header followed by one line per entity |
| Level.StoiIntText | lithProjects/DashGame/src/level.cpp:130 | `std::stoi` of the text `operator<<` writes for an `int` is that `int` |
| Level.ReadAt | lithProjects/DashGame/src/level.cpp:14-19 | a reader finds the token after the next space and leaves `*index` at the separator after it |
| Level.LineReadsBack | lithProjects/DashGame/src/level.cpp:14-39 | chained readers over a record line return its fields in order and leave `*index` at its newline |
| Level.RecordLine | lithProjects/DashGame/src/level.cpp:44-121 | the record the serializer writes for one entity, read back, applies exactly that entity and ends at its newline |
| Level.HeaderRecordLine | lithProjects/DashGame/src/level.cpp:46-52 | the header line read back sets both ids |
| Level.ParseBody | lithProjects/DashGame/src/level.cpp:44-122 | reading the serialized entity lines applies their entities in order |
| Level.ApplyAllIs | lithProjects/DashGame/src/level.cpp:44-122 | reading entities adds the enemies among them to the count and queues the kept ones in order |
| Level.RoundTrip | lithProjects/DashGame/src/level.cpp:41-175 | what the serializer writes, the parser reads back: the level id as both ids, the enemies counted, and the kept entities queued in order |
| Level.KeptAll | lithProjects/DashGame/src/level.cpp:104-110 | when bursts are queued, every entity the serializer writes is kept |
| Level.FixedRoundTrip | lithProjects/DashGame/src/level.cpp:41-175 | with text strings escaped and bursts queued, parsing the serialized scene gives back every entity in order with the id and the enemy count |
| Level.BurstNotReadBack | lithProjects/DashGame/src/level.cpp:104-117 | as written, a burst enemy is counted when read back but never queued |
| Level.TextCutAtSpace | lithProjects/DashGame/src/level.cpp:145-147 | as written, a text whose string holds a space comes back cut at the space |
| Level.TextSplitsAtSpace | lithProjects/DashGame/src/level.cpp:145-147 | concretely, the string "a b" comes back as "a" |
| Levels.LoadKeys | src/game/content/levels.cpp:145-151 | after a load in which every text parsed, each text's id is registered, and every registered scene is the parse of a text carrying that scene's own id |
| Levels.LoadLatest | src/game/content/levels.cpp:135-151 | a scene comes from the last text that carries its id, since `addScene` replaces an earlier one |
| Levels.LoadStops | src/game/content/levels.cpp:145-151 | a load that failed stopped at the first text that does not parse, keeping the map the texts before it built |
| Levels.LoadFailed | src/game/content/levels.cpp:145-151 | once a text fails, the texts after it are not looked at |
| Levels.ReloadNinePastData | src/game/content/levels.cpp:103-131 | the shipped data holds eight texts, so reloading scene 9, which the last text defines, indexes past the end of `levelTestData` |
| Levels.ReloadWrongScene | src/game/content/levels.cpp:129-133 | as written, with a text of id 1 at position 0 and one of id 0 at position 1, reloading scene 0 after loading both puts the scene of id 1 under key 0 |
| Levels.LastWithId | src/game/content/levels.cpp:145-151 | the position found is the last text that parses to a scene with the id, and none is found exactly when no text does |
| Levels.ReloadByIdRestores | src/game/content/levels.cpp:129-151 | reloading by id any scene that `addAllScenes` registered gives back that very scene |
| Levels.Registry.constructor | src/game/content/levels.cpp:119 | the registry starts with no scenes |
| Levels.Registry.GetScene | src/game/content/levels.cpp:121-123 | a registered id yields its scene; a missing id is an error (`at` throws) |
| Levels.Registry.GetAllScenes | src/game/content/levels.cpp:125-127 | returns the whole map |
| Levels.Registry.AddScene | src/game/content/levels.cpp:135-143 | a text that parses is stored under its own id, replacing any scene already there; a text that does not parse throws and changes nothing |
| Levels.Registry.ClearScenes | src/game/content/levels.cpp:153-159 | the map is empty afterwards |
| Levels.Registry.AddAllScenes | src/game/content/levels.cpp:145-151 | the map and the failure are exactly those of `Load` over the shipped texts |
| Levels.Registry.AddEach | src/game/content/levels.cpp:148-150 | the loop over the texts from an empty map ends with `Load`'s map and failure |
| Levels.Registry.ReloadScene | src/game/content/levels.cpp:129-133 | the result and the new map are `reloadScene` as written: a missing id throws first, otherwise the scene is replaced by the parse of the text at position `id` |
| Entities.Entity.constructor | lithProjects/DashGame/src/entity.cpp:24-27 | a new entity belongs to no scene |
| Entities.IndexOf | lithProjects/DashGame/src/entity.cpp:121 | `std::find` returns the position of the first occurrence of the entity |
| Entities.SwapRemoveContents | lithProjects/DashGame/src/entity.cpp:121-123 | swap-and-pop removes exactly one copy of the entity and nothing else, shortening the list by one |
| Entities.SwapRemoveOrder | lithProjects/DashGame/src/entity.cpp:121-123 | every other entity keeps its place, except the last one, which moves into the slot the removed entity left |
| Entities.RemoveAll | lithProjects/DashGame/src/entity.cpp:115-124 | removing each pending entity, in any iteration order, removes exactly those entities as a multiset |
| Entities.RemovedStillHas | lithProjects/DashGame/src/entity.cpp:115-124 | each pending entity is still in the live list when the loop reaches it, so `std::find` never returns `end()` |
| Entities.RemoveAllKeeps | lithProjects/DashGame/src/entity.cpp:115-124 | a live entity that is not pending removal survives the loop, whatever the order |
| Entities.RemoveAllDrops | lithProjects/DashGame/src/entity.cpp:115-124 | a pending entity is gone after the loop when no entity is live twice |
| Entities.AfterUpdateMembers | lithProjects/DashGame/src/entity.cpp:114-133 | after `afterUpdate`, an entity is live exactly when it was live and not pending removal, or was pending addition |
| Entities.DistinctCount | lithProjects/DashGame/src/entity.cpp:115-124 | in a list without repeats an entity occurs at most once |
| Entities.Scene.constructor | lithProjects/DashGame/src/entity.cpp:55-65 | a new scene has no entities, nothing pending, is not over and has id, requested id and enemy count 0 |
| Entities.Scene.Add | lithProjects/DashGame/src/entity.cpp:72-74 | the entity is queued for addition; the live list and the removal set do not change |
| Entities.Scene.Remove | lithProjects/DashGame/src/entity.cpp:76-78 | the entity is marked for removal; marking it again changes nothing; the live list and the additions do not change |
| Entities.Scene.AfterUpdate | lithProjects/DashGame/src/entity.cpp:114-133 | the live list becomes the old one with the pending removals swap-and-popped, followed by the pending additions in queue order, each added entity taking this scene; both queues are emptied |
| Entities.RemovePending | lithProjects/DashGame/src/entity.cpp:115-124 | the removal loop computes `RemoveAll` over the iteration order |
| Entities.SwapPop | lithProjects/DashGame/src/entity.cpp:121-123 | one turn of the loop computes `SwapRemove` |
| Entities.RemoveAllStep | lithProjects/DashGame/src/entity.cpp:115-124 | one more turn of the loop removes the next pending entity from what the earlier turns left, and it is still there |
| Entities.Find | lithProjects/DashGame/src/entity.cpp:121 | the loop's search returns `IndexOf` |
| SketchApi.KeyStep | src/sketchapi.cpp:232-257 | a key event keeps the key table at its 512 entries |
| SketchApi.IndexablePrefix | src/sketchapi.cpp:230-288 | a prefix of events that can all be handled can all be handled |
| SketchApi.KeysAfter | src/sketchapi.cpp:230-288 | the event loop keeps the key table at its 512 entries |
| SketchApi.SentRecompiles | src/sketchapi.cpp:248-254 | the events sent out are recompile requests, exactly one per key event for 'r' with Alt held |
| SketchApi.KeyDownLast | src/sketchapi.cpp:233 | after the loop, `keyDown[k]` is the state of the last key event for `k`, or unchanged when there is none |
| SketchApi.PressOncePerHold | src/sketchapi.cpp:235-246 | `keyCodeOnce` reports a key once per hold: the first press reports it, a repeated press in a later frame does not, and a press after a release reports it again |
| SketchApi.MouseOncePerPress | src/sketchapi.cpp:268-273 | `mousePressedOnce` is set only on a change of the left button: holding it into a later frame does not set it again, and a press after a release does |
| SketchApi.Sketch.KeyState | src/sketchapi.cpp:19-21 | the key table as a value has the table's length |
| SketchApi.Sketch.constructor | src/sketchapi.cpp:7-27 | every global starts at zero or false, with looping on and no events queued |
| SketchApi.Sketch.NoLoop | src/sketchapi.cpp:67-69 | looping is off; the frame timing, the input globals, the queues and the window size are untouched |
| SketchApi.Sketch.Loop | src/sketchapi.cpp:71-73 | looping is on; the frame timing, the input globals, the queues and the window size are untouched |
| SketchApi.Sketch.Fps | src/sketchapi.cpp:75-77 | the frame time becomes one over the frame limit; nothing else changes |
| SketchApi.Sketch.HandleEvent | src/sketchapi.cpp:231-287 | one event updates the keyboard, mouse and size globals as the step functions say and sends out what the event sends; nothing else changes |
| SketchApi.Sketch.HandleMouse | src/sketchapi.cpp:259-276 | a mouse event updates only the mouse globals |
| SketchApi.Sketch.HandleKey | src/sketchapi.cpp:232-257 | a key event updates only the keyboard globals and the events sent out |
| SketchApi.Sketch.NextFrame | src/sketchapi.cpp:226-313 | every queued event is handled in order and dropped; when looping, the size and clock come from the viewport and the sketch, and the frame runs exactly when the accumulated time reached the frame time, which resets the accumulator |
| SketchApi.Sketch.DrainEvents | src/sketchapi.cpp:230-290 | the event loop leaves the globals as the event-by-event step functions compute, sends out what they send and empties the in-queue |
| SketchApi.Sketch.EndFrameNow | src/sketchapi.cpp:315-321 | the per-frame flags are reset and the previous mouse position recorded; the queues, window size, frame times and loop state do not change |
| Mesh.Unsigned32 | framework/src/mesh.cpp:194 | an `int` converted to `GLuint` lies in 32 bits and keeps its value when it already fits |
| Mesh.FindBuffer | framework/src/mesh.cpp:79-84 | `std::find_if` returns the first buffer with the id, or -1 exactly when no buffer has it |
| Mesh.FindBufferIds | framework/src/mesh.cpp:79-84 | the search depends only on the buffers' ids |
| Mesh.FindBufferAppend | framework/src/mesh.cpp:276-284 | appending a buffer does not move the first buffer with an id already present |
| Mesh.GetBufferLinked | framework/src/mesh.cpp:74-85 | once the links are cached, `getBuffer` answers as a plain search does: the first buffer with the id, or -1 when none has it |
| Mesh.HasIndexBuffer | framework/src/mesh.cpp:92-95 | true exactly when some buffer has id -1 |
| Mesh.HasInstancedAttribute | framework/src/mesh.cpp:87-90 | true exactly when some attribute has a positive instance stride |
| Mesh.CacheAttributeBufferLinks | framework/src/mesh.cpp:97-103 | every attribute is linked to `getBuffer` of its buffer id and the index link to `getBuffer(-1)`; buffers, topology and everything else are unchanged |
| Mesh.CopyFrom | framework/src/mesh.cpp:65-72 | the copy has the source's buffers, attributes and topology, with every link re-pointed at the copy's own first buffer of each id |
| Mesh.LinkedResolved | framework/src/mesh.cpp:97-103 | linking data whose attributes name existing buffers leaves no null attribute link, and the index link is null exactly when there is no index buffer |
| Mesh.StepWellFormed | framework/src/mesh.cpp:260-361 | every builder call keeps its current pointers null or valid, the index link null and every attribute naming an existing buffer |
| Mesh.RunWellFormed | framework/src/mesh.cpp:260-361 | any chain of builder calls that does not dereference a null pointer leaves the builder well formed |
| Mesh.RunBuffers | framework/src/mesh.cpp:266-284 | the buffers of a builder are exactly those its `index` and `buffer` calls declared, in call order and with their ids; index buffers are bound as element arrays |
| Mesh.Packed | framework/src/mesh.cpp:294-309 | the expected layout has one attribute per declared one |
| Mesh.PackedStep | framework/src/mesh.cpp:294-315 | one more `attribute(id).type(t, n)` pair extends a packed layout by one attribute, placed just past the previous one |
| Mesh.PackedRun | framework/src/mesh.cpp:294-315 | after `map`, a run of attribute pairs appends attributes that read the current buffer with the current instance stride and lie one after another |
| Mesh.MapLayout | framework/src/mesh.cpp:286-315 | `map(b)` then attribute pairs: the attributes read the first buffer with id `b`, are not instanced, and are packed from offset 0; the buffers are unchanged |
| Mesh.InstancedLayout | framework/src/mesh.cpp:286-326 | `map(b).instanced(k)` then attribute pairs: the attributes read that buffer with instance stride `k`, packed from offset 0, and the buffer is flagged as instanced |
| Mesh.TextMeshLayout | framework/src/text.cpp:5-11 | the glyph mesh builder yields one host buffer 0 and two float-pair attributes at offsets 0 and 8, not instanced |
| Mesh.VertexArrayBuilder.constructor | include/lith/mesh.h:142-147 | a fresh builder has no buffers or attributes, null current pointers and instance stride 0 |
| Mesh.VertexArrayBuilder.SetTopology | framework/src/mesh.cpp:260-264 | the builder steps as `topology(t)` and stays well formed |
| Mesh.VertexArrayBuilder.Index | framework/src/mesh.cpp:266-274 | appends a buffer with id -1 bound as element array and makes it current |
| Mesh.VertexArrayBuilder.Buffer | framework/src/mesh.cpp:276-284 | appends a buffer with the id bound as vertex array and makes it current |
| Mesh.VertexArrayBuilder.Map | framework/src/mesh.cpp:286-292 | the first buffer with the id becomes current (null when there is none); no attribute is current and the instance stride is 0 |
| Mesh.VertexArrayBuilder.Attribute | framework/src/mesh.cpp:294-309 | appends an attribute reading the current buffer with the current stride, just past the current attribute, and makes it current |
| Mesh.VertexArrayBuilder.Type | framework/src/mesh.cpp:311-315 | sets the current attribute's type and count |
| Mesh.VertexArrayBuilder.Host | framework/src/mesh.cpp:317-320 | the current buffer keeps its bytes after upload |
| Mesh.VertexArrayBuilder.Instanced | framework/src/mesh.cpp:322-326 | later attributes get the stride and the current buffer is flagged as instanced |
| Mesh.VertexArrayBuilder.Data | framework/src/mesh.cpp:328-331 | the current buffer gets an empty byte vector of the item size |
| Mesh.VertexArrayBuilder.DataRaw | framework/src/mesh.cpp:333-336 | the current buffer holds the first `byteCount` bytes, in items of `itemSize` |
| Mesh.VertexArrayBuilder.DataItems | framework/src/mesh.cpp:338-361 | the current buffer holds the byte images of the list's values |
| Mesh.VertexArrayBuilder.SetData | framework/src/mesh.cpp:328-361 | the current buffer's data is replaced and the builder stays well formed |
| Mesh.VertexArrayBuilder.Build | framework/src/mesh.cpp:363-365 | a new vertex array over a copy of the data built so far, whose links can all be followed |
| Mesh.UploadIdempotent | framework/src/mesh.cpp:154-175 | uploading a buffer twice changes nothing more than uploading it once, and a buffer kept on the host counts its own items |
| Mesh.UploadBuffers | framework/src/mesh.cpp:154-175 | the buffer loop uploads each buffer with its own GL name |
| Mesh.UploadAttributes | framework/src/mesh.cpp:177-206 | every attribute is marked uploaded; with at least one attribute the vertex count is the least item count over non-instanced attributes and the instance count the least over instanced ones (INT_MAX when none) |
| Mesh.EmptiedItems | framework/src/mesh.cpp:230-242 | `clear` leaves every buffer without items; `clearInstances` empties exactly the instanced buffers; clearing instances first makes no difference to a full clear |
| Mesh.ClearBuffers | framework/src/mesh.cpp:230-242 | the loops of `clear` and `clearInstances` empty each buffer as `Emptied` says |
| Mesh.VertexArray.FromData | framework/src/mesh.cpp:114-123 | a linked copy of the data whose links can be followed, the two flags read from the data, no handle and zero counts |
| Mesh.VertexArray.Upload | framework/src/mesh.cpp:145-216 | the array keeps or gets its handle, each buffer is uploaded, attributes marked uploaded with the counts derived from them, and the index count is the index buffer's item count |
| Mesh.VertexArray.Clear | framework/src/mesh.cpp:230-234 | every buffer loses its bytes; nothing else changes |
| Mesh.VertexArray.ClearInstances | framework/src/mesh.cpp:236-242 | exactly the buffers flagged as instanced lose their bytes; nothing else changes |
| Mesh.VertexArray.Free | framework/src/mesh.cpp:218-228 | the buffers and attributes are dropped and the handle is 0; the counts and flags stay |
| Mesh.SameItems | framework/src/mesh.cpp:182-206 | marking attributes uploaded does not change the item counts they select |
| Target.IsColorAttachment | framework/src/target.cpp:5-11 | true exactly for the slots other than the depth slot |
| Target.GlAttachment | framework/src/target.cpp:13-23 | a colour slot maps to one of the four colour attachment points, and a slot maps to the depth point exactly when it is the depth slot |
| Target.GlAttachmentInjective | framework/src/target.cpp:13-23 | distinct slots have distinct GL attachment points |
| Target.GetAttachment | framework/src/target.cpp:34-41 | the position of the first attachment in the slot, or -1 exactly when no attachment is in it |
| Target.GetAttachmentSlots | framework/src/target.cpp:34-41 | the search depends only on the attachments' slots |
| Target.Swapped | framework/src/target.cpp:52-63 | linking a slot keeps the number of attachments |
| Target.Released | framework/src/target.cpp:55-59 | a swap deletes at most one texture |
| Target.OwnedExactly | framework/src/target.cpp:99-104 | `free` deletes a texture exactly when some owned attachment links it |
| Target.OwnedAreCreated | framework/src/target.cpp:95-106 | a target that owns only textures it created never deletes, on `free` or on a swap, a texture its caller supplied |
| Target.SwapClearedKeepsOwnership | framework/src/target.cpp:52-63 | linking a supplied texture with the ownership flag cleared keeps the target owning only textures it created; the colour flags stay in agreement with the slots |
| Target.SwapTakesOwnership | framework/src/target.cpp:52-63 | as written, swapping a caller's texture into a slot holding a texture the target created deletes the old one and leaves the target owning the caller's texture, which `free` then deletes |
| Target.ColourTargetsExactly | framework/src/target.cpp:79-92 | every colour attachment's GL point is among the draw buffers, the depth point never is, and there is one draw buffer per colour attachment |
| Target.DrawBuffers | framework/src/target.cpp:77-90 | the loop collects the colour attachment points in attachment order |
| Target.OwnedTextures | framework/src/target.cpp:99-104 | the loop collects the owned textures in attachment order |
| Target.Target.constructor | framework/src/target.cpp:47-50 | the target holds the data with no handle and nothing deleted |
| Target.Target.Get | framework/src/target.cpp:65-68 | none exactly when no attachment is in the slot; otherwise the texture of the first attachment in it |
| Target.Target.SwapAttachment | framework/src/target.cpp:52-63 | as written: the slot's texture is deleted when owned and replaced, the ownership flag kept; an empty slot changes nothing; `get` then answers the new texture |
| Target.Target.SwapAttachmentFixed | framework/src/target.cpp:52-63 | as evidently intended: the same swap with the ownership flag cleared, keeping the target owning only textures it created |
| Target.Target.Upload | framework/src/target.cpp:70-93 | the framebuffer keeps or gets its handle and the draw buffers are the colour attachment points in attachment order; the data is unchanged |
| Target.Target.Free | framework/src/target.cpp:95-106 | for any target, the owned textures are deleted in attachment order, the attachment list is emptied and the handle reset; when the target owned only textures it created, every deleted texture is one of those |
| Target.TargetBuilder.constructor | framework/src/target.cpp:29-32 | a builder starts with no attachments and size 0 by 0 |
| Target.TargetBuilder.Size | framework/src/target.cpp:112-117 | sets the size later created textures get; nothing else changes |
| Target.TargetBuilder.AttachTexture | framework/src/target.cpp:119-129 | appends the caller's texture in the slot, with the colour flag from the slot and not owned |
| Target.TargetBuilder.AttachFormat | framework/src/target.cpp:131-144 | appends a new texture of the format at the builder's size, with the colour flag from the slot and owned |
| Target.TargetBuilder.Build | framework/src/target.cpp:146-148 | a new target over the data built, with no handle and nothing deleted |
| Text.GlyphVertices | framework/src/text.cpp:31-52 | a glyph adds six vertices |
| Text.GlyphQuad | framework/src/text.cpp:31-52 | the six vertices are two triangles sharing the diagonal from the minimum to the maximum corner, covering all four corners, each position paired with the matching atlas corner, both wound the same way |
| Text.TextMesh.constructor | framework/src/text.cpp:4-13 | a new glyph mesh holds no vertices |
| Text.TextMesh.AddGlyph | framework/src/text.cpp:31-52 | the glyph's six vertices are appended to the buffer and nothing else changes |
| Text.TextMesh.Clear | framework/src/text.cpp:27-29 | as written, `clear` leaves the glyph vertices in place |
| Text.TextMesh.ClearFixed | framework/src/text.cpp:27-29 | as evidently intended, `clear` empties the glyph buffer |
| Text.ClearInstancesKeepsGlyphs | framework/src/text.cpp:4-13 | the buffer `create` builds is the single buffer and is not flagged as instanced, so `clearInstances` leaves its bytes |
| Text.UpperBound | framework/src/text.cpp:181-182 | `std::upper_bound` with `me > instance.font` returns the position just past every instance whose font address is at least the new font's |
| Text.OfFontAppend | framework/src/text.cpp:180-191 | the instances of a font in a concatenation are those of each part, in order |
| Text.OfFontNone | framework/src/text.cpp:180-191 | a list without a font's instances has none of them |
| Text.InsertedDescending | framework/src/text.cpp:180-191 | inserting keeps the instances in descending font order and adds exactly the new instance |
| Text.InsertedOfFont | framework/src/text.cpp:180-191 | the new instance comes last among those of its font, and every other font's instances are as they were |
| Text.ActivationsFonts | framework/src/text.cpp:159-170 | with no null font, the draw loop activates exactly the fonts of the instances, the last activated being the last instance's |
| Text.ActivationsDescending | framework/src/text.cpp:159-170 | with the instances in descending font order, the draw loop activates fonts in strictly descending order, each once |
| Text.DrawFonts | framework/src/text.cpp:159-170 | the loop's font switching computes `Activations` |
| Text.TextRenderer.constructor | framework/src/text.cpp:141-143 | a new renderer holds no instances |
| Text.TextRenderer.AddString | framework/src/text.cpp:180-191 | the instances stay in descending font order and become the old ones with a copy of the mesh inserted at the upper bound of its font |
| Text.TextRenderer.Draw | framework/src/text.cpp:153-171 | each font is activated once, in strictly descending address order |
| Text.TextRenderer.Clear | framework/src/text.cpp:173-178 | no instance is left |
| Ui.HoverInclusive | framework/src/ui.cpp:26-28 | the hover test includes all four edges: each corner and every border point of a rectangle of non-negative size is hovered, and a point left of it is not |
| Ui.ScaleBack | framework/src/ui.cpp:43-72 | scaling a value into the slider's range and back gives the value again, so an untouched slider writes back what it read |
| Ui.ScaledUnit | framework/src/ui.cpp:43 | a value within the range scales into [0, 1] |
| Ui.GrabKeepsValue | framework/src/ui.cpp:47-67 | the drag offset recorded when a drag starts makes the dragged fraction that of the value itself, wherever on the handle the mouse grabbed it |
| Ui.SliderBehavior | framework/src/ui.cpp:42-75 | the handle is placed at the value; a drag starts only when the mouse is first pressed over the handle and ends as soon as it is released; a dragged value is the mouse's fraction along the slider, less the drag offset, taken back into the range, so it stays in the range, and starting a drag does not move the value; an undragged value is written back unchanged and the velocity decays |
| Ui.LiveExactly | framework/src/ui.cpp:12-24 | a tick keeps exactly the entries used in the frame it ends, unchanged; an entry not used in the next frame is gone after the next tick |
| Ui.EraseStale | framework/src/ui.cpp:13-21 | the erase loop leaves exactly the entries used in the current frame |
| Ui.UIContext.constructor | framework/include/lith/ui.h:29-32 | the context starts with no sliders at frame 0 |
| Ui.UIContext.Tick | framework/src/ui.cpp:12-24 | the stale entries are erased and the frame advances by one |
| Ui.UIContext.Slider | framework/src/ui.cpp:30-40 | the entry keyed by the value's address is created if need be, placed and stamped with this frame, and driven by the behaviour; other entries stay; a drag starts only on a fresh press and one in progress continues while the mouse is held; a dragged value is the entry's dragged value and stays in the range, an undragged one is unchanged |
| Ui.UIContext.SliderInt | framework/src/ui.cpp:90-95 | the entry under the given key drives the slider: a value not being dragged comes back unchanged; a dragged one is the rounding of the float the slider writes, and stays within the range, whichever bound is larger; a drag in progress continues while the mouse is held and none starts without a fresh press |
| Ui.UIContext.IntSlidersShareEntry | framework/src/ui.cpp:90-95 | as written, two `sliderInt` calls from one caller share the entry keyed by the local `valueF`: once the first is dragged the second is too, and its value becomes the mouse position along it |
| Ui.UIContext.IntSlidersSeparate | framework/src/ui.cpp:90-95 | keyed by the callers' own values, the first slider leaves the second's entry alone, so a second slider not being dragged comes back unchanged without a fresh press |
| Ui.RoundInteger | framework/src/ui.cpp:93 | rounding an integer-valued float gives the integer back |
| Ui.RoundMonotone | framework/src/ui.cpp:93 | rounding keeps order |
| Assets.LastIndexOf | framework/src/assets.cpp:30 | the position found holds the character and none after it does; none is found exactly when the string lacks it |
| Assets.Filename | framework/src/assets.cpp:30 | `path::filename` holds no separator |
| Assets.Extension | framework/src/assets.cpp:66 | `path::extension` is empty or starts with its only dot |
| Assets.LastIndexAt | framework/src/assets.cpp:30 | the last occurrence is the one with none after it |
| Assets.FilenameOfJoin | framework/src/assets.cpp:19-21 | a name without separators under a directory is that path's file name |
| Assets.LastDot | framework/src/assets.cpp:66 | the last dot of `stem.ext` with a dot-free `ext` is the one after the stem |
| Assets.ExtensionOfName | framework/src/assets.cpp:66 | a file name with a non-empty stem and a dot has the dot and what follows as its extension, `..` excepted |
| Assets.NoExtension | framework/src/assets.cpp:66 | a name without a dot, or a hidden name whose only dot leads, has no extension |
| Assets.FirstNamed | framework/src/assets.cpp:29-30 | the position found is the first file with that name; none is found exactly when no file has it |
| Assets.Paths | framework/src/assets.cpp:49-51 | the paths of the files, position by position |
| Assets.TotalUpdate | framework/src/assets.cpp:37 | replacing one file's count changes the total by the difference |
| Assets.BumpedPaths | framework/src/assets.cpp:28-39 | `dependency` keeps the paths and their order |
| Assets.BumpedAt | framework/src/assets.cpp:28-39 | `dependency` replaces the first file with that name by one with one more dependency |
| Assets.BumpedTotal | framework/src/assets.cpp:28-39 | `dependency` adds exactly one dependency in total when some file has that name, and none otherwise |
| Assets.BumpedOnlyFirst | framework/src/assets.cpp:28-39 | any file `dependency` changes is the first one with that name |
| Assets.InsertPermutes | framework/src/assets.cpp:41-46 | an insertion adds exactly the one file |
| Assets.InsertBound | framework/src/assets.cpp:41-46 | a lower bound of the list and the new file bounds the result |
| Assets.InsertSorted | framework/src/assets.cpp:41-46 | inserting into an ascending list keeps it ascending |
| Assets.SortByDependencies | framework/src/assets.cpp:41-46 | the sort yields the files in ascending dependency count, as a permutation |
| Assets.WithExtensionMembers | framework/src/assets.cpp:59-72 | a file is found by extension exactly when it is listed with that extension |
| Assets.WithExtensionAscending | framework/src/assets.cpp:59-72 | after `freeze`, the files found by extension come in ascending dependency count |
| Assets.PathsAppend | framework/src/assets.cpp:65-69 | the paths of a list with one more file end with that file's path |
| Assets.AssetBank.constructor | framework/include/lith/assets.h:44-45 | a new bank has an empty root and no files |
| Assets.AssetBank.Root | framework/src/assets.cpp:8-11 | the root becomes the path; the files are unchanged |
| Assets.AssetBank.Scan | framework/src/assets.cpp:13-26 | the old list is dropped and every regular file the walk yields is listed in walk order with no dependencies |
| Assets.AssetBank.Dependency | framework/src/assets.cpp:28-39 | the first file with that name counts one more dependency; an unknown name changes nothing |
| Assets.AssetBank.Freeze | framework/src/assets.cpp:41-46 | the files become a permutation of themselves in ascending dependency count |
| Assets.AssetBank.Find | framework/src/assets.cpp:48-57 | the path of the first file with that name, or the empty string when there is none |
| Assets.AssetBank.FindByExtension | framework/src/assets.cpp:59-72 | the paths of the files with that extension, in list order |

## Left out

- Threads, mutexes, condition variables, `WaitForAll` and the shutdown of the job executor. The model is one sequential worker, and the atomics are plain integers. The work a job runs is not modelled.
- All OpenGL, SDL, audio and plugin calls: drawing, shader sources and programs, and texture and buffer uploads, downloads, frees and activation. Only the state that `upload` computes on the CPU side is modelled (`Mesh.VertexArray.Upload`, `Target.Target.Upload`); the GL names it receives are parameters.
- Floating-point geometry: vertex positions, UVs and normals of the mesh generators, the icosphere's final normalisation, the glyph layout coordinates and alignment in `createTextMesh`, and the camera conversion of mouse coordinates. Vertices are named by the loop counters or the edges they come from.
- Box2D physics and entity behaviour: `Scene::update`, `getEntityAt`, `drawFixtures`, collision callbacks, and the bodies that `afterUpdate` removes from the world.
- The filesystem walk of `AssetBank::scan`, which is a parameter: the regular files in walk order.
- `std::stof` and stream number formatting. Float fields of the level format are kept as their text tokens, so `readFloat` is the token reader.
- The text-based wrappers `sliderWithText` and `sliderWithTextInt`: they call `slider` and `sliderInt` and then format and draw text.
- `exit`, `millis`, `size`, `title`, `vsync`, `camera` and the drawing forwarders of src/sketchapi.cpp: each forwards to the runtime or the renderer.
- `TextMesh::free`, `upload` and `draw`, `setPixelPerfect`, and the `TextProgram` shader of framework/src/text.cpp. `TextRenderer::free` empties the instance list as `Text.TextRenderer.Clear` does; its GL deletions are not modelled.
- The reference accessors `VertexArray::buffer`, `index`, `bufferData`, `indexData` and `internalData`: they dereference `getBuffer`, which is modelled.
- Sounds, the drop preview, `lastMove`, `hitEdge` and the score text of the Tetris game loop. The three timers are reduced to whether they fired this frame.
- Tetris.RandomBag.GenerateNextPieces: the draws of `rand_im` are parameters, since lith/random.h is not part of this model.
- Entities.Scene.AfterUpdate: the iteration order of the `unordered_set` of pending removals is a parameter. The source's own requirement that each pending entity is live is a precondition, because otherwise `std::find` returns `end()` and the swap writes past the vector.
- Strings.Split: the delimiter must be non-empty; with an empty one the C++ loop never advances and never ends.
- JobQueue.TsQueue.PopFront: a pop on an empty queue, which blocks in the source until another thread pushes, is excluded by a precondition. JobQueue.TsQueue.PopBack is handled the same way.
- Timer.Ratio: requires a non-zero delay; a zero delay divides by zero in floating point.
- SketchApi.Sketch.Fps: a frame limit of 0, an infinite frame time in floating point, is excluded.
- Ui.UIContext.Slider: requires `min != max` and a non-zero length. Either one divides by zero in floating point, and the NaN or infinity that results is not modelled.
- Ui.UIContext.SliderInt: the conversions `(float)*value` and `(int)round(...)` are exact here; rounding of large integers to float and overflow of the conversion back are not modelled.
- Mesh.VertexArrayBuilder.constructor: include/lith/mesh.h leaves `currentBuffer` and `currentAttribute` uninitialised. The model starts them as `nullptr`, so a call that needs the current buffer before any `map`, `buffer` or `index` call is a null dereference (`None` in `Mesh.Step`), where the source would read an indeterminate pointer.
- Plane.MakePlane: the counts are natural numbers. A negative count makes the source resize its arrays to a negative size.
- Bytes.ByteVector.Add: an item wider than `itemSize` is excluded by the precondition, because copying it would write past the buffer.
- Packing.Pack: every array must be at least as long as the first, because the source reads element `i` of each.
- Level.CreateLevelFromText: a record can leave `*index` before its own start, at -1 when the last record of a text has no separator after it. The C++ loop then starts over from the beginning and never ends; the model stops with a `Rewinds` error.
- Level.Stoi: `std::stoi` is modelled by its result: optional blanks, an optional sign, the leading digits, and a throw on no digits or a value outside `int`. Its locale handling is not modelled.
- Assets.AssetBank.Freeze: the order of files with equal dependency counts is left open, because `std::sort` is not stable.
- Assets.AssetBank.Dependency: the debug-build `assert(false)` for an unknown name is not modelled. The model follows the release build, where nothing changes. Assets.AssetBank.Find likewise returns the empty string.
- Texture.Texture.SourceBlank: whether `malloc` succeeds is a parameter.
- The 32-bit overflow of index arithmetic in the mesh generators and of `width * height * stride` in textures is not modelled; the counts are unbounded integers.
- JobExecutor.Executor.ThreadWorkStep, TetrisGame.Game and its steps: the executor and the game loop are built on the corrected members of the Findings rows (`JobExecutor.Executor.RetireTree`, `Tetris.Grid.ClearLines`, `Tetris.TryRotateShape`). They therefore never reach the as-written behaviours: the `end()` erase and the deletion of a caller's tree, the endless clear of a full top row, and the kick read past the table. Those behaviours are stated only by the as-written members named there.
- JobExecutor.Executor.Run: a tree is run once, while every node is still pending (`nodeCount` equal to its node count and not already queued). Running a tree a second time in the source pushes its roots again and drives its counters below zero; that degenerate use is not modelled.
- Icosphere.MakeIcosphere: the resolution is a natural number. A negative resolution makes the source's `(int)pow(4, r)` zero, so it allocates no index slots and two vertex slots, and the base copy then writes past both buffers.
- Texture.Texture.Index: only the offset is modelled. `get` reads a 4-byte `color` at that offset, which for every format with fewer than four channels reaches into the next pixel. For Depth, Int and Float the pixels themselves overlap, since each is 4 bytes wide while `index` steps by 1 (`Texture.WidePixelsOverlap`).

## Findings

| source | as written | input that shows it | evidently intended | confidence | as-written member | corrected member |
|---|---|---|---|---|---|---|
| framework/src/job.cpp:180-185 | when a tree's last node finishes, the executor erases `std::find`'s result from its owned trees and deletes the tree, whoever created it | a tree created by the caller and passed to `Run`: `find` returns `end()`, which is then erased, and the caller's tree is deleted | only trees the executor owns are unregistered and deleted | not executed; high | JobExecutor.RetireCallerOwnedTree | JobExecutor.Executor.RetireTree |
| lithProjects/lithTetris/src/Tetris.cpp:391-392 | kick offsets are looked up in the row of the rotation index already advanced, and each row holds four kicks while five tests are made, so the fifth reads into the next row | a T piece turning clockwise from rotation 0 first tries (1, 0) where its table says (-1, 0); a turn to rotation 3 reads past the end of the table | the kicks of the turn being made, from its own row | not executed; high | Tetris.KickAsWrittenDefect | Tetris.TryRotateShape |
| lithProjects/lithTetris/src/Tetris.cpp:316-343 | the row shift copies each row from the one above but never empties the top row, and a full top row is shifted onto itself forever | clearing a full bottom row under a non-empty top row leaves that top row twice | rows above a cleared row move down and an empty row enters at the top | not executed; high | Tetris.ClearLinesAsWrittenDefects | Tetris.Grid.ClearLines |
| lithProjects/DashGame/src/level.cpp:145-147 | text entities are written with their spaces and newlines, but the parser reads a text field up to the next space | a text entity with string "a b" reads back as "a" | strings are escaped ('_' for space, '\|' for newline), the inverse of what the parser undoes | not executed; high | Level.TextSplitsAtSpace | Level.FixedRoundTrip |
| lithProjects/DashGame/src/level.cpp:104-117 | a burst enemy record is read and counted, but the enemy is never queued | a level with one burst enemy comes back with an enemy count of 1 and no entity | the burst enemy is queued as the spinner is | not executed; high | Level.BurstNotReadBack | Level.FixedRoundTrip |
| src/game/content/levels.cpp:129-133 | `reloadScene(id)` reparses `levelTestData[id]`, the text at position `id` | reloading scene 9 reads past the eight texts; with texts of ids 1 and 0 at positions 0 and 1, reloading 0 stores scene 1 under key 0 | reparse the text that defines the scene with that id | not executed; high | Levels.ReloadWrongScene | Levels.ReloadByIdRestores |
| framework/src/texture.cpp:69-81 | the channel count of the Int and Float formats is 1, while their upload transfer format has four components | a Float texture of one pixel allocates 4 bytes, but its upload reads 16 | the channel count matches the transfer format, so the buffer holds what the upload reads | not executed; medium | Texture.WideFormatsOverread | Texture.CorrectedStrideMatchesUpload |
| src/font.cpp:37-43 | on a missing character, `getGlyph` looks up the '?' glyph but returns an empty glyph instead of it | a font with '?' and without 'x': `getGlyph('x')` is the empty glyph | the '?' glyph stands in for a missing character | not executed; medium | Font.MissingGlyphDropsFallback | Font.GetGlyphOrFallback |
| src/font.cpp:66-70 | `linePadding` ignores its arguments and copies the font's own padding fields into the generator input | `linePadding(0, 4)` as lithProjects/lithTetris/src/sketch.cpp calls it: the generator receives a bottom padding of 0 | the generator input's paddings become the given values | not executed; high | Font.LinePaddingLost | Font.LinePaddingKept |
| src/font.cpp:296-311 | the text-mesh cache is keyed by a 64-bit hash of the text and config, not by the text and config themselves, and the font passed in is not part of the key | "Aa" and "BB" hash alike, so asking for "BB" after "Aa" returns the mesh of "Aa"; a text asked for in a second font gets the first font's mesh (`Font.OtherFontSharesMesh`) | entries keyed by the text, the config and the font themselves | not executed; medium | Font.CollidingTextsShareMesh | Font.CacheGetByText |
| framework/src/target.cpp:52-63 | `swapAttachment` keeps the slot's ownership flag when it links the caller's texture | a target that created its colour texture takes ownership of the caller's texture swapped in, and `free` deletes it | the swapped-in texture stays the caller's | not executed; high | Target.SwapTakesOwnership | Target.SwapClearedKeepsOwnership |
| framework/src/text.cpp:27-29 | `TextMesh::clear` calls `clearInstances`, but the glyph buffer is not flagged as instanced | after `clear` a text mesh still holds its glyphs | `clear` empties the glyph buffer | not executed; high | Text.ClearInstancesKeepsGlyphs | Text.TextMesh.ClearFixed |
| framework/src/ui.cpp:90-95 | `sliderInt` passes `slider` the address of its own local `valueF`, so the slider entry is keyed by a stack address that every call from one caller shares | two int sliders drawn by one function in one frame while the mouse drags the first: the second is dragged too and its value jumps to the mouse position along it | each int slider keyed by the caller's `int*`, with an entry of its own | not executed; medium | Ui.UIContext.IntSlidersShareEntry | Ui.UIContext.IntSlidersSeparate |
