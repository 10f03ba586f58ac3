# Dungeon traversal, modelled in Dafny

The dungeon program keeps a rooted tree of rooms. Each room holds an integer value and an ordered list of exits to child rooms. The program searches the tree for a room holding an "escape" value. It comes in two programs:

- **Single search** (`dungeon_traversal.cpp`):
  - a depth-first search that keeps the way down from the root in a `path` stack and counts moves: one per room entered and one per walk back out of a failed exit;
  - a random dungeon generator that, on a coin flip, overwrites one room's value with the escape value;
  - a builder that turns lines "parent child child ..." into a dungeon.
- **Parallel search** (`paralleldungeon_traversal.cpp`):
  - a deep clone of the dungeon;
  - a depth-first and a FIFO-queue breadth-first search that count one move per room and share an `escapeFound` flag: each gives up when it sees the flag set and sets it on a find;
  - a generator that always plants the escape value.

The project has four modules:

- `Trees` (trees.dfy) holds the dungeon as a value, `Tree = Node(value, children)`, and the orders the searches produce:
  - `PreOrder`;
  - the level-by-level `LevelOrder`;
  - `QueueOrder`, the order a FIFO queue hands rooms out;
  - `FirstPath`, the way down to the first room, in pre-order, that holds a value;
  - `Routes`, the way down to each room, as an independent reference for `FirstPath`.

  The lemmas prove that the queue order equals the level order and that the level order permutes the pre-order. They also prove that `FirstPath` is the route to the first pre-order match.
- `Arenas` (arenas.dfy) models the program's heap of `Node` objects as an arena:
  - `values[i]` and `kids[i]` are the value and exit list of the i-th room created;
  - room 0 is the root;
  - `Valid` says the arena is one tree: every exit points to a later room, exit lists follow creation order, every room is reached exactly once from the root, and there are `N - 1` links;
  - `AddChild` is `new Node` followed by `parent->children.push_back`, and it keeps `Valid`;
  - `ToTree` and `Root` read the arena back as a `Tree`.

  The random growth loop shared by both generators is `GrowRandomTree`.
- `Dungeon` (dungeon.dfy) holds the single-search program: `Dfs`, `GenerateRandomTree`, `BuildTree` and the random run of `main`.
- `ParallelDungeon` (parallel_dungeon.dfy) holds the parallel program: `CloneTree`, the flag-aware `Dfs` and `Bfs`, its `GenerateRandomTree`, and the two serial orders of `main`'s parallel sections.

Conventions of the model:

- **Reference parameters.** The C++ reference parameters (`path`, `totalMoves`, `escapeFound`) are passed in as values. Each method returns their new contents as out-parameters, for example `path'` and `totalMoves'`.
- **Random draws.** `rand()` is replaced by a sequence of draws `rolls`, consumed in program order:
  - draw 0 gives the root's value;
  - draw 2i − 1 gives room i's value and draw 2i its parent;
  - in the single program, draw 2N − 1 is the coin and draw 2N the pick;
  - in the parallel program, draw 2N − 1 is the pick.

  Here N = max(nodeCount, 1).

Two places where the code dereferences null, and how the model treats them:
- **Builder, missing parent.** A line with child values whose parent value no room holds dereferences a null parent (`dungeon_traversal.cpp:96`). `BuildTree` reports this as the error `MissingParent(line, parentValue)`.
- **Breadth-first search, null root.** The code pushes the null root and dereferences it (`paralleldungeon_traversal.cpp:49-56`). `Bfs` requires a non-null root unless the flag is already set.

## Model

| member | source | states |
|---|---|---|
| Trees.FirstPath | dungeon_traversal.cpp:20-33 | the way down exists exactly when the value occurs in the pre-order; it starts at the room searched, ends at the value, and holds the value nowhere earlier |
| Trees.OccursIffInPreOrder | dungeon_traversal.cpp:23-33 | a value occurs in the dungeon (this room or behind some exit) exactly when it is in the pre-order listing |
| Trees.FoundInChild | dungeon_traversal.cpp:28-31 | when exits 0..i-1 fail and exit i holds the value, the first pre-order match lies 1 + (rooms behind the earlier exits) + (its position inside exit i), and the way down is the room's value followed by exit i's way down |
| Trees.NotFoundBelow | dungeon_traversal.cpp:23-35 | a room that does not hold the value, with all exits failing, does not contain it |
| Trees.FirstPathIsFirstRoute | dungeon_traversal.cpp:28-31 | the way down is the route to the room at the first pre-order position holding the value, so the match is the first in pre-order and the path is no longer than that position plus one |
| Trees.QueueOrderIsLevels | paralleldungeon_traversal.cpp:48-65 | handing rooms out of a FIFO queue (dequeue, then enqueue the exits) lists them level by level |
| Trees.QueueOrderPermutesPreOrder | paralleldungeon_traversal.cpp:48-65 | the queue order visits the same rooms as the pre-order, each once, as a multiset |
| Trees.LevelOrderPermutesPreOrder | paralleldungeon_traversal.cpp:47-67 | the level order of a dungeon is the queue order from its root, is a permutation of the pre-order, has one entry per room, and holds exactly the values that occur |
| Trees.FoundWithinSize | paralleldungeon_traversal.cpp:30-64 | a value that occurs is first found within the first Size positions of both orders |
| Trees.ExampleOrders | paralleldungeon_traversal.cpp:47-67 | on 1 -> [2, 3], 2 -> [4, 5] the first 4 is at pre-order position 2 with way down [1, 2, 4] and at level-order position 3 |
| Arenas.Singleton | dungeon_traversal.cpp:78-81 | the first room alone is a valid arena: value [v], no exits |
| Arenas.AddChild | dungeon_traversal.cpp:45-47 | creating a room and pushing it onto an existing room's exits keeps the arena one tree, appends exactly the value, appends the new index to exactly that parent's exits, changes no other exits, and adds one link |
| Arenas.GrowValid | dungeon_traversal.cpp:45-47 | appending a leaf below an existing room keeps exits after their parent and in creation order, and every room is still reached exactly once from the root |
| Arenas.TreeOfArena | dungeon_traversal.cpp:41-48 | a valid non-empty arena reads back as a tree with one room per slot, in which a value occurs exactly when some slot holds it |
| Arenas.NodeTotal | dungeon_traversal.cpp:41-44 | the generators create at least one room and at least nodeCount rooms |
| Arenas.RolledValue | dungeon_traversal.cpp:41-45 | every random room value is rand() % 100 + 1, so it lies in [1, 100] |
| Arenas.RolledParent | dungeon_traversal.cpp:46 | the random parent of room i is rand() % i, always an earlier room |
| Arenas.GrowRandomTree | dungeon_traversal.cpp:41-48 | the growth loop (also paralleldungeon_traversal.cpp:72-79) yields a valid arena of exactly max(nodeCount, 1) rooms; each room has its drawn value and sits below its drawn earlier parent; it uses 2N - 1 draws |
| Dungeon.Dfs | dungeon_traversal.cpp:17-36 | returns true exactly when the room is not null and the value occurs; a null room changes nothing; a failure restores the path and adds 2 * Size - 1 moves; a success appends the way down to the first pre-order match and adds 2 * (its pre-order position + 1) - (path length) moves |
| Dungeon.DfsRoom | dungeon_traversal.cpp:20-35 | the same outcome for a room that exists: push and one move on entry, stop at a match, otherwise search the exits and pop on failure |
| Dungeon.SearchExits | dungeon_traversal.cpp:28-33 | the exit loop with the room already pushed: finds exactly when the value is below; failure adds 2 * Size - 2 moves and leaves the path; success appends the way down without the room itself |
| Dungeon.FoundStep | dungeon_traversal.cpp:28-32 | a find through exit i after exits 0..i-1 failed costs one entry move, two moves per room behind the failed exits, plus the cost inside exit i |
| Dungeon.DfsMovesCoverPath | dungeon_traversal.cpp:21-32 | a successful search spends at least one move per room on the returned path and at most 2 * Size - 1 |
| Dungeon.ExampleSearch | dungeon_traversal.cpp:17-36 | on 1 -> [2, 3], 2 -> [4, 5] the search for 4 returns path [1, 2, 4] after three moves |
| Dungeon.GenerateRandomTree | dungeon_traversal.cpp:39-59 | a valid dungeon of max(nodeCount, 1) rooms with N - 1 links and the drawn parents; escapeNodePresent holds exactly when the coin is odd, and then only the picked room holds escapeValue while the rest keep their drawn values in [1, 100]; a planted value occurs, and for an escape value outside [1, 100], presence and occurrence coincide |
| Dungeon.RandomDungeonRun | dungeon_traversal.cpp:126-154 | with 1000 rooms and escape value 1000 the search finds the escape room exactly when it was planted; on success the path ends in 1000 and at most 1999 moves are spent, on failure the path is empty after 1999 moves |
| Dungeon.FindParent | dungeon_traversal.cpp:83-89 | the linear search returns nothing exactly when no room holds the value, and otherwise the earliest-created room holding it |
| Dungeon.AttachChildren | dungeon_traversal.cpp:91-98 | each child value becomes a new room in order; the values grow by exactly those, all new rooms sit below the parent, earlier exits are kept, and the arena stays one tree |
| Dungeon.SeenNext | dungeon_traversal.cpp:96-97 | after a line, the rooms are the earlier ones followed by that line's child values |
| Dungeon.AttachedLine | dungeon_traversal.cpp:91-98 | the rooms made from line k's children are all exits of the earliest room holding the line's parent value |
| Dungeon.AttachedKept | dungeon_traversal.cpp:91-98 | growing exit lists keeps every attachment made by earlier lines |
| Dungeon.BuildTree | dungeon_traversal.cpp:73-100 | succeeds exactly when no line with children names a parent value absent from the rooms before it, and otherwise names the first such line; on success the arena is one tree whose values are the root followed by all child values in order (1 + child tokens rooms, none for no lines), and every child sits below the earliest room holding its line's parent value |
| Dungeon.ExampleFile | dungeon_traversal.cpp:73-100 | the lines "1 2 3" and "2 4 5" build rooms 1, 2, 3, 4, 5, and a search for 99 fails with an empty path after 9 moves |
| ParallelDungeon.CloneTree | paralleldungeon_traversal.cpp:17-24 | the copy has the same values, shape and exit order; null clones to null |
| ParallelDungeon.CloneRoom | paralleldungeon_traversal.cpp:19-23 | a room's clone equals the room, with its exits cloned in order |
| ParallelDungeon.Dfs | paralleldungeon_traversal.cpp:27-44 | with the flag set or a null room: false, no moves; with the flag clear: true exactly when the value occurs, the flag is set exactly on success, a success adds the 1-based pre-order position of the first match and a failure adds Size |
| ParallelDungeon.SearchExits | paralleldungeon_traversal.cpp:38-42 | the exit loop of a non-matching room with the flag clear: finds exactly when the value is below, sets the flag only then, and adds the pre-order position of the match (after the room's own move) or Size - 1 |
| ParallelDungeon.QueueStep | paralleldungeon_traversal.cpp:52-64 | taking the front room and pushing its exits hands out that room's value followed by the rest of the queue order, on a smaller queue |
| ParallelDungeon.PushExits | paralleldungeon_traversal.cpp:62-64 | the queue grows by exactly the room's exits, in order |
| ParallelDungeon.FoundAtFront | paralleldungeon_traversal.cpp:52-60 | a match at the front after no earlier match is the first occurrence in the queue order, at the number of rooms already handed out |
| ParallelDungeon.RunQueue | paralleldungeon_traversal.cpp:51-66 | with the flag set: false, no moves; with the flag clear: finds exactly when the value is in the queue order, sets the flag only then, and adds its 1-based queue-order position or the whole queue-order length |
| ParallelDungeon.Bfs | paralleldungeon_traversal.cpp:47-67 | with the flag set: false, no moves; with the flag clear: true exactly when the value occurs, the flag is set exactly on success, a success adds the 1-based level-order position of the first match and a failure adds Size |
| ParallelDungeon.ExampleSearches | paralleldungeon_traversal.cpp:27-67 | on 1 -> [2, 3], 2 -> [4, 5] with escape value 4 the depth-first search spends 3 moves and the breadth-first search 4 |
| ParallelDungeon.GenerateRandomTree | paralleldungeon_traversal.cpp:70-83 | a valid dungeon of max(nodeCount, 1) rooms with the drawn parents in which exactly the picked room holds escapeValue and the others their drawn values, so escapeValue always occurs |
| ParallelDungeon.RunSections | paralleldungeon_traversal.cpp:90-122 | on two clones with one shared flag, run in either serial order: no finder exactly when the value is absent (both searches then spend Size moves); otherwise the search run first is the finder with its first-match position + 1 moves and the other spends none |
| ParallelDungeon.PlantedSearches | paralleldungeon_traversal.cpp:70-83 | for every room count and escape value, the depth-first and the breadth-first search, each run alone with the flag clear on the generator's dungeon, find the escape room within [1, max(nodeCount, 1)] moves |
| ParallelDungeon.PlantedRun | paralleldungeon_traversal.cpp:70-122 | for every room count and escape value, after generation the search run first always finds the escape room within [1, max(nodeCount, 1)] moves and the other spends none |
| ParallelDungeon.ParallelRun | paralleldungeon_traversal.cpp:85-122 | with 1000 rooms and escape value 5 the search run first always finds the escape room within [1, 1000] moves and the other spends none |

## Left out

- Output: printing and console input. This covers `printTree`, every `std::cout`/`std::cerr` message, the menu of the single program's `main` and its timing with `std::chrono`. They have no effect on the searched values.
- The single program's `main` is modelled only for the random-dungeon choice (`RandomDungeonRun`), because the file choice and an invalid choice are console and file I/O.
- File handling in `readCustomTreeFromFile`. Opening the file, `getline` and `istringstream` tokenising are left out: `BuildTree` takes the lines already split into integers. An empty line is not modelled; every line is required to hold at least its parent value.
- `readCustomTreeFromFile`'s `escapeValue` parameter is left out, because it only selects a message to print.
- `srand(time(0))` and the distribution of `rand()`. The draws are a parameter, and nothing is said about probabilities.
- Dungeon.GenerateRandomTree: requires the pick draw to exist even when the coin says no room is picked, because the draws are a fixed-length parameter.
- Concurrency. The OpenMP `parallel sections`, the `omp atomic write` and the unsynchronised reads of `escapeFound` are left out, as are the races on `escapeFound` and `finder`. The flag is sequential state passed in and out.
- ParallelDungeon.RunSections: covers only the two orders in which one section runs to completion before the other starts, not interleavings in which the flag is set while the other search is halfway.
- Memory. Node deallocation is never done by the program and is not modelled.
- ParallelDungeon.CloneTree: works on values, so the claim that every node of the copy is freshly allocated, and so shares nothing with the original, is not expressed.
- Heap objects. The `Node` objects the generators and the builder update in place are modelled on values, as the arena's `values` and `kids` sequences. The arena is reassigned, not mutated in place, and pointer aliasing between `nodes` and the tree is not captured.
- Null exits. Exits are trees, so a null pointer inside a `children` vector, which the programs never create, cannot be expressed.
- `int` width. `totalMoves` and node values are unbounded integers; overflow of a C++ `int` is not modelled. The runs in `main` stay below 2000 moves.
