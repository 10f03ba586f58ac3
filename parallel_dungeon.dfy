/**
 The parallel program: a random dungeon that always holds the escape room,
 two clones of it, and a depth-first and a breadth-first search that share one
 escapeFound flag. Each search stops as soon as it sees the flag set and sets
 it on a find.
 */
module ParallelDungeon {
  import opened Trees
  import opened Arenas

  // ---------------------------------------------------------------------------
  // Cloning

  /** The copy of a dungeon made before the searches; a null root clones to null. */
  method CloneTree(root: Option<Tree>) returns (r: Option<Tree>)
    ensures r == root
  {
    if root.None? {
      return None;
    }
    var t := CloneRoom(root.value);
    return Some(t);
  }

  /** A new room with the same value whose exits are the clones of the original's exits, in order. */
  method CloneRoom(t: Tree) returns (r: Tree)
    ensures r == t
    decreases t
  {
    var children: seq<Tree> := [];
    var i := 0;
    while i < |t.children|
      invariant 0 <= i <= |t.children|
      invariant children == t.children[..i]
    {
      var c := CloneRoom(t.children[i]);
      children := children + [c];
      assert t.children[..i + 1] == t.children[..i] + [t.children[i]];
      i := i + 1;
    }
    assert t.children[..|t.children|] == t.children;
    return Node(t.value, children);
  }

  // ---------------------------------------------------------------------------
  // Depth-first search with the shared flag

  function RoomSize(node: Option<Tree>): nat
  {
    if node.None? then 0 else Size(node.value)
  }

  /**
   Depth-first search that first checks for a null room or a flag already set
   and then gives up. Otherwise one move is counted for entering the room; a
   match sets the flag and ends the search; otherwise the exits are searched
   in order until one succeeds. No move is counted for walking back.
   totalMoves and escapeFound are the caller's variables; the method returns
   their new contents.
   */
  method Dfs(node: Option<Tree>, escapeValue: int, totalMoves: int, escapeFound: bool)
    returns (found: bool, totalMoves': int, escapeFound': bool)
    ensures escapeFound' == (escapeFound || found)
    ensures escapeFound || node.None? ==> !found && totalMoves' == totalMoves
    ensures !escapeFound && node.Some? ==> (found <==> Occurs(node.value, escapeValue))
    ensures !escapeFound && found ==> escapeValue in PreOrder(node.value)
    ensures !escapeFound && found ==> totalMoves' == totalMoves + IndexOf(PreOrder(node.value), escapeValue) + 1
    ensures !escapeFound && node.Some? && !found ==> totalMoves' == totalMoves + Size(node.value)
    decreases RoomSize(node), 1
  {
    if node.None? || escapeFound {
      return false, totalMoves, escapeFound;
    }
    var t := node.value;
    OccursIffInPreOrder(t, escapeValue);
    totalMoves' := totalMoves + 1;
    if t.value == escapeValue {
      escapeFound' := true;
      return true, totalMoves', escapeFound';
    }
    found, totalMoves', escapeFound' := SearchExits(t, escapeValue, totalMoves', escapeFound);
  }

  /**
   The loop over the exits of a room that does not hold escapeValue, entered
   with the flag clear: each exit is searched in turn and the first success
   ends the loop. A failed exit leaves the flag clear for the next one.
   */
  method SearchExits(t: Tree, escapeValue: int, totalMoves: int, escapeFound: bool)
    returns (found: bool, totalMoves': int, escapeFound': bool)
    requires t.value != escapeValue && !escapeFound
    ensures escapeFound' == found
    ensures found <==> escapeValue in PreOrder(t)
    ensures found ==> totalMoves' == totalMoves + IndexOf(PreOrder(t), escapeValue)
    ensures !found ==> totalMoves' == totalMoves + Size(t) - 1
    decreases Size(t), 0
  {
    totalMoves' := totalMoves;
    escapeFound' := escapeFound;
    var i := 0;
    while i < |t.children|
      invariant 0 <= i <= |t.children|
      invariant !escapeFound'
      invariant escapeValue !in ForestPreOrder(t.children[..i])
      invariant totalMoves' == totalMoves + ForestSize(t.children[..i])
    {
      ForestPrefixStep(t.children, i);
      ChildSizeBound(t.children, i);
      var ok;
      ok, totalMoves', escapeFound' := Dfs(Some(t.children[i]), escapeValue, totalMoves', escapeFound');
      OccursIffInPreOrder(t.children[i], escapeValue);
      if ok {
        FoundInChild(t, i, escapeValue);
        return true, totalMoves', escapeFound';
      }
      i := i + 1;
    }
    NotFoundBelow(t, escapeValue);
    assert t.children[..|t.children|] == t.children;
    return false, totalMoves', escapeFound';
  }

  // ---------------------------------------------------------------------------
  // Breadth-first search with the shared flag

  /** Taking the front room off the queue and pushing its exits at the back hands out the rest of the order. */
  lemma QueueStep(q: seq<Tree>)
    requires q != []
    ensures QueueOrder(q) == [q[0].value] + QueueOrder(q[1..] + q[0].children)
    ensures ForestSize(q[1..] + q[0].children) < ForestSize(q)
  {
    ForestSizeAppend(q[1..], q[0].children);
    assert Size(q[0]) == 1 + ForestSize(q[0].children);
  }

  /** The inner loop of the search: the exits of node pushed, in order, at the back of the queue. */
  method PushExits(q: seq<Tree>, node: Tree) returns (q': seq<Tree>)
    ensures q' == q + node.children
  {
    q' := q;
    var j := 0;
    while j < |node.children|
      invariant 0 <= j <= |node.children|
      invariant q' == q + node.children[..j]
    {
      q' := q' + [node.children[j]];
      assert node.children[..j + 1] == node.children[..j] + [node.children[j]];
      j := j + 1;
    }
    assert node.children[..|node.children|] == node.children;
  }

  /** The room at the front of the queue holds the first x of the whole order when no room handed out before it did. */
  lemma FoundAtFront(visited: seq<int>, q: seq<Tree>, all: seq<int>, x: int)
    requires q != [] && q[0].value == x && x !in visited
    requires visited + QueueOrder(q) == all
    ensures x in all && IndexOf(all, x) == |visited|
  {
    QueueStep(q);
    assert all[|visited|] == x;
    assert forall k :: 0 <= k < |visited| ==> all[k] == visited[k];
    IndexOfUnique(all, x, |visited|);
  }

  /**
   Breadth-first search that pushes the root onto a FIFO queue and runs the
   queue loop (RunQueue). A null root is only safe when the flag is already
   set, since the loop would otherwise read the null room.
   */
  method Bfs(root: Option<Tree>, escapeValue: int, totalMoves: int, escapeFound: bool)
    returns (found: bool, totalMoves': int, escapeFound': bool)
    requires escapeFound || root.Some?
    ensures escapeFound' == (escapeFound || found)
    ensures escapeFound ==> !found && totalMoves' == totalMoves
    ensures !escapeFound ==> (found <==> Occurs(root.value, escapeValue))
    ensures !escapeFound && found ==> escapeValue in LevelOrder(root.value)
    ensures !escapeFound && found ==> totalMoves' == totalMoves + IndexOf(LevelOrder(root.value), escapeValue) + 1
    ensures !escapeFound && !found ==> totalMoves' == totalMoves + Size(root.value)
  {
    var q: seq<Tree> := if root.Some? then [root.value] else [];
    found, totalMoves', escapeFound' := RunQueue(q, escapeValue, totalMoves, escapeFound);
    if root.Some? {
      LevelOrderPermutesPreOrder(root.value);
    }
  }

  /**
   The loop of the breadth-first search. While the queue is not empty and the
   flag is clear, the front room is taken off and one move is counted; a match
   sets the flag and ends the search; otherwise the room's exits are pushed at
   the back. With the flag clear it visits the rooms in QueueOrder(queue).
   */
  method RunQueue(queue: seq<Tree>, escapeValue: int, totalMoves: int, escapeFound: bool)
    returns (found: bool, totalMoves': int, escapeFound': bool)
    ensures escapeFound' == (escapeFound || found)
    ensures escapeFound ==> !found && totalMoves' == totalMoves
    ensures !escapeFound ==> (found <==> escapeValue in QueueOrder(queue))
    ensures !escapeFound && found ==> totalMoves' == totalMoves + IndexOf(QueueOrder(queue), escapeValue) + 1
    ensures !escapeFound && !found ==> totalMoves' == totalMoves + |QueueOrder(queue)|
  {
    var q := queue;
    totalMoves' := totalMoves;
    escapeFound' := escapeFound;
    ghost var visited: seq<int> := [];
    while q != [] && !escapeFound'
      invariant escapeFound' == escapeFound
      invariant escapeFound ==> q == queue && visited == []
      invariant visited + QueueOrder(q) == QueueOrder(queue)
      invariant totalMoves' == totalMoves + |visited|
      invariant escapeValue !in visited
      decreases ForestSize(q)
    {
      ghost var q0 := q;
      var node := q[0];
      q := q[1..];
      totalMoves' := totalMoves' + 1;
      if node.value == escapeValue {
        escapeFound' := true;
        FoundAtFront(visited, q0, QueueOrder(queue), escapeValue);
        return true, totalMoves', escapeFound';
      }
      q := PushExits(q, node);
      QueueStep(q0);
      visited := visited + [node.value];
    }
    if !escapeFound {
      assert q == [] && QueueOrder(q) == [];
      assert visited == QueueOrder(queue) by {
        assert visited + [] == visited;
      }
    }
    return false, totalMoves', escapeFound';
  }

  // ---------------------------------------------------------------------------
  // Generation and the two searches

  /**
   Random dungeon of max(nodeCount, 1) rooms (the growth loop shared with the
   single-search program), after which the room picked by draw 2N - 1 always
   has its value overwritten with escapeValue.
   */
  method GenerateRandomTree(nodeCount: int, escapeValue: int, rolls: seq<nat>) returns (a: Arena)
    requires |rolls| >= 2 * NodeTotal(nodeCount)
    ensures Valid(a) && |a.values| == NodeTotal(nodeCount)
    ensures forall j :: 0 < j < |a.kids| ==> j in a.kids[RolledParent(rolls, j)]
    ensures forall i :: 0 <= i < |a.values| ==>
      a.values[i] == if i == rolls[2 * NodeTotal(nodeCount) - 1] % NodeTotal(nodeCount)
                     then escapeValue else RolledValue(rolls, i)
    ensures Root(a).Some? && Size(Root(a).value) == NodeTotal(nodeCount)
    ensures Occurs(Root(a).value, escapeValue)
  {
    var used;
    a, used := GrowRandomTree(nodeCount, rolls);
    var pick := rolls[used] % |a.values|;
    a := a.(values := a.values[pick := escapeValue]);
    assert a.values[pick] == escapeValue;
    TreeOfArena(a);
  }

  /** Who reported the escape room: the program's finder string "None", "BFS" or "DFS". */
  datatype Finder = NoFinder | ByBfs | ByDfs

  /**
   The two parallel sections of the program, run on two clones of the
   original with one shared flag, in one of the two orders in which a section
   can run to completion before the other starts: breadth-first first when
   bfsFirst holds. The second search then sees the flag the first one left.
   */
  method RunSections(original: Option<Tree>, escapeValue: int, bfsFirst: bool)
    returns (finder: Finder, movesDFS: int, movesBFS: int)
    requires original.Some?
    ensures finder == NoFinder <==> !Occurs(original.value, escapeValue)
    ensures Occurs(original.value, escapeValue) ==> finder == if bfsFirst then ByBfs else ByDfs
    ensures Occurs(original.value, escapeValue) && bfsFirst ==>
      escapeValue in LevelOrder(original.value) &&
      movesBFS == IndexOf(LevelOrder(original.value), escapeValue) + 1 && movesDFS == 0
    ensures Occurs(original.value, escapeValue) && !bfsFirst ==>
      escapeValue in PreOrder(original.value) &&
      movesDFS == IndexOf(PreOrder(original.value), escapeValue) + 1 && movesBFS == 0
    ensures !Occurs(original.value, escapeValue) ==>
      movesDFS == Size(original.value) && movesBFS == Size(original.value)
  {
    var dfsTree := CloneTree(original);
    var bfsTree := CloneTree(original);
    var escapeFound := false;
    finder := NoFinder;
    var found;
    if bfsFirst {
      found, movesBFS, escapeFound := Bfs(bfsTree, escapeValue, 0, escapeFound);
      if found {
        finder := ByBfs;
      }
      found, movesDFS, escapeFound := Dfs(dfsTree, escapeValue, 0, escapeFound);
      if found {
        finder := ByDfs;
      }
    } else {
      found, movesDFS, escapeFound := Dfs(dfsTree, escapeValue, 0, escapeFound);
      if found {
        finder := ByDfs;
      }
      found, movesBFS, escapeFound := Bfs(bfsTree, escapeValue, 0, escapeFound);
      if found {
        finder := ByBfs;
      }
    }
  }

  /**
   Each search, run alone with the flag clear on a dungeon from the
   always-planting generator, finds the escape room within one move per room.
   */
  method PlantedSearches(nodeCount: int, escapeValue: int, rolls: seq<nat>)
    returns (foundDFS: bool, movesDFS: int, foundBFS: bool, movesBFS: int)
    requires |rolls| >= 2 * NodeTotal(nodeCount)
    ensures foundDFS && 1 <= movesDFS <= NodeTotal(nodeCount)
    ensures foundBFS && 1 <= movesBFS <= NodeTotal(nodeCount)
  {
    var a := GenerateRandomTree(nodeCount, escapeValue, rolls);
    FoundWithinSize(Root(a).value, escapeValue);
    var flag;
    foundDFS, movesDFS, flag := Dfs(Root(a), escapeValue, 0, false);
    foundBFS, movesBFS, flag := Bfs(Root(a), escapeValue, 0, false);
  }

  /**
   Generation followed by the two sections in one serial order, for any room
   count and escape value: the escape room is always planted, so the search
   that runs first always finds it, within one move per room, and the other
   spends none.
   */
  method PlantedRun(nodeCount: int, escapeValue: int, rolls: seq<nat>, bfsFirst: bool)
    returns (finder: Finder, movesDFS: int, movesBFS: int)
    requires |rolls| >= 2 * NodeTotal(nodeCount)
    ensures finder == if bfsFirst then ByBfs else ByDfs
    ensures bfsFirst ==> 1 <= movesBFS <= NodeTotal(nodeCount) && movesDFS == 0
    ensures !bfsFirst ==> 1 <= movesDFS <= NodeTotal(nodeCount) && movesBFS == 0
  {
    var a := GenerateRandomTree(nodeCount, escapeValue, rolls);
    FoundWithinSize(Root(a).value, escapeValue);
    finder, movesDFS, movesBFS := RunSections(Root(a), escapeValue, bfsFirst);
  }

  /** The program's run: 1000 rooms and escape value 5. */
  method ParallelRun(rolls: seq<nat>, bfsFirst: bool) returns (finder: Finder, movesDFS: int, movesBFS: int)
    requires |rolls| >= 2000
    ensures finder == if bfsFirst then ByBfs else ByDfs
    ensures bfsFirst ==> 1 <= movesBFS <= 1000 && movesDFS == 0
    ensures !bfsFirst ==> 1 <= movesDFS <= 1000 && movesBFS == 0
  {
    finder, movesDFS, movesBFS := PlantedRun(1000, 5, rolls, bfsFirst);
  }

  /**
   On the dungeon 1 -> [2, 3], 2 -> [4, 5] with escape value 4 and the
   flag clear, the depth-first search spends three moves and the breadth-first
   search four.
   */
  method ExampleSearches() returns (movesDFS: int, movesBFS: int)
    ensures movesDFS == 3 && movesBFS == 4
  {
    var r4, r5, r3 := Node(4, []), Node(5, []), Node(3, []);
    var r2 := Node(2, [r4, r5]);
    var t := Node(1, [r2, r3]);
    ExampleOrders(t, r2, r3, r4, r5);
    var found, flag;
    found, movesDFS, flag := Dfs(Some(t), 4, 0, false);
    found, movesBFS, flag := Bfs(Some(t), 4, 0, false);
  }
}
