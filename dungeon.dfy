/**
 The single-search program: a depth-first search that records the way down to
 the escape room and counts its moves, a random dungeon generator that may
 plant the escape value, and the builder that turns "parent child child ..."
 lines into a dungeon.
 */
module Dungeon {
  import opened Trees
  import opened Arenas

  /**
   Depth-first search for escapeValue from a room that may be null. path and
   totalMoves are the caller's variables; the method returns their new
   contents. A null room is not entered and changes nothing.
   */
  method Dfs(node: Option<Tree>, escapeValue: int, path: seq<int>, totalMoves: int)
    returns (found: bool, path': seq<int>, totalMoves': int)
    ensures found <==> node.Some? && Occurs(node.value, escapeValue)
    ensures node.None? ==> path' == path && totalMoves' == totalMoves
    ensures node.Some? && !found ==> path' == path && totalMoves' == totalMoves + 2 * Size(node.value) - 1
    ensures found ==> escapeValue in PreOrder(node.value) && FirstPath(node.value, escapeValue).Some?
    ensures found ==> path' == path + FirstPath(node.value, escapeValue).value
    ensures found ==> totalMoves' == totalMoves + SearchMoves(node.value, escapeValue)
  {
    if node.None? {
      return false, path, totalMoves;
    }
    found, path', totalMoves' := DfsRoom(node.value, escapeValue, path, totalMoves);
  }

  /**
   The moves a successful search spends: one per room entered up to and
   including the escape room (its pre-order position), plus one for each
   walk back out of a room that was not on the way down.
   */
  function SearchMoves(t: Tree, x: int): int
    requires x in PreOrder(t)
    requires FirstPath(t, x).Some?
  {
    2 * (IndexOf(PreOrder(t), x) + 1) - |FirstPath(t, x).value|
  }

  /**
   The search from a room that exists. The room's value is pushed onto path and
   one move is counted on entry; on a match the search stops at once.
   Otherwise the exits are searched (SearchExits); when they all fail the
   room's value is popped again.
   */
  method DfsRoom(t: Tree, escapeValue: int, path: seq<int>, totalMoves: int)
    returns (found: bool, path': seq<int>, totalMoves': int)
    ensures found <==> Occurs(t, escapeValue)
    ensures !found ==> path' == path && totalMoves' == totalMoves + 2 * Size(t) - 1
    ensures found ==> escapeValue in PreOrder(t) && FirstPath(t, escapeValue).Some?
    ensures found ==> path' == path + FirstPath(t, escapeValue).value
    ensures found ==> totalMoves' == totalMoves + SearchMoves(t, escapeValue)
    decreases Size(t), 1
  {
    OccursIffInPreOrder(t, escapeValue);
    path' := path + [t.value];
    totalMoves' := totalMoves + 1;
    if t.value == escapeValue {
      return true, path', totalMoves';
    }
    found, path', totalMoves' := SearchExits(t, escapeValue, path', totalMoves');
    if found {
      var p := FirstPath(t, escapeValue).value;
      assert path + [t.value] + p[1..] == path + p by {
        assert p == [t.value] + p[1..];
      }
    } else {
      path' := path'[..|path'| - 1];
      assert path' == path;
    }
  }

  /**
   The loop over the exits of a room that does not hold escapeValue, with the
   room's value already on path: the exits are searched in order, the first
   success ends the loop, and each failed exit costs one more move for walking
   back out of it.
   */
  method SearchExits(t: Tree, escapeValue: int, path: seq<int>, totalMoves: int)
    returns (found: bool, path': seq<int>, totalMoves': int)
    requires t.value != escapeValue
    ensures found <==> escapeValue in PreOrder(t)
    ensures !found ==> path' == path && totalMoves' == totalMoves + 2 * Size(t) - 2
    ensures found ==> FirstPath(t, escapeValue).Some?
    ensures found ==> path' == path + FirstPath(t, escapeValue).value[1..]
    ensures found ==> totalMoves' == totalMoves + SearchMoves(t, escapeValue) - 1
    decreases Size(t), 0
  {
    path' := path;
    totalMoves' := totalMoves;
    var i := 0;
    while i < |t.children|
      invariant 0 <= i <= |t.children|
      invariant path' == path
      invariant escapeValue !in ForestPreOrder(t.children[..i])
      invariant totalMoves' == totalMoves + 2 * ForestSize(t.children[..i])
    {
      ForestPrefixStep(t.children, i);
      ChildSizeBound(t.children, i);
      var ok;
      ok, path', totalMoves' := DfsRoom(t.children[i], escapeValue, path', totalMoves');
      if ok {
        FoundStep(t, i, escapeValue);
        return true, path', totalMoves';
      }
      OccursIffInPreOrder(t.children[i], escapeValue);
      totalMoves' := totalMoves' + 1;
      i := i + 1;
    }
    NotFoundBelow(t, escapeValue);
    AllChildren(t);
    return false, path', totalMoves';
  }

  /** A find in exit i, after exits 0..i-1 failed, is a find from the room itself. */
  lemma FoundStep(t: Tree, i: nat, x: int)
    requires i < |t.children| && t.value != x
    requires x !in ForestPreOrder(t.children[..i])
    requires x in PreOrder(t.children[i]) && FirstPath(t.children[i], x).Some?
    ensures x in PreOrder(t) && Occurs(t, x) && FirstPath(t, x).Some?
    ensures FirstPath(t, x).value[1..] == FirstPath(t.children[i], x).value
    ensures SearchMoves(t, x) == 1 + 2 * ForestSize(t.children[..i]) + SearchMoves(t.children[i], x)
  {
    FoundInChild(t, i, x);
    OccursIffInPreOrder(t, x);
  }

  lemma AllChildren(t: Tree)
    ensures ForestSize(t.children[..|t.children|]) == Size(t) - 1
  {
    assert t.children[..|t.children|] == t.children;
  }

  /** A successful search costs at least one move per room on the path it returns. */
  lemma DfsMovesCoverPath(t: Tree, x: int)
    requires Occurs(t, x)
    ensures x in PreOrder(t) && FirstPath(t, x).Some?
    ensures |FirstPath(t, x).value| <= SearchMoves(t, x) <= 2 * Size(t) - 1
  {
    OccursIffInPreOrder(t, x);
    FirstPathIsFirstRoute(t, x);
  }

  /**
   Random dungeon of max(nodeCount, 1) rooms; then a coin (draw 2N - 1) decides
   whether one room, picked by draw 2N, has its value overwritten with
   escapeValue. escapeNodePresent reports whether that happened.
   */
  method GenerateRandomTree(nodeCount: int, escapeValue: int, rolls: seq<nat>)
    returns (a: Arena, escapeNodePresent: bool)
    requires |rolls| >= 2 * NodeTotal(nodeCount) + 1
    ensures Valid(a) && |a.values| == NodeTotal(nodeCount)
    ensures EdgeCount(a.kids) == |a.values| - 1
    ensures forall j :: 0 < j < |a.kids| ==> j in a.kids[RolledParent(rolls, j)]
    ensures escapeNodePresent <==> rolls[2 * NodeTotal(nodeCount) - 1] % 2 == 1
    ensures forall i :: 0 <= i < |a.values| ==>
      a.values[i] == if escapeNodePresent && i == rolls[2 * NodeTotal(nodeCount)] % NodeTotal(nodeCount)
                     then escapeValue else RolledValue(rolls, i)
    ensures forall i :: 0 <= i < |a.values| ==> 1 <= a.values[i] <= 100 || a.values[i] == escapeValue
    ensures Size(Root(a).value) == NodeTotal(nodeCount)
    ensures escapeNodePresent ==> Occurs(Root(a).value, escapeValue)
    ensures !(1 <= escapeValue <= 100) ==> (escapeNodePresent <==> Occurs(Root(a).value, escapeValue))
  {
    var used;
    a, used := GrowRandomTree(nodeCount, rolls);
    var n := |a.values|;
    if rolls[used] % 2 == 0 {
      escapeNodePresent := false;
    } else {
      var pick := rolls[used + 1] % n;
      a := a.(values := a.values[pick := escapeValue]);
      escapeNodePresent := true;
    }
    TreeOfArena(a);
    if escapeNodePresent {
      assert a.values[rolls[used + 1] % n] == escapeValue;
    }
  }

  // ---------------------------------------------------------------------------
  // Building a dungeon from lines "parent child child ..."

  datatype BuildResult =
    | Built(arena: Arena)
      /** A line with children names a parent value no room holds yet: the program dereferences null here. */
    | MissingParent(line: nat, parentValue: int)

  /** The child values of the given lines, in order. */
  function ChildTokens(lines: seq<seq<int>>): (r: seq<int>)
    requires forall k :: 0 <= k < |lines| ==> |lines[k]| > 0
  {
    if lines == [] then [] else ChildTokens(lines[..|lines| - 1]) + lines[|lines| - 1][1..]
  }

  /** The values of the rooms that exist when line k is read: the root, then every child of the earlier lines. */
  function Seen(lines: seq<seq<int>>, k: nat): seq<int>
    requires 0 < |lines| && k <= |lines|
    requires forall k :: 0 <= k < |lines| ==> |lines[k]| > 0
  {
    [lines[0][0]] + ChildTokens(lines[..k])
  }

  /** Line k has children but no existing room holds its parent value. */
  predicate Dangling(lines: seq<seq<int>>, k: nat)
    requires k < |lines|
    requires forall k :: 0 <= k < |lines| ==> |lines[k]| > 0
  {
    |lines[k]| > 1 && lines[k][0] !in Seen(lines, k)
  }

  /**
   The t-th value of line k became a room, index |Seen(lines, k)| + t - 1, and
   was appended to the exits of the earliest-created room holding the line's
   parent value.
   */
  ghost predicate Attached(lines: seq<seq<int>>, kids: seq<seq<nat>>, k: nat, t: nat)
    requires k < |lines| && 1 <= t < |lines[k]|
    requires forall k :: 0 <= k < |lines| ==> |lines[k]| > 0
  {
    var seen := Seen(lines, k);
    && lines[k][0] in seen
    && IndexOf(seen, lines[k][0]) < |kids|
    && |seen| + t - 1 in kids[IndexOf(seen, lines[k][0])]
  }

  lemma SeenNext(lines: seq<seq<int>>, k: nat)
    requires k < |lines|
    requires forall k :: 0 <= k < |lines| ==> |lines[k]| > 0
    ensures Seen(lines, k + 1) == Seen(lines, k) + lines[k][1..]
  {
    assert lines[..k + 1][..k] == lines[..k];
  }

  /**
   The linear search over the rooms in creation order for the first one whose
   value is v.
   */
  method FindParent(values: seq<int>, v: int) returns (parent: Option<nat>)
    ensures parent.None? <==> v !in values
    ensures parent.Some? ==> v in values && parent.value == IndexOf(values, v)
  {
    var i := 0;
    while i < |values|
      invariant 0 <= i <= |values|
      invariant v !in values[..i]
    {
      if values[i] == v {
        IndexOfUnique(values, v, i);
        return Some(i);
      }
      assert values[..i + 1] == values[..i] + [values[i]];
      i := i + 1;
    }
    assert values[..|values|] == values;
    return None;
  }

  /** Each value of vs becomes a new room appended, in order, to the exits of room p. */
  method AttachChildren(a: Arena, p: nat, vs: seq<int>) returns (a': Arena)
    requires Valid(a) && p < |a.values|
    ensures Valid(a')
    ensures a'.values == a.values + vs
    ensures forall i, j :: 0 <= i < |a.kids| && j in a.kids[i] ==> j in a'.kids[i]
    ensures forall j :: |a.values| <= j < |a'.values| ==> j in a'.kids[p]
  {
    a' := a;
    var t := 0;
    while t < |vs|
      invariant 0 <= t <= |vs|
      invariant Valid(a')
      invariant a'.values == a.values + vs[..t]
      invariant |a'.kids| == |a.values| + t && |a.kids| == |a.values|
      invariant forall i, j :: 0 <= i < |a.kids| && j in a.kids[i] ==> j in a'.kids[i]
      invariant forall j :: |a.values| <= j < |a'.kids| ==> j in a'.kids[p]
    {
      ghost var before := a'.kids;
      a' := AddChild(a', p, vs[t]);
      assert forall i, j :: 0 <= i < |before| && j in before[i] ==> j in a'.kids[i];
      assert |before| in a'.kids[p];
      assert vs[..t + 1] == vs[..t] + [vs[t]];
      t := t + 1;
    }
    assert vs[..t] == vs;
  }

  /** Growing the exit lists keeps the attachments of the lines already read. */
  lemma AttachedKept(lines: seq<seq<int>>, kids: seq<seq<nat>>, kids': seq<seq<nat>>, k: nat)
    requires k <= |lines|
    requires forall k :: 0 <= k < |lines| ==> |lines[k]| > 0
    requires |kids| <= |kids'|
    requires forall i, j :: 0 <= i < |kids| && j in kids[i] ==> j in kids'[i]
    requires forall k', t :: 0 <= k' < k && 1 <= t < |lines[k']| ==> Attached(lines, kids, k', t)
    ensures forall k', t :: 0 <= k' < k && 1 <= t < |lines[k']| ==> Attached(lines, kids', k', t)
  {
    forall k', t | 0 <= k' < k && 1 <= t < |lines[k']|
      ensures Attached(lines, kids', k', t)
    {
      assert Attached(lines, kids, k', t);
      var q := IndexOf(Seen(lines, k'), lines[k'][0]);
      assert |Seen(lines, k')| + t - 1 in kids[q];
    }
  }

  /** The new rooms made from line k's children sit below the line's parent room. */
  lemma AttachedLine(lines: seq<seq<int>>, k: nat, values: seq<int>, p: nat, kids': seq<seq<nat>>)
    requires k < |lines|
    requires forall k :: 0 <= k < |lines| ==> |lines[k]| > 0
    requires values == Seen(lines, k)
    requires lines[k][0] in values && p == IndexOf(values, lines[k][0])
    requires p < |kids'| && |kids'| == |values| + |lines[k]| - 1
    requires forall j :: |values| <= j < |kids'| ==> j in kids'[p]
    ensures forall t :: 1 <= t < |lines[k]| ==> Attached(lines, kids', k, t)
  {
  }

  /**
   The tree-building part of reading a dungeon file, over lines already split
   into integers (each line is non-empty). The first line's first value becomes
   the root; every further value on a line becomes a new room appended, in
   order, to the exits of the earliest-created room whose value equals the
   line's first value.
   */
  method BuildTree(lines: seq<seq<int>>) returns (r: BuildResult)
    requires forall k :: 0 <= k < |lines| ==> |lines[k]| > 0
    ensures r.Built? <==> forall k :: 0 <= k < |lines| ==> !Dangling(lines, k)
    ensures r.MissingParent? ==>
      && r.line < |lines| && Dangling(lines, r.line) && r.parentValue == lines[r.line][0]
      && forall k :: 0 <= k < r.line ==> !Dangling(lines, k)
    ensures r.Built? ==> Valid(r.arena)
    ensures r.Built? && |lines| == 0 ==> r.arena.values == []
    ensures r.Built? && |lines| > 0 ==> r.arena.values == Seen(lines, |lines|)
    ensures r.Built? && |lines| > 0 ==> |r.arena.values| == 1 + |ChildTokens(lines)|
    ensures r.Built? ==> forall k, t :: 0 <= k < |lines| && 1 <= t < |lines[k]| ==>
      Attached(lines, r.arena.kids, k, t)
  {
    var a := Arena([], []);
    var k := 0;
    while k < |lines|
      invariant 0 <= k <= |lines|
      invariant Valid(a)
      invariant k == 0 ==> a.values == []
      invariant k > 0 ==> a.values == Seen(lines, k)
      invariant forall k', t :: 0 <= k' < k && 1 <= t < |lines[k']| ==> Attached(lines, a.kids, k', t)
      invariant forall k' :: 0 <= k' < k ==> !Dangling(lines, k')
    {
      var line := lines[k];
      if |a.values| == 0 {
        a := Singleton(line[0]);
      }
      assert a.values == Seen(lines, k);
      var parent := FindParent(a.values, line[0]);
      if |line| > 1 {
        if parent.None? {
          assert Dangling(lines, k);
          return MissingParent(k, line[0]);
        }
        var a' := AttachChildren(a, parent.value, line[1..]);
        AttachedKept(lines, a.kids, a'.kids, k);
        AttachedLine(lines, k, a.values, parent.value, a'.kids);
        a := a';
      }
      assert !Dangling(lines, k);
      SeenNext(lines, k);
      k := k + 1;
    }
    assert lines[..|lines|] == lines;
    return Built(a);
  }

  /**
   The program's random-dungeon run: 1000 rooms, escape value 1000, then the
   search from the root with an empty path and no moves. No random room can
   hold 1000, so the search finds the escape room exactly when the generator
   planted it.
   */
  method RandomDungeonRun(rolls: seq<nat>)
    returns (escapeNodePresent: bool, found: bool, path: seq<int>, totalMoves: int)
    requires |rolls| >= 2001
    ensures found == escapeNodePresent
    ensures found ==> 1 <= |path| <= totalMoves <= 1999 && path[|path| - 1] == 1000
    ensures !found ==> path == [] && totalMoves == 1999
  {
    var a;
    a, escapeNodePresent := GenerateRandomTree(1000, 1000, rolls);
    var tree := Root(a);
    found, path, totalMoves := Dfs(tree, 1000, [], 0);
    if found {
      DfsMovesCoverPath(tree.value, 1000);
    }
  }

  /** Searching the dungeon 1 -> [2, 3], 2 -> [4, 5] for 4 walks 1, 2, 4 and spends three moves. */
  method ExampleSearch() returns (found: bool, path: seq<int>, totalMoves: int)
    ensures found && path == [1, 2, 4] && totalMoves == 3
  {
    var r4, r5, r3 := Node(4, []), Node(5, []), Node(3, []);
    var r2 := Node(2, [r4, r5]);
    var t := Node(1, [r2, r3]);
    ExampleOrders(t, r2, r3, r4, r5);
    found, path, totalMoves := Dfs(Some(t), 4, [], 0);
  }

  /**
   The lines "1 2 3" and "2 4 5" build a dungeon of five rooms; a search for
   99, which no room holds, fails after 2 * 5 - 1 moves with an empty path.
   */
  method ExampleFile() returns (r: BuildResult, found: bool, path: seq<int>, totalMoves: int)
    ensures r.Built? && r.arena.values == [1, 2, 3, 4, 5]
    ensures !found && path == [] && totalMoves == 9
  {
    var lines: seq<seq<int>> := [[1, 2, 3], [2, 4, 5]];
    assert Seen(lines, 1) == [1, 2, 3] by {
      assert lines[..1] == [[1, 2, 3]] && |lines[..1][..0]| == 0;
    }
    assert Seen(lines, 2) == [1, 2, 3, 4, 5] by {
      assert lines[..2] == lines && lines[..2][..1] == lines[..1];
    }
    assert !Dangling(lines, 0) && !Dangling(lines, 1);
    r := BuildTree(lines);
    TreeOfArena(r.arena);
    found, path, totalMoves := Dfs(Root(r.arena), 99, [], 0);
  }
}

