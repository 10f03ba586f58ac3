/**
 The rooms that a builder allocates, kept as an arena: room i has value
 values[i] and exits kids[i], a list of room indices, and a room's index is the
 order in which it was created. Both builders only ever attach a NEW room below
 an existing one, so a child's index is larger than its parent's, each exit
 list is in creation order, and from room 0 every room is reached exactly once.
 ToTree reads the arena back as a Tree.
 */
module Arenas {
  import opened Trees

  datatype Arena = Arena(values: seq<int>, kids: seq<seq<nat>>)

  /** Every child was created after its parent, and each exit list is in creation order. */
  ghost predicate Ordered(kids: seq<seq<nat>>)
  {
    && (forall i, m :: 0 <= i < |kids| && 0 <= m < |kids[i]| ==> i < kids[i][m] < |kids|)
    && (forall i, m, m' :: 0 <= i < |kids| && 0 <= m < m' < |kids[i]| ==> kids[i][m] < kids[i][m'])
  }

  /** Number of parent-child links. */
  function EdgeCount(kids: seq<seq<nat>>): nat
  {
    if kids == [] then 0 else |kids[0]| + EdgeCount(kids[1..])
  }

  /** The indices of the rooms below room i, in pre-order. */
  ghost function IdxPre(kids: seq<seq<nat>>, i: nat): (r: seq<nat>)
    requires Ordered(kids) && i < |kids|
    ensures |r| >= 1 && r[0] == i
    ensures forall k :: 0 <= k < |r| ==> i <= r[k] < |kids|
    decreases |kids| - i, 1
  {
    [i] + IdxForest(kids, kids[i], i)
  }

  ghost function IdxForest(kids: seq<seq<nat>>, ids: seq<nat>, lo: nat): (r: seq<nat>)
    requires Ordered(kids) && lo < |kids|
    requires forall m :: 0 <= m < |ids| ==> lo < ids[m] < |kids|
    ensures forall k :: 0 <= k < |r| ==> lo < r[k] < |kids|
    decreases |kids| - lo, 0, |ids|
  {
    if ids == [] then [] else IdxPre(kids, ids[0]) + IdxForest(kids, ids[1..], lo)
  }

  /** From the root every room is reached exactly once: the arena is one tree. */
  ghost predicate ReachedOnce(kids: seq<seq<nat>>)
    requires Ordered(kids) && |kids| > 0
  {
    && |IdxPre(kids, 0)| == |kids|
    && forall x :: 0 <= x < |kids| ==> multiset(IdxPre(kids, 0))[x] == 1
  }

  ghost predicate Valid(a: Arena)
  {
    && |a.values| == |a.kids|
    && Ordered(a.kids)
    && (|a.kids| > 0 ==> ReachedOnce(a.kids) && EdgeCount(a.kids) == |a.kids| - 1)
  }

  /** The subtree rooted at room i. */
  function ToTree(values: seq<int>, kids: seq<seq<nat>>, i: nat): Tree
    requires |values| == |kids| && Ordered(kids) && i < |kids|
    decreases |kids| - i, 1
  {
    Node(values[i], ToForest(values, kids, kids[i], i))
  }

  function ToForest(values: seq<int>, kids: seq<seq<nat>>, ids: seq<nat>, lo: nat): (r: seq<Tree>)
    requires |values| == |kids| && Ordered(kids) && lo < |kids|
    requires forall m :: 0 <= m < |ids| ==> lo < ids[m] < |kids|
    ensures |r| == |ids|
    decreases |kids| - lo, 0, |ids|
  {
    if ids == [] then [] else [ToTree(values, kids, ids[0])] + ToForest(values, kids, ids[1..], lo)
  }

  /** The tree an arena holds: the root pointer, null when no room was created. */
  function Root(a: Arena): Option<Tree>
    requires Valid(a)
  {
    if |a.values| == 0 then None else Some(ToTree(a.values, a.kids, 0))
  }

  /** A single room. */
  function Singleton(v: int): (r: Arena)
    ensures Valid(r) && r.values == [v] && r.kids == [[]]
  {
    assert IdxPre([[]], 0) == [0];
    Arena([v], [[]])
  }

  /** The exits after a new room, index |kids|, is pushed onto the exits of room p. */
  function Grow(kids: seq<seq<nat>>, p: nat): seq<seq<nat>>
    requires p < |kids|
  {
    kids[p := kids[p] + [|kids|]] + [[]]
  }

  /**
   Creating a room with value v and appending it to the exits of the existing
   room p keeps the arena one tree, with one more room and one more link.
   */
  function AddChild(a: Arena, p: nat, v: int): (r: Arena)
    requires Valid(a) && p < |a.values|
    ensures Valid(r)
    ensures r.values == a.values + [v]
    ensures |r.kids| == |a.kids| + 1 && r.kids[|a.kids|] == []
    ensures r.kids[p] == a.kids[p] + [|a.kids|]
    ensures forall i :: 0 <= i < |a.kids| && i != p ==> r.kids[i] == a.kids[i]
    ensures EdgeCount(r.kids) == EdgeCount(a.kids) + 1
  {
    GrowValid(a, p, v);
    GrowEdgeCount(a.kids, p);
    Arena(a.values + [v], Grow(a.kids, p))
  }

  // ---------------------------------------------------------------------------
  // Growing the arena by one leaf

  lemma GrowValid(a: Arena, p: nat, v: int)
    requires Valid(a) && p < |a.values|
    ensures Valid(Arena(a.values + [v], Grow(a.kids, p)))
  {
    var n: nat := |a.kids|;
    var kids' := Grow(a.kids, p);
    GrowOrdered(a.kids, p);
    GrowIdxPre(a.kids, p, 0);
    GrowEdgeCount(a.kids, p);
    var m: multiset<nat> := multiset(IdxPre(a.kids, 0));
    var m': multiset<nat> := multiset(IdxPre(kids', 0));
    assert m[n] == 0 by {
      assert forall k :: 0 <= k < |IdxPre(a.kids, 0)| ==> IdxPre(a.kids, 0)[k] != n;
    }
    assert m' == m + multiset{n} by {
      forall x
        ensures m'[x] == (m + multiset{n})[x]
      {
      }
    }
    assert |IdxPre(kids', 0)| == |m'|;
  }

  lemma GrowOrdered(kids: seq<seq<nat>>, p: nat)
    requires Ordered(kids) && p < |kids|
    ensures Ordered(Grow(kids, p))
  {
  }

  lemma {:induction false} EdgeCountAppend(a: seq<seq<nat>>, b: seq<seq<nat>>)
    ensures EdgeCount(a + b) == EdgeCount(a) + EdgeCount(b)
  {
    if a == [] {
      assert a + b == b;
    } else {
      assert (a + b)[1..] == a[1..] + b;
      EdgeCountAppend(a[1..], b);
    }
  }

  lemma {:induction false} EdgeCountUpdate(s: seq<seq<nat>>, p: nat, l: seq<nat>)
    requires p < |s|
    ensures EdgeCount(s[p := l]) + |s[p]| == EdgeCount(s) + |l|
  {
    if p > 0 {
      assert s[p := l][1..] == s[1..][p - 1 := l];
      EdgeCountUpdate(s[1..], p - 1, l);
    }
  }

  lemma GrowEdgeCount(kids: seq<seq<nat>>, p: nat)
    requires p < |kids|
    ensures EdgeCount(Grow(kids, p)) == EdgeCount(kids) + 1
  {
    EdgeCountUpdate(kids, p, kids[p] + [|kids|]);
    EdgeCountAppend(kids[p := kids[p] + [|kids|]], [[]]);
  }

  lemma {:induction false} IdxForestAppend(kids: seq<seq<nat>>, a: seq<nat>, b: seq<nat>, lo: nat)
    requires Ordered(kids) && lo < |kids|
    requires forall m :: 0 <= m < |a| ==> lo < a[m] < |kids|
    requires forall m :: 0 <= m < |b| ==> lo < b[m] < |kids|
    ensures IdxForest(kids, a + b, lo) == IdxForest(kids, a, lo) + IdxForest(kids, b, lo)
  {
    if a == [] {
      assert a + b == b;
    } else {
      assert (a + b)[0] == a[0] && (a + b)[1..] == a[1..] + b;
      IdxForestAppend(kids, a[1..], b, lo);
    }
  }

  /**
   After a new room n := |kids| is attached below p, every subtree holds the
   rooms it held before and, in addition, room n once for each time it holds p.
   */
  lemma {:induction false} GrowIdxPre(kids: seq<seq<nat>>, p: nat, i: nat)
    requires Ordered(kids) && p < |kids| && i < |kids|
    ensures Ordered(Grow(kids, p))
    ensures forall x :: x != |kids| ==>
      multiset(IdxPre(Grow(kids, p), i))[x] == multiset(IdxPre(kids, i))[x]
    ensures multiset(IdxPre(Grow(kids, p), i))[|kids|] == multiset(IdxPre(kids, i))[p]
    decreases |kids| - i, 1
  {
    GrowOrdered(kids, p);
    GrowIdxForest(kids, p, kids[i], i);
    if i == p {
      GrowAtParent(kids, p);
    } else {
      GrowElsewhere(kids, p, i);
    }
  }

  /** The room that receives the new child gains it as its last subtree. */
  lemma GrowAtParent(kids: seq<seq<nat>>, p: nat)
    requires Ordered(kids) && p < |kids| && Ordered(Grow(kids, p))
    requires forall x :: x != |kids| ==>
      multiset(IdxForest(Grow(kids, p), kids[p], p))[x] == multiset(IdxForest(kids, kids[p], p))[x]
    requires multiset(IdxForest(Grow(kids, p), kids[p], p))[|kids|] == multiset(IdxForest(kids, kids[p], p))[p]
    ensures forall x :: x != |kids| ==>
      multiset(IdxPre(Grow(kids, p), p))[x] == multiset(IdxPre(kids, p))[x]
    ensures multiset(IdxPre(Grow(kids, p), p))[|kids|] == multiset(IdxPre(kids, p))[p]
  {
    var n: nat := |kids|;
    var kids' := Grow(kids, p);
    var f := IdxForest(kids, kids[p], p);
    var f' := IdxForest(kids', kids[p], p);
    assert p !in f by {
      assert forall k :: 0 <= k < |f| ==> f[k] != p;
    }
    ParentPre(kids, p);
    CountsAtParent(multiset(f), multiset(f'), p, n);
  }

  /** The pre-order below the receiving room ends with the new room. */
  lemma ParentPre(kids: seq<seq<nat>>, p: nat)
    requires Ordered(kids) && p < |kids| && Ordered(Grow(kids, p))
    ensures IdxPre(Grow(kids, p), p) == [p] + (IdxForest(Grow(kids, p), kids[p], p) + [|kids|])
  {
    var n: nat := |kids|;
    var kids' := Grow(kids, p);
    assert kids'[p] == kids[p] + [n];
    IdxForestAppend(kids', kids[p], [n], p);
    assert IdxForest(kids', [n], p) == IdxPre(kids', n) + IdxForest(kids', [], p);
    assert IdxPre(kids', n) == [n];
  }

  /** Any other room keeps its exits; only the counts below it change. */
  lemma GrowElsewhere(kids: seq<seq<nat>>, p: nat, i: nat)
    requires Ordered(kids) && p < |kids| && i < |kids| && i != p && Ordered(Grow(kids, p))
    requires forall x :: x != |kids| ==>
      multiset(IdxForest(Grow(kids, p), kids[i], i))[x] == multiset(IdxForest(kids, kids[i], i))[x]
    requires multiset(IdxForest(Grow(kids, p), kids[i], i))[|kids|] == multiset(IdxForest(kids, kids[i], i))[p]
    ensures forall x :: x != |kids| ==>
      multiset(IdxPre(Grow(kids, p), i))[x] == multiset(IdxPre(kids, i))[x]
    ensures multiset(IdxPre(Grow(kids, p), i))[|kids|] == multiset(IdxPre(kids, i))[p]
  {
    var kids' := Grow(kids, p);
    var f := IdxForest(kids, kids[i], i);
    var f' := IdxForest(kids', kids[i], i);
    assert IdxPre(kids', i) == [i] + f' by {
      assert kids'[i] == kids[i];
    }
    CountsElsewhere(multiset(f), multiset(f'), i, |kids|, p);
  }

  /** Counting step for the room that receives the new child. */
  lemma CountsAtParent(f: multiset<nat>, f': multiset<nat>, p: nat, n: nat)
    requires p != n && f[p] == 0
    requires forall x :: x != n ==> f'[x] == f[x]
    requires f'[n] == f[p]
    ensures forall x :: x != n ==> (multiset{p} + (f' + multiset{n}))[x] == (multiset{p} + f)[x]
    ensures (multiset{p} + (f' + multiset{n}))[n] == (multiset{p} + f)[p]
  {
  }

  /** Counting step for every other room. */
  lemma CountsElsewhere(f: multiset<nat>, f': multiset<nat>, i: nat, n: nat, p: nat)
    requires i != n && i != p
    requires forall x :: x != n ==> f'[x] == f[x]
    requires f'[n] == f[p]
    ensures forall x :: x != n ==> (multiset{i} + f')[x] == (multiset{i} + f)[x]
    ensures (multiset{i} + f')[n] == (multiset{i} + f)[p]
  {
  }

  lemma {:induction false} GrowIdxForest(kids: seq<seq<nat>>, p: nat, ids: seq<nat>, lo: nat)
    requires Ordered(kids) && p < |kids| && lo < |kids|
    requires forall m :: 0 <= m < |ids| ==> lo < ids[m] < |kids|
    ensures Ordered(Grow(kids, p))
    ensures forall x :: x != |kids| ==>
      multiset(IdxForest(Grow(kids, p), ids, lo))[x] == multiset(IdxForest(kids, ids, lo))[x]
    ensures multiset(IdxForest(Grow(kids, p), ids, lo))[|kids|] == multiset(IdxForest(kids, ids, lo))[p]
    decreases |kids| - lo, 0, |ids|
  {
    GrowOrdered(kids, p);
    if ids != [] {
      GrowIdxPre(kids, p, ids[0]);
      GrowIdxForest(kids, p, ids[1..], lo);
    }
  }

  // ---------------------------------------------------------------------------
  // Reading the arena back as a tree

  ghost function ValuesAt(values: seq<int>, ids: seq<nat>): (r: seq<int>)
    requires forall k :: 0 <= k < |ids| ==> ids[k] < |values|
  {
    seq(|ids|, k requires 0 <= k < |ids| => values[ids[k]])
  }

  /** The pre-order of the tree an arena holds is the pre-order of its indices, read through values. */
  lemma {:induction false} ToTreePreOrder(values: seq<int>, kids: seq<seq<nat>>, i: nat)
    requires |values| == |kids| && Ordered(kids) && i < |kids|
    ensures PreOrder(ToTree(values, kids, i)) == ValuesAt(values, IdxPre(kids, i))
    decreases |kids| - i, 1
  {
    ToForestPreOrder(values, kids, kids[i], i);
  }

  lemma {:induction false} ToForestPreOrder(values: seq<int>, kids: seq<seq<nat>>, ids: seq<nat>, lo: nat)
    requires |values| == |kids| && Ordered(kids) && lo < |kids|
    requires forall m :: 0 <= m < |ids| ==> lo < ids[m] < |kids|
    ensures ForestPreOrder(ToForest(values, kids, ids, lo)) == ValuesAt(values, IdxForest(kids, ids, lo))
    decreases |kids| - lo, 0, |ids|
  {
    if ids != [] {
      var r := ToForest(values, kids, ids, lo);
      assert r[0] == ToTree(values, kids, ids[0]);
      assert r[1..] == ToForest(values, kids, ids[1..], lo);
      ToTreePreOrder(values, kids, ids[0]);
      ToForestPreOrder(values, kids, ids[1..], lo);
    }
  }

  /**
   A valid, non-empty arena holds a tree with exactly one room per arena slot,
   and a value occurs in that tree exactly when some room of the arena holds it.
   */
  lemma TreeOfArena(a: Arena)
    requires Valid(a) && |a.values| > 0
    ensures Size(ToTree(a.values, a.kids, 0)) == |a.values|
    ensures forall y :: Occurs(ToTree(a.values, a.kids, 0), y) <==> y in a.values
  {
    var t := ToTree(a.values, a.kids, 0);
    var ids := IdxPre(a.kids, 0);
    ToTreePreOrder(a.values, a.kids, 0);
    forall y
      ensures Occurs(t, y) <==> y in a.values
    {
      OccursIffInPreOrder(t, y);
      if y in a.values {
        var x :| 0 <= x < |a.values| && a.values[x] == y;
        assert x in multiset(ids);
        var k :| 0 <= k < |ids| && ids[k] == x;
        assert PreOrder(t)[k] == y;
      }
      if y in PreOrder(t) {
        var k :| 0 <= k < |PreOrder(t)| && PreOrder(t)[k] == y;
        assert a.values[ids[k]] == y;
      }
    }
  }

  // ---------------------------------------------------------------------------
  // The growth loop shared by both random generators

  /** Number of rooms a generator creates for a requested count: the loop always keeps the root. */
  function NodeTotal(nodeCount: int): (n: nat)
    ensures n >= 1 && n >= nodeCount
  {
    if nodeCount < 1 then 1 else nodeCount
  }

  /** rand() % 100 + 1 applied to the draw that gives room i its value. */
  function RolledValue(rolls: seq<nat>, i: nat): (v: int)
    requires 2 * i < |rolls|
    ensures 1 <= v <= 100
  {
    if i == 0 then rolls[0] % 100 + 1 else rolls[2 * i - 1] % 100 + 1
  }

  /** rand() % nodes.size() applied to the draw that picks the parent of room i > 0. */
  function RolledParent(rolls: seq<nat>, i: nat): (p: nat)
    requires 0 < i && 2 * i < |rolls|
    ensures p < i
  {
    rolls[2 * i] % i
  }

  /**
   The root with a random value, then nodeCount - 1 further rooms, each with a
   random value and attached below a randomly chosen earlier room. rand() is
   replaced by the draws in rolls, taken in order: the root's value, then for
   room i the value (draw 2i - 1) and the parent (draw 2i). Returns the arena
   and the number of draws used.
   */
  method GrowRandomTree(nodeCount: int, rolls: seq<nat>) returns (a: Arena, used: nat)
    requires |rolls| >= 2 * NodeTotal(nodeCount) - 1
    ensures Valid(a) && |a.values| == NodeTotal(nodeCount)
    ensures used == 2 * NodeTotal(nodeCount) - 1
    ensures forall i :: 0 <= i < |a.values| ==> a.values[i] == RolledValue(rolls, i)
    ensures forall j :: 0 < j < |a.kids| ==> j in a.kids[RolledParent(rolls, j)]
  {
    a := Singleton(rolls[0] % 100 + 1);
    used := 1;
    var i := 1;
    while i < nodeCount
      invariant 1 <= i <= NodeTotal(nodeCount)
      invariant Valid(a) && |a.values| == i && used == 2 * i - 1
      invariant forall k :: 0 <= k < i ==> a.values[k] == RolledValue(rolls, k)
      invariant forall j :: 0 < j < i ==> j in a.kids[RolledParent(rolls, j)]
    {
      var value := rolls[used] % 100 + 1;
      var parent := rolls[used + 1] % |a.values|;
      a := AddChild(a, parent, value);
      used := used + 2;
      i := i + 1;
    }
  }
}
