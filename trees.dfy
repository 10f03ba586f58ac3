/**
 A dungeon is a rooted tree of rooms. Every room holds an integer value and an
 ordered list of exits to child rooms; no room is shared between two parents.
 This module gives the tree as a value together with the orders in which the
 two searches visit it, and the facts about those orders that the searches and
 the builders rely on.
 */
module Trees {

  datatype Option<T> = None | Some(value: T)

  /** A room and the subtrees behind its exits, in order. */
  datatype Tree = Node(value: int, children: seq<Tree>)

  /** Number of rooms. */
  function Size(t: Tree): (n: nat)
    ensures n >= 1
  {
    1 + ForestSize(t.children)
  }

  function ForestSize(ts: seq<Tree>): nat
  {
    if ts == [] then 0 else Size(ts[0]) + ForestSize(ts[1..])
  }

  /** The value occurs somewhere in the tree. */
  predicate Occurs(t: Tree, x: int)
  {
    t.value == x || exists c :: c in t.children && Occurs(c, x)
  }

  /** Values in pre-order: a room, then the subtrees behind its exits from first to last. */
  function PreOrder(t: Tree): (s: seq<int>)
    ensures |s| == Size(t) && s[0] == t.value
  {
    [t.value] + ForestPreOrder(t.children)
  }

  function ForestPreOrder(ts: seq<Tree>): (s: seq<int>)
    ensures |s| == ForestSize(ts)
  {
    if ts == [] then [] else PreOrder(ts[0]) + ForestPreOrder(ts[1..])
  }

  /** Position of the first occurrence of x in s. */
  function IndexOf(s: seq<int>, x: int): (k: nat)
    requires x in s
    ensures k < |s| && s[k] == x
    ensures forall j :: 0 <= j < k ==> s[j] != x
  {
    if s[0] == x then 0 else 1 + IndexOf(s[1..], x)
  }

  /**
   The values on the way from the root down to the first room, in pre-order,
   whose value is x; None when there is no such room.
   */
  function FirstPath(t: Tree, x: int): (p: Option<seq<int>>)
    ensures p.Some? <==> x in PreOrder(t)
    ensures p.Some? ==> |p.value| >= 1 && p.value[0] == t.value && p.value[|p.value| - 1] == x
    ensures p.Some? ==> forall k :: 0 <= k < |p.value| - 1 ==> p.value[k] != x
  {
    if t.value == x then Some([x])
    else match ForestFirstPath(t.children, x)
      case None => None
      case Some(q) => Some([t.value] + q)
  }

  function ForestFirstPath(ts: seq<Tree>, x: int): (p: Option<seq<int>>)
    ensures p.Some? <==> x in ForestPreOrder(ts)
    ensures p.Some? ==> |p.value| >= 1 && p.value[|p.value| - 1] == x
    ensures p.Some? ==> forall k :: 0 <= k < |p.value| - 1 ==> p.value[k] != x
  {
    if ts == [] then None
    else match FirstPath(ts[0], x)
      case Some(p) => Some(p)
      case None => ForestFirstPath(ts[1..], x)
  }

  /**
   For every room, in pre-order, the values on the way from the root down to it.
   This is an independent description of "the path to the k-th room visited".
   */
  function Routes(t: Tree): (r: seq<seq<int>>)
    ensures |r| == Size(t)
  {
    [[t.value]] + Prepend(t.value, ForestRoutes(t.children))
  }

  function ForestRoutes(ts: seq<Tree>): (r: seq<seq<int>>)
    ensures |r| == ForestSize(ts)
  {
    if ts == [] then [] else Routes(ts[0]) + ForestRoutes(ts[1..])
  }

  function Prepend(v: int, rs: seq<seq<int>>): seq<seq<int>>
  {
    seq(|rs|, k requires 0 <= k < |rs| => [v] + rs[k])
  }

  /** The values of a row of rooms, left to right. */
  function Values(ts: seq<Tree>): (r: seq<int>)
    ensures |r| == |ts|
  {
    if ts == [] then [] else [ts[0].value] + Values(ts[1..])
  }

  /** The rooms one level below a row, left to right. */
  function NextRow(ts: seq<Tree>): (r: seq<Tree>)
    ensures ForestSize(r) + |ts| == ForestSize(ts)
  {
    if ts == [] then []
    else
      ForestSizeAppend(ts[0].children, NextRow(ts[1..]));
      ts[0].children + NextRow(ts[1..])
  }

  /** Values level by level: the row itself, then the row below it, and so on. */
  function Levels(ts: seq<Tree>): (r: seq<int>)
    ensures |r| == ForestSize(ts)
    decreases ForestSize(ts)
  {
    if ts == [] then [] else Values(ts) + Levels(NextRow(ts))
  }

  function LevelOrder(t: Tree): seq<int>
  {
    Levels([t])
  }

  /** Values in the order a FIFO queue holding q hands its rooms out. */
  function QueueOrder(q: seq<Tree>): seq<int>
    decreases ForestSize(q)
  {
    if q == [] then []
    else
      ForestSizeAppend(q[1..], q[0].children);
      assert Size(q[0]) == 1 + ForestSize(q[0].children);
      [q[0].value] + QueueOrder(q[1..] + q[0].children)
  }

  // ---------------------------------------------------------------------------
  // Sizes and pre-order of concatenated forests

  lemma {:induction false} ForestSizeAppend(a: seq<Tree>, b: seq<Tree>)
    ensures ForestSize(a + b) == ForestSize(a) + ForestSize(b)
  {
    if a == [] {
      assert a + b == b;
    } else {
      assert (a + b)[1..] == a[1..] + b;
      ForestSizeAppend(a[1..], b);
    }
  }

  lemma {:induction false} ForestPreOrderAppend(a: seq<Tree>, b: seq<Tree>)
    ensures ForestPreOrder(a + b) == ForestPreOrder(a) + ForestPreOrder(b)
  {
    if a == [] {
      assert a + b == b;
    } else {
      assert (a + b)[1..] == a[1..] + b;
      ForestPreOrderAppend(a[1..], b);
    }
  }

  /** Every subtree behind an exit is smaller than the room it leaves. */
  lemma {:induction false} ChildSizeBound(ts: seq<Tree>, i: nat)
    requires i < |ts|
    ensures Size(ts[i]) <= ForestSize(ts)
  {
    if i > 0 {
      ChildSizeBound(ts[1..], i - 1);
    }
  }

  /** Stepping one child further: the pre-order and size of a prefix of the exits. */
  lemma ForestPrefixStep(ts: seq<Tree>, i: nat)
    requires i < |ts|
    ensures ForestPreOrder(ts[..i + 1]) == ForestPreOrder(ts[..i]) + PreOrder(ts[i])
    ensures ForestSize(ts[..i + 1]) == ForestSize(ts[..i]) + Size(ts[i])
  {
    assert ts[..i + 1] == ts[..i] + [ts[i]];
    assert [ts[i]][1..] == [];
    ForestPreOrderAppend(ts[..i], [ts[i]]);
    ForestSizeAppend(ts[..i], [ts[i]]);
  }

  // ---------------------------------------------------------------------------
  // Occurrence

  /** The recursive occurrence test agrees with membership in the pre-order. */
  lemma {:induction false} OccursIffInPreOrder(t: Tree, x: int)
    ensures Occurs(t, x) <==> x in PreOrder(t)
  {
    ForestOccursIffInPreOrder(t.children, x);
  }

  lemma {:induction false} ForestOccursIffInPreOrder(ts: seq<Tree>, x: int)
    ensures (exists c :: c in ts && Occurs(c, x)) <==> x in ForestPreOrder(ts)
  {
    if ts != [] {
      OccursIffInPreOrder(ts[0], x);
      ForestOccursIffInPreOrder(ts[1..], x);
      forall c | c in ts
        ensures c == ts[0] || c in ts[1..]
      {
      }
    }
  }

  // ---------------------------------------------------------------------------
  // First occurrences

  lemma IndexOfUnique(s: seq<int>, x: int, k: nat)
    requires k < |s| && s[k] == x
    requires forall j :: 0 <= j < k ==> s[j] != x
    ensures IndexOf(s, x) == k
  {
  }

  lemma IndexOfAppend(a: seq<int>, b: seq<int>, x: int)
    requires x in a + b
    ensures x in a ==> IndexOf(a + b, x) == IndexOf(a, x)
    ensures x !in a ==> IndexOf(a + b, x) == |a| + IndexOf(b, x)
  {
    if x in a {
      IndexOfUnique(a + b, x, IndexOf(a, x));
    } else {
      assert x in b;
      IndexOfUnique(a + b, x, |a| + IndexOf(b, x));
    }
  }

  /** When no earlier exit leads to x, the first path runs through exit i. */
  lemma {:induction false} ForestFirstPathAt(ts: seq<Tree>, i: nat, x: int)
    requires i < |ts|
    requires x !in ForestPreOrder(ts[..i]) && x in PreOrder(ts[i])
    ensures ForestFirstPath(ts, x) == FirstPath(ts[i], x)
  {
    if i > 0 {
      assert ts[..i][0] == ts[0] && ts[..i][1..] == ts[1..][..i - 1];
      ForestFirstPathAt(ts[1..], i - 1, x);
    }
  }

  /**
   The search of a room that does not hold x succeeds through exit i when the
   earlier exits fail: the first match lies after the room itself and all the
   rooms behind those earlier exits, and its path passes through exit i.
   */
  lemma FoundInChild(t: Tree, i: nat, x: int)
    requires i < |t.children| && t.value != x
    requires x !in ForestPreOrder(t.children[..i]) && x in PreOrder(t.children[i])
    ensures x in PreOrder(t)
    ensures IndexOf(PreOrder(t), x)
         == 1 + ForestSize(t.children[..i]) + IndexOf(PreOrder(t.children[i]), x)
    ensures FirstPath(t, x) == Some([t.value] + FirstPath(t.children[i], x).value)
  {
    var cs := t.children;
    assert cs == cs[..i] + cs[i..];
    assert cs[i..] == [cs[i]] + cs[i + 1..];
    ForestPreOrderAppend(cs[..i], cs[i..]);
    ForestPreOrderAppend([cs[i]], cs[i + 1..]);
    assert [cs[i]][1..] == [];
    assert ForestPreOrder(cs[i..]) == PreOrder(cs[i]) + ForestPreOrder(cs[i + 1..]);
    IndexOfAppend([t.value], ForestPreOrder(cs), x);
    IndexOfAppend(ForestPreOrder(cs[..i]), ForestPreOrder(cs[i..]), x);
    IndexOfAppend(PreOrder(cs[i]), ForestPreOrder(cs[i + 1..]), x);
    ForestFirstPathAt(cs, i, x);
  }

  /** A room that does not hold x and whose exits all fail does not contain x. */
  lemma NotFoundBelow(t: Tree, x: int)
    requires t.value != x && x !in ForestPreOrder(t.children[..|t.children|])
    ensures !Occurs(t, x) && x !in PreOrder(t)
  {
    assert t.children[..|t.children|] == t.children;
    OccursIffInPreOrder(t, x);
  }

  // ---------------------------------------------------------------------------
  // Routes: the path returned is the way down to the first match in pre-order

  /** Every route starts at the root, ends at the k-th room in pre-order and is no longer than k + 1. */
  lemma {:induction false} RouteShape(t: Tree, k: nat)
    requires k < Size(t)
    ensures var r := Routes(t)[k];
      1 <= |r| <= k + 1 && r[0] == t.value && r[|r| - 1] == PreOrder(t)[k]
  {
    if k > 0 {
      ForestRouteShape(t.children, k - 1);
    }
  }

  lemma {:induction false} ForestRouteShape(ts: seq<Tree>, k: nat)
    requires k < ForestSize(ts)
    ensures var r := ForestRoutes(ts)[k];
      1 <= |r| <= k + 1 && r[|r| - 1] == ForestPreOrder(ts)[k]
  {
    if k < Size(ts[0]) {
      RouteShape(ts[0], k);
    } else {
      ForestRouteShape(ts[1..], k - Size(ts[0]));
    }
  }

  /**
   The path FirstPath computes is the route to the room at the first pre-order
   position holding x, and it is no longer than that position plus one.
   */
  lemma {:induction false} FirstPathIsFirstRoute(t: Tree, x: int)
    requires x in PreOrder(t)
    ensures FirstPath(t, x) == Some(Routes(t)[IndexOf(PreOrder(t), x)])
    ensures |FirstPath(t, x).value| <= IndexOf(PreOrder(t), x) + 1
  {
    if t.value != x {
      IndexOfAppend([t.value], ForestPreOrder(t.children), x);
      ForestFirstPathIsFirstRoute(t.children, x);
    }
    RouteShape(t, IndexOf(PreOrder(t), x));
  }

  lemma {:induction false} ForestFirstPathIsFirstRoute(ts: seq<Tree>, x: int)
    requires x in ForestPreOrder(ts)
    ensures ForestFirstPath(ts, x) == Some(ForestRoutes(ts)[IndexOf(ForestPreOrder(ts), x)])
  {
    IndexOfAppend(PreOrder(ts[0]), ForestPreOrder(ts[1..]), x);
    if x in PreOrder(ts[0]) {
      FirstPathIsFirstRoute(ts[0], x);
    } else {
      ForestFirstPathIsFirstRoute(ts[1..], x);
    }
  }

  // ---------------------------------------------------------------------------
  // Level order: the queue discipline visits the tree level by level

  lemma {:induction false} QueueOrderSplit(ts: seq<Tree>, extra: seq<Tree>)
    ensures QueueOrder(ts + extra) == Values(ts) + QueueOrder(extra + NextRow(ts))
    decreases |ts|
  {
    if ts == [] {
      assert ts + extra == extra && extra + NextRow(ts) == extra;
    } else {
      var t0 := ts[0];
      assert (ts + extra)[0] == t0;
      assert (ts + extra)[1..] + t0.children == ts[1..] + (extra + t0.children);
      QueueOrderSplit(ts[1..], extra + t0.children);
      assert extra + t0.children + NextRow(ts[1..]) == extra + NextRow(ts);
    }
  }

  /** Handing rooms out of a FIFO queue lists them level by level. */
  lemma {:induction false} QueueOrderIsLevels(ts: seq<Tree>)
    ensures QueueOrder(ts) == Levels(ts)
    decreases ForestSize(ts)
  {
    if ts != [] {
      QueueOrderSplit(ts, []);
      assert ts + [] == ts && [] + NextRow(ts) == NextRow(ts);
      QueueOrderIsLevels(NextRow(ts));
    }
  }

  lemma {:induction false} QueueOrderPermutesPreOrder(q: seq<Tree>)
    ensures multiset(QueueOrder(q)) == multiset(ForestPreOrder(q))
    decreases ForestSize(q)
  {
    if q != [] {
      ForestSizeAppend(q[1..], q[0].children);
      assert Size(q[0]) == 1 + ForestSize(q[0].children);
      QueueOrderPermutesPreOrder(q[1..] + q[0].children);
      ForestPreOrderAppend(q[1..], q[0].children);
    }
  }

  /** Breadth-first and depth-first order visit the same rooms, each once. */
  lemma LevelOrderPermutesPreOrder(t: Tree)
    ensures LevelOrder(t) == QueueOrder([t])
    ensures multiset(LevelOrder(t)) == multiset(PreOrder(t))
    ensures |LevelOrder(t)| == Size(t)
    ensures forall x :: x in LevelOrder(t) <==> Occurs(t, x)
  {
    QueueOrderIsLevels([t]);
    QueueOrderPermutesPreOrder([t]);
    assert [t][1..] == [];
    assert ForestPreOrder([t]) == PreOrder(t);
    forall x
      ensures x in LevelOrder(t) <==> Occurs(t, x)
    {
      OccursIffInPreOrder(t, x);
      assert x in LevelOrder(t) <==> x in multiset(LevelOrder(t));
      assert x in PreOrder(t) <==> x in multiset(PreOrder(t));
    }
  }

  /** A room that occurs is found within the first Size(t) steps of either order. */
  lemma FoundWithinSize(t: Tree, x: int)
    requires Occurs(t, x)
    ensures x in PreOrder(t) && x in LevelOrder(t)
    ensures IndexOf(PreOrder(t), x) < Size(t) && IndexOf(LevelOrder(t), x) < Size(t)
  {
    OccursIffInPreOrder(t, x);
    LevelOrderPermutesPreOrder(t);
  }

  // ---------------------------------------------------------------------------
  // A worked example

  /** The rooms of the dungeon 1 -> [2, 3], 2 -> [4, 5], with t the root. */
  predicate IsExample(t: Tree, r2: Tree, r3: Tree, r4: Tree, r5: Tree)
  {
    && r4 == Node(4, []) && r5 == Node(5, []) && r3 == Node(3, [])
    && r2 == Node(2, [r4, r5]) && t == Node(1, [r2, r3])
  }

  /**
   Pre-order 1, 2, 4, 5, 3 with the first 4 at position 2 and its way down
   1, 2, 4; level order 1, 2, 3, 4, 5 with the first 4 at position 3.
   */
  lemma ExampleOrders(t: Tree, r2: Tree, r3: Tree, r4: Tree, r5: Tree)
    requires IsExample(t, r2, r3, r4, r5)
    ensures Occurs(t, 4)
    ensures 4 in PreOrder(t) && IndexOf(PreOrder(t), 4) == 2
    ensures FirstPath(t, 4) == Some([1, 2, 4])
    ensures 4 in LevelOrder(t) && IndexOf(LevelOrder(t), 4) == 3
  {
    ExamplePreOrder(t, r2, r3, r4, r5);
    ExampleFirstPath(t, r2, r3, r4, r5);
    IndexOfUnique(PreOrder(t), 4, 2);
    OccursIffInPreOrder(t, 4);
    ExampleLevelOrder(t, r2, r3, r4, r5);
    IndexOfUnique(LevelOrder(t), 4, 3);
  }

  lemma ExamplePreOrder(t: Tree, r2: Tree, r3: Tree, r4: Tree, r5: Tree)
    requires IsExample(t, r2, r3, r4, r5)
    ensures PreOrder(t) == [1, 2, 4, 5, 3]
  {
    assert PreOrder(r2) == [2, 4, 5] by {
      assert [r4, r5][1..] == [r5];
      assert ForestPreOrder([r4, r5]) == [4, 5];
    }
    assert [r2, r3][1..] == [r3];
    assert ForestPreOrder([r2, r3]) == [2, 4, 5, 3];
  }

  lemma ExampleFirstPath(t: Tree, r2: Tree, r3: Tree, r4: Tree, r5: Tree)
    requires IsExample(t, r2, r3, r4, r5)
    ensures FirstPath(t, 4) == Some([1, 2, 4])
  {
    assert FirstPath(r2, 4) == Some([2, 4]) by {
      assert ForestFirstPath([r4, r5], 4) == Some([4]);
      assert [2] + [4] == [2, 4];
    }
    assert ForestFirstPath([r2, r3], 4) == Some([2, 4]);
    assert [1] + [2, 4] == [1, 2, 4];
  }

  lemma ExampleLevelOrder(t: Tree, r2: Tree, r3: Tree, r4: Tree, r5: Tree)
    requires IsExample(t, r2, r3, r4, r5)
    ensures LevelOrder(t) == [1, 2, 3, 4, 5]
  {
    RowOfOne(t);
    RowOfTwo(r2, r3);
    RowOfTwo(r4, r5);
    assert r4.children + r5.children == [];
    assert r2.children + r3.children == [r4, r5];
    assert Levels([r4, r5]) == [4, 5] + Levels([]);
    assert Levels([r2, r3]) == [2, 3] + Levels([r4, r5]);
    assert Levels([t]) == [1] + Levels([r2, r3]);
  }

  lemma RowOfOne(a: Tree)
    ensures Values([a]) == [a.value] && NextRow([a]) == a.children
  {
  }

  lemma RowOfTwo(a: Tree, b: Tree)
    ensures Values([a, b]) == [a.value, b.value] && NextRow([a, b]) == a.children + b.children
  {
  }
}

