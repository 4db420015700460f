/** The four traversal orders.
    Each Ruby traversal appends to a shared `traversed` array while it
    recurses; `InorderWalk`, `PreorderWalk` and `PostorderWalk` thread that
    array through explicitly and are proved equal to the textbook definitions
    `InorderKeys`, `PreorderKeys` and `PostorderKeys`. Level order is defined
    level by level over forests (`Levels`); the queue-driven loop is proved
    against it in the `Tree` class. */
module Traversals {
  import opened Nodes
  import opened Sorting

  function InorderKeys(t: Subtree): seq<int> {
    match t
    case Nil => []
    case Node(l, d, r) => InorderKeys(l) + [d] + InorderKeys(r)
  }

  function PreorderKeys(t: Subtree): seq<int> {
    match t
    case Nil => []
    case Node(l, d, r) => [d] + PreorderKeys(l) + PreorderKeys(r)
  }

  function PostorderKeys(t: Subtree): seq<int> {
    match t
    case Nil => []
    case Node(l, d, r) => PostorderKeys(l) + PostorderKeys(r) + [d]
  }

  /** `inorder(root, traversed)`: the accumulator after the walk. */
  function InorderWalk(root: Subtree, traversed: seq<int>): (r: seq<int>)
    ensures r == traversed + InorderKeys(root)
  {
    match root
    case Nil => traversed
    case Node(l, d, rt) => InorderWalk(rt, InorderWalk(l, traversed) + [d])
  }

  /** `preorder(root, traversed)`: the accumulator after the walk. */
  function PreorderWalk(root: Subtree, traversed: seq<int>): (r: seq<int>)
    ensures r == traversed + PreorderKeys(root)
  {
    match root
    case Nil => traversed
    case Node(l, d, rt) => PreorderWalk(rt, PreorderWalk(l, traversed + [d]))
  }

  /** `postorder(root, traversed)`: the accumulator after the walk. */
  function PostorderWalk(root: Subtree, traversed: seq<int>): (r: seq<int>)
    ensures r == traversed + PostorderKeys(root)
  {
    match root
    case Nil => traversed
    case Node(l, d, rt) => PostorderWalk(rt, PostorderWalk(l, traversed)) + [d]
  }

  /** In-order lists every key once: its elements are the tree's keys and its
      length is the node count. */
  lemma {:induction false} InorderContents(t: Subtree)
    ensures |InorderKeys(t)| == Size(t)
    ensures forall k :: k in InorderKeys(t) <==> k in Keys(t)
  {
    if t.Node? {
      InorderContents(t.left);
      InorderContents(t.right);
    }
  }

  /** BST ordering holds exactly when the in-order listing is strictly
      ascending. */
  lemma {:induction false} BstIffInorderSorted(t: Subtree)
    ensures IsBst(t) <==> StrictlySorted(InorderKeys(t))
  {
    if t.Node? {
      var l, d, r := t.left, t.data, t.right;
      BstIffInorderSorted(l);
      BstIffInorderSorted(r);
      InorderContents(l);
      InorderContents(r);
      var a, b := InorderKeys(l), InorderKeys(r);
      if IsBst(t) {
        JoinSorted(a, d, b);
      }
      if StrictlySorted(a + [d] + b) {
        SplitSorted(a, d, b);
      }
    }
  }

  /** Two ascending lists joined by a key above the first and below the
      second give an ascending list. */
  lemma JoinSorted(a: seq<int>, d: int, b: seq<int>)
    requires StrictlySorted(a) && StrictlySorted(b)
    requires forall x :: x in a ==> x < d
    requires forall y :: y in b ==> d < y
    ensures StrictlySorted(a + [d] + b)
  {
    var s := a + [d] + b;
    forall i, j | 0 <= i < j < |s| ensures s[i] < s[j] {
      if j < |a| {
        assert s[i] == a[i] && s[j] == a[j];
      } else if i < |a| {
        assert s[i] == a[i] && a[i] in a;
        if j > |a| {
          assert s[j] == b[j - |a| - 1] && b[j - |a| - 1] in b;
        }
      } else if i == |a| {
        assert s[j] == b[j - |a| - 1] && b[j - |a| - 1] in b;
      } else {
        assert s[i] == b[i - |a| - 1] && s[j] == b[j - |a| - 1];
      }
    }
  }

  /** The converse: an ascending list splits around any of its keys into two
      ascending lists, below and above that key. */
  lemma SplitSorted(a: seq<int>, d: int, b: seq<int>)
    requires StrictlySorted(a + [d] + b)
    ensures StrictlySorted(a) && StrictlySorted(b)
    ensures forall x :: x in a ==> x < d
    ensures forall y :: y in b ==> d < y
  {
    var s := a + [d] + b;
    assert s[|a|] == d;
    forall i, j | 0 <= i < j < |a| ensures a[i] < a[j] {
      assert s[i] == a[i] && s[j] == a[j];
    }
    forall i, j | 0 <= i < j < |b| ensures b[i] < b[j] {
      assert s[|a| + 1 + i] == b[i] && s[|a| + 1 + j] == b[j];
    }
    forall x | x in a ensures x < d {
      var i :| 0 <= i < |a| && a[i] == x;
      assert s[i] == x;
    }
    forall y | y in b ensures d < y {
      var j :| 0 <= j < |b| && b[j] == y;
      assert s[|a| + 1 + j] == y;
    }
  }

  /** Pre-order and post-order list the same keys as in-order, each as often. */
  lemma {:induction false} TraversalsArePermutations(t: Subtree)
    ensures multiset(PreorderKeys(t)) == multiset(InorderKeys(t))
    ensures multiset(PostorderKeys(t)) == multiset(InorderKeys(t))
  {
    if t.Node? {
      TraversalsArePermutations(t.left);
      TraversalsArePermutations(t.right);
    }
  }

  /** Pre-order starts with the root key, post-order ends with it. */
  lemma RootFirstAndLast(t: Subtree)
    requires t.Node?
    ensures PreorderKeys(t)[0] == t.data
    ensures PostorderKeys(t)[|PostorderKeys(t)| - 1] == t.data
  {
  }
  // ---------------------------------------------------------------- level order

  /** A forest in which every slot holds a node (what the queue holds). */
  ghost predicate AllNodes(f: seq<Subtree>) {
    forall i :: 0 <= i < |f| ==> f[i].Node?
  }

  function ForestSize(f: seq<Subtree>): nat {
    if f == [] then 0 else Size(f[0]) + ForestSize(f[1..])
  }

  lemma {:induction false} ForestSizeAppend(f: seq<Subtree>, g: seq<Subtree>)
    ensures ForestSize(f + g) == ForestSize(f) + ForestSize(g)
  {
    if f == [] {
      assert f + g == g;
    } else {
      assert (f + g)[0] == f[0];
      assert (f + g)[1..] == f[1..] + g;
      ForestSizeAppend(f[1..], g);
    }
  }

  lemma ForestSizeSingle(t: Subtree)
    ensures ForestSize([t]) == Size(t)
  {
    assert [t][1..] == [];
  }

  /** The non-empty children of a node, left before right (none for an
      empty slot). */
  function Kids(t: Subtree): seq<Subtree> {
    if t.Nil? then []
    else (if t.left.Node? then [t.left] else []) + (if t.right.Node? then [t.right] else [])
  }

  /** The children a dequeued node enqueues are nodes, and they hold all of
      its nodes but itself. */
  lemma KidsShape(t: Subtree)
    ensures AllNodes(Kids(t))
    ensures t.Node? ==> ForestSize(Kids(t)) == Size(t) - 1
    ensures t.Nil? ==> Kids(t) == []
  {
    if t.Node? {
      var l := if t.left.Node? then [t.left] else [];
      var r := if t.right.Node? then [t.right] else [];
      ForestSizeSingle(t.left);
      ForestSizeSingle(t.right);
      ForestSizeAppend(l, r);
    }
  }

  /** Enqueuing a node's left child, when present, then its right child, when
      present, appends exactly its `Kids`. */
  lemma EnqueuedKids(rest: seq<Subtree>, t: Subtree, withLeft: seq<Subtree>, after: seq<Subtree>)
    requires t.Node?
    requires withLeft == if t.left.Node? then rest + [t.left] else rest
    requires after == if t.right.Node? then withLeft + [t.right] else withLeft
    ensures after == rest + Kids(t)
  {
    if t.left.Node? && t.right.Node? {
      Associative(rest, [t.left], [t.right]);
    }
  }

  /** The keys of the forest's roots, in order. */
  function Roots(f: seq<Subtree>): seq<int>
    requires AllNodes(f)
  {
    if f == [] then [] else [f[0].data] + Roots(f[1..])
  }

  /** The next level: the non-empty children of the forest's roots, in order. */
  function Children(f: seq<Subtree>): (r: seq<Subtree>)
    requires AllNodes(f)
    ensures AllNodes(r)
    ensures ForestSize(r) == ForestSize(f) - |f|
  {
    if f == [] then []
    else
      KidsShape(f[0]);
      ForestSizeAppend(Kids(f[0]), Children(f[1..]));
      AllNodesAppend(Kids(f[0]), Children(f[1..]));
      Kids(f[0]) + Children(f[1..])
  }

  /** Level order as a specification: the roots of one level, then the
      next level, left to right. */
  function Levels(f: seq<Subtree>): seq<int>
    requires AllNodes(f)
    decreases ForestSize(f)
  {
    if f == [] then [] else Roots(f) + Levels(Children(f))
  }

  /** What draining a FIFO queue emits when each dequeued node's non-empty
      children are enqueued left then right. The loop never enqueues an
      empty slot; one would be dropped without emitting anything. */
  function Drain(queue: seq<Subtree>): seq<int>
    decreases ForestSize(queue), |queue|
  {
    if queue == [] then []
    else
      KidsShape(queue[0]);
      ForestSizeAppend(queue[1..], Kids(queue[0]));
      (if queue[0].Node? then [queue[0].data] else []) + Drain(queue[1..] + Kids(queue[0]))
  }

  lemma AllNodesAppend(f: seq<Subtree>, g: seq<Subtree>)
    requires AllNodes(f) && AllNodes(g)
    ensures AllNodes(f + g)
  {
    forall i | 0 <= i < |f + g| ensures (f + g)[i].Node? {
      if i < |f| { assert (f + g)[i] == f[i]; } else { assert (f + g)[i] == g[i - |f|]; }
    }
  }

  /** One step of the queue loop: the front node is emitted, its non-empty
      children join the back, and the nodes still queued or below them
      shrink by one. */
  lemma DrainStep(queue: seq<Subtree>)
    requires AllNodes(queue) && queue != []
    ensures AllNodes(queue[1..] + Kids(queue[0]))
    ensures Drain(queue) == [queue[0].data] + Drain(queue[1..] + Kids(queue[0]))
    ensures ForestSize(queue[1..] + Kids(queue[0])) < ForestSize(queue)
  {
    assert AllNodes(queue[1..]);
    KidsShape(queue[0]);
    AllNodesAppend(queue[1..], Kids(queue[0]));
    ForestSizeAppend(queue[1..], Kids(queue[0]));
  }

  /** Draining `f` ahead of `g` emits `f`'s roots first, then whatever
      draining `g` followed by `f`'s children emits. */
  lemma {:induction false} DrainFront(f: seq<Subtree>, g: seq<Subtree>)
    requires AllNodes(f)
    ensures Drain(f + g) == Roots(f) + Drain(g + Children(f))
    decreases |f|
  {
    if f == [] {
      assert f + g == g && g + Children(f) == g;
    } else {
      DrainFrontHead(f, g);
      LevelCons(f);
      DrainFront(f[1..], g + Kids(f[0]));
      ChildrenBehind(f, g);
      Associative([f[0].data], Roots(f[1..]), Drain(g + Children(f)));
    }
  }

  /** `Associative` and `SplitFront` are sequence identities Dafny already
      knows; proofs call them to name the step instead of searching for it. */
  lemma Associative<T>(a: seq<T>, b: seq<T>, c: seq<T>)
    ensures a + (b + c) == (a + b) + c
  {
  }

  lemma SplitFront<T>(f: seq<T>, g: seq<T>)
    requires f != []
    ensures (f + g)[0] == f[0] && (f + g)[1..] == f[1..] + g
  {
  }

  /** Two levels side by side: their roots, and their children, come out
      side by side. */
  lemma {:induction false} LevelAppend(f: seq<Subtree>, g: seq<Subtree>)
    requires AllNodes(f) && AllNodes(g)
    ensures AllNodes(f + g)
    ensures Roots(f + g) == Roots(f) + Roots(g)
    ensures Children(f + g) == Children(f) + Children(g)
    decreases |f|
  {
    AllNodesAppend(f, g);
    if f == [] {
      assert f + g == g;
    } else {
      SplitFront(f, g);
      LevelCons(f + g);
      LevelCons(f);
      LevelAppend(f[1..], g);
      Associative([f[0].data], Roots(f[1..]), Roots(g));
      Associative(Kids(f[0]), Children(f[1..]), Children(g));
    }
  }

  /** The first step of draining `f` ahead of `g`: the front of `f` is
      emitted and its children queue up behind `g`. */
  lemma DrainFrontHead(f: seq<Subtree>, g: seq<Subtree>)
    requires f != [] && f[0].Node?
    ensures Drain(f + g) == [f[0].data] + Drain(f[1..] + (g + Kids(f[0])))
  {
    QueueAfterFront(f, g);
    assert (f + g)[0] == f[0];
    DrainUnfold(f + g, f[1..] + (g + Kids(f[0])));
  }

  /** Draining a queue with a node at its front emits that node's key and
      goes on with the rest followed by its children. */
  lemma DrainUnfold(queue: seq<Subtree>, next: seq<Subtree>)
    requires queue != [] && queue[0].Node? && next == queue[1..] + Kids(queue[0])
    ensures Drain(queue) == [queue[0].data] + Drain(next)
  {
  }

  lemma QueueAfterFront(f: seq<Subtree>, g: seq<Subtree>)
    requires f != [] && f[0].Node?
    ensures (f + g)[1..] + Kids((f + g)[0]) == f[1..] + (g + Kids(f[0]))
  {
    assert (f + g)[0] == f[0];
    assert (f + g)[1..] == f[1..] + g;
  }

  lemma ChildrenBehind(f: seq<Subtree>, g: seq<Subtree>)
    requires AllNodes(f) && f != []
    ensures AllNodes(f[1..])
    ensures (g + Kids(f[0])) + Children(f[1..]) == g + Children(f)
  {
    LevelCons(f);
  }

  /** A level splits into its first node and the rest. */
  lemma LevelCons(f: seq<Subtree>)
    requires AllNodes(f) && f != []
    ensures AllNodes(f[1..])
    ensures Roots(f) == [f[0].data] + Roots(f[1..])
    ensures Children(f) == Kids(f[0]) + Children(f[1..])
  {
  }

  /** The FIFO queue visits the tree level by level. */
  lemma {:induction false} DrainIsLevels(f: seq<Subtree>)
    requires AllNodes(f)
    ensures Drain(f) == Levels(f)
    decreases ForestSize(f)
  {
    if f != [] {
      DrainFront(f, []);
      assert f + [] == f && [] + Children(f) == Children(f);
      DrainIsLevels(Children(f));
    }
  }

  /** All keys of a forest, counted with multiplicity. */
  ghost function ForestKeys(f: seq<Subtree>): multiset<int> {
    if f == [] then multiset{} else multiset(InorderKeys(f[0])) + ForestKeys(f[1..])
  }

  lemma {:induction false} ForestKeysAppend(f: seq<Subtree>, g: seq<Subtree>)
    ensures ForestKeys(f + g) == ForestKeys(f) + ForestKeys(g)
  {
    if f == [] {
      assert f + g == g;
    } else {
      assert (f + g)[0] == f[0];
      assert (f + g)[1..] == f[1..] + g;
      ForestKeysAppend(f[1..], g);
    }
  }

  lemma ForestKeysSingle(t: Subtree)
    ensures ForestKeys([t]) == multiset(InorderKeys(t))
  {
    assert [t][1..] == [];
  }

  lemma KidsKeys(t: Subtree)
    requires t.Node?
    ensures ForestKeys(Kids(t)) == multiset(InorderKeys(t.left)) + multiset(InorderKeys(t.right))
  {
    var l := if t.left.Node? then [t.left] else [];
    var r := if t.right.Node? then [t.right] else [];
    assert Kids(t) == l + r;
    ForestKeysAppend(l, r);
    ForestKeysSingle(t.left);
    ForestKeysSingle(t.right);
  }

  lemma {:induction false} RootsAndChildren(f: seq<Subtree>)
    requires AllNodes(f)
    ensures multiset(Roots(f)) + ForestKeys(Children(f)) == ForestKeys(f)
  {
    if f != [] {
      var t := f[0];
      RootsAndChildren(f[1..]);
      ForestKeysAppend(Kids(t), Children(f[1..]));
      KidsKeys(t);
      assert Children(f) == Kids(t) + Children(f[1..]);
      assert Roots(f) == [t.data] + Roots(f[1..]);
      assert multiset(InorderKeys(t)) ==
        multiset(InorderKeys(t.left)) + multiset{t.data} + multiset(InorderKeys(t.right));
    }
  }

  /** Level order lists the keys of a forest, each as often as the forest
      holds it. */
  lemma {:induction false} LevelsArePermutation(f: seq<Subtree>)
    requires AllNodes(f)
    ensures multiset(Levels(f)) == ForestKeys(f)
    decreases ForestSize(f)
  {
    if f != [] {
      LevelsArePermutation(Children(f));
      RootsAndChildren(f);
    }
  }

  /** Level order of a tree: the in-order keys rearranged, one entry per node,
      starting with the root. */
  lemma LevelOrderContents(t: Subtree)
    requires t.Node?
    ensures multiset(Levels([t])) == multiset(InorderKeys(t))
    ensures |Levels([t])| == Size(t)
    ensures Levels([t])[0] == t.data
  {
    LevelsArePermutation([t]);
    ForestKeysSingle(t);
    InorderContents(t);
    assert |multiset(Levels([t]))| == |multiset(InorderKeys(t))|;
    assert Roots([t]) == [t.data];
  }
}
