/** The concrete trees the repository's own spec file checks
    (spec/binary_search_tree_spec.rb), stated against the model, and the
    two behaviours of `height` and `depth` that differ from the textbook
    definitions. */
module Scenarios {
  import opened Options
  import opened Nodes
  import opened Sorting
  import opened Traversals
  import opened Shape
  import opened Edits
  import opened BinarySearchTree

  /** The construction input used throughout the spec file. */
  const Input: seq<int> := [1, 7, 4, 23, 8, 9, 4, 3, 5, 7, 9, 67, 6345, 324]

  /** Its distinct keys in ascending order. */
  const Sorted: seq<int> := [1, 3, 4, 5, 7, 8, 9, 23, 67, 324, 6345]

  /** The tree drawn at the head of the spec file:
              8
           /     \
          4       67
         / \     /  \
        1   5   9   324
         \   \   \     \
          3   7  23   6345                                      */
  function Expected(): Subtree {
    Node(Node(Node(Nil, 1, Leaf(3)), 4, Node(Nil, 5, Leaf(7))),
         8,
         Node(Node(Nil, 9, Leaf(23)), 67, Node(Nil, 324, Leaf(6345))))
  }

  lemma DeduplicatedInput()
    ensures SortAndRemoveDuplicates(Input) == Sorted
  {
    assert StrictlySorted(Sorted);
    SortedDistinctOf(Input, Sorted);
  }

  lemma BuildOne(s: seq<int>)
    requires |s| == 1
    ensures BuildTree(s) == Leaf(s[0])
  {
    assert s[..0] == [] && s[1..] == [];
  }

  lemma BuildTwo(s: seq<int>)
    requires |s| == 2
    ensures BuildTree(s) == Node(Nil, s[0], Leaf(s[1]))
  {
    assert s[..0] == [];
    BuildOne(s[1..]);
  }

  lemma BuildFive(s: seq<int>)
    requires |s| == 5
    ensures BuildTree(s) == Node(Node(Nil, s[0], Leaf(s[1])), s[2], Node(Nil, s[3], Leaf(s[4])))
  {
    BuildTwo(s[..2]);
    BuildTwo(s[3..]);
  }

  lemma BuiltExpected()
    ensures BuildTree(Sorted) == Expected()
  {
    assert Sorted[..5] == [1, 3, 4, 5, 7] && Sorted[6..] == [9, 23, 67, 324, 6345];
    BuildFive([1, 3, 4, 5, 7]);
    BuildFive([9, 23, 67, 324, 6345]);
  }

  lemma ExpectedInorder(t: Subtree)
    requires t == Expected()
    ensures InorderKeys(t) == Sorted
  {
  }

  lemma ExpectedPreorder(t: Subtree)
    requires t == Expected()
    ensures PreorderKeys(t) == [8, 4, 1, 3, 5, 7, 67, 9, 23, 324, 6345]
  {
  }

  lemma ExpectedPostorder(t: Subtree)
    requires t == Expected()
    ensures PostorderKeys(t) == [3, 1, 7, 5, 4, 23, 9, 6345, 324, 67, 8]
  {
  }

  /** Sequence identities Dafny already knows; stated as lemmas so the
      proofs below can name them instead of searching for them. */
  lemma Pair<T>(a: T, b: T)
    ensures [a, b] == [a] + [b]
  {
  }

  lemma Quad<T>(a: T, b: T, c: T, d: T)
    ensures [a, b, c, d] == [a, b] + [c, d]
  {
  }

  lemma PairStep(a: Subtree, b: Subtree)
    requires a.Node? && b.Node?
    ensures AllNodes([a, b])
    ensures Roots([a, b]) == [a.data, b.data]
    ensures Children([a, b]) == Kids(a) + Kids(b)
  {
    RootsSingle(a);
    RootsSingle(b);
    LevelAppend([a], [b]);
    Pair(a, b);
    Pair(a.data, b.data);
  }

  lemma QuadStep(a: Subtree, b: Subtree, c: Subtree, d: Subtree)
    requires a.Node? && b.Node? && c.Node? && d.Node?
    ensures AllNodes([a, b, c, d])
    ensures Roots([a, b, c, d]) == [a.data, b.data, c.data, d.data]
    ensures Children([a, b, c, d]) == Kids(a) + Kids(b) + (Kids(c) + Kids(d))
  {
    PairStep(a, b);
    PairStep(c, d);
    LevelAppend([a, b], [c, d]);
    Quad(a, b, c, d);
    Quad(a.data, b.data, c.data, d.data);
  }

  /** One level of a non-empty forest: its roots, then the levels below. */
  lemma LevelsStep(f: seq<Subtree>)
    requires AllNodes(f) && f != []
    ensures Levels(f) == Roots(f) + Levels(Children(f))
  {
  }

  lemma KidsOfLeaf(t: Subtree)
    requires t.Node? && t.left.Nil? && t.right.Nil?
    ensures Kids(t) == [] && t == Leaf(t.data)
  {
  }

  lemma KidsOfRightOnly(t: Subtree)
    requires t.Node? && t.left.Nil? && t.right.Node?
    ensures Kids(t) == [t.right]
  {
  }

  lemma KidsOfBoth(t: Subtree)
    requires t.Node? && t.left.Node? && t.right.Node?
    ensures Kids(t) == [t.left, t.right]
  {
  }

  /** The last level: four leaves. */
  lemma LeafLevel(a: int, b: int, c: int, d: int)
    ensures Levels([Leaf(a), Leaf(b), Leaf(c), Leaf(d)]) == [a, b, c, d]
  {
    QuadStep(Leaf(a), Leaf(b), Leaf(c), Leaf(d));
    KidsOfLeaf(Leaf(a));
    KidsOfLeaf(Leaf(b));
    KidsOfLeaf(Leaf(c));
    KidsOfLeaf(Leaf(d));
    LevelsStep([Leaf(a), Leaf(b), Leaf(c), Leaf(d)]);
  }

  /** Four nodes whose only child is a right leaf. */
  lemma ParentLevel(a: Subtree, b: Subtree, c: Subtree, d: Subtree)
    requires a.Node? && a.left.Nil? && a.right.Node? && a.right.left.Nil? && a.right.right.Nil?
    requires b.Node? && b.left.Nil? && b.right.Node? && b.right.left.Nil? && b.right.right.Nil?
    requires c.Node? && c.left.Nil? && c.right.Node? && c.right.left.Nil? && c.right.right.Nil?
    requires d.Node? && d.left.Nil? && d.right.Node? && d.right.left.Nil? && d.right.right.Nil?
    ensures Levels([a, b, c, d]) ==
      [a.data, b.data, c.data, d.data] + [a.right.data, b.right.data, c.right.data, d.right.data]
  {
    QuadStep(a, b, c, d);
    KidsOfRightOnly(a);
    KidsOfRightOnly(b);
    KidsOfRightOnly(c);
    KidsOfRightOnly(d);
    Pair(a.right, b.right);
    Pair(c.right, d.right);
    Quad(a.right, b.right, c.right, d.right);
    LevelsStep([a, b, c, d]);
    KidsOfLeaf(a.right);
    KidsOfLeaf(b.right);
    KidsOfLeaf(c.right);
    KidsOfLeaf(d.right);
    LeafLevel(a.right.data, b.right.data, c.right.data, d.right.data);
  }

  /** The first level: the root alone. */
  lemma RootLevel(t: Subtree)
    requires t.Node? && t.left.Node? && t.right.Node?
    ensures Levels([t]) == [t.data] + Levels([t.left, t.right])
  {
    RootsSingle(t);
    KidsOfBoth(t);
    LevelsStep([t]);
  }

  /** The second level: two nodes with two children each. */
  lemma PairLevel(a: Subtree, b: Subtree)
    requires a.Node? && a.left.Node? && a.right.Node?
    requires b.Node? && b.left.Node? && b.right.Node?
    ensures Levels([a, b]) == [a.data, b.data] + Levels([a.left, a.right, b.left, b.right])
  {
    PairStep(a, b);
    KidsOfBoth(a);
    KidsOfBoth(b);
    Quad(a.left, a.right, b.left, b.right);
    LevelsStep([a, b]);
  }

  /** The first two levels of a tree whose root has two children with two
      children each. */
  lemma TopLevels(t: Subtree)
    requires t.Node? && t.left.Node? && t.right.Node?
    requires t.left.left.Node? && t.left.right.Node? && t.right.left.Node? && t.right.right.Node?
    ensures Levels([t]) == [t.data] + ([t.left.data, t.right.data] +
      Levels([t.left.left, t.left.right, t.right.left, t.right.right]))
  {
    PairLevel(t.left, t.right);
    RootLevel(t);
  }

  lemma ExpectedTopLevels(t: Subtree)
    requires t == Expected()
    ensures Levels([t]) == [8] + ([4, 67] + Levels([t.left.left, t.left.right, t.right.left, t.right.right]))
  {
    TopLevels(t);
  }

  lemma ExpectedLowerLevels(t: Subtree)
    requires t == Expected()
    ensures Levels([t.left.left, t.left.right, t.right.left, t.right.right]) == [1, 5, 9, 324] + [3, 7, 23, 6345]
  {
    ParentLevel(t.left.left, t.left.right, t.right.left, t.right.right);
  }

  lemma ExpectedLevelOrder(t: Subtree)
    requires t == Expected()
    ensures Levels([t]) == [8, 4, 67, 1, 5, 9, 324, 3, 7, 23, 6345]
  {
    ExpectedTopLevels(t);
    ExpectedLowerLevels(t);
    Assemble(8, 4, 67, [1, 5, 9, 324], [3, 7, 23, 6345]);
  }

  /** A sequence identity Dafny already knows, named to keep the proof above
      cheap. */
  lemma Assemble(a: int, b: int, c: int, p: seq<int>, q: seq<int>)
    requires |p| == 4 && |q| == 4
    ensures [a] + ([b, c] + (p + q)) == [a, b, c, p[0], p[1], p[2], p[3], q[0], q[1], q[2], q[3]]
  {
  }

  lemma RootsSingle(t: Subtree)
    requires t.Node?
    ensures AllNodes([t]) && Roots([t]) == [t.data] && Children([t]) == Kids(t)
  {
    assert [t][1..] == [];
  }

  lemma ExpectedHeights(t: Subtree)
    requires t == Expected()
    ensures Height(t) == 3
    ensures Height(Search(t, 4)) == 2
    ensures Height(t) - Height(Search(t, 4)) == 1
    ensures Height(t) - Height(Search(t, 3)) == 3
    ensures Balanced(t)
  {
    ExpectedHeight(t);
    ExpectedBalanced(t);
  }

  lemma ExpectedHeight(t: Subtree)
    requires t == Expected()
    ensures Height(t) == 3 && Height(t.left) == 2 && Height(t.left.left.right) == 0
  {
  }

  lemma ExpectedBalanced(t: Subtree)
    requires t == Expected()
    ensures Balanced(t)
  {
  }

  lemma ExpectedFind()
    ensures Search(Expected(), 8) == Expected()
    ensures Search(Expected(), 324).data == 324
    ensures Search(Expected(), 11) == Nil
  {
  }

  lemma ExpectedInserts(t: Subtree)
    requires t == Expected()
    ensures Inserted(t, 8) == t
    ensures Inserted(t, 50) ==
      Node(t.left, 8, Node(Node(Nil, 9, Node(Nil, 23, Leaf(50))), 67, t.right.right))
    ensures Inserted(t, 206) ==
      Node(t.left, 8, Node(t.right.left, 67, Node(Leaf(206), 324, Leaf(6345))))
    ensures Inserted(Nil, 10) == Leaf(10)
  {
    InsertedFifty(t);
    InsertedTwoHundredSix(t);
  }

  lemma InsertedFifty(t: Subtree)
    requires t == Expected()
    ensures Inserted(t, 50) == Node(t.left, 8, Node(Node(Nil, 9, Node(Nil, 23, Leaf(50))), 67, t.right.right))
  {
  }

  lemma InsertedTwoHundredSix(t: Subtree)
    requires t == Expected()
    ensures Inserted(t, 206) == Node(t.left, 8, Node(t.right.left, 67, Node(Leaf(206), 324, Leaf(6345))))
  {
  }

  /** Deleting a leaf, a node with one child (left and right half of the
      tree), a node with two children, the root, the only node, and a
      missing key. */
  lemma ExpectedDeletes(t: Subtree)
    requires t == Expected()
    ensures Removed(t, 23) == Node(t.left, 8, Node(Leaf(9), 67, t.right.right))
    ensures Removed(t, 1) == Node(Node(Leaf(3), 4, t.left.right), 8, t.right)
    ensures Removed(t, 67) == Node(t.left, 8, Node(t.right.left, 324, Leaf(6345)))
    ensures Removed(t, 4) == Node(Node(t.left.left, 5, Leaf(7)), 8, t.right)
    ensures Removed(t, 8) == Node(t.left, 9, Node(Leaf(23), 67, t.right.right))
    ensures Removed(Leaf(8), 8) == Nil
    ensures Removed(t, 2) == t
  {
    DeleteLeafOfExpected(t);
    DeleteOneChildOfExpected(t);
    DeleteTwoChildrenOfExpected(t);
    DeleteRootOfExpected(t);
    DeleteMissingOfExpected(t);
  }

  lemma DeleteLeafOfExpected(t: Subtree)
    requires t == Expected()
    ensures Removed(t, 23) == Node(t.left, 8, Node(Leaf(9), 67, t.right.right))
  {
  }

  lemma DeleteOneChildOfExpected(t: Subtree)
    requires t == Expected()
    ensures Removed(t, 1) == Node(Node(Leaf(3), 4, t.left.right), 8, t.right)
  {
  }

  lemma DeleteTwoChildrenOfExpected(t: Subtree)
    requires t == Expected()
    ensures Removed(t, 67) == Node(t.left, 8, Node(t.right.left, 324, Leaf(6345)))
    ensures Removed(t, 4) == Node(Node(t.left.left, 5, Leaf(7)), 8, t.right)
  {
  }

  lemma DeleteRootOfExpected(t: Subtree)
    requires t == Expected()
    ensures Removed(t, 8) == Node(t.left, 9, Node(Leaf(23), 67, t.right.right))
  {
  }

  lemma DeleteMissingOfExpected(t: Subtree)
    requires t == Expected()
    ensures Removed(t, 2) == t
  {
  }

  /** The tree of the spec file after inserting 10009 and then 10010: the
      new keys hang as a chain below 6345. */
  lemma GrownShape(t: Subtree)
    requires t == Expected()
    ensures Inserted(Inserted(t, 10009), 10010) ==
      Node(t.left, 8, Node(t.right.left, 67, Node(Nil, 324, Node(Nil, 6345, Node(Nil, 10009, Leaf(10010))))))
  {
    GrowOnce(t);
    GrowTwice(t, Inserted(t, 10009));
  }

  lemma GrowOnce(t: Subtree)
    requires t == Expected()
    ensures Inserted(t, 10009) == Node(t.left, 8, Node(t.right.left, 67, Node(Nil, 324, Node(Nil, 6345, Leaf(10009)))))
  {
  }

  lemma GrowTwice(t: Subtree, once: Subtree)
    requires t == Expected()
    requires once == Node(t.left, 8, Node(t.right.left, 67, Node(Nil, 324, Node(Nil, 6345, Leaf(10009)))))
    ensures Inserted(once, 10010) ==
      Node(t.left, 8, Node(t.right.left, 67, Node(Nil, 324, Node(Nil, 6345, Node(Nil, 10009, Leaf(10010))))))
  {
  }

  /** In that tree the node 324 has an empty left slot and a right chain of
      height 2, so the tree is no longer balanced; its height is 5, so
      `depth` of the leaf 3 is 5 although the leaf is three edges below the
      root. */
  lemma GrownUnbalanced(t: Subtree)
    requires t == Expected()
    ensures !Balanced(Inserted(Inserted(t, 10009), 10010))
    ensures Height(Inserted(Inserted(t, 10009), 10010)) == 5
    ensures Height(Inserted(Inserted(t, 10009), 10010)) - Height(Search(Inserted(Inserted(t, 10009), 10010), 3)) == 5
  {
    GrownShape(t);
    var g := Inserted(Inserted(t, 10009), 10010);
    ExpectedHeight(t);
    RightChain(324, 6345, 10009, 10010);
    GrownHeight(t, g);
    GrownSearch(t, g);
  }

  /** A node whose only child is a right chain of three. */
  lemma RightChain(a: int, b: int, c: int, d: int)
    ensures Height(Node(Nil, a, Node(Nil, b, Node(Nil, c, Leaf(d))))) == 3
    ensures !Balanced(Node(Nil, a, Node(Nil, b, Node(Nil, c, Leaf(d)))))
  {
    var below := Node(Nil, c, Leaf(d));
    assert Height(below) == 1;
    assert Height(Node(Nil, b, below)) == 2;
  }

  lemma GrownHeight(t: Subtree, g: Subtree)
    requires t == Expected() && Height(t.left) == 2
    requires g == Node(t.left, 8, Node(t.right.left, 67, Node(Nil, 324, Node(Nil, 6345, Node(Nil, 10009, Leaf(10010))))))
    requires Height(g.right.right) == 3
    ensures Height(g) == 5
  {
    assert Height(t.right.left) == 1;
  }

  lemma GrownSearch(t: Subtree, g: Subtree)
    requires t == Expected()
    requires g == Node(t.left, 8, Node(t.right.left, 67, Node(Nil, 324, Node(Nil, 6345, Node(Nil, 10009, Leaf(10010))))))
    ensures Search(g, 3) == Leaf(3)
  {
  }

  /** Because a leaf and an empty slot both have height 0, a node whose only
      child is a two-node chain counts as balanced. */
  lemma ChainUnderOneChildIsBalanced()
    ensures Balanced(Node(Nil, 1, Node(Nil, 2, Leaf(3))))
  {
  }

  /** `Tree.new` on the spec file's input builds the expected tree. */
  method BuildExpectedTree() returns (tree: Tree)
    ensures fresh(tree) && tree.root == Expected() && tree.Valid()
  {
    DeduplicatedInput();
    BuiltExpected();
    tree := new Tree(Input);
  }

  /** Traversals through the `Tree` class. */
  method TraversalScenario()
  {
    var tree := BuildExpectedTree();
    var inorder := tree.Inorder();
    var preorder := tree.Preorder();
    var postorder := tree.Postorder();
    ExpectedInorder(tree.root);
    ExpectedPreorder(tree.root);
    ExpectedPostorder(tree.root);
    assert inorder == Some(Sorted);
    assert preorder == Some([8, 4, 1, 3, 5, 7, 67, 9, 23, 324, 6345]);
    assert postorder == Some([3, 1, 7, 5, 4, 23, 9, 6345, 324, 67, 8]);
    var levels := tree.LevelOrder();
    ExpectedLevelOrder(tree.root);
    assert levels == Some([8, 4, 67, 1, 5, 9, 324, 3, 7, 23, 6345]);
  }

  /** Lookups and deletions through the `Tree` class. */
  method DeleteScenario()
  {
    var tree := BuildExpectedTree();
    var found := tree.Find(11);
    assert found == Nil;
    var result := tree.Delete(2);
    assert result == Absent && tree.root == Expected();
    ExpectedDeletes(tree.root);
    result := tree.Delete(8);
    assert result == Deleted(8);
    assert tree.root == Node(Expected().left, 9, Node(Leaf(23), 67, Expected().right.right));
  }

  /** Deleting the only node empties the tree; rebalancing it then fails. */
  method SingletonScenario()
  {
    var single := new Tree([8]);
    BuiltSingle(single.root);
    var result := single.Delete(8);
    assert result == Deleted(8) && single.root == Nil;
    var ok := single.Rebalance();
    assert !ok;
  }

  lemma BuiltSingle(t: Subtree)
    requires t == BuildTree(SortAndRemoveDuplicates([8]))
    ensures t == Leaf(8)
  {
    SortedDistinctOf([8], [8]);
    BuildOne([8]);
  }

  lemma BuiltPair(t: Subtree)
    requires t == BuildTree(SortAndRemoveDuplicates([1, 2]))
    ensures t == Node(Nil, 1, Leaf(2))
  {
    SortedDistinctOf([1, 2], [1, 2]);
    BuildTwo([1, 2]);
  }

  /** Deleting a root with one child raises, leaving the tree as it was. */
  method OneChildRootScenario()
  {
    var tree := new Tree([1, 2]);
    BuiltPair(tree.root);
    var result := tree.Delete(1);
    assert result == NilParentError && tree.root == Node(Nil, 1, Leaf(2));
  }

  /** Two inserts unbalance the tree; `rebalance` restores the balance and
      keeps the keys. */
  method RebalanceScenario()
  {
    var tree := BuildExpectedTree();
    tree.Insert(8);
    assert tree.root == Expected();
    tree.Insert(10009);
    tree.Insert(10010);
    GrownUnbalanced(Expected());
    assert !Balanced(tree.root);
    var ok := tree.Rebalance();
    assert ok && Balanced(tree.root);
    assert 10010 in Keys(tree.root);
  }
}
