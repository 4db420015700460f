/** Height, balance and the balanced construction `build_tree`. */
module Shape {
  import opened Nodes
  import opened Sorting
  import opened Traversals

  function Max(a: int, b: int): int {
    if a < b then b else a
  }

  function Abs(x: int): nat {
    if x < 0 then -x else x
  }

  /** `height(root)`: 0 for an empty slot AND for a leaf, otherwise one more
      than the taller child. So it counts the edges of the longest downward
      path, with an empty tree also at 0. */
  function Height(t: Subtree): (h: nat)
    ensures h == 0 <==> Size(t) <= 1
    ensures t.Node? ==> h < Size(t)
  {
    match t
    case Nil => 0
    case Node(l, _, r) =>
      if l.Nil? && r.Nil? then 0 else Max(Height(l), Height(r)) + 1
  }

  /** `balanced?(root)`: at every node the two children's heights differ by
      at most one. */
  predicate Balanced(t: Subtree) {
    match t
    case Nil => true
    case Node(l, _, r) => Balanced(l) && Balanced(r) && Abs(Height(l) - Height(r)) <= 1
  }

  /** Every node of `t` has children whose heights differ by at most one. */
  ghost predicate NodesBalanced(t: Subtree) {
    forall s :: IsSubtree(s, t) && s.Node? ==> Abs(Height(s.left) - Height(s.right)) <= 1
  }

  /** `Balanced` holds exactly when every node's two children differ in
      height by at most one, stated over all nodes of the tree at once. */
  lemma {:induction false} BalancedAtEveryNode(t: Subtree)
    ensures Balanced(t) <==> NodesBalanced(t)
  {
    if t.Node? {
      BalancedAtEveryNode(t.left);
      BalancedAtEveryNode(t.right);
      if NodesBalanced(t) {
        forall s | IsSubtree(s, t.left) && s.Node?
          ensures Abs(Height(s.left) - Height(s.right)) <= 1
        {
          assert IsSubtree(s, t);
        }
        forall s | IsSubtree(s, t.right) && s.Node?
          ensures Abs(Height(s.left) - Height(s.right)) <= 1
        {
          assert IsSubtree(s, t);
        }
        assert IsSubtree(t, t);
      }
    }
  }

  /** A subtree is never taller than the tree it hangs in. */
  lemma {:induction false} SubtreeHeight(s: Subtree, t: Subtree)
    ensures IsSubtree(s, t) ==> Height(s) <= Height(t)
  {
    if IsSubtree(s, t) && s != t {
      SubtreeHeight(s, t.left);
      SubtreeHeight(s, t.right);
    }
  }

  /** The height of a path's bottom node plus the path's length is at most
      the height of the whole tree. */
  lemma {:induction false} HeightAlongPath(path: seq<Frame>, s: Subtree)
    requires s.Node?
    ensures Height(Plug(path, s)) >= |path| + Height(s)
    decreases |path|
  {
    if path != [] {
      var p := Fill(path[0], s);
      assert Height(p) >= 1 + Height(s);
      HeightAlongPath(path[1..], p);
    }
  }

  /** The height `build_tree` reaches on `n` keys: the middle key goes to the
      root, `(n - 1) / 2` keys to the left and `n / 2` to the right. */
  function BuiltHeight(n: nat): nat {
    if n <= 1 then 0 else Max(BuiltHeight((n - 1) / 2), BuiltHeight(n / 2)) + 1
  }

  /** One more key raises the built height by at most one. */
  lemma {:induction false} BuiltHeightStep(n: nat)
    ensures BuiltHeight(n) <= BuiltHeight(n + 1) <= BuiltHeight(n) + 1
  {
    if n >= 2 {
      var half := n / 2;
      assert n == 2 * half || n == 2 * half + 1;
      if n == 2 * half {
        assert (n - 1) / 2 == half - 1 && (n + 1 - 1) / 2 == half && (n + 1) / 2 == half;
        BuiltHeightStep(half - 1);
      } else {
        assert (n - 1) / 2 == half && (n + 1 - 1) / 2 == half && (n + 1) / 2 == half + 1;
        BuiltHeightStep(half);
      }
    } else {
      assert BuiltHeight(2) == 1;
    }
  }

  /** `build_tree(array)`: the key at index `(len - 1) / 2` becomes the root,
      the keys before it the left subtree and the keys after it the right.
      The in-order listing of the result is the input, and the result is
      balanced. */
  function BuildTree(input: seq<int>): (r: Subtree)
    ensures InorderKeys(r) == input
    decreases |input|
  {
    if |input| <= 0 then Nil
    else
      var mid := (|input| - 1) / 2;
      assert input == input[..mid] + [input[mid]] + input[mid + 1..];
      Node(BuildTree(input[..mid]), input[mid], BuildTree(input[mid + 1..]))
  }

  /** Joining two built halves of `(n - 1) / 2` and `n / 2` keys under a new
      root gives the built height of `n` keys. */
  lemma JoinedHeight(n: nat, l: Subtree, x: int, r: Subtree)
    requires n > 0
    requires Height(l) == BuiltHeight((n - 1) / 2)
    requires Height(r) == BuiltHeight(n / 2)
    requires l.Nil? <==> (n - 1) / 2 == 0
    requires r.Nil? <==> n / 2 == 0
    ensures Height(Node(l, x, r)) == BuiltHeight(n)
  {
  }

  /** Joining two built halves under a new root keeps the balance. */
  lemma JoinedBalanced(n: nat, l: Subtree, x: int, r: Subtree)
    requires n > 0
    requires Height(l) == BuiltHeight((n - 1) / 2) && Balanced(l)
    requires Height(r) == BuiltHeight(n / 2) && Balanced(r)
    ensures Balanced(Node(l, x, r))
  {
    HalfSplit(n);
    HalvesClose((n - 1) / 2, n / 2);
  }

  /** `build_tree` gives the right half as many keys as the left or one more. */
  lemma HalfSplit(n: nat)
    requires n > 0
    ensures n / 2 == (n - 1) / 2 || n / 2 == (n - 1) / 2 + 1
  {
  }

  lemma BuildTreeEmpty(input: seq<int>)
    ensures BuildTree(input).Nil? <==> |input| == 0
  {
  }

  /** Taking out the middle key of `n` leaves `(n - 1) / 2` keys before it
      and `n / 2` after it. */
  lemma MiddleSplit(n: nat)
    requires n > 0
    ensures n - (n - 1) / 2 - 1 == n / 2
  {
  }

  /** Key counts that differ by at most one give built heights that differ by
      at most one. */
  lemma HalvesClose(below: nat, above: nat)
    requires above == below || above == below + 1
    ensures Abs(BuiltHeight(below) - BuiltHeight(above)) <= 1
  {
    BuiltHeightStep(below);
  }

  /** `build_tree` reaches the height `BuiltHeight` of its key count and is
      balanced. */
  lemma {:induction false} BuildTreeBalanced(input: seq<int>)
    ensures Height(BuildTree(input)) == BuiltHeight(|input|)
    ensures Balanced(BuildTree(input))
    decreases |input|
  {
    if |input| > 0 {
      var n, mid := |input|, (|input| - 1) / 2;
      var below, above := input[..mid], input[mid + 1..];
      BuildTreeBalanced(below);
      BuildTreeBalanced(above);
      var l, r := BuildTree(below), BuildTree(above);
      assert BuildTree(input) == Node(l, input[mid], r);
      MiddleSplit(n);
      assert |below| == (n - 1) / 2 && |above| == n / 2;
      BuildTreeEmpty(below);
      BuildTreeEmpty(above);
      JoinedHeight(n, l, input[mid], r);
      JoinedBalanced(n, l, input[mid], r);
    }
  }

  /** On a strictly ascending input `build_tree` yields a BST. */
  lemma BuildTreeIsBst(input: seq<int>)
    requires StrictlySorted(input)
    ensures IsBst(BuildTree(input))
    ensures forall k :: k in Keys(BuildTree(input)) <==> k in input
  {
    BstIffInorderSorted(BuildTree(input));
    InorderContents(BuildTree(input));
  }

  /** `rebalance` on a BST: rebuilding from the in-order keys gives a balanced
      BST with the same in-order listing, hence the same keys. */
  lemma Rebuilt(t: Subtree)
    requires IsBst(t)
    ensures IsBst(BuildTree(InorderKeys(t)))
    ensures InorderKeys(BuildTree(InorderKeys(t))) == InorderKeys(t)
    ensures Keys(BuildTree(InorderKeys(t))) == Keys(t)
    ensures Balanced(BuildTree(InorderKeys(t)))
  {
    var keys := InorderKeys(t);
    var rebuilt := BuildTree(keys);
    assert StrictlySorted(keys) by { BstIffInorderSorted(t); }
    BuildTreeIsBst(keys);
    BuildTreeBalanced(keys);
    assert Keys(rebuilt) == Keys(t) by {
      InorderContents(t);
      forall k ensures k in Keys(rebuilt) <==> k in Keys(t) {
        assert k in Keys(rebuilt) <==> k in keys;
      }
    }
  }
}
