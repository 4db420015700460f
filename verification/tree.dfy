/** The Ruby `Tree` class: it owns the root and changes it in place through
    `insert`, `delete` and `rebalance`. */
module BinarySearchTree {
  import opened Options
  import opened Nodes
  import opened Sorting
  import opened Traversals
  import opened Shape
  import opened Edits
  import opened Queues

  class Tree {
    var root: Subtree

    /** The tree invariant: BST ordering, hence unique keys. */
    ghost predicate Valid()
      reads this
    {
      IsBst(root)
    }

    /** `Tree.new(array)`: deduplicate and sort, then `build_tree`. */
    constructor (input: seq<int>)
      ensures Valid()
      ensures root == BuildTree(SortAndRemoveDuplicates(input))
      ensures InorderKeys(root) == SortAndRemoveDuplicates(input)
      ensures forall k :: k in Keys(root) <==> k in input
      ensures Balanced(root)
    {
      var keys := SortAndRemoveDuplicates(input);
      root := BuildTree(keys);
      BuildTreeIsBst(keys);
      BuildTreeBalanced(keys);
    }

    /** `insert(value)`: an empty tree gets the key as its root; otherwise the
        loop walks down, writes a new leaf into the first empty slot it needs
        and moves onto it, and stops at the node holding the key. */
    method Insert(value: int)
      requires Valid()
      modifies this
      ensures Valid()
      ensures root == Inserted(old(root), value)
      ensures Keys(root) == old(Keys(root)) + {value}
      ensures value in old(Keys(root)) ==> root == old(root)
      ensures old(root).Nil? ==> root == Leaf(value)
    {
      if root.Nil? {
        root := Leaf(value);
        return;
      }
      var current := root;
      var path: seq<Frame> := [];
      while current.data != value
        invariant current.Node?
        invariant root == Plug(path, current)
        invariant Plug(path, Inserted(current, value)) == Inserted(old(root), value)
        decreases if current.data == value then 0 else Size(current) + 1
      {
        if value < current.data {
          if current.left.Nil? {
            current := Node(Leaf(value), current.data, current.right);
            root := Plug(path, current);
          }
          path := [Frame(Left, current.data, current.right)] + path;
          current := current.left;
        } else {
          if current.right.Nil? {
            current := Node(current.left, current.data, Leaf(value));
            root := Plug(path, current);
          }
          path := [Frame(Right, current.data, current.left)] + path;
          current := current.right;
        }
      }
    }

    /** `delete(value)`: `delete(value, @root)` with the new root stored. */
    method Delete(value: int) returns (result: DeleteResult)
      requires Valid()
      modifies this
      ensures Valid()
      ensures result.Absent? <==> value !in old(Keys(root))
      ensures result.NilParentError? <==>
        old(root).Node? && old(root).data == value && (old(root).left.Nil? != old(root).right.Nil?)
      ensures result.Deleted? ==>
        result.key == value && root == Removed(old(root), value) &&
        Keys(root) == old(Keys(root)) - {value}
      ensures !result.Deleted? ==> root == old(root)
    {
      var after;
      result, after := DeleteFrom(root, value);
      root := after;
    }

    /** `find(value)`: the node holding `value`, or `nil`. */
    method Find(value: int) returns (node: Subtree)
      requires Valid()
      ensures node.Node? <==> value in Keys(root)
      ensures node.Node? ==> node.data == value && IsSubtree(node, root)
      ensures node == Search(root, value)
    {
      node := root;
      while node.Node? && node.data != value
        invariant Search(node, value) == Search(root, value)
        decreases Size(node)
      {
        if value < node.data {
          node := node.left;
        } else {
          node := node.right;
        }
      }
    }

    /** `level_order`: `nil` for an empty tree; otherwise the keys emitted
        while a queue seeded with the root is drained, each dequeued node's
        non-empty children being enqueued left then right. */
    method LevelOrder() returns (elements: Option<seq<int>>)
      ensures root.Nil? ==> elements == None
      ensures root.Node? ==> elements == Some(Levels([root]))
    {
      if root.Nil? {
        return None;
      }
      var queue := new Queue([root]);
      var out: seq<int> := [];
      var empty := queue.IsEmpty();
      while !empty
        invariant AllNodes(queue.queue)
        invariant out + Drain(queue.queue) == Drain([root])
        invariant empty <==> queue.queue == []
        decreases ForestSize(queue.queue)
      {
        ghost var before := queue.queue;
        var front := queue.Dequeue();
        var current := front.value;
        ghost var rest := queue.queue;
        Associative(out, [current.data], Drain(before[1..] + Kids(current)));
        out := out + [current.data];
        if current.left.Node? {
          queue.Enqueue(current.left);
        }
        ghost var withLeft := queue.queue;
        if current.right.Node? {
          queue.Enqueue(current.right);
        }
        EnqueuedKids(rest, current, withLeft, queue.queue);
        DrainStep(before);
        empty := queue.IsEmpty();
      }
      assert out == Drain([root]);
      DrainIsLevels([root]);
      elements := Some(out);
    }

    /** `inorder`: `nil` for an empty tree, else the keys in in-order. */
    function Inorder(): (r: Option<seq<int>>)
      reads this
      ensures r.None? <==> root.Nil?
      ensures r.Some? ==> r.value == InorderKeys(root)
    {
      if root.Nil? then None else Some(InorderWalk(root, []))
    }

    /** `preorder`: `nil` for an empty tree, else the keys in pre-order. */
    function Preorder(): (r: Option<seq<int>>)
      reads this
      ensures r.None? <==> root.Nil?
      ensures r.Some? ==> r.value == PreorderKeys(root)
    {
      if root.Nil? then None else Some(PreorderWalk(root, []))
    }

    /** `postorder`: `nil` for an empty tree, else the keys in post-order. */
    function Postorder(): (r: Option<seq<int>>)
      reads this
      ensures r.None? <==> root.Nil?
      ensures r.Some? ==> r.value == PostorderKeys(root)
    {
      if root.Nil? then None else Some(PostorderWalk(root, []))
    }

    /** `depth(node)`: the height of the tree minus the height of `node`;
        zero at the root and never negative for a node of the tree. */
    function Depth(node: Subtree): (d: int)
      reads this
      ensures node == root ==> d == 0
      ensures IsSubtree(node, root) ==> 0 <= d <= Height(root)
    {
      SubtreeHeight(node, root);
      Height(root) - Height(node)
    }

    /** A node `|path|` edges below the root has a depth of at least
        `|path|`. */
    lemma DepthAlongPath(path: seq<Frame>, node: Subtree)
      requires node.Node? && root == Plug(path, node)
      ensures Depth(node) >= |path|
    {
      HeightAlongPath(path, node);
    }

    /** `rebalance`: rebuild from the in-order keys. On an empty tree
        `inorder` gives `nil` and `build_tree(nil)` raises; that outcome is
        `false` here, with the tree unchanged. */
    method Rebalance() returns (ok: bool)
      requires Valid()
      modifies this
      ensures Valid()
      ensures ok <==> old(root).Node?
      ensures !ok ==> root == old(root)
      ensures ok ==> root == BuildTree(InorderKeys(old(root)))
      ensures InorderKeys(root) == InorderKeys(old(root))
      ensures Keys(root) == old(Keys(root))
      ensures ok ==> Balanced(root)
    {
      var keys := Inorder();
      if keys.None? {
        return false;
      }
      Rebuilt(root);
      root := BuildTree(keys.value);
      ok := true;
    }
  }
}
