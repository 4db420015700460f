# Binary search tree, modelled in Dafny

This project models the Ruby binary search tree in `lib/binary_search_tree.rb`. The tree stores integer keys and is unbalanced on insert. It supports:

- building from an arbitrary array: deduplicate, sort, then split at the middle recursively;
- iterative `insert`, `find` and `delete`; `delete` calls `find_smallest` to take out the in-order successor;
- four traversals (level order, in-order, pre-order, post-order);
- `height`, `depth`, `balanced?` and `rebalance`.

Layout:

- `nodes.dfy` (`Nodes`): the node structure. `Subtree = Nil | Node(left, data, right)` is an immutable value; Ruby's `nil` slot is `Nil`. The module also holds:
  - the BST ordering `IsBst` and the key set `Keys`;
  - the descent `Search` shared by `find` and `delete`;
  - a path of parent frames (`Frame`, `Plug`), which models writing into a parent's `left=`/`right=` slot or into `@root`.
- `sorting.dfy` (`Sorting`): `sort_and_remove_duplicates`.
- `traversals.dfy` (`Traversals`):
  - the three depth-first traversals, as the Ruby accumulator walks and as reference definitions;
  - level order, specified level by level (`Levels`) and as the draining of a FIFO queue (`Drain`).
- `shape.dfy` (`Shape`): `height` (Ruby's version, 0 for nil *and* for a leaf), `balanced?`, `build_tree`, and what rebuilding does.
- `edits.dfy` (`Edits`): recursive reference definitions of insertion and deletion (`Inserted`, `Removed`). It also holds the source's iterative `delete(value, root)` and `find_smallest` as the mutually recursive methods `DeleteFrom` and `FindSmallest`, proved against `Removed`.
- `queue.dfy` (`Queues`): the `Queue` class over a sequence field.
- `tree.dfy` (`BinarySearchTree`): the `Tree` class. Its `root` field is reassigned by `Insert`, `Delete` and `Rebalance`; the loops of `insert`, `find` and `level_order` are kept as loops.
- `examples.dfy` (`Scenarios`): the concrete trees and outcomes of `spec/binary_search_tree_spec.rb`, proved about the model. They are also stated as calls on the `Tree` class, and Dafny proves their assertions.

Error outcomes of the source are modelled as values:

- `delete` of an absent key returns `nil`: `Absent`.
- `delete` of a root with exactly one child raises: the descent never ran, so `send` is called on a `nil` parent with a `nil` direction. This is `NilParentError`, and the tree is left unchanged.
- `inorder` and `level_order` on an empty tree return `nil`: `None`.
- `rebalance` on an empty tree fails inside `build_tree(nil)`: `Rebalance` returns `false` and changes nothing.

## Model

| member | source | states |
|---|---|---|
| Nodes.BstKeysDistinct | lib/binary_search_tree.rb:58 | `insert` stops when it meets the key, so no key is stored twice: in a BST the number of distinct keys equals the number of nodes |
| Nodes.SubtreeKeys | lib/binary_search_tree.rb:118-128 | a node the descent reaches from the root holds a subset of the root's keys and is no larger |
| Nodes.Search | lib/binary_search_tree.rb:118-128 | the descent (stop on equal, left on smaller, right otherwise) ends at a node of the tree holding `v`, and on a BST finds one exactly when `v` is a key |
| Nodes.Fill | lib/binary_search_tree.rb:94-110 | writing a child into a parent's left or right slot (`send(direction, …)` at lines 94, 105, 108 and 110, and `left=`/`right=` at lines 61 and 66) keeps the parent's key and adds the child's keys and size |
| Nodes.Plug | lib/binary_search_tree.rb:78-88 | rebuilding along a non-empty path of parents gives a node holding the outermost parent's key, at least one node larger per parent |
| Sorting.InsertUnique | lib/binary_search_tree.rb:221 | adding a key to a strictly ascending list keeps it strictly ascending, and adds exactly that key |
| Sorting.SortAndRemoveDuplicates | lib/binary_search_tree.rb:220-222 | the result is strictly ascending and holds exactly the elements of the input |
| Sorting.StrictlySortedUnique | lib/binary_search_tree.rb:220-222 | two strictly ascending lists with the same elements are equal |
| Sorting.SortedDistinctOf | lib/binary_search_tree.rb:220-222 | the dedup-and-sort result is the unique strictly ascending listing of the input's element set |
| Traversals.InorderWalk | lib/binary_search_tree.rb:146-157 | the accumulator after the in-order walk is the old accumulator followed by the in-order keys |
| Traversals.PreorderWalk | lib/binary_search_tree.rb:159-169 | the accumulator after the pre-order walk is the old accumulator followed by the pre-order keys |
| Traversals.PostorderWalk | lib/binary_search_tree.rb:171-181 | the accumulator after the post-order walk is the old accumulator followed by the post-order keys |
| Traversals.InorderContents | lib/binary_search_tree.rb:146-157 | in-order lists exactly the tree's keys, one entry per node |
| Traversals.BstIffInorderSorted | lib/binary_search_tree.rb:146-157 | BST ordering holds if and only if the in-order listing is strictly ascending |
| Traversals.TraversalsArePermutations | lib/binary_search_tree.rb:159-181 | pre-order and post-order list the same keys as in-order, each as often |
| Traversals.RootFirstAndLast | lib/binary_search_tree.rb:159-181 | pre-order starts with the root key and post-order ends with it |
| Traversals.KidsShape | lib/binary_search_tree.rb:140-141 | the children a dequeued node enqueues are nodes, and they hold all of its nodes but itself |
| Traversals.EnqueuedKids | lib/binary_search_tree.rb:140-141 | enqueuing the left child when present, then the right child when present, appends exactly the node's non-empty children in that order |
| Traversals.LevelAppend | lib/binary_search_tree.rb:135-142 | two queued levels side by side emit their roots side by side and queue their children side by side |
| Traversals.Children | lib/binary_search_tree.rb:135-142 | the next level consists of nodes and holds one node fewer per node of the current level |
| Traversals.ForestSizeAppend | lib/binary_search_tree.rb:135-142 | the nodes held by queued subtrees add up across an append, the measure by which the queue loop ends |
| Traversals.DrainStep | lib/binary_search_tree.rb:135-142 | one round of the queue loop emits the front key, enqueues its children and shrinks what is left |
| Traversals.DrainFront | lib/binary_search_tree.rb:135-142 | draining one queued level ahead of the rest emits that level's keys first, then queues its children at the back |
| Traversals.DrainIsLevels | lib/binary_search_tree.rb:130-144 | the FIFO queue loop emits the keys level by level, left to right |
| Traversals.LevelsArePermutation | lib/binary_search_tree.rb:130-144 | level order lists every key of the forest, each as often as it occurs |
| Traversals.LevelOrderContents | lib/binary_search_tree.rb:130-144 | level order of a tree is a rearrangement of its in-order keys, one per node, starting with the root |
| Shape.Height | lib/binary_search_tree.rb:183-187 | height is 0 exactly for an empty tree and a leaf, and below the node count otherwise |
| Shape.BalancedAtEveryNode | lib/binary_search_tree.rb:193-198 | `balanced?` (`Shape.Balanced`) holds if and only if at every node the children's heights differ by at most one |
| Shape.SubtreeHeight | lib/binary_search_tree.rb:189-191 | a node of the tree is no taller than the tree, so `depth` of a node is never negative |
| Shape.HeightAlongPath | lib/binary_search_tree.rb:183-187 | a node `k` parents below the root leaves the tree at least `k` taller than the node |
| Shape.BuiltHeightStep | lib/binary_search_tree.rb:208-218 | one more key raises the height `build_tree` reaches by at most one |
| Shape.BuildTree | lib/binary_search_tree.rb:208-218 | splitting at `(len - 1) / 2` gives a tree whose in-order listing is the input |
| Shape.JoinedHeight | lib/binary_search_tree.rb:211-217 | a root over built halves of `(n - 1) / 2` and `n / 2` keys has the built height of `n` keys |
| Shape.JoinedBalanced | lib/binary_search_tree.rb:211-217 | a root over two balanced built halves is balanced |
| Shape.HalvesClose | lib/binary_search_tree.rb:211-217 | halves whose key counts differ by at most one are built to heights that differ by at most one |
| Shape.BuildTreeBalanced | lib/binary_search_tree.rb:208-218 | `build_tree` output has the built height of its key count and is balanced |
| Shape.BuildTreeIsBst | lib/binary_search_tree.rb:208-218 | on a strictly ascending array `build_tree` gives a BST with exactly the array's keys |
| Shape.Rebuilt | lib/binary_search_tree.rb:200-202 | rebuilding a BST from its in-order keys gives a balanced BST with the same in-order listing and keys |
| Edits.Inserted | lib/binary_search_tree.rb:49-71 | insertion adds exactly the key, keeps BST ordering, leaves the tree as it was when the key is present, and adds one node otherwise |
| Edits.Smallest | lib/binary_search_tree.rb:224-228 | the leftmost key is a key of the tree and, on a BST, the least |
| Edits.WithoutSmallest | lib/binary_search_tree.rb:224-229 | unlinking the leftmost node removes exactly the least key and one node, keeping BST ordering |
| Edits.RemoveNode | lib/binary_search_tree.rb:92-110 | taking a node out of its slot (leaf, one child, or successor moved up) removes exactly its key and one node, keeping BST ordering |
| Edits.Removed | lib/binary_search_tree.rb:73-116 | deletion removes exactly the key and one node when present, keeps BST ordering, and changes nothing when absent |
| Edits.RemovedSmallest | lib/binary_search_tree.rb:224-230 | deleting the least key from a BST is unlinking its leftmost node |
| Edits.RemoveInserted | lib/binary_search_tree.rb:49-116 | inserting an absent key and deleting it again gives back the same tree |
| Edits.InsertRemoved | lib/binary_search_tree.rb:49-116 | deleting a present key and inserting it again gives back the same key set and a BST |
| Edits.DeleteFrom | lib/binary_search_tree.rb:73-116 | `nil` exactly when the key is absent; an error exactly for a start node holding the key with one child; otherwise the key removed, the result is `Removed`, BST ordering is kept and the key set loses exactly that key; on `nil` or error nothing changes |
| Edits.FindSmallest | lib/binary_search_tree.rb:224-230 | gives the least key of the right subtree, and leaves the owner with that key unlinked from its right subtree and its left subtree untouched |
| Queues.Queue.constructor | lib/binary_search_tree.rb:20-22 | the queue starts with the given elements |
| Queues.Queue.Enqueue | lib/binary_search_tree.rb:24-26 | appends the element at the back |
| Queues.Queue.Dequeue | lib/binary_search_tree.rb:28-30 | gives the front element and removes it, or `nil` on an empty queue with nothing changed |
| Queues.Queue.IsEmpty | lib/binary_search_tree.rb:32-34 | true exactly when the queue holds nothing |
| Queues.Queue.Size | lib/binary_search_tree.rb:36-38 | the number of queued elements |
| BinarySearchTree.Tree.constructor | lib/binary_search_tree.rb:44-47 | the tree is a balanced BST built from the deduplicated sorted input; its in-order listing is that list and its keys are the input's elements |
| BinarySearchTree.Tree.Insert | lib/binary_search_tree.rb:49-71 | the new root is `Inserted` of the old one: an empty tree gets the key as its root, the key set gains exactly the key, BST ordering is kept and a present key changes nothing |
| BinarySearchTree.Tree.Delete | lib/binary_search_tree.rb:73-116 | the outcome of `DeleteFrom` from the root, stored back: `nil` iff absent, error iff a one-child root holds the key, otherwise the key set loses exactly that key |
| BinarySearchTree.Tree.Find | lib/binary_search_tree.rb:118-128 | gives a node holding the key exactly when the key is in the tree, `nil` otherwise, and changes nothing |
| BinarySearchTree.Tree.LevelOrder | lib/binary_search_tree.rb:130-144 | `nil` on an empty tree; otherwise what the queue loop emits equals the level-by-level listing |
| BinarySearchTree.Tree.Inorder | lib/binary_search_tree.rb:146-157 | `nil` exactly on an empty tree, else the in-order keys |
| BinarySearchTree.Tree.Preorder | lib/binary_search_tree.rb:159-169 | `nil` exactly on an empty tree, else the pre-order keys |
| BinarySearchTree.Tree.Postorder | lib/binary_search_tree.rb:171-181 | `nil` exactly on an empty tree, else the post-order keys |
| BinarySearchTree.Tree.Depth | lib/binary_search_tree.rb:189-191 | the root has depth 0 and every node of the tree has a depth between 0 and the tree's height |
| BinarySearchTree.Tree.DepthAlongPath | lib/binary_search_tree.rb:189-191 | a node `k` edges below the root has `depth` at least `k` |
| BinarySearchTree.Tree.Rebalance | lib/binary_search_tree.rb:200-202 | fails, changing nothing, exactly on an empty tree; otherwise the tree is rebuilt from its in-order keys, is a balanced BST and keeps its in-order listing and keys |
| Scenarios.DeduplicatedInput | spec/binary_search_tree_spec.rb:41-47 | the spec file's input deduplicates and sorts to `[1, 3, 4, 5, 7, 8, 9, 23, 67, 324, 6345]` |
| Scenarios.BuiltExpected | spec/binary_search_tree_spec.rb:51-57 | `build_tree` of that list is the tree drawn in the spec file |
| Scenarios.ExpectedInorder | spec/binary_search_tree_spec.rb:184-191 | the expected in-order output, the sorted key list |
| Scenarios.ExpectedPreorder | spec/binary_search_tree_spec.rb:208-215 | the expected pre-order output `[8, 4, 1, 3, 5, 7, 67, 9, 23, 324, 6345]` |
| Scenarios.ExpectedPostorder | spec/binary_search_tree_spec.rb:232-239 | the expected post-order output `[3, 1, 7, 5, 4, 23, 9, 6345, 324, 67, 8]` |
| Scenarios.ExpectedLevelOrder | spec/binary_search_tree_spec.rb:160-167 | the expected level order `[8, 4, 67, 1, 5, 9, 324, 3, 7, 23, 6345]` |
| Scenarios.ExpectedHeights | spec/binary_search_tree_spec.rb:251-287 | height 3, height 2 below 4, depths 1 and 3 of the nodes 4 and 3, and balanced |
| Scenarios.ExpectedFind | spec/binary_search_tree_spec.rb:138-153 | `find` of 8 is the root, of 324 a node holding 324, of 11 `nil` |
| Scenarios.ExpectedInserts | spec/binary_search_tree_spec.rb:67-94 | inserting 8 changes nothing, 50 and 206 land where the spec file expects, and 10 becomes the root of an empty tree |
| Scenarios.ExpectedDeletes | spec/binary_search_tree_spec.rb:96-136 | the expected trees after deleting 23, 1, 67, 4 and the root 8; the singleton empties; deleting 2 changes nothing |
| Scenarios.GrownShape | spec/binary_search_tree_spec.rb:289-293 | inserting 10009 and then 10010 hangs them as a chain below 6345 |
| Scenarios.GrownUnbalanced | spec/binary_search_tree_spec.rb:289-293 | after inserting 10009 and 10010 the tree is not balanced, its height is 5, and `depth` of the leaf 3 is 5 although it sits three edges below the root |
| Scenarios.ChainUnderOneChildIsBalanced | lib/binary_search_tree.rb:184 | because a leaf and an empty slot both have height 0, a node whose only child is a two-node chain counts as balanced |
| Scenarios.BuildExpectedTree | spec/binary_search_tree_spec.rb:60-65 | `Tree.new` on the spec file's input builds the expected tree |

## Left out

- Node identity and aliasing. A node is an immutable value here, so a node and everything below it form one value.
  - `find` returns the subtree value, not a shared node object.
  - `delete` returns the removed key in `Deleted(key)` rather than the removed node object.
  - Writes through `left=`/`right=` are modelled by rebuilding along the path of parents.
- `Edits.DeleteFrom`: the optional `root` argument of `delete(value, root)` is modelled only for the two starts the source passes, the tree's root and the successor's parent from `find_smallest`. For any other caller-supplied start node that holds the key, the source writes `@root` rather than the start's slot (lib/binary_search_tree.rb:96 and 103), so the whole tree is replaced; the contract instead states the result as `Removed` of the start subtree.
- `Queues.Queue.constructor`: copies the given sequence, whereas Ruby's queue keeps a reference to the caller's array.
- Block and `yield` visitors in the traversals. Only the returned sequence is modelled; a visitor receives the same elements in the same order.
- Ruby's `Comparable` on nodes, `Set` and `sort` are not modelled as such. Keys are integers, and `sort_and_remove_duplicates` is specified by its result: the strictly ascending list of the distinct elements.
- Dynamic `send(direction, ...)` dispatch is replaced by an explicit left/right slot (`Dir`).
- The `raise "Branch should not have been reached"` branch of `delete` (lib/binary_search_tree.rb:111-112) cannot be reached, so it is not modelled.
- The exceptions are outcomes, not raised errors. A one-child root delete is `NilParentError`, and a rebalance of an empty tree is `false`; in both cases the tree is unchanged, as in Ruby, where the error is raised before any write.
- The optional `root` and `traversed` arguments of `inorder`, `preorder` and `postorder`. Called on a nil `root` the source returns `nil` even when `traversed` is non-empty (lib/binary_search_tree.rb:147, 160, 172). `InorderWalk`, `PreorderWalk` and `PostorderWalk` return the accumulator in that case, which is what the recursive calls rely on. `Tree.Inorder`, `Tree.Preorder` and `Tree.Postorder` model only the default arguments.
- `height(node)` for an arbitrary node is `Shape.Height` applied to a subtree value. `balanced?(node)` is `Shape.Balanced`.
- `driver.rb` is not part of this model. It prints with `puts` and draws random keys with `rand`, and its "unbalanced after random inserts" check is not a property of the tree.
- The RSpec file is not modelled as a test harness. Its concrete trees appear only as the `Scenarios` lemmas.
