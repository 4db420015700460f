/** Insertion and deletion.
    `Inserted` and `Removed` are recursive reference definitions of what
    `insert` and `delete` do to the tree; `DeleteFrom` and `FindSmallest` are
    the source's iterative `delete(value, root)` and `find_smallest`, which
    call each other, proved against them. */
module Edits {
  import opened Nodes

  /** The outcome of `delete`: `nil` when no node holds the key, the removed
      node's key otherwise, or the error raised when a start node with one
      child holds the key: the descent never ran, so `send` is called on a
      nil parent with a nil direction. */
  datatype DeleteResult = Absent | Deleted(key: int) | NilParentError

  /** The tree after `insert(v)`: the key goes into the empty slot where the
      descent ends, and nothing changes when the descent meets `v`. */
  function Inserted(t: Subtree, v: int): (r: Subtree)
    ensures Keys(r) == Keys(t) + {v}
    ensures IsBst(t) ==> IsBst(r)
    ensures IsBst(t) && v in Keys(t) ==> r == t
    ensures IsBst(t) && v !in Keys(t) ==> Size(r) == Size(t) + 1
  {
    match t
    case Nil => Leaf(v)
    case Node(l, d, rt) =>
      if d == v then t
      else if v < d then Node(Inserted(l, v), d, rt)
      else Node(l, d, Inserted(rt, v))
  }

  /** The key of the leftmost node: the least key of a BST. */
  function Smallest(t: Subtree): (m: int)
    requires t.Node?
    ensures m in Keys(t)
    ensures IsBst(t) ==> forall k :: k in Keys(t) ==> m <= k
  {
    if t.left.Nil? then t.data else Smallest(t.left)
  }

  /** The tree without its leftmost node, whose right child takes its slot. */
  function WithoutSmallest(t: Subtree): (r: Subtree)
    requires t.Node?
    ensures IsBst(t) ==> IsBst(r) && Keys(r) == Keys(t) - {Smallest(t)}
    ensures Size(r) == Size(t) - 1
  {
    if t.left.Nil? then t.right else Node(WithoutSmallest(t.left), t.data, t.right)
  }

  /** A node taken out of its slot: nothing for a leaf, the only child for a
      node with one child, and for two children the in-order successor moved
      up with the node's left subtree and the rest of its right subtree. */
  function RemoveNode(t: Subtree): (r: Subtree)
    requires t.Node?
    ensures IsBst(t) ==> IsBst(r) && Keys(r) == Keys(t) - {t.data}
    ensures Size(r) == Size(t) - 1
  {
    if t.left.Nil? && t.right.Nil? then Nil
    else if t.left.Node? && t.right.Node? then
      var s := Smallest(t.right);
      assert IsBst(t) ==> forall k :: k in Keys(t.left) ==> k < s;
      Node(t.left, s, WithoutSmallest(t.right))
    else if t.left.Node? then t.left
    else t.right
  }

  /** The tree after `delete(v)`, when that does not raise: the node holding
      `v`, found by the usual descent, is taken out of its slot. */
  function Removed(t: Subtree, v: int): (r: Subtree)
    ensures IsBst(t) ==> IsBst(r) && Keys(r) == Keys(t) - {v}
    ensures IsBst(t) && v in Keys(t) ==> Size(r) == Size(t) - 1
    ensures v !in Keys(t) ==> r == t
  {
    match t
    case Nil => Nil
    case Node(l, d, rt) =>
      if d == v then RemoveNode(t)
      else if v < d then Node(Removed(l, v), d, rt)
      else Node(l, d, Removed(rt, v))
  }

  /** Deleting the least key of a BST is taking out its leftmost node. */
  lemma {:induction false} RemovedSmallest(t: Subtree)
    requires t.Node? && IsBst(t)
    ensures Removed(t, Smallest(t)) == WithoutSmallest(t)
  {
    if t.left.Node? {
      RemovedSmallest(t.left);
    }
  }

  /** Inserting a key and deleting it again gives back the very same tree. */
  lemma {:induction false} RemoveInserted(t: Subtree, v: int)
    requires IsBst(t) && v !in Keys(t)
    ensures Removed(Inserted(t, v), v) == t
  {
    if t.Node? && v != t.data {
      if v < t.data { RemoveInserted(t.left, v); } else { RemoveInserted(t.right, v); }
    }
  }

  /** Deleting a key and inserting it again gives back the same key set. */
  lemma InsertRemoved(t: Subtree, v: int)
    requires IsBst(t) && v in Keys(t)
    ensures Keys(Inserted(Removed(t, v), v)) == Keys(t)
    ensures IsBst(Inserted(Removed(t, v), v))
  {
  }

  /** `delete(value, start)` for the two starts the source uses: the root
      (from `delete(value)`) and, from `find_smallest`, the parent of the
      in-order successor, which never holds the key. The descent keeps the current node and the
      path of parents above it (the source keeps only `parent` and
      `direction`, and writes through them into the shared nodes; `Plug`
      writes back along the path). A node with two children is replaced by
      its in-order successor, which `FindSmallest` first unlinks by calling
      back into this method from the successor's parent. */
  method DeleteFrom(start: Subtree, value: int) returns (result: DeleteResult, after: Subtree)
    requires IsBst(start)
    ensures result.Absent? <==> value !in Keys(start)
    ensures result.NilParentError? <==>
      start.Node? && start.data == value && (start.left.Nil? != start.right.Nil?)
    ensures result.Deleted? ==> result.key == value && after == Removed(start, value)
    ensures result.Deleted? ==> IsBst(after) && Keys(after) == Keys(start) - {value}
    ensures !result.Deleted? ==> after == start
    decreases Size(Search(start, value)), 1
  {
    var current := start;
    var path: seq<Frame> := [];
    while current.Node? && current.data != value
      invariant Plug(path, current) == start
      invariant Plug(path, Removed(current, value)) == Removed(start, value)
      invariant Search(current, value) == Search(start, value)
      invariant path != [] ==> start.data != value
      invariant IsBst(current)
      decreases Size(current)
    {
      if value < current.data {
        path := [Frame(Left, current.data, current.right)] + path;
        current := current.left;
      } else {
        path := [Frame(Right, current.data, current.left)] + path;
        current := current.right;
      }
    }

    if current.Nil? {
      return Absent, start;
    }

    if current.left.Nil? && current.right.Nil? {
      after := Plug(path, Nil);
    } else if current.left.Node? && current.right.Node? {
      var key, reduced := FindSmallest(current);
      var replacement := Node(reduced.left, key, reduced.right);
      after := Plug(path, replacement);
    } else if current.left.Node? {
      if path == [] {
        return NilParentError, start;
      }
      after := Plug(path, current.left);
    } else {
      if path == [] {
        return NilParentError, start;
      }
      after := Plug(path, current.right);
    }
    result := Deleted(current.data);
  }

  /** `find_smallest(owner.right, owner)`: walks down the left spine of
      `owner`'s right subtree to the in-order successor, has `DeleteFrom`
      unlink it starting from its parent, and returns the key of the node that
      deletion removed together with `owner` as the deletion left it. */
  method FindSmallest(owner: Subtree) returns (key: int, reduced: Subtree)
    requires owner.Node? && owner.right.Node? && IsBst(owner)
    ensures key == Smallest(owner.right)
    ensures reduced == Node(owner.left, owner.data, WithoutSmallest(owner.right))
    decreases Size(owner), 0
  {
    ghost var m := Smallest(owner.right);
    var smallest := owner.right;
    var parent := owner;
    var path: seq<Frame> := [];
    while smallest.left.Node?
      invariant smallest.Node? && parent.Node? && IsBst(parent)
      invariant if path == [] then parent == owner && smallest == owner.right
                else smallest == parent.left
      invariant Smallest(smallest) == m
      invariant Plug(path, Removed(parent, m)) == Removed(owner, m)
      invariant Size(smallest) < Size(owner)
      decreases Size(smallest)
    {
      if path == [] {
        path := [Frame(Right, parent.data, parent.left)] + path;
      } else {
        path := [Frame(Left, parent.data, parent.right)] + path;
      }
      parent := smallest;
      smallest := smallest.left;
    }
    assert Search(parent, smallest.data) == smallest;
    var removed, unlinked := DeleteFrom(parent, smallest.data);
    key := removed.key;
    reduced := Plug(path, unlinked);
    RemovedSmallest(owner.right);
  }
}
