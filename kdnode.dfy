/**
  The KD-tree `Node` record as src/math/neighbors/kdtree/node.test.ts pins it
  down: a point index, a split axis and two optional children, fixed at
  construction.
*/
module KdTree {
  import opened Js

  /** A node of the tree; `None` is an `undefined` child. */
  datatype Node = Node(index: nat, axis: nat, left: Option<Node>, right: Option<Node>)

  /**
    `new Node(index, axis, left, right)`: a `RangeError` for a negative index
    or axis; otherwise a node holding exactly the given values.
  */
  function NewNode(index: int, axis: int, left: Option<Node>, right: Option<Node>): (r: Result<Node>)
    ensures r.Err? <==> index < 0 || axis < 0
    ensures r.Err? ==> r.error == RangeError
    ensures r.Ok? ==>
      r.value.index == index && r.value.axis == axis && r.value.left == left && r.value.right == right
  {
    if index < 0 || axis < 0 then Err(RangeError) else Ok(Node(index, axis, left, right))
  }

  /** `isLeaf`: neither child is defined. */
  predicate IsLeaf(n: Node) {
    n.left.None? && n.right.None?
  }

  /** A node built without children is a leaf, and one built with a child is not. */
  lemma NewNodeLeaf(index: int, axis: int, left: Option<Node>, right: Option<Node>)
    requires NewNode(index, axis, left, right).Ok?
    ensures IsLeaf(NewNode(index, axis, left, right).value) <==> left.None? && right.None?
  {
  }

  /** The cases of the tests, as facts about the model. */
  lemma NodeExamples()
    ensures NewNode(3, 0, None, None) == Ok(Node(3, 0, None, None))
    ensures var left, right := Node(4, 1, None, None), Node(5, 1, None, None);
      NewNode(3, 0, Some(left), Some(right)) == Ok(Node(3, 0, Some(left), Some(right)))
    ensures NewNode(-1, 0, None, None) == Err(RangeError)
    ensures NewNode(0, -1, None, None) == Err(RangeError)
    ensures IsLeaf(Node(0, 0, None, None))
    ensures !IsLeaf(Node(0, 0, Some(Node(1, 1, None, None)), None))
    ensures !IsLeaf(Node(0, 0, Some(Node(1, 1, None, None)), Some(Node(2, 1, None, None))))
  {
  }
}
