/** The node record of bptree.h and the snapshot of a set of nodes that the proofs reason about. */
module BPlusNode {
  import opened Keys

  // Number of pointers of each node (`size` and `pointer_size`).
  const SIZE := 5

  // A record is an opaque address.
  type Value = int

  // A `void *` slot: nothing, a child (or the next leaf), or a record.
  datatype Ptr = Null | Child(node: Node) | Data(value: Value)

  // What a freed key slot holds; `numKeys` alone says which slots are live.
  const NO_KEY: Key := ""

  type Count = n: int | 0 <= n < SIZE

  class Node {
    const keys: array<Key>
    const pointers: array<Ptr>
    var parent: Node?
    var numKeys: Count
    var isLeaf: bool

    /** make_new_node; make_new_leaf when `leaf` is true. */
    constructor (leaf: bool)
      ensures keys.Length == SIZE - 1 && pointers.Length == SIZE
      ensures fresh(keys) && fresh(pointers)
      ensures parent == null && numKeys == 0 && isLeaf == leaf
    {
      keys := new Key[SIZE - 1];
      pointers := new Ptr[SIZE](_ => Null);
      parent, numKeys, isLeaf := null, 0, leaf;
    }

    /** The live content of the node: a leaf has one record per key, an inner node one child more than keys. */
    ghost function View(): (c: Cell)
      requires keys.Length == SIZE - 1 && pointers.Length == SIZE
      reads this, keys, pointers
      ensures c.isLeaf == isLeaf && c.parent == parent && (!isLeaf ==> c.next == Null)
      ensures |c.keys| == numKeys && |c.ptrs| == if isLeaf then numKeys else numKeys + 1
    {
      Cell(isLeaf, keys[..numKeys], if isLeaf then pointers[..numKeys] else pointers[..numKeys + 1],
           if isLeaf then pointers[SIZE - 1] else Null, parent)
    }
  }

  datatype Cell = Cell(isLeaf: bool, keys: seq<Key>, ptrs: seq<Ptr>, next: Ptr, parent: Node?)

  type Heap = map<Node, Cell>

  /** No two nodes share a buffer. Both buffers are constants, so this never changes. */
  ghost predicate Separate(S: set<Node>) {
    && (forall n <- S :: n.keys.Length == SIZE - 1 && n.pointers.Length == SIZE)
    && (forall m <- S, n <- S :: m != n ==> m.keys != n.keys && m.pointers != n.pointers)
  }

  /** `R` holds the nodes `S` and their buffers. */
  ghost predicate Owns(R: set<object>, S: set<Node>) {
    Separate(S) && forall n <- S :: n in R && n.keys in R && n.pointers in R
  }

  ghost function Snap(R: set<object>, S: set<Node>): Heap
    requires Owns(R, S)
    reads R
  {
    map n <- S :: n.View()
  }
}
