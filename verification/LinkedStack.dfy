/** The stack of directories still to be visited, a linked list of nodes that
    are allocated, handed over and freed one by one. */
module LinkedStack {

  class Node {
    var data: string
    var level: nat
    var inode: nat
    var next: Node?
    ghost var freed: bool

    /** init_node() */
    constructor (txt: string, level: nat, inode: nat)
      ensures data == txt && this.level == level && this.inode == inode
      ensures next == null && !freed
    {
      data, this.level, this.inode := txt, level, inode;
      next, freed := null, false;
    }

    /** free_node(): a node is freed once at most. */
    method Free()
      requires !freed
      modifies this`freed
      ensures freed
    {
      freed := true;
    }
  }

  /** The contents of a node. */
  datatype Item = Item(data: string, level: nat, inode: nat)

  ghost function ItemOf(n: Node): Item
    reads n
  {
    Item(n.data, n.level, n.inode)
  }

  ghost function ItemsOf(nodes: seq<Node>): (r: seq<Item>)
    reads nodes
    ensures |r| == |nodes|
    ensures forall i | 0 <= i < |nodes| :: r[i] == ItemOf(nodes[i])
  {
    if nodes == [] then [] else [ItemOf(nodes[0])] + ItemsOf(nodes[1..])
  }

  ghost function First(nodes: seq<Node>): Node? {
    if nodes == [] then null else nodes[0]
  }

  /** `next` leads from each node to the one after it, and no node is freed or
      there twice. */
  ghost predicate Chain(nodes: seq<Node>)
    reads nodes
  {
    nodes == [] ||
    (!nodes[0].freed && nodes[0].next == First(nodes[1..]) && nodes[0] !in nodes[1..] && Chain(nodes[1..]))
  }

  class Stack {
    var top: Node?
    ghost var nodes: seq<Node>  // the linked nodes, top first

    ghost predicate Valid()
      reads this, nodes
    {
      top == First(nodes) && Chain(nodes)
    }

    ghost function Items(): seq<Item>
      reads this, nodes
    {
      ItemsOf(nodes)
    }

    /** init_stack(), with `top` cleared as push() and is_free() expect. */
    constructor ()
      ensures Valid() && nodes == []
    {
      top, nodes := null, [];
    }

    /** Puts a node on top.  Onto an empty stack it must not have a next one. */
    method Push(n: Node)
      requires Valid() && !n.freed && n !in nodes
      requires nodes == [] ==> n.next == null
      modifies this, n`next
      ensures Valid() && nodes == [n] + old(nodes)
      ensures Items() == [ItemOf(n)] + old(Items()) && ItemOf(n) == old(ItemOf(n))
    {
      if top == null {
        top := n;
      } else {
        n.next := top;
        top := n;
      }
      ghost var below := nodes;
      nodes := [n] + below;
      assert nodes[1..] == below;
    }

    /** Takes the top node off.  It is returned, or freed at once. */
    method Pop(keep: bool) returns (n: Node?)
      requires Valid() && nodes != []
      modifies this, top`freed
      ensures Valid() && nodes == old(nodes)[1..] && Items() == old(Items())[1..]
      ensures var gone: Node := old(nodes[0]);
        gone !in nodes && gone.freed == !keep && n == if keep then gone else null
    {
      var temp := top;
      top := top.next;
      nodes := nodes[1..];
      if !keep {
        temp.Free();
        return null;
      }
      return temp;
    }

    method IsFree() returns (free: bool)
      requires Valid()
      ensures free <==> nodes == []
    {
      return top == null;
    }

    /** free_stack(): frees whatever is left. */
    method FreeAll()
      requires Valid()
      modifies this, nodes
      ensures Valid() && nodes == []
      ensures forall n: Node | n in old(nodes) :: n.freed
    {
      var free := IsFree();
      while !free
        invariant Valid() && free == (nodes == [])
        invariant forall n: Node | n in nodes :: n in old(nodes)
        invariant forall n: Node | n in old(nodes) :: n in nodes || n.freed
        decreases |nodes|
      {
        var n := Pop(false);
        free := IsFree();
      }
    }
  }
}
