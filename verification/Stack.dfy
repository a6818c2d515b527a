/** The stack of things to run (src/stack.c): linked nodes, a depth and a counter of runs. */
module Stack {

  class Node<T> {
    const data: T
    var next: Node?<T>

    constructor (x: T, below: Node?<T>)
      ensures data == x && next == below
    {
      data := x;
      next := below;
    }
  }

  class Stack<T> {
    var top: Node?<T>
    var depth: int
    var executions: int
    /** The nodes and what they hold, the top last. */
    ghost var nodes: seq<Node<T>>
    ghost var items: seq<T>
    ghost var repr: set<Node<T>>

    /** Each node points to the one below it. */
    ghost predicate Valid()
      reads this, repr
    {
      && depth == |nodes| == |items|
      && top == (if nodes == [] then null else nodes[|nodes| - 1])
      && (forall i, j | 0 <= i < j < |nodes| :: nodes[i] != nodes[j])
      && (forall i | 0 <= i < |nodes| :: nodes[i] in repr && nodes[i].data == items[i])
      && (nodes != [] ==> nodes[0].next == null)
      && (forall i, j | 0 <= i < j < |nodes| && j == i + 1 :: nodes[j].next == nodes[i])
    }

    /** stack_init */
    constructor ()
      ensures Valid() && items == [] && executions == 0 && repr == {}
    {
      top, depth, executions, nodes, items, repr := null, 0, 0, [], [], {};
    }

    /** stack_push */
    method Push(x: T)
      requires Valid()
      modifies this
      ensures Valid() && fresh(repr - old(repr)) && executions == old(executions)
      ensures items == old(items) + [x] && depth == old(depth) + 1
    {
      var node := new Node(x, top);
      top := node;
      depth := depth + 1;
      nodes := nodes + [node];
      items := items + [x];
      repr := repr + {node};
    }

    /** stack_pop; NULL from an empty stack */
    method Pop() returns (item: Node?<T>)
      requires Valid()
      modifies this, repr
      ensures Valid() && repr == old(repr) && executions == old(executions)
      ensures old(depth) == 0 ==> item == null && items == old(items)
      ensures old(depth) != 0 ==>
        && item != null && item.next == null && item.data == old(items[|items| - 1])
        && items == old(items[..|items| - 1])
        && depth == old(depth) - 1
    {
      if depth == 0 {
        return null;
      }
      item := top;
      var below := top.next;
      item.next := null;
      top := below;
      depth := depth - 1;
      nodes := nodes[..|nodes| - 1];
      items := items[..|items| - 1];
    }

    /** stack_increment_executions */
    method IncrementExecutions()
      requires Valid()
      modifies this`executions
      ensures Valid() && items == old(items) && executions == old(executions) + 1
    {
      executions := executions + 1;
    }
  }
}
