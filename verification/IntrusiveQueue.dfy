/** The queue of threads whose links live in the threads themselves. */
module IntrusiveQueue {

  class Node {
    var next: Node?
    constructor ()
    {
      next := null;
    }
  }

  class Queue {
    var first: Node?
    var last: Node?
    ghost var Nodes: seq<Node>

    /** `Nodes` is the chain from `first` to `last`, with no node twice. */
    ghost predicate Valid()
      reads this, Nodes
    {
      && first == (if Nodes == [] then null else Nodes[0])
      && last == (if Nodes == [] then null else Nodes[|Nodes| - 1])
      && Chain(first, Nodes)
      && forall i, j | 0 <= i < j < |Nodes| :: Nodes[i] != Nodes[j]
    }

    constructor ()
      ensures Valid() && Nodes == []
    {
      first, last, Nodes := null, null, [];
    }

    method Add(t: Node)
      requires Valid() && t !in Nodes
      modifies this, t, last
      ensures Valid() && Nodes == old(Nodes) + [t]
      ensures forall i | 0 <= i < |old(Nodes)| - 1 :: old(Nodes)[i].next == old(Nodes[i].next)
    {
      t.next := null;
      if first == null {
        first := t;
      } else {
        last.next := t;
      }
      last := t;
      ghost var was := Nodes;
      Nodes := was + [t];
      forall i: nat | i < |Nodes| ensures Linked(Nodes, i) {
        assert i < |was| ==> old(Linked(was, i));
      }
    }

    /** The node removed keeps its link, as the source leaves it. */
    method Remove() returns (it: Node?)
      requires Valid()
      modifies this
      ensures Valid()
      ensures it == null <==> old(Nodes) == []
      ensures it == null ==> Nodes == []
      ensures it != null ==> old(Nodes) == [it] + Nodes && it !in Nodes
    {
      if first == null {
        return null;
      }
      ChainTail(first, Nodes);
      it := first;
      first := it.next;
      if first == null {
        last := null;
      }
      Nodes := Nodes[1..];
    }

    /** The whole chain, in order, and an empty queue. */
    method RemoveAll() returns (it: Node?)
      requires Valid()
      modifies this
      ensures Valid() && Nodes == []
      ensures Chain(it, old(Nodes))
    {
      it := first;
      first := null;
      last := null;
      Nodes := [];
    }
  }

  ghost predicate Linked(nodes: seq<Node>, i: nat)
    requires i < |nodes|
    reads nodes
  {
    nodes[i].next == if i + 1 < |nodes| then nodes[i + 1] else null
  }

  /** Following the links from `it` meets exactly `nodes`, in order. */
  ghost predicate Chain(it: Node?, nodes: seq<Node>)
    reads nodes
  {
    && (it == if nodes == [] then null else nodes[0])
    && forall i: nat {:trigger Linked(nodes, i)} | i < |nodes| :: Linked(nodes, i)
  }

  lemma ChainTail(it: Node?, nodes: seq<Node>)
    requires Chain(it, nodes) && nodes != []
    ensures Chain(nodes[0].next, nodes[1..])
  {
    assert Linked(nodes, 0);
    forall i: nat | i < |nodes[1..]| ensures Linked(nodes[1..], i) {
      assert Linked(nodes, i + 1);
    }
  }

  /** A chain of links can be read as a queue in one way only. */
  lemma {:induction false} ChainIsUnique(it: Node?, a: seq<Node>, b: seq<Node>)
    requires Chain(it, a) && Chain(it, b)
    ensures a == b
  {
    if a != [] && b != [] {
      ChainTail(it, a);
      ChainTail(it, b);
      ChainIsUnique(a[0].next, a[1..], b[1..]);
      assert a == [a[0]] + a[1..] && b == [b[0]] + b[1..];
    }
  }
}
