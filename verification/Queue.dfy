/** The intrusive circular queue of nginx, relinked in place around a sentinel. */
module Queues {
  import opened Indexes
  import opened Cache

  /** Taking one element out of a list without repetitions takes it out of the list's set. */
  lemma WithoutHolds<N>(items: seq<N>, nodes: set<N>, i: nat)
    requires i < |items| && (forall n :: n in nodes <==> n in items)
    requires forall j, k :: 0 <= j < k < |items| ==> items[j] != items[k]
    ensures var r := Without(items, i);
      && (forall n :: n in nodes - {items[i]} ==> n in r) && (forall k :: 0 <= k < |r| ==> r[k] in nodes - {items[i]})
      && (forall j, k :: 0 <= j < k < |r| ==> r[j] != r[k])
  {
    var r := Without(items, i);
    forall n | n in nodes - {items[i]} ensures n in r {
      var k :| 0 <= k < |items| && items[k] == n;
      assert r[if k < i then k else k - 1] == n;
    }
  }

  class Queue<D> {
    const head: Node<D>
    ghost var items: seq<Node<D>>
    ghost var nodes: set<Node<D>>

    ghost predicate Valid()
      reads this, head`prev, head`next, nodes`prev, nodes`next
    {
      && head !in nodes
      && (forall n :: n in nodes ==> n in items)
      && (forall i :: 0 <= i < |items| ==> items[i] in nodes)
      && (forall i, j :: 0 <= i < j < |items| ==> items[i] != items[j])
      && (forall i {:trigger Hung(i)} :: 0 <= i <= |items| ==> Hung(i))
    }

    /** The element at `i`, the sentinel standing at both ends. */
    ghost function Around(i: int): Node<D>
      reads this
    {
      if 0 <= i < |items| then items[i] else head
    }

    /** The two links between neighbours `i - 1` and `i` of the ring. */
    ghost predicate Hung(i: int)
      reads this, Around(i - 1)`next, Around(i)`prev
    {
      Around(i - 1).next == Around(i) && Around(i).prev == Around(i - 1)
    }

    constructor (head: Node<D>)
      requires head.next == head && head.prev == head
      ensures Valid() && items == [] && nodes == {} && this.head == head
    {
      this.head, items, nodes := head, [], {};
    }

    method Last() returns (q: Node<D>)
      requires Valid()
      ensures q == Around(|items| - 1)
    {
      assert Hung(|items|);
      q := head.prev;
    }

    method Prev(x: Node<D>, ghost i: nat) returns (q: Node<D>)
      requires Valid() && i < |items| && x == items[i]
      ensures q == Around(i - 1)
    {
      assert Hung(i);
      q := x.prev;
    }

    method InsertHead(x: Node<D>)
      requires Valid() && x !in nodes && x != head
      modifies this`items, this`nodes, x`prev, x`next, head`next, head`prev, nodes`prev
      ensures Valid() && items == [x] + old(items) && nodes == old(nodes) + {x}
    {
      assert Hung(0);
      x.next := head.next;
      x.next.prev := x;
      x.prev := head;
      head.next := x;
      items, nodes := [x] + items, nodes + {x};
      forall i | 0 <= i <= |items|
        ensures Hung(i)
      {
        if i > 1 { assert old(Hung(i - 1)); }
      }
    }

    method Unhook(p: Node<D>, n: Node<D>)
      modifies p`next, n`prev
      ensures p.next == n && n.prev == p
    {
      n.prev := p;
      p.next := n;
    }

    method Remove(x: Node<D>, ghost i: nat)
      requires Valid() && i < |items| && items[i] == x
      modifies this`items, this`nodes, head`prev, head`next, nodes`prev, nodes`next
      ensures Valid() && items == Without(old(items), i) && nodes == old(nodes) - {x}
    {
      assert Hung(i) && Hung(i + 1);
      Unhook(x.prev, x.next);
      WithoutHolds(items, nodes, i);
      items, nodes := Without(items, i), nodes - {x};
      forall k | 0 <= k <= |items|
        ensures Hung(k)
      {
        if k < i {
          assert old(Hung(k));
        } else if k > i {
          assert old(Hung(k + 1));
        }
      }
    }
  }
}
