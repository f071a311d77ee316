/**
 The circular doubly linked list that both list registries use: the head, a
 count, and one branch each for no node, one node and more.
 */
module Circular {
  import opened Sequences
  import opened Elements
  import opened Trailing

  class Node<V> {
    const data: string
    const value: V
    var prev: Node?<V>
    var next: Node?<V>

    constructor (data: string, value: V)
      ensures this.data == data && this.value == value
    {
      this.data, this.value := data, value;
      prev, next := null, null;
    }
  }

  class List<V> {
    var head: Node?<V>
    var count: nat
    ghost var order: seq<Node<V>>

    ghost predicate Valid()
      reads this, order`prev, order`next
    {
      && count == |order| && head == (if order == [] then null else order[0])
      && Ring(order)
    }

    constructor ()
      ensures Valid() && order == []
    {
      head, count, order := null, 0, [];
    }

    /** search_app and search_np: at most `count` steps around the ring. */
    method Search(val: string) returns (ptr: Node?<V>)
      requires Valid()
      ensures Valid()
      ensures ptr != null ==> ptr in order && ptr.data == val
      ensures ptr == null ==> forall n | n in order :: n.data != val
    {
      if count == 0 { return null; }
      var i := count;
      ptr := head;
      while i > 0
        invariant 0 <= i <= count && ptr == order[if i == 0 then 0 else count - i]
        invariant forall j | 0 <= j < count - i :: order[j].data != val
      {
        if ptr.data == val { return; }
        i := i - 1;
        ptr := ptr.next;
      }
      ptr := null;
    }

    /** Insertion before the head, that is, at the end of the order. */
    method InsertLast(n: Node<V>)
      requires Valid() && n !in order
      modifies this, n`prev, n`next, order`prev, order`next
      ensures Valid() && order == old(order) + [n]
    {
      if count == 0 {
        head := n;
        n.prev := n;
        n.next := n;
      } else if count == 1 {
        head.prev := n;
        head.next := n;
        n.prev := head;
        n.next := head;
      } else {
        head.prev.next := n;
        n.prev := head.prev;
        n.next := head;
        head.prev := n;
      }
      count := count + 1;
      order := order + [n];
    }

    /** Unlinking of a node that is in the list. */
    method Remove(temp: Node<V>, ghost k: nat)
      requires Valid() && k < |order| && order[k] == temp
      modifies this, order`prev, order`next
      ensures Valid() && order == Drop(old(order), k)
    {
      if temp == head && count == 1 {
        head.prev := null;
        head.next := null;
        head := null;
        count := count - 1;
        order := [];
      } else if temp == head && count > 1 {
        RemoveHead(temp);
      } else {
        RemoveInner(temp, k);
      }
    }

    method RemoveHead(temp: Node<V>)
      requires Valid() && count > 1 && temp == head
      modifies this, order`prev, order`next
      ensures Valid() && order == Drop(old(order), 0)
    {
      head := temp.next;
      var p := temp.prev;
      temp.next.prev := p;
      p.next := temp.next;
      count := count - 1;
      order := Drop(order, 0);
    }

    method RemoveInner(temp: Node<V>, ghost k: nat)
      requires Valid() && 0 < k < |order| && order[k] == temp
      modifies this, order`prev, order`next
      ensures Valid() && order == Drop(old(order), k)
    {
      var p, q := temp.prev, temp.next;
      p.next := q;
      q.prev := p;
      count := count - 1;
      order := Drop(order, k);
    }
  }

  ghost predicate Ring<V>(s: seq<Node<V>>)
    reads s`prev, s`next
  {
    && Distinct(s)
    && (forall i {:trigger s[i].next} | 0 <= i < |s| :: s[i].next == if i == |s| - 1 then s[0] else s[i + 1])
    && (forall i {:trigger s[i].prev} | 0 <= i < |s| :: s[i].prev == if i == 0 then s[|s| - 1] else s[i - 1])
  }
}
