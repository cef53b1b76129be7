/** The work queue and the completion queue of the fetch pool: singly linked lists with a head and a tail pointer.
    Each method is what one critical section does to the list. */
module WorkQueue {

  class Item {
    const id: nat
    var next: Item?

    constructor (id: nat)
      ensures this.id == id && next == null
    {
      this.id := id;
      next := null;
    }
  }

  /** `spine` is the chain of items that starts at `head`. */
  ghost predicate Chain(head: Item?, spine: seq<Item>)
    reads spine
  {
    && head == (if spine == [] then null else spine[0])
    && (forall i {:trigger spine[i]} | 0 <= i < |spine| ::
          spine[i].next == (if i + 1 < |spine| then spine[i + 1] else null))
    && (forall i, j | 0 <= i < j < |spine| :: spine[i] != spine[j])
  }

  class Queue {
    var head: Item?
    var tail: Item?
    ghost var contents: seq<Item>

    ghost predicate Valid()
      reads this, contents
    {
      && Chain(head, contents)
      && tail == (if contents == [] then null else contents[|contents| - 1])
    }

    constructor ()
      ensures Valid() && contents == []
    {
      head, tail, contents := null, null, [];
    }

    /** Appends at the tail (the reactor's enqueue and the worker's hand-back). */
    method Push(item: Item)
      requires Valid() && item !in contents
      modifies this, item`next, contents`next
      ensures Valid() && contents == old(contents) + [item]
      ensures forall x: Item | x in old(contents) && x != old(tail) :: x.next == old(x.next)
    {
      item.next := null;
      if tail == null {
        head := item;
      } else {
        tail.next := item;
      }
      tail := item;
      contents := contents + [item];
    }

    /** Removes from the head (a worker's pop), or finds the queue empty. */
    method Pop() returns (item: Item?)
      requires Valid()
      modifies this, contents`next
      ensures Valid()
      ensures old(contents) == [] ==> item == null && contents == []
      ensures old(contents) != [] ==>
                item == old(contents)[0] && item.next == null && contents == old(contents)[1..]
    {
      item := head;
      if item != null {
        head := item.next;
        if head == null {
          tail := null;
        }
        item.next := null;
        contents := contents[1..];
      }
    }

    /** Detaches the whole list at once (the reactor's take). */
    method TakeAll() returns (items: Item?, ghost taken: seq<Item>)
      requires Valid()
      modifies this
      ensures Valid() && contents == []
      ensures taken == old(contents) && Chain(items, taken)
    {
      items, taken := head, contents;
      head, tail, contents := null, null, [];
    }
  }

  /** The reactor's loop over a detached list: unlinks each item before finishing it, in list order, each one once. */
  method FinishAll(items: Item?, ghost taken: seq<Item>) returns (finished: seq<Item>)
    requires Chain(items, taken)
    modifies taken`next
    ensures finished == taken
    ensures forall x | x in taken :: x.next == null
  {
    finished := [];
    var rest := items;
    while rest != null
      invariant finished <= taken
      invariant rest == (if |finished| < |taken| then taken[|finished|] else null)
      invariant forall i | |finished| <= i < |taken| :: taken[i].next == old(taken[i].next)
      invariant forall i | 0 <= i < |finished| :: taken[i].next == null
      decreases |taken| - |finished|
    {
      var item := rest;
      rest := rest.next;
      item.next := null;
      finished := finished + [item];
    }
  }
}
