/**
 The doubly linked lists of `<sys/queue.h>` as the server uses them: a head that
 points to the first entry, and entries that hold the next entry and the address
 of whatever points to them.
 */
module ListQueue {
  import RpcData

  /** What `le_prev` points at: the head's `lh_first`, or another entry's `le_next`. */
  datatype Slot<T> = HeadSlot | NextOf(entry: Entry<T>)

  class Entry<T> {
    const elem: T
    var next: Entry?<T>
    var prev: Slot<T>

    constructor (elem: T)
      ensures this.elem == elem
    {
      this.elem := elem;
      this.next := null;
      this.prev := HeadSlot;
    }
  }

  /** The elements a chain of entries carries. */
  ghost function Elems<T>(nodes: seq<Entry<T>>): (es: seq<T>)
    ensures |es| == |nodes| && forall k | 0 <= k < |nodes| :: es[k] == nodes[k].elem
  {
    seq(|nodes|, k requires 0 <= k < |nodes| => nodes[k].elem)
  }

  class ListHead<T> {
    var first: Entry?<T>
    ghost var nodes: seq<Entry<T>>

    /** Both kinds of links describe `nodes`, which never repeats an entry. */
    ghost predicate Valid()
      reads this, nodes
    {
      && (forall i, j | 0 <= i < j < |nodes| :: nodes[i] != nodes[j])
      && first == (if nodes == [] then null else nodes[0])
      && (forall i {:trigger nodes[i].next} | 0 <= i < |nodes| ::
            nodes[i].next == if i + 1 < |nodes| then nodes[i + 1] else null)
      && (forall i {:trigger nodes[i].prev} | 0 <= i < |nodes| ::
            nodes[i].prev == if i == 0 then HeadSlot else NextOf(nodes[i - 1]))
    }

    constructor ()
      ensures Valid() && nodes == []
    {
      first := null;
      nodes := [];
    }

    /** `LIST_INIT` */
    method Init()
      modifies this
      ensures Valid() && nodes == []
    {
      first := null;
      nodes := [];
    }

    /** `LIST_INSERT_HEAD` */
    method InsertHead(e: Entry<T>)
      requires Valid() && e !in nodes
      modifies this, e, nodes
      ensures Valid() && nodes == [e] + old(nodes)
    {
      e.next := first;
      if e.next != null {
        first.prev := NextOf(e);
      }
      first := e;
      e.prev := HeadSlot;
      nodes := [e] + nodes;
    }

    /** `LIST_REMOVE` */
    method Remove(e: Entry<T>, ghost k: nat)
      requires Valid() && k < |nodes| && nodes[k] == e
      modifies this, nodes
      ensures Valid() && nodes == old(nodes)[..k] + old(nodes)[k + 1..]
    {
      if e.next != null {
        e.next.prev := e.prev;
      }
      match e.prev {
        case HeadSlot => first := e.next;
        case NextOf(p) => p.next := e.next;
      }
      nodes := nodes[..k] + nodes[k + 1..];
    }
  }

  /** `free` of an entry: nothing is known of its links afterwards. */
  method FreeEntry<T>(entry: Entry<T>, heap: RpcData.Heap)
    requires entry in heap.live
    modifies heap, entry
    ensures heap.live == old(heap.live) - {entry}
  {
    heap.Free(entry);
  }
}
