/**
 The parent's list of children as the C code keeps it: the accepting loop inserts
 an entry for each child, the tracker thread sweeps the list and removes the
 entries of those that have ended.
 */
module Tracker {
  import opened ListQueue
  import opened Wrappers
  import P = Processes
  import RpcData

  /** What `waitpid` reports of a child; `Missing` is its ECHILD. */
  datatype Waited = Running | Exited | Signalled | Missing

  /** How far a sweep gets. */
  datatype Sweep =
    | Finished
    | Waiting(todo: seq<P.Entry>)
    | NoAnswer(p: P.Entry, todo: seq<P.Entry>)  // `send_error` ends the process
    | Lost(p: P.Entry, todo: seq<P.Entry>)      // a status that was never written is looked at

  /** A sweep over these entries when `waitpid` reports these results, one after the other. */
  function Swept(entries: seq<P.Entry>, results: seq<Waited>): Sweep
    decreases |results|
  {
    if entries == [] then Finished
    else if results == [] then Waiting(entries)
    else
      match results[0]
      case Running => Swept(entries, results[1..])
      case Exited => Swept(entries[1..], results[1..])
      case Signalled => NoAnswer(entries[0], entries[1..])
      case Missing => Lost(entries[0], entries[1..])
  }

  /** The entries still listed. */
  function Left(r: Sweep): seq<P.Entry> {
    if r.Finished? then [] else r.todo
  }

  /** The entries of the list, as allocated blocks. */
  ghost function Blocks(nodes: seq<Entry<P.Entry>>): set<object> {
    set n | n in nodes
  }

  /** `keep_track_of_client` */
  method KeepTrackOfClient(list: ListHead<P.Entry>, clientPid: P.Pid, clientFd: P.Fd, heap: RpcData.Heap)
    requires list.Valid() && Blocks(list.nodes) <= heap.live
    modifies list, list.nodes, heap
    ensures list.Valid() && Elems(list.nodes) == [P.Entry(clientPid, clientFd)] + old(Elems(list.nodes))
    ensures fresh(list.nodes[0]) && list.nodes[1..] == old(list.nodes)
    ensures heap.live == old(heap.live) + {list.nodes[0]}
  {
    var currentProcessus := new Entry(P.Entry(clientPid, clientFd));
    heap.Malloc(currentProcessus);
    list.InsertHead(currentProcessus);
  }

  /** Unlinks the first entry. */
  method UnlinkFirst(list: ListHead<P.Entry>, p: Entry<P.Entry>)
    requires list.Valid() && list.first == p
    modifies list, list.nodes
    ensures list.Valid() && list.nodes == old(list.nodes)[1..] && list.first == old(p.next)
    ensures p !in list.nodes
  {
    hide ListHead.Valid;
    ghost var nodes := list.nodes;
    Heads(list);
    assert nodes[..0] + nodes[1..] == nodes[1..];
    list.Remove(p, 0);
    Heads(list);
  }

  /** Unlinks the first entry and frees it. */
  method DropFirst(list: ListHead<P.Entry>, p: Entry<P.Entry>, heap: RpcData.Heap)
    requires list.Valid() && list.first == p && p in heap.live
    modifies list, list.nodes, heap
    ensures list.Valid() && list.nodes == old(list.nodes)[1..] && list.first == old(p.next)
    ensures heap.live == old(heap.live) - {p}
  {
    hide ListHead.Valid;
    Heads(list);
    UnlinkFirst(list, p);
    FreeEntry(p, heap);
    Heads(list);
  }

  /**
   The sweep of `check_client_track`, with the mutex held. A running child is asked
   about again; an entry is unlinked and freed once its child has exited; for a
   signalled child it is unlinked, and `send_error` to its client ends the process.
   For a child that does not exist the entry goes too, but then C looks at a status
   that was never written.
   */
  method CheckClientTrack(list: ListHead<P.Entry>, results: seq<Waited>, heap: RpcData.Heap)
    returns (failed: Option<P.Fd>, ghost r: Sweep)
    requires list.Valid() && Blocks(list.nodes) <= heap.live
    modifies list, list.nodes, heap
    ensures r == Swept(old(Elems(list.nodes)), results)
    ensures failed == if r.NoAnswer? then Some(r.p.clientFd) else None
    ensures list.Valid() && Elems(list.nodes) == Left(r)
    ensures |list.nodes| + (if r.NoAnswer? then 1 else 0) <= |old(list.nodes)|
    ensures var k := |old(list.nodes)| - |list.nodes|;
            && list.nodes == old(list.nodes)[k..]
            && heap.live == old(heap.live) - Blocks(old(list.nodes)[..if r.NoAnswer? then k - 1 else k])
  {
    hide Elems, Swept, Blocks, NoRepeat, ListHead.Valid;
    ghost var was, live := list.nodes, heap.live;
    ghost var k := 0;
    var p := list.first;
    var i := 0;
    Heads(list);
    SweepStarts(was, results);
    while p != null && i < |results|
      invariant 0 <= i <= |results| && list.Valid() && p == list.first
      invariant k <= |was| && list.nodes == was[k..]
      invariant Swept(Elems(was[k..]), results[i..]) == Swept(Elems(was), results)
      invariant heap.live == live - Blocks(was[..k])
    {
      Heads(list);
      var next := p.next;
      SweepRound(was, k, results, i);
      FreedNext(was, k);
      match results[i] {
        case Running =>
        case Exited =>
          DropFirst(list, p, heap);
          p := next;
          k := k + 1;
        case Signalled =>
          UnlinkFirst(list, p);
          return Some(p.elem.clientFd), NoAnswer(p.elem, Elems(list.nodes));
        case Missing =>
          DropFirst(list, p, heap);
          return None, Lost(p.elem, Elems(list.nodes));
      }
      i := i + 1;
    }
    Heads(list);
    SweepStops(was[k..], results[i..]);
    return None, if p == null then Finished else Waiting(Elems(list.nodes));
  }

  ghost predicate NoRepeat(nodes: seq<Entry<P.Entry>>) {
    forall i, j | 0 <= i < j < |nodes| :: nodes[i] != nodes[j]
  }

  /** What the head and the first entry's link say of a well-formed list. */
  lemma Heads(list: ListHead<P.Entry>)
    requires list.Valid()
    ensures list.nodes == [] ==> list.first == null
    ensures list.nodes != [] ==> list.first == list.nodes[0] && list.first in list.nodes
    ensures list.nodes != [] ==> list.first.next == if |list.nodes| > 1 then list.nodes[1] else null
    ensures NoRepeat(list.nodes)
  {
  }

  lemma SweepStarts(was: seq<Entry<P.Entry>>, results: seq<Waited>)
    ensures Blocks(was[..0]) == {} && was[0..] == was && results[0..] == results
  {
  }

  /** The next entry to free is none of those already freed. */
  lemma FreedNext(was: seq<Entry<P.Entry>>, k: nat)
    requires NoRepeat(was) && k < |was|
    ensures was[k] in Blocks(was) && was[k] !in Blocks(was[..k])
    ensures Blocks(was[..k + 1]) == Blocks(was[..k]) + {was[k]}
  {
  }

  /** One round of the sweep over a list of entries. */
  lemma SweepRound(was: seq<Entry<P.Entry>>, k: nat, results: seq<Waited>, i: nat)
    requires k < |was| && i < |results|
    ensures was[k..][0] == was[k] && was[k..][1..] == was[k + 1..]
    ensures Swept(Elems(was[k..]), results[i..]) ==
            match results[i]
            case Running => Swept(Elems(was[k..]), results[i + 1..])
            case Exited => Swept(Elems(was[k + 1..]), results[i + 1..])
            case Signalled => NoAnswer(was[k].elem, Elems(was[k + 1..]))
            case Missing => Lost(was[k].elem, Elems(was[k + 1..]))
  {
    assert results[i..][1..] == results[i + 1..];
    assert Elems(was[k..])[1..] == Elems(was[k + 1..]);
  }

  lemma SweepStops(todo: seq<Entry<P.Entry>>, results: seq<Waited>)
    requires todo == [] || results == []
    ensures Swept(Elems(todo), results) == if todo == [] then Finished else Waiting(Elems(todo))
    ensures todo == [] ==> Elems(todo) == []
  {
  }

  /** A sweep can be resumed where it was waiting. */
  lemma {:induction false} SweepResumes(entries: seq<P.Entry>, before: seq<Waited>, after: seq<Waited>)
    ensures Swept(entries, before + after) ==
            match Swept(entries, before)
            case Waiting(todo) => Swept(todo, after)
            case r => r
    decreases |before|
  {
    if before == [] {
      assert before + after == after;
    } else if entries != [] {
      assert (before + after)[0] == before[0] && (before + after)[1..] == before[1..] + after;
      SweepResumes(entries, before[1..], after);
      SweepResumes(entries[1..], before[1..], after);
    }
  }

  /** Only a sweep that has seen every listed child exit comes to its end. */
  lemma {:induction false} FinishedSweepSawAll(entries: seq<P.Entry>, results: seq<Waited>)
    requires Swept(entries, results).Finished?
    ensures multiset(results)[Exited] >= |entries|
    decreases |results|
  {
    if entries != [] {
      assert results == [results[0]] + results[1..];
      FinishedSweepSawAll(if results[0].Running? then entries else entries[1..], results[1..]);
    }
  }

  function StatusOf(c: P.Child): Waited {
    if c.phase.Signalled? then Signalled else if c.phase.Exited? then Exited else Running
  }

  /** The tracker's next steps in the model of processes: the wait, and the removal it leads to. */
  ghost function WaitAndDrop(s: P.State, fd: P.Fd): P.State
    requires P.Enabled(s, P.Wait(fd))
  {
    var s' := P.Next([], s, P.Wait(fd));
    if P.Enabled(s', P.Drop) then P.Next([], s', P.Drop) else s'
  }

  /** One round of the sweep is what the tracker's steps do to the list. */
  lemma SweepIsSteps(s: P.State, fd: P.Fd)
    requires P.ProcessInv(s) && P.Enabled(s, P.Wait(fd))
    ensures var r := Swept(s.tracked, [StatusOf(s.children[fd])]);
            var s' := WaitAndDrop(s, fd);
            && s'.tracked == Left(r)
            && s'.tracker == (if r.NoAnswer? then P.Sending(r.p.clientFd) else P.Scanning(Left(r)))
            && s'.removed == s.removed + (if StatusOf(s.children[fd]).Running? then [] else [fd])
  {
    hide P.MutexInv, P.MainInv, P.ListInv, P.PlacesInv;
    P.HeadIsTracked(s);
    SweepOne(s.tracked, StatusOf(s.children[fd]));
    assert s.tracked[..0] + s.tracked[1..] == s.tracked[1..];
  }

  lemma SweepOne(entries: seq<P.Entry>, w: Waited)
    requires entries != []
    ensures Swept(entries, [w]) ==
            match w
            case Running => Waiting(entries)
            case Exited => if |entries| == 1 then Finished else Waiting(entries[1..])
            case Signalled => NoAnswer(entries[0], entries[1..])
            case Missing => Lost(entries[0], entries[1..])
  {
    assert [w][1..] == [];
  }
}
