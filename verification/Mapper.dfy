/** The registry of remote functions: a list in which newer entries shadow older ones. */
module Mapper {
  import opened CTypes
  import opened ListQueue
  import opened Wire
  import opened Wrappers
  import RpcData

  const FUNCTION_NAME_LENGTH := 255
  const MAX_DESCRIPTION_LENGTH := 1023
  const MAX_PARAMETERS := 255

  /** The union of function pointers; the functions themselves are arbitrary. */
  datatype FunPtr =
    | VoidFun(voidFun: seq<Arg> -> ())
    | IntFun(intFun: seq<Arg> -> int)
    | StrFun(strFun: seq<Arg> -> Option<seq<SChar>>)

  datatype Function = Function(
    name: seq<SChar>,
    description: seq<SChar>,
    returnType: SChar,
    argTypes: seq<SChar>,
    funPtr: FunPtr)

  /**
   `create_function`: an over-long name, then an unknown return type, is refused.
   The description's room and the number of parameters are not checked.
   */
  method CreateFunction(name: seq<SChar>, returnType: SChar, description: Option<seq<SChar>>,
                        funPtr: FunPtr, argc: int, ap: seq<int>)
    returns (code: int, mapper: Option<Function>)
    requires argc <= |ap| && argc <= MAX_PARAMETERS
    requires description.Some? ==> |description.value| <= MAX_DESCRIPTION_LENGTH
    ensures code == if |name| > FUNCTION_NAME_LENGTH then -2 else if !TypeExists(returnType) then -3 else 0
    ensures mapper.Some? <==> code == 0
    ensures code == 0 ==>
              && mapper.value.name == name && mapper.value.returnType == returnType
              && mapper.value.funPtr == funPtr
              && mapper.value.description == (if description.Some? then description.value else [])
              && |mapper.value.argTypes| == (if argc < 0 then 0 else argc)
              && forall k | 0 <= k < argc :: mapper.value.argTypes[k] == ToSChar(ap[k])
  {
    if |name| > FUNCTION_NAME_LENGTH {
      return -2, None;
    }
    if !TypeExists(returnType) {
      return -3, None;
    }
    var argv: seq<SChar> := [];
    var cpt := 0;
    while cpt < argc
      invariant 0 <= cpt && |argv| == cpt <= (if argc < 0 then 0 else argc)
      invariant forall k | 0 <= k < cpt :: argv[k] == ToSChar(ap[k])
    {
      argv := argv + [ToSChar(ap[cpt])];
      cpt := cpt + 1;
    }
    var text := if description.Some? then description.value else [];
    return 0, Some(Function(name, text, returnType, argv, funPtr));
  }

  // ---------------------------------------------------- what the list means

  /** `strcmp(name, f->name) == 0` */
  predicate Named(f: Function, name: seq<SChar>) {
    CStr(f.name) == CStr(name)
  }

  /** The position of the newest entry of that name, or the length of the registry. */
  function IndexOf(fs: seq<Function>, name: seq<SChar>): (k: nat)
    ensures k <= |fs|
    ensures k < |fs| ==> Named(fs[k], name)
    ensures forall j | 0 <= j < k :: !Named(fs[j], name)
  {
    if fs == [] || Named(fs[0], name) then 0 else 1 + IndexOf(fs[1..], name)
  }

  function Lookup(fs: seq<Function>, name: seq<SChar>): Option<Function> {
    var k := IndexOf(fs, name);
    if k < |fs| then Some(fs[k]) else None
  }

  lemma IndexOfUnique(fs: seq<Function>, name: seq<SChar>, k: nat)
    requires k <= |fs| && (k < |fs| ==> Named(fs[k], name))
    requires forall j | 0 <= j < k :: !Named(fs[j], name)
    ensures IndexOf(fs, name) == k
  {
  }

  datatype Op = Add(f: Function) | Remove(name: seq<SChar>) | Clear

  function Apply(fs: seq<Function>, op: Op): seq<Function> {
    match op
    case Add(f) => [f] + fs
    case Remove(name) =>
      var k := IndexOf(fs, name);
      if k < |fs| then fs[..k] + fs[k + 1..] else fs
    case Clear => []
  }

  // ----------------------------------------------------------- the registry

  /** `struct memory` */
  class Memory {
    var size: nat
    var initialized: bool
    const fmap: ListHead<Function>

    ghost predicate Valid()
      reads this, fmap, fmap.nodes
    {
      && fmap.Valid() && size == |fmap.nodes|
      && (!initialized ==> fmap.nodes == [])
    }

    /** The registered functions, newest first. */
    ghost function Contents(): seq<Function>
      reads this, fmap
    {
      Elems(fmap.nodes)
    }

    /** The allocated entries. */
    ghost function Owned(): set<object>
      reads fmap
    {
      set n | n in fmap.nodes
    }

    constructor ()
      ensures Valid() && Contents() == [] && fresh(fmap)
    {
      fmap := new ListHead();
      size := 0;
      initialized := false;
    }
  }

  /** Registers a copy in front of the others. */
  method AddFunction(memory: Memory?, mapper: Function, heap: RpcData.Heap) returns (code: int)
    requires memory != null ==> memory.Valid() && memory.Owned() <= heap.live
    modifies memory, if memory == null then {} else {memory.fmap}, if memory == null then [] else memory.fmap.nodes
    modifies heap
    ensures code == if memory == null then -1 else 0
    ensures memory != null ==>
              && memory.Valid() && memory.Contents() == Apply(old(memory.Contents()), Add(mapper))
              && fresh(memory.fmap.nodes[0]) && memory.fmap.nodes[1..] == old(memory.fmap.nodes)
              && heap.live == old(heap.live) + {memory.fmap.nodes[0]}
  {
    hide Elems;
    if memory == null {
      return -1;
    }
    if !memory.initialized {
      memory.fmap.Init();
      memory.initialized := true;
    }
    var copy := new Entry(mapper);
    heap.Malloc(copy);
    ElemsPush(copy, memory.fmap.nodes);
    memory.fmap.InsertHead(copy);
    memory.size := memory.size + 1;
    return 0;
  }

  lemma ElemsPush(e: Entry<Function>, nodes: seq<Entry<Function>>)
    ensures Elems([e] + nodes) == [e.elem] + Elems(nodes)
  {
  }

  /** The search loop shared by the three functions below. */
  method Find(memory: Memory, funName: seq<SChar>) returns (fmap: Entry?<Function>, ghost k: nat)
    requires memory.Valid()
    ensures k == IndexOf(memory.Contents(), funName)
    ensures fmap == if k < |memory.fmap.nodes| then memory.fmap.nodes[k] else null
  {
    fmap := memory.fmap.first;
    k := 0;
    ghost var nodes := memory.fmap.nodes;
    while fmap != null && !Named(fmap.elem, funName)
      invariant k <= |nodes|
      invariant fmap == if k < |nodes| then nodes[k] else null
      invariant forall j | 0 <= j < k :: !Named(nodes[j].elem, funName)
      decreases |nodes| - k
    {
      fmap := fmap.next;
      k := k + 1;
    }
    IndexOfUnique(memory.Contents(), funName, k);
  }

  /** 1 or 0 as the name is registered, -1 without a registry. */
  method ExistFunction(memory: Memory?, funName: seq<SChar>) returns (code: int)
    requires memory != null ==> memory.Valid()
    ensures code == if memory == null then -1 else if Lookup(memory.Contents(), funName).Some? then 1 else 0
  {
    if memory == null {
      return -1;
    }
    var fmap, k := Find(memory, funName);
    return if fmap != null then 1 else 0;
  }

  /** The newest entry of that name. */
  method GetFunction(memory: Memory?, funName: seq<SChar>) returns (fmap: Entry?<Function>)
    requires memory != null ==> memory.Valid()
    ensures fmap != null <==> memory != null && Lookup(memory.Contents(), funName).Some?
    ensures fmap != null ==>
              fmap in memory.fmap.nodes && Lookup(memory.Contents(), funName) == Some(fmap.elem)
  {
    if memory == null {
      return null;
    }
    ghost var k;
    fmap, k := Find(memory, funName);
  }

  /** Unlinks and releases the newest entry of that name; the others keep their places. */
  method RemoveFunction(memory: Memory?, funName: seq<SChar>, heap: RpcData.Heap) returns (code: int)
    requires memory != null ==> memory.Valid() && memory.Owned() <= heap.live
    modifies memory, if memory == null then {} else {memory.fmap}, if memory == null then [] else memory.fmap.nodes
    modifies heap
    ensures code == if memory != null && old(Lookup(memory.Contents(), funName)).Some? then 0 else -1
    ensures memory == null ==> heap.live == old(heap.live)
    ensures memory != null ==>
              && memory.Valid() && memory.Contents() == Apply(old(memory.Contents()), Remove(funName))
              && memory.Owned() <= old(memory.Owned())
              && heap.live == old(heap.live) - (old(memory.Owned()) - memory.Owned())
  {
    hide IndexOf, Named, Elems;
    if memory == null {
      return -1;
    }
    ghost var nodes := memory.fmap.nodes;
    assert |Elems(nodes)| == |nodes|;
    var fmap, k := Find(memory, funName);
    if fmap != null {
      ElemsRemove(nodes, k);
      OwnedRemove(nodes, k);
      memory.fmap.Remove(fmap, k);
      FreeEntry(fmap, heap);
      memory.size := memory.size - 1;
      assert fmap in nodes;
      assert old(memory.Owned()) - memory.Owned() == {fmap};
      return 0;
    }
    return -1;
  }

  /** Taking one entry out of a list without repetitions leaves the others. */
  lemma OwnedRemove(nodes: seq<Entry<Function>>, k: nat)
    requires k < |nodes| && forall i, j | 0 <= i < j < |nodes| :: nodes[i] != nodes[j]
    ensures var rest := nodes[..k] + nodes[k + 1..];
            && nodes[k] !in rest && (forall n | n in rest :: n in nodes)
            && (forall n | n in nodes && n != nodes[k] :: n in rest)
  {
    forall n | n in nodes && n != nodes[k] ensures n in nodes[..k] + nodes[k + 1..] {
      var j :| 0 <= j < |nodes| && nodes[j] == n;
      assert n == (nodes[..k] + nodes[k + 1..])[if j < k then j else j - 1];
    }
  }

  lemma ElemsRemove(nodes: seq<Entry<Function>>, k: nat)
    requires k < |nodes|
    ensures Elems(nodes[..k] + nodes[k + 1..]) == Elems(nodes)[..k] + Elems(nodes)[k + 1..]
  {
  }

  /** Releases every entry, each once, reading its link before it goes away. */
  method ClearMapper(memory: Memory, heap: RpcData.Heap)
    requires memory.Valid() && memory.Owned() <= heap.live
    modifies memory, memory.fmap, memory.fmap.nodes, heap
    ensures memory.Valid() && memory.Contents() == Apply(old(memory.Contents()), Clear)
    ensures heap.live == old(heap.live) - old(memory.Owned())
  {
    ghost var nodes := memory.fmap.nodes;
    var fmap := memory.fmap.first;
    ghost var k := 0;
    while fmap != null
      invariant k <= |nodes|
      invariant fmap == if k < |nodes| then nodes[k] else null
      invariant forall i {:trigger nodes[i].next} | k <= i < |nodes| ::
                  nodes[i].next == if i + 1 < |nodes| then nodes[i + 1] else null
      invariant heap.live == old(heap.live) - set n | n in nodes[..k]
      decreases |nodes| - k
    {
      var fmapTmp := fmap.next;
      FreeEntry(fmap, heap);
      assert nodes[..k + 1] == nodes[..k] + [fmap];
      fmap := fmapTmp;
      k := k + 1;
    }
    assert nodes[..k] == nodes;
    memory.size := 0;
    memory.fmap.Init();
  }

  // ------------------------------------------------------- shadowing by name

  /** The registry after a history of operations. */
  function Run(ops: seq<Op>): seq<Function> {
    if ops == [] then [] else Apply(Run(ops[..|ops| - 1]), ops[|ops| - 1])
  }

  /**
   A reference that knows nothing of lists: the stack of one name, on which only
   operations on that name (and clearing) act.
   */
  function Stack(ops: seq<Op>, name: seq<SChar>): seq<Function> {
    if ops == [] then [] else
      var s := Stack(ops[..|ops| - 1], name);
      match ops[|ops| - 1]
      case Add(f) => if Named(f, name) then [f] + s else s
      case Remove(n) => if CStr(n) == CStr(name) && s != [] then s[1..] else s
      case Clear => []
  }

  /** The entries of one name, in registry order. */
  function Versions(fs: seq<Function>, name: seq<SChar>): seq<Function> {
    if fs == [] then []
    else (if Named(fs[0], name) then [fs[0]] else []) + Versions(fs[1..], name)
  }

  lemma {:induction false} VersionsConcat(a: seq<Function>, b: seq<Function>, name: seq<SChar>)
    ensures Versions(a + b, name) == Versions(a, name) + Versions(b, name)
  {
    hide Named;
    if a == [] {
      assert a + b == b;
    } else {
      VersionsConcat(a[1..], b, name);
      assert (a + b)[0] == a[0] && (a + b)[1..] == a[1..] + b;
      Assoc(if Named(a[0], name) then [a[0]] else [], Versions(a[1..], name), Versions(b, name));
    }
  }

  lemma {:induction false} NoVersions(fs: seq<Function>, name: seq<SChar>)
    requires forall j | 0 <= j < |fs| :: !Named(fs[j], name)
    ensures Versions(fs, name) == []
  {
    hide Named;
    if fs != [] {
      NoVersions(fs[1..], name);
    }
  }

  /** What removing a name does to the versions of any name. */
  lemma RemoveVersions(fs: seq<Function>, removed: seq<SChar>, name: seq<SChar>)
    ensures var s := Versions(fs, name);
            Versions(Apply(fs, Remove(removed)), name)
            == if CStr(removed) == CStr(name) && s != [] then s[1..] else s
  {
    hide CStr, Versions, IndexOf;
    var k := IndexOf(fs, removed);
    if k < |fs| {
      var a, x, b := fs[..k], fs[k], fs[k + 1..];
      assert fs == a + ([x] + b);
      VersionsConcat(a, [x] + b, name);
      VersionsConcat([x], b, name);
      VersionsConcat(a, b, name);
      OneVersion(x, name);
      if CStr(removed) == CStr(name) {
        NoVersions(a, name);
        assert ([x] + Versions(b, name))[1..] == Versions(b, name);
      }
    } else if CStr(removed) == CStr(name) {
      NoVersions(fs, name);
    }
  }

  lemma OneVersion(f: Function, name: seq<SChar>)
    ensures Versions([f], name) == if Named(f, name) then [f] else []
  {
    assert [f][1..] == [];
  }

  /**
   After any history, the versions of a name are exactly that name's stack, and a
   search finds its top: removing re-exposes the entry it was hiding, and nothing
   done to other names matters.
   */
  lemma {:induction false} LookupIsTopOfStack(ops: seq<Op>, name: seq<SChar>)
    ensures Versions(Run(ops), name) == Stack(ops, name)
    ensures Lookup(Run(ops), name) == if Stack(ops, name) == [] then None else Some(Stack(ops, name)[0])
  {
    hide CStr;
    if ops != [] {
      var before, op := ops[..|ops| - 1], ops[|ops| - 1];
      LookupIsTopOfStack(before, name);
      match op
      case Add(f) => assert ([f] + Run(before))[1..] == Run(before);
      case Remove(n) => RemoveVersions(Run(before), n, name);
      case Clear =>
    }
    var fs := Run(ops);
    var k := IndexOf(fs, name);
    NoVersions(fs[..k], name);
    assert fs == fs[..k] + fs[k..];
    VersionsConcat(fs[..k], fs[k..], name);
  }
}
