/**
 One request through the server: the steps of a forked child, from the bytes on
 its connection to the bytes it sends back. A step that ends the process returns
 what it sent instead of a value to go on with.
 */
module Server {
  import opened CTypes
  import opened Mapper
  import opened RpcData
  import opened Service
  import opened Wire
  import opened Wrappers
  import Dispatcher

  /** A connected pair of sockets, as the bytes sent each way. */
  class Connection {
    var toServer: seq<SChar>
    var toClient: seq<SChar>

    constructor ()
      ensures toServer == [] && toClient == []
    {
      toServer, toClient := [], [];
    }
  }

  /** `send_error`: an answer without a value, after which the process ends. */
  method SendError(client: Connection, c: SChar, heap: Heap)
    requires c != RET_OK
    modifies client`toClient, heap
    ensures client.toClient == old(client.toClient) + AnswerFrame(c, None)
  {
    var size, msg := SerializeAnswer(c, None, heap);
    client.toClient := client.toClient + msg[..];
  }

  /**
   `read_msg`: the header, what there is of that many bytes, and the request they hold.
   `Failed` where the process ends without an answer, `Undefined` where it would read
   what `recv` has not stored.
   */
  method ReadMsg(client: Connection, m: MessageStruct, heap: Heap) returns (r: Decoded<int>)
    modifies m, heap
    ensures match Request(client.toServer)
            case Arrived(v) => r.Done? && m.Formed() && m.Value() == v && fresh(m.Owned())
            case Exits => r.Failed?
            case Open => r.Undefined?
  {
    hide DecodeMessage, BytesInt, MessageStruct.Formed, MessageStruct.Value;
    var bytes := client.toServer;
    if |bytes| < 4 {
      return Undefined;
    }
    var size: int := BytesInt(bytes[..4]);
    if size < 0 {
      return Undefined;
    }
    var stored := Delivered(bytes[4..], size);
    var from := heap.MallocChars(|stored|);
    Memcpy(from, 0, stored);
    assert from[..] == stored;
    r := DeserializeMessage(m, size, from, heap);
    if !r.Done? {
      return r;
    }
    if r.value == -1 {
      return Failed;
    }
    heap.Free(from);
  }

  /** `search_function`: the newest entry, or an error answer and the end. */
  method SearchFunction(client: Connection, memory: Memory, command: seq<SChar>, heap: Heap)
    returns (f: Option<Function>)
    requires memory.Valid()
    modifies client`toClient, heap
    ensures f == Lookup(memory.Contents(), command)
    ensures client.toClient == old(client.toClient)
                               + if f.None? then AnswerFrame(RET_UNKNOWN_FUNC, None) else []
  {
    var ret := ExistFunction(memory, command);
    if ret != 1 {
      SendError(client, RET_UNKNOWN_FUNC, heap);
      return None;
    }
    var entry := GetFunction(memory, command);
    assert client.toClient + [] == client.toClient;
    return Some(entry.elem);
  }

  /** `verification_function`: false once an error answer has ended the process. */
  method VerificationFunction(client: Connection, f: Function, m: Message, heap: Heap) returns (ok: bool)
    requires m.argc >= 0 ==> m.argc == |m.argv|
    modifies client`toClient, heap
    ensures ok <==> FirstMismatch(f, m).None?
    ensures client.toClient == old(client.toClient)
                               + match FirstMismatch(f, m)
                                 case None => []
                                 case Some(status) => AnswerFrame(status, None)
  {
    hide AnswerFrame;
    if |f.argTypes| != m.argc {
      SendError(client, WRONG_NUMBER_ARGS, heap);
      return false;
    }
    for i := 0 to |f.argTypes|
      invariant forall k | 0 <= k < i :: f.argTypes[k] == m.argv[k].Type()
      invariant client.toClient == old(client.toClient)
    {
      if f.argTypes[i] != m.argv[i].Type() {
        SendError(client, RET_WRONG_ARG, heap);
        return false;
      }
    }
    if f.returnType != m.returnType {
      SendError(client, RET_WRONG_TYP, heap);
      return false;
    }
    assert client.toClient + [] == client.toClient;
    return true;
  }

  /** A returned string, in the block the function allocated for it. */
  method KeepString(s: seq<SChar>, heap: Heap) returns (chars: array<SChar>)
    requires NulFree(s)
    modifies heap
    ensures fresh(chars) && heap.live == old(heap.live) + {chars}
    ensures 0 in chars[..] && CStr(chars[..]) == s
  {
    chars := heap.MallocChars(|s| + 1);
    Memcpy(chars, 0, s);
    chars[|s|] := 0;
    assert chars[..][..|s|] == s;
    Terminated(chars[..], |s|);
    CStrUnique(s, |s|);
    assert s[..|s|] == s;
  }

  /** Calls the function and keeps what it returned, if not NULL, in a block of its own. */
  method CallInto(f: Function, argv: seq<Arg>, heap: Heap) returns (args: RpcArg)
    requires Callable(f) && (!ReturnsNull(f, argv) ==> Call(f, argv).Valid())
    modifies heap
    ensures args.typ == f.returnType
    ensures ReturnsNull(f, argv) <==> args.typ == TY_STR && args.data == Null
    ensures !ReturnsNull(f, argv) ==> args.Tagged() && args.Value() == Call(f, argv)
    ensures fresh(args.Blocks()) && heap.live == old(heap.live) + args.Blocks()
  {
    match f.funPtr {
      case VoidFun(voidFun) =>
        return RpcArg(TY_VOID, Null);
      case IntFun(intFun) =>
        var cell := heap.MallocInt();
        cell.value := intFun(argv);
        return RpcArg(TY_INT, IntPtr(cell));
      case StrFun(strFun) =>
        if strFun(argv).None? {
          return RpcArg(TY_STR, Null);
        }
        var chars := KeepString(strFun(argv).value, heap);
        return RpcArg(TY_STR, StrPtr(chars));
    }
  }

  /**
   `execute_function`: picks the case of the generated dispatcher for this many
   arguments, passes on the arguments that case lists, and serializes the result. A
   NULL string leaves no answer.
   */
  method ExecuteFunction(f: Function, argv: seq<Arg>, heap: Heap) returns (frame: array?<SChar>)
    requires Serializable(f, argv) && |argv| == |f.argTypes|
    modifies heap
    ensures frame == null <==> ReturnsNull(f, argv)
    ensures frame != null ==> fresh(frame) && frame[..] == AnswerFrame(RET_OK, Some(Call(f, argv)))
    ensures heap.live == old(heap.live) + Block(frame)
  {
    hide AnswerFrame, Dispatcher.Select, Dispatcher.Passed, Arg.Valid, ReturnsNull;
    Dispatcher.SwitchPassesAll(MAX_PARAMETERS, argv);
    var chosen := Dispatcher.Select(Dispatcher.Cases(MAX_PARAMETERS), |argv|);
    var passed := Dispatcher.Passed(argv, chosen.value);
    var args := CallInto(f, passed, heap);
    if args.typ == TY_STR && args.data == Null {
      return null;
    }
    var size, answer := SerializeAnswer(RET_OK, Some(args), heap);
    frame := answer;
    match args.data {
      case IntPtr(cell) => heap.Free(cell);
      case StrPtr(chars) => heap.Free(chars);
      case _ =>
    }
  }

  /** What a called function finds behind an argument pointer. */
  function ReadArg(arg: RpcArg): (a: Arg)
    reads arg.Blocks()
    requires arg.Tagged()
    ensures a == arg.Value()
  {
    if arg.typ == TY_INT then Int(arg.data.cell.value)
    else if arg.typ == TY_STR then Str(CStr(arg.data.chars[..]))
    else Void
  }

  /** Reads a request's fields and its arguments' blocks. */
  method Load(msg: MessageStruct) returns (m: Message)
    requires msg.Formed()
    ensures m == msg.Value()
  {
    var argv := [];
    ghost var vs := msg.Value().argv;
    if msg.argv != null {
      for k := 0 to msg.argc
        invariant argv == vs[..k]
      {
        assert msg.argv[k] == msg.Args()[k];
        argv := argv + [ReadArg(msg.argv[k])];
      }
      assert vs[..msg.argc] == vs;
    }
    m := Message(msg.command[..msg.commandLength], msg.returnType, msg.argc, argv);
  }

  /** The request on the connection, if the child gets as far as having one. */
  method ReadRequest(client: Connection, heap: Heap) returns (arrival: Arrival)
    modifies heap
    ensures arrival == Request(client.toServer)
  {
    hide Request, MessageStruct.Formed, MessageStruct.Value;
    var msg := new MessageStruct();
    var r := ReadMsg(client, msg, heap);
    if !r.Done? {
      return if r.Failed? then Exits else Open;
    }
    var value := Load(msg);
    return Arrived(value);
  }

  /**
   `execute_client`: over any registry and any bytes on the connection, the child
   sends exactly what they determine. Where they leave it open, nothing is claimed.
   */
  method ExecuteClient(client: Connection, memory: Memory, heap: Heap)
    requires memory.Valid()
    requires match Request(client.toServer)
             case Arrived(m) =>
               var verdict := Check(memory.Contents(), m);
               verdict.Accepted? ==> Serializable(verdict.f, m.argv)
             case _ => true
    modifies client`toClient, heap
    ensures match ServerReply(memory.Contents(), client.toServer)
            case Sends(frame) => client.toClient == old(client.toClient) + frame
            case SendsNothing => client.toClient == old(client.toClient)
            case Unknown => true
  {
    hide Request, AnswerFrame, Lookup, FirstMismatch, Serializable, ReturnsNull;
    assert client.toClient + [] == client.toClient;
    ghost var fs := memory.Contents();
    var request := ReadRequest(client, heap);
    if !request.Arrived? {
      return;
    }
    var m := request.m;
    var f := SearchFunction(client, memory, m.command, heap);
    if f.None? {
      return;
    }
    var ok := VerificationFunction(client, f.value, m, heap);
    if !ok {
      return;
    }
    ReturnTypeAgrees(fs, m);
    var frame := ExecuteFunction(f.value, m.argv, heap);
    if frame != null {
      client.toClient := client.toClient + frame[..];
    }
  }
}
