/**
 The client's side of a call, and the whole call: build the request, send it, let
 the server's child answer, read the answer, release everything.
 */
module Client {
  import opened CTypes
  import opened Mapper
  import opened RpcData
  import opened Server
  import opened Service
  import opened Wire
  import opened Wrappers

  /** The memory the caller's `ret` points to, large enough for any answer. */
  class Ret {
    var value: Arg

    constructor (value: Arg)
      ensures this.value == value
    {
      this.value := value;
    }
  }

  /** `sendCmd` */
  method SendCmd(server: Connection, m: MessageStruct, heap: Heap)
    requires m.Formed() && m.Value().Valid()
    modifies server`toServer, heap
    ensures server.toServer == old(server.toServer) + Frame(old(m.Value()))
    ensures heap.live == old(heap.live)
  {
    var size, serial := SerializeMessage(m, heap);
    server.toServer := server.toServer + serial[..];
    heap.Free(serial);
  }

  /** The effect of an outcome on the caller's memory; NULL is never written. */
  function Stored(ret: Option<Arg>, before: Arg): Arg {
    if ret.Some? then ret.value else before
  }

  /**
   `getAnswer`, on whatever the server has sent by the end of the connection. Nothing
   stays allocated. Where the outcome would depend on memory that `recv` has not
   written, nothing is claimed.
   */
  method GetAnswer(server: Connection, typ: SChar, ret: Ret?, heap: Heap)
    returns (code: int, printed: Option<int>)
    requires TypeExists(typ)
    modifies ret, heap
    ensures match ClientOutcome(typ, server.toClient)
            case None => true
            case Some(outcome) =>
              && code == outcome.code && printed == outcome.printed
              && (ret != null ==> ret.value == Stored(outcome.stored, old(ret.value)))
              && heap.live == old(heap.live)
  {
    hide DecodeAnswer, BytesInt;
    if |server.toClient| < 4 {
      return -1, None;
    }
    var msgSize: int := BytesInt(server.toClient[..4]);
    if msgSize < 0 {
      return -1, None;
    }
    var msg := heap.MallocChars(msgSize);
    ghost var body := Delivered(server.toClient[4..], msgSize);
    Memcpy(msg, 0, Delivered(server.toClient[4..], msgSize));
    assert |body| == msgSize ==> msg[..] == body;
    var status, retArg := DeserializeAnswer(msg, heap);
    ReplyIsOk(msg[..]);
    FirstByteDecides(body, msg[..]);
    if status.None? {
      return -1, None;
    }
    if status.value != RET_OK {
      heap.Free(msg);
      return -1, status;
    }
    code, printed := 0, None;
    if retArg.typ != typ {
      code, printed := -1, Some(RET_WRONG_TYP);
    } else if retArg.typ != TY_VOID && ret != null {
      ret.value := ReadArg(retArg);
    }
    match retArg.data {
      case IntPtr(cell) => heap.Free(cell);
      case StrPtr(chars) => heap.Free(chars);
      case _ =>
    }
    heap.Free(msg);
  }

  /** An error status is all that is read, whatever the rest of the block holds. */
  lemma FirstByteDecides(body: seq<SChar>, block: seq<SChar>)
    requires |body| <= |block| && block[..|body|] == body
    ensures body != [] && body[0] != RET_OK ==> DecodeAnswer(body) == DecodeAnswer(block) == Done(Bare(body[0]), 1)
  {
    assert body != [] ==> block[0] == block[..|body|][0];
  }

  /** A decoded value always comes with status OK, and a bare status is never OK. */
  lemma ReplyIsOk(body: seq<SChar>)
    ensures match DecodeAnswer(body)
            case Done(Reply(status, typ, v), _) =>
              status == RET_OK && (typ == TY_VOID ==> v == Void) && (typ == TY_INT ==> v.Int?) && (typ == TY_STR ==> v.Str?)
            case Done(Bare(status), _) => status != RET_OK
            case _ => true
  {
    hide DecodeInteger;
  }

  /**
   `transmition` over a new connection that a child of the server handles: the caller
   gets what the checks and the newest function of that name determine.
   */
  method Transmition(ret: Ret?, msg: MessageStruct, conn: Connection, heap: Heap, memory: Memory,
                     serverHeap: Heap)
    returns (code: int, printed: Option<int>)
    requires heap != serverHeap && memory.Valid()
    requires msg.Formed() && msg.Value().Valid() && msg.Value().Short() && TypeExists(msg.returnType)
    requires Served(memory.Contents(), msg.Value())
    requires conn.toServer == [] && conn.toClient == []
    modifies ret, conn, heap, serverHeap
    ensures var outcome := old(LocalOutcome(memory.Contents(), msg.Value()));
            && code == outcome.code && printed == outcome.printed
            && (ret != null ==> ret.value == Stored(outcome.stored, old(ret.value)))
    ensures heap.live == old(heap.live)
  {
    hide Arg.Valid, Arg.Short, Message.Valid, Message.Short, LocalOutcome, ClientOutcome, ServerReply;
    hide MessageStruct.Formed, MessageStruct.Value, Frame, Check, Request, Serializable, ReturnsNull;
    ghost var fs, m := memory.Contents(), msg.Value();
    ReturnType(msg);
    SendCmd(conn, msg, heap);
    assert conn.toServer == Frame(m);
    RequestArrives(m, []);
    assert Frame(m) + [] == Frame(m);
    ExecuteClient(conn, memory, serverHeap);
    RemoteIsLocal(fs, m);
    assert conn.toClient == ServerReply(fs, Frame(m)).frame;
    code, printed := GetAnswer(conn, msg.returnType, ret, heap);
  }

  lemma ReturnType(m: MessageStruct)
    requires m.Formed()
    ensures m.Value().returnType == m.returnType
  {
  }

  // ------------------------------------------------------- variable arguments

  /** The variable arguments: pairs of a pointer and a type, up to a NULL pointer. */
  function Listed(ap: seq<(Data, int)>): seq<RpcArg> {
    if ap == [] || ap[0].0.Null? then [] else [RpcArg(ToSChar(ap[0].1), ap[0].0)] + Listed(ap[1..])
  }

  lemma {:induction false} ListedIs(ap: seq<(Data, int)>, n: nat)
    requires n < |ap| && ap[n].0.Null? && forall k | 0 <= k < n :: !ap[k].0.Null?
    ensures |Listed(ap)| == n && forall k | 0 <= k < n :: Listed(ap)[k] == RpcArg(ToSChar(ap[k].1), ap[k].0)
  {
    if n > 0 {
      ListedIs(ap[1..], n - 1);
      assert forall k | 0 < k < n :: Listed(ap)[k] == Listed(ap[1..])[k - 1];
    }
  }

  /** The two walks of `external_call`: one counts the arguments, one stores them. */
  method CollectArgs(ap: seq<(Data, int)>, heap: Heap) returns (args: array<RpcArg>)
    requires exists k | 0 <= k < |ap| :: ap[k].0.Null?
    modifies heap
    ensures fresh(args) && args[..] == Listed(ap) && heap.live == old(heap.live) + {args}
  {
    var nbArgs := 0;
    while !ap[nbArgs].0.Null?
      invariant nbArgs < |ap| && forall k | 0 <= k < nbArgs :: !ap[k].0.Null?
      decreases |ap| - nbArgs
    {
      nbArgs := nbArgs + 1;
    }
    ListedIs(ap, nbArgs);
    args := heap.MallocArgs(nbArgs);
    var i := 0;
    while !ap[i].0.Null?
      invariant i <= nbArgs && args[..i] == Listed(ap)[..i]
      invariant heap.live == old(heap.live) + {args}
      decreases nbArgs - i
    {
      args[i] := RpcArg(ToSChar(ap[i].1), ap[i].0);
      i := i + 1;
    }
    assert args[..] == args[..i];
  }

  /** The part of `external_call` before the transmission. */
  method PrepareRequest(cmd: array<SChar>, typ: SChar, ap: seq<(Data, int)>, heap: Heap)
    returns (msg: MessageStruct, args: array<RpcArg>)
    requires 0 in cmd[..] && TypeExists(typ)
    requires exists k | 0 <= k < |ap| :: ap[k].0.Null?
    requires AllTagged(Listed(ap)) && TypesExist(Listed(ap))
    modifies heap
    ensures fresh(msg) && msg.Formed() && msg.Value() == old(Sent(cmd, typ, Listed(ap)))
    ensures fresh(args) && fresh(msg.Owned()) && args !in msg.Owned()
    ensures heap.live == old(heap.live) + {args} + msg.Owned()
    ensures msg.returnType == typ
  {
    hide MessageStruct.Formed, MessageStruct.Value, CStr, Listed;
    ghost var m := Sent(cmd, typ, Listed(ap));
    args := CollectArgs(ap, heap);
    msg := new MessageStruct();
    assert forall k | 0 <= k < args.Length :: args[k] == Listed(ap)[k];
    var ok := CreateMessage(msg, cmd, typ, args.Length, args, heap);
    Made(msg, m);
  }

  /**
   `external_call` against a server whose child handles this connection: the
   caller gets the value of the newest function of that name when the request
   matches its signature, and otherwise -1, the status of the first check that
   fails, and an untouched `ret`. Every block the call allocated is released.
   */
  method ExternalCall(cmd: array<SChar>, typ: SChar, ret: Ret?, ap: seq<(Data, int)>,
                      heap: Heap, memory: Memory, serverHeap: Heap)
    returns (code: int, printed: Option<int>)
    requires heap != serverHeap && memory.Valid()
    requires 0 in cmd[..] && TypeExists(typ)
    requires exists k | 0 <= k < |ap| :: ap[k].0.Null?
    requires AllTagged(Listed(ap)) && TypesExist(Listed(ap))
    requires var m := Sent(cmd, typ, Listed(ap)); m.Valid() && m.Short() && Served(memory.Contents(), m)
    modifies ret, heap, serverHeap
    ensures var outcome := old(LocalOutcome(memory.Contents(), Sent(cmd, typ, Listed(ap))));
            && code == outcome.code && printed == outcome.printed
            && (ret != null ==> ret.value == Stored(outcome.stored, old(ret.value)))
    ensures heap.live == old(heap.live)
  {
    hide Arg.Valid, Arg.Short, Message.Valid, Message.Short, LocalOutcome, Check, Callable, Lookup, Listed;
    hide MessageStruct.Formed, MessageStruct.Value, CStr, AllTagged, TypesExist;
    var msg, args := PrepareRequest(cmd, typ, ap, heap);
    var conn := new Connection();
    code, printed := Transmition(ret, msg, conn, heap, memory, serverHeap);
    FreeMessage(msg, heap);
    heap.Free(args);
  }

  /** The request an `external_call` stands for. */
  ghost function Sent(cmd: array<SChar>, typ: SChar, args: seq<RpcArg>): Message
    reads cmd, AllBlocks(args)
    requires AllTagged(args)
  {
    Message(CStr(cmd[..]), typ, |args|, Values(args))
  }

  /** A structure whose fields are those of `m` stands for `m`. */
  lemma Made(msg: MessageStruct, m: Message)
    requires msg.Formed() && |m.argv| == m.argc
    requires var v := msg.Value(); v.command == m.command && v.returnType == m.returnType && v.argc == m.argc
    requires |msg.Value().argv| == m.argc ==> forall k | 0 <= k < m.argc :: msg.Value().argv[k] == m.argv[k]
    ensures msg.Value() == m && msg.returnType == m.returnType
  {
    assert msg.Value().argv == m.argv;
  }
}
