/**
 What a request deserves: the verdict of the server's checks, the answer frame,
 and what the client makes of it. The functions themselves are arbitrary.
 */
module Service {
  import opened CTypes
  import opened Mapper
  import opened Wire
  import opened Wrappers

  /** The local call, through the union member its return type selects. */
  function Call(f: Function, argv: seq<Arg>): Arg
    requires Callable(f)
  {
    match f.funPtr
    case VoidFun(_) => Void
    case IntFun(intFun) => Int(intFun(argv))
    case StrFun(strFun) => Str(if strFun(argv).Some? then strFun(argv).value else [])
  }

  /** The pointer is of the kind the return type announces; arities fit the dispatcher. */
  predicate Callable(f: Function) {
    && |f.argTypes| <= MAX_PARAMETERS
    && TypeExists(f.returnType)
    && (f.returnType == TY_VOID <==> f.funPtr.VoidFun?)
    && (f.returnType == TY_INT <==> f.funPtr.IntFun?)
  }

  /** Given these arguments, the function returns a NULL string. */
  predicate ReturnsNull(f: Function, argv: seq<Arg>) {
    f.funPtr.StrFun? && f.funPtr.strFun(argv).None?
  }

  /** Serializing what the function returns is defined: no overflow in its value or size. */
  ghost predicate Serializable(f: Function, argv: seq<Arg>) {
    && Callable(f)
    && (!ReturnsNull(f, argv) ==>
          Call(f, argv).Valid() && |AnswerFrame(RET_OK, Some(Call(f, argv)))| <= INT_MAX)
  }

  /** Given these arguments, the function returns something an answer can carry. */
  ghost predicate Answerable(f: Function, argv: seq<Arg>) {
    Serializable(f, argv) && !ReturnsNull(f, argv)
  }

  // ---------------------------------------------------------------- verdicts

  /** `verification_function`: the number of arguments, their types, the return type. */
  function FirstMismatch(f: Function, m: Message): Option<SChar>
    requires m.argc >= 0 ==> m.argc == |m.argv|
  {
    if |f.argTypes| != m.argc then Some(WRONG_NUMBER_ARGS)
    else if exists i | 0 <= i < m.argc :: f.argTypes[i] != m.argv[i].Type() then Some(RET_WRONG_ARG)
    else if f.returnType != m.returnType then Some(RET_WRONG_TYP)
    else None
  }

  datatype Verdict = Refused(status: SChar) | Accepted(f: Function)

  function Check(fs: seq<Function>, m: Message): Verdict
    requires m.argc >= 0 ==> m.argc == |m.argv|
  {
    match Lookup(fs, m.command)
    case None => Refused(RET_UNKNOWN_FUNC)
    case Some(f) =>
      match FirstMismatch(f, m)
      case Some(status) => Refused(status)
      case None => Accepted(f)
  }

  function AnswerTo(fs: seq<Function>, m: Message): seq<SChar>
    requires m.argc >= 0 ==> m.argc == |m.argv|
    requires Check(fs, m).Accepted? ==> Callable(Check(fs, m).f)
  {
    match Check(fs, m)
    case Refused(status) => AnswerFrame(status, None)
    case Accepted(f) => AnswerFrame(RET_OK, Some(Call(f, m.argv)))
  }

  /** What reading a connection makes a child do. */
  datatype Arrival =
    | Arrived(m: Message)  // it goes on with this request
    | Exits                // it ends without an answer
    | Open                 // C leaves it open: it depends on memory nobody has written

  /** What `recv` stores for a buffer of that size: all there is, up to the size. */
  function Delivered(stream: seq<SChar>, size: nat): seq<SChar> {
    if |stream| < size then stream else stream[..size]
  }

  /**
   The request in what a client has sent: a size header, then what there is of that
   many bytes, which must not decode to one byte less.
   */
  function Request(bytes: seq<SChar>): (r: Arrival)
    ensures r.Arrived? && r.m.argc >= 0 ==> r.m.argc == |r.m.argv|
  {
    if |bytes| < 4 || BytesInt(bytes[..4]) < 0 then Open
    else
      var size: int := BytesInt(bytes[..4]);
      match DecodeMessage(Delivered(bytes[4..], size))
      case Done(m, used) => if used - size == -1 then Exits else Arrived(m)
      case Failed => Exits
      case Undefined => Open
  }

  /** If the request is accepted, the function it calls answers it. */
  ghost predicate Served(fs: seq<Function>, m: Message)
    requires m.argc >= 0 ==> m.argc == |m.argv|
  {
    Check(fs, m).Accepted? ==> Answerable(Check(fs, m).f, m.argv)
  }

  /** All a child ever sends of its own accord. */
  datatype Effect = Sends(frame: seq<SChar>) | SendsNothing | Unknown

  /**
   The child's effect: unknown only if C leaves open what request there is, or if the
   function called returns nothing an answer can carry.
   */
  ghost function ServerReply(fs: seq<Function>, bytes: seq<SChar>): Effect {
    match Request(bytes)
    case Arrived(m) => if Served(fs, m) then Sends(AnswerTo(fs, m)) else Unknown
    case Exits => SendsNothing
    case Open => Unknown
  }

  // ------------------------------------------------------- the client's side

  /** `getAnswer`: the code it returns, the status it prints, the value it stores. */
  datatype Outcome = Outcome(code: int, printed: Option<int>, stored: Option<Arg>)

  function AnswerOutcome(typ: SChar, body: seq<SChar>): Option<Outcome> {
    match DecodeAnswer(body)
    case Undefined => None
    case Failed => Some(Outcome(-1, Some(-1), None))
    case Done(Bare(status), _) => Some(Outcome(-1, Some(status), None))
    case Done(Reply(_, t, v), _) =>
      if t != typ then Some(Outcome(-1, Some(RET_WRONG_TYP), None))
      else Some(Outcome(0, None, if v == Void then None else Some(v)))
  }

  /**
   What the client makes of all the server has sent; `None` where it depends on memory
   nobody has written, as when the connection ends before the frame does.
   */
  function ClientOutcome(typ: SChar, stream: seq<SChar>): Option<Outcome> {
    if |stream| < 4 then None
    else
      var size: int := BytesInt(stream[..4]);
      if size < 0 then Some(Outcome(-1, None, None))
      else
        var body := Delivered(stream[4..], size);
        if |body| == size || (body != [] && body[0] != RET_OK) then AnswerOutcome(typ, body) else None
  }

  /** What the caller should see, said without any bytes. */
  function LocalOutcome(fs: seq<Function>, m: Message): Outcome
    requires m.argc >= 0 ==> m.argc == |m.argv|
    requires Check(fs, m).Accepted? ==> Callable(Check(fs, m).f)
  {
    match Check(fs, m)
    case Refused(status) => Outcome(-1, Some(status), None)
    case Accepted(f) => var v := Call(f, m.argv); Outcome(0, None, if v == Void then None else Some(v))
  }

  /** The child reads back the request that was sent, whatever is sent after it. */
  lemma RequestArrives(m: Message, rest: seq<SChar>)
    requires m.Valid() && m.Short()
    ensures Request(Frame(m) + rest) == Arrived(m)
  {
    hide DecodeMessage, Body, IntBytes, BytesInt;
    IntBytesRoundTrip(|Body(m)|);
    FrameParts(Body(m), rest);
    var bytes := Frame(m) + rest;
    assert bytes[4..][..|Body(m)|] == bytes[4..4 + |Body(m)|] == Body(m);
    assert Body(m) + [] == Body(m);
    MessageRoundTrip(m, []);
  }

  /**
   A frame cut short is decoded as far as it goes: here the header announces two bytes
   more than arrive, and the child goes on all the same.
   */
  lemma ShortFrameExample()
    ensures var m := Message([], TY_VOID, 0, []);
            Request(IntBytes(11) + Body(m)) == Arrived(m)
  {
    hide DecodeMessage, IntBytes, BytesInt;
    var m := Message([], TY_VOID, 0, []);
    assert |Body(m)| == 9;
    IntBytesRoundTrip(11);
    var bytes := IntBytes(11) + Body(m);
    assert bytes[..4] == IntBytes(11) && bytes[4..] == Body(m) == Body(m) + [];
    MessageRoundTrip(m, []);
  }

  /**
   The remote call refines the local call: for every registry and every request
   that can be sent, the client ends with the code, the status and the value that
   the checks and the newest function of that name determine.
   */
  lemma RemoteIsLocal(fs: seq<Function>, m: Message)
    requires m.Valid() && m.Short() && Served(fs, m)
    ensures ServerReply(fs, Frame(m)).Sends?
    ensures ClientOutcome(m.returnType, ServerReply(fs, Frame(m)).frame) == Some(LocalOutcome(fs, m))
  {
    hide DecodeAnswer, EncodeArg, Frame, Request, IntBytes, BytesInt, Lookup, Callable, ClientOutcome;
    RequestArrives(m, []);
    assert Frame(m) + [] == Frame(m);
    match Check(fs, m)
    case Refused(status) =>
      RefusalIsError(fs, m);
      ErrorRoundTrip(status);
      WholeFrame(m.returnType, AnswerBody(status, None));
    case Accepted(f) =>
      CallType(f, m.argv);
      ReturnTypeAgrees(fs, m);
      var a := Call(f, m.argv);
      AnswerRoundTrip(a);
      WholeFrame(m.returnType, AnswerBody(RET_OK, Some(a)));
  }

  /** Of a whole frame the client decodes the body. */
  lemma WholeFrame(typ: SChar, body: seq<SChar>)
    requires |body| <= INT_MAX
    ensures ClientOutcome(typ, IntBytes(|body|) + body) == AnswerOutcome(typ, body)
  {
    hide IntBytes, BytesInt, AnswerOutcome;
    HeaderOf(body);
    assert body[..|body|] == body;
  }

  lemma RefusalIsError(fs: seq<Function>, m: Message)
    requires m.argc >= 0 ==> m.argc == |m.argv|
    requires Check(fs, m).Refused?
    ensures Check(fs, m).status != RET_OK
  {
  }

  lemma CallType(f: Function, argv: seq<Arg>)
    requires Callable(f)
    ensures Call(f, argv).Type() == f.returnType
  {
  }

  lemma ReturnTypeAgrees(fs: seq<Function>, m: Message)
    requires m.argc >= 0 ==> m.argc == |m.argv|
    requires Check(fs, m).Accepted?
    ensures Check(fs, m).f.returnType == m.returnType && |Check(fs, m).f.argTypes| == |m.argv|
  {
  }

  lemma HeaderOf(body: seq<SChar>)
    requires |body| <= INT_MAX
    ensures var s := IntBytes(|body|) + body;
            BytesInt(s[..4]) == |s| - 4 && s[4..] == body
  {
    hide IntBytes, BytesInt;
    IntBytesRoundTrip(|body|);
    assert (IntBytes(|body|) + body)[..4] == IntBytes(|body|);
  }
}
