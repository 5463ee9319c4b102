/**
 The wire format of requests and answers: what the bytes of a frame are, what
 a reader makes of arbitrary bytes, and how the two fit together.
 */
module Wire {
  import opened CTypes
  import opened Wrappers

  const TY_VOID: SChar := 0
  const TY_INT: SChar := 1
  const TY_STR: SChar := 2

  const RET_OK: SChar := 0
  const RET_UNKNOWN_FUNC: SChar := 1
  const RET_WRONG_ARG: SChar := 2
  const RET_NO_ANSWER: SChar := 3
  const RET_WRONG_TYP: SChar := 4
  const WRONG_NUMBER_ARGS: SChar := 5

  predicate TypeExists(typ: SChar) {
    TY_VOID <= typ <= TY_STR
  }

  /** An argument or a returned value, without its C representation. */
  datatype Arg = Void | Int(i: int) | Str(s: seq<SChar>) {
    function Type(): (typ: SChar)
      ensures TypeExists(typ)
    {
      match this
      case Void => TY_VOID
      case Int(_) => TY_INT
      case Str(_) => TY_STR
    }

    /** Negating the value cannot overflow, and the characters are those of a C string. */
    predicate Valid() {
      match this
      case Void => true
      case Int(i) => -INT_MAX <= i <= INT_MAX
      case Str(s) => NulFree(s)
    }

    /** The length of a string argument survives its conversion to a `char`. */
    predicate Short() {
      Str? ==> |s| <= 127
    }
  }

  datatype Message = Message(command: seq<SChar>, returnType: SChar, argc: int, argv: seq<Arg>) {
    /** What `create_message` builds from valid arguments, when its frame size fits an `int`. */
    predicate Valid() {
      && NulFree(command)
      && argc == |argv| <= INT_MAX
      && AllValid(argv)
      && |Body(this)| <= INT_MAX - 4
    }

    predicate Short() {
      AllShort(argv)
    }
  }

  // ------------------------------------------------------------ integers

  /** Decimal digits, most significant first; none for zero. */
  function Digits(n: nat): seq<SChar> {
    if n == 0 then [] else Digits(n / 10) + [48 + n % 10]
  }

  /** The decimal numeral of an integer. */
  function Numeral(i: int): seq<SChar> {
    if i == 0 then [48]
    else if i < 0 then [45] + Digits(-i)
    else Digits(i)
  }

  function EncodeInteger(i: int): seq<SChar> {
    [ToSChar(|Numeral(i)|)] + Numeral(i)
  }

  predicate IsInt32(i: int) {
    INT_MIN <= i <= INT_MAX
  }

  /**
   What the reading loop accumulates from these characters, each worth its distance
   from '0'; `None` once an `int` would overflow.
   */
  function Accumulate(ds: seq<SChar>): Option<Int32> {
    if ds == [] then Some(0)
    else
      match Accumulate(ds[..|ds| - 1])
      case None => None
      case Some(v) =>
        var tenfold := 10 * v as int;
        var next := tenfold + (ds[|ds| - 1] as int - 48);
        if IsInt32(tenfold) && IsInt32(next) then Some(next) else None
  }

  /** A length byte, an optional sign, then digits up to that length. */
  function DecodeInteger(b: seq<SChar>): (r: Decoded<int>)
    ensures !r.Failed? && (r.Done? ==> 1 <= r.used <= |b| && IsInt32(r.value))
  {
    if |b| < 2 then Undefined
    else
      var size := b[0] as int + 1;
      var start := if b[1] == 45 then 2 else 1;
      var end := if size < start then start else size;
      if end > |b| then Undefined
      else
        match Accumulate(b[start..end])
        case None => Undefined
        case Some(magnitude) =>
          if start == 1 then Done(magnitude, end)
          else if magnitude == INT_MIN then Undefined
          else Done(-magnitude, end)
  }

  // ----------------------------------------------------------- arguments

  function EncodeArg(a: Arg): seq<SChar> {
    match a
    case Void => [TY_VOID]
    case Int(i) => [TY_INT] + EncodeInteger(i)
    case Str(s) => [TY_STR] + [ToSChar(|s|)] + s
  }

  function EncodeArgs(argv: seq<Arg>): seq<SChar> {
    if argv == [] then [] else EncodeArg(argv[0]) + EncodeArgs(argv[1..])
  }

  /**
   A negative length makes `malloc` refuse a huge size, except for -1: the block is
   then empty and the copy runs past it.
   */
  function DecodeArg(b: seq<SChar>): (r: Decoded<Arg>)
    ensures r.Done? ==> 1 <= r.used <= |b|
  {
    if |b| < 1 then Undefined
    else if b[0] == TY_VOID then Done(Void, 1)
    else if b[0] == TY_INT then
      match DecodeInteger(b[1..])
      case Done(i, used) => Done(Int(i), 1 + used)
      case Failed => Failed
      case Undefined => Undefined
    else if b[0] == TY_STR then
      if |b| < 2 then Undefined
      else if b[1] < -1 then Failed
      else if b[1] == -1 then Undefined
      else
        var n := b[1] as int;
        if |b| < 2 + n then Undefined else Done(Str(CStr(b[2..2 + n])), 2 + n)
    else Failed
  }

  /** What reading arguments gives once `prefix` has been read from `skipped` bytes. */
  function After(prefix: seq<Arg>, skipped: nat, rest: Decoded<seq<Arg>>): Decoded<seq<Arg>> {
    match rest
    case Done(argv, used) => Done(prefix + argv, skipped + used)
    case Failed => Failed
    case Undefined => Undefined
  }

  function DecodeArgs(b: seq<SChar>, argc: int): (r: Decoded<seq<Arg>>)
    ensures r.Done? ==> |r.value| == (if argc < 0 then 0 else argc) && r.used <= |b|
    decreases if argc < 0 then 0 else argc
  {
    if argc <= 0 then Done([], 0)
    else
      match DecodeArg(b)
      case Done(a, used) => After([a], used, DecodeArgs(b[used..], argc - 1))
      case Failed => Failed
      case Undefined => Undefined
  }

  // ------------------------------------------------------------ messages

  /** A request after its size header. */
  function Body(m: Message): seq<SChar> {
    IntBytes(|m.command|) + m.command + [m.returnType] + IntBytes(m.argc) + EncodeArgs(m.argv)
  }

  /** A request as sent. */
  function Frame(m: Message): seq<SChar> {
    IntBytes(|Body(m)|) + Body(m)
  }

  function DecodeMessage(b: seq<SChar>): (r: Decoded<Message>)
    ensures r.Done? ==> |r.value.argv| == (if r.value.argc < 0 then 0 else r.value.argc)
  {
    if |b| < 4 then Undefined
    else
      var n: int := BytesInt(b[..4]);
      if n < -1 then Failed
      else if n == -1 || |b| < 9 + n then Undefined
      else
        var argc: int := BytesInt(b[5 + n..9 + n]);
        match DecodeArgs(b[9 + n..], argc)
        case Done(argv, used) => Done(Message(b[4..4 + n], b[4 + n], argc, argv), 9 + n + used)
        case Failed => Failed
        case Undefined => Undefined
  }

  // ------------------------------------------------------------- answers

  /** An answer after its size header; only `RET_OK` carries a value. */
  function AnswerBody(status: SChar, ret: Option<Arg>): seq<SChar> {
    [status] + (match ret case None => [] case Some(a) => EncodeArg(a))
  }

  function AnswerFrame(status: SChar, ret: Option<Arg>): seq<SChar> {
    IntBytes(|AnswerBody(status, ret)|) + AnswerBody(status, ret)
  }

  /** A decoded answer: its status and, on `RET_OK`, the type byte and the value. */
  datatype Reply = Reply(status: int, typ: SChar, value: Arg) | Bare(status: int)

  function DecodeAnswer(b: seq<SChar>): Decoded<Reply> {
    if |b| < 1 then Failed
    else if b[0] != RET_OK then Done(Bare(b[0]), 1)
    else if |b| < 2 then Failed
    else if b[1] == TY_INT then
      match DecodeInteger(b[2..])
      case Done(i, used) => Done(Reply(RET_OK, TY_INT, Int(i)), 2 + used)
      case Failed => Failed
      case Undefined => Undefined
    else if b[1] == TY_STR then
      if |b| < 3 then Undefined else Done(Reply(RET_OK, TY_STR, Str(CStr(b[3..]))), |b|)
    else Done(Reply(RET_OK, b[1], Void), 2)
  }

  // ------------------------------------------------- integers: round trip

  function Pow10(k: nat): nat {
    if k == 0 then 1 else 10 * Pow10(k - 1)
  }

  lemma {:induction false} DigitsLength(n: nat, k: nat)
    requires n < Pow10(k)
    ensures |Digits(n)| <= k
  {
    if n != 0 {
      DigitsLength(n / 10, k - 1);
    }
  }

  /** A numeral always fits the length byte, with room to spare. */
  lemma NumeralLength(i: int)
    requires -INT_MAX <= i <= INT_MAX
    ensures 1 <= |Numeral(i)| <= 11
    ensures i != 0 ==> 1 <= |Digits(if i < 0 then -i else i)| <= 10
  {
    var n := if i < 0 then -i else i;
    assert Pow10(10) == 100 * (100 * (100 * Pow10(4)));
    DigitsLength(n, 10);
  }

  /** Reading back the digits gives the number, and nothing the loop computes overflows. */
  lemma {:induction false} DigitsRoundTrip(n: nat)
    requires n <= INT_MAX
    ensures Accumulate(Digits(n)) == Some(n)
    ensures forall k | 0 <= k < |Digits(n)| :: 48 <= Digits(n)[k] <= 57
  {
    if n != 0 {
      DigitsRoundTrip(n / 10);
      assert Digits(n)[..|Digits(n)| - 1] == Digits(n / 10);
    }
  }

  /** The reader takes as many characters as the length byte says, a sign included. */
  lemma DecodeSized(b: seq<SChar>, n: nat, v: int)
    requires 1 <= n < |b| && b[0] == n && v >= 0
    requires Accumulate(if b[1] == 45 then b[2..n + 1] else b[1..n + 1]) == Some(v)
    ensures DecodeInteger(b) == Done(if b[1] == 45 then -v else v, n + 1)
  {
    hide Accumulate;
  }

  /** A piece of the middle, behind one character. */
  lemma Behind<T>(c: T, num: seq<T>, rest: seq<T>)
    ensures var b := [c] + num + rest;
            && b[0] == c && b[1..|num| + 1] == num
            && (num != [] ==> b[1] == num[0] && b[2..|num| + 1] == num[1..])
  {
    var b := [c] + num + rest;
    assert forall k | 0 <= k < |num| :: b[k + 1] == num[k];
  }

  lemma ZeroAccumulates()
    ensures Accumulate([48]) == Some(0)
  {
    assert [48 as SChar][..0] == [];
  }

  /** Reading back an integer gives it; `Undefined` would be the overflow that never happens. */
  lemma IntegerRoundTrip(i: int, rest: seq<SChar>)
    requires -INT_MAX <= i <= INT_MAX
    ensures DecodeInteger(EncodeInteger(i) + rest) == Done(i, |EncodeInteger(i)|)
  {
    hide DecodeInteger, Digits, Accumulate;
    NumeralLength(i);
    var n := if i < 0 then -i else i;
    DigitsRoundTrip(n);
    ZeroAccumulates();
    var num := Numeral(i);
    Behind(ToSChar(|num|), num, rest);
    DecodeSized(EncodeInteger(i) + rest, |num|, n);
  }

  // ------------------------------------------------ arguments: round trip

  lemma ArgRoundTrip(a: Arg, rest: seq<SChar>)
    requires a.Valid() && a.Short()
    ensures DecodeArg(EncodeArg(a) + rest) == Done(a, |EncodeArg(a)|)
  {
    hide DecodeInteger, EncodeInteger;
    var b := EncodeArg(a) + rest;
    match a
    case Void =>
    case Int(i) =>
      assert b[1..] == EncodeInteger(i) + rest;
      IntegerRoundTrip(i, rest);
    case Str(s) =>
      assert b[2..2 + |s|] == s;
      CStrUnique(s, |s|);
      assert s[..|s|] == s;
  }

  /** A string argument whose length does not fit a `char` never comes back. */
  lemma LongArgLost(a: Arg, rest: seq<SChar>)
    requires !a.Short()
    ensures DecodeArg(EncodeArg(a) + rest).Done? ==> DecodeArg(EncodeArg(a) + rest).value != a
  {
    hide DecodeInteger, EncodeInteger;
    var b := EncodeArg(a) + rest;
    assert b[1] == ToSChar(|a.s|);
  }

  predicate AllValid(argv: seq<Arg>) {
    forall k | 0 <= k < |argv| :: argv[k].Valid()
  }

  predicate AllShort(argv: seq<Arg>) {
    forall k | 0 <= k < |argv| :: argv[k].Short()
  }

  lemma {:induction false} ArgsRoundTrip(argv: seq<Arg>, rest: seq<SChar>)
    requires AllValid(argv) && AllShort(argv)
    ensures DecodeArgs(EncodeArgs(argv) + rest, |argv|) == Done(argv, |EncodeArgs(argv)|)
  {
    hide DecodeArg, EncodeArg, Arg.Valid, Arg.Short;
    if argv != [] {
      var head, tail := EncodeArg(argv[0]), EncodeArgs(argv[1..]) + rest;
      assert EncodeArgs(argv) + rest == head + tail;
      ArgRoundTrip(argv[0], tail);
      assert (head + tail)[|head|..] == tail;
      ArgsRoundTrip(argv[1..], rest);
      assert argv == [argv[0]] + argv[1..];
    }
  }

  /** One over-long string is enough: the arguments read are never those written. */
  lemma {:induction false} LongArgsLost(argv: seq<Arg>, rest: seq<SChar>)
    requires AllValid(argv) && !AllShort(argv)
    ensures var r := DecodeArgs(EncodeArgs(argv) + rest, |argv|);
            r.Done? ==> r.value != argv
  {
    hide DecodeArg, EncodeArg, Arg.Valid, Arg.Short;
    var head, tail := EncodeArg(argv[0]), EncodeArgs(argv[1..]) + rest;
    assert EncodeArgs(argv) + rest == head + tail;
    if argv[0].Short() {
      ArgRoundTrip(argv[0], tail);
      assert (head + tail)[|head|..] == tail;
      LongArgsLost(argv[1..], rest);
    } else {
      LongArgLost(argv[0], tail);
    }
  }

  // ------------------------------------------------- messages: round trip

  /** Five concatenated pieces can be told apart by their lengths. */
  lemma Pieces<T>(a: seq<T>, b: seq<T>, c: seq<T>, d: seq<T>, e: seq<T>)
    ensures var s := a + b + c + d + e;
            var i, j, k := |a|, |a| + |b|, |a| + |b| + |c|;
            && s[..i] == a && s[i..j] == b && s[j..k] == c
            && s[k..k + |d|] == d && s[k + |d|..] == e
  {
  }

  lemma Cut<T>(a: seq<T>, b: seq<T>)
    ensures (a + b)[..|a|] == a && (a + b)[|a|..] == b
  {
  }

  /** The header, the body and the rest of a stream that starts with a frame. */
  lemma FrameParts(body: seq<SChar>, rest: seq<SChar>)
    ensures var s := IntBytes(|body|) + body + rest;
            && s[..4] == IntBytes(|body|)
            && s[4..4 + |body|] == body
            && s[4 + |body|..] == rest
  {
  }

  lemma Assoc<T>(a: seq<T>, b: seq<T>, c: seq<T>)
    ensures (a + b) + c == a + (b + c)
  {
  }

  lemma HeaderDecodes(b: seq<SChar>, n: nat, m: Message)
    requires |b| >= 9 + n && BytesInt(b[..4]) == n && b[4..4 + n] == m.command
    requires b[4 + n..5 + n] == [m.returnType] && BytesInt(b[5 + n..9 + n]) == m.argc
    ensures DecodeMessage(b) ==
            match DecodeArgs(b[9 + n..], m.argc)
            case Done(argv, used) => Done(m.(argv := argv), 9 + n + used)
            case Failed => Failed
            case Undefined => Undefined
  {
    hide DecodeArgs, BytesInt;
    assert b[4 + n] == b[4 + n..5 + n][0];
  }

  /** Decoding a body amounts to decoding its arguments. */
  lemma BodyDecodes(m: Message, rest: seq<SChar>)
    requires m.Valid()
    ensures DecodeMessage(Body(m) + rest) ==
            match DecodeArgs(EncodeArgs(m.argv) + rest, m.argc)
            case Done(argv, used) => Done(m.(argv := argv), 9 + |m.command| + used)
            case Failed => Failed
            case Undefined => Undefined
  {
    hide DecodeArgs, EncodeArgs, DecodeMessage, IntBytes, BytesInt;
    IntBytesRoundTrip(|m.command|);
    IntBytesRoundTrip(m.argc);
    var a, c, d, e := IntBytes(|m.command|), [m.returnType], IntBytes(m.argc), EncodeArgs(m.argv);
    Assoc(a + m.command + c + d, e, rest);
    Pieces(a, m.command, c, d, e + rest);
    HeaderDecodes(Body(m) + rest, |m.command|, m);
  }

  /**
   Reading back a request gives the request, and leaves what follows it alone,
   exactly when every string argument is at most 127 characters long.
   */
  lemma MessageRoundTrip(m: Message, rest: seq<SChar>)
    requires m.Valid()
    ensures DecodeMessage(Body(m) + rest) == Done(m, |Body(m)|) <==> m.Short()
  {
    hide DecodeArgs, EncodeArgs, DecodeMessage, IntBytes;
    BodyDecodes(m, rest);
    if m.Short() {
      ArgsRoundTrip(m.argv, rest);
    } else {
      LongArgsLost(m.argv, rest);
    }
  }

  /** A request that is sent but not read back: one string of 128 characters. */
  lemma LongStringExample()
    ensures var m := Message([102], TY_VOID, 1, [Str(seq(128, _ => 97))]);
            m.Valid() && DecodeMessage(Body(m)) != Done(m, |Body(m)|)
  {
    hide DecodeMessage, IntBytes;
    var m := Message([102], TY_VOID, 1, [Str(seq(128, _ => 97))]);
    assert |EncodeArgs(m.argv)| == 130;
    assert !m.argv[0].Short();
    MessageRoundTrip(m, []);
    assert Body(m) + [] == Body(m);
  }

  /** No request frame is a proper prefix of another: a byte stream parses one way. */
  lemma FramesPrefixFree(m: Message, x: seq<SChar>, m': Message, x': seq<SChar>)
    requires m.Valid() && m.Short() && m'.Valid() && m'.Short()
    requires Frame(m) + x == Frame(m') + x'
    ensures m == m' && x == x'
  {
    hide Body, DecodeMessage, IntBytes;
    var b, b' := Body(m), Body(m');
    Assoc(IntBytes(|b|), b, x);
    Assoc(IntBytes(|b'|), b', x');
    Cut(IntBytes(|b|), b + x);
    Cut(IntBytes(|b'|), b' + x');
    assert b + x == b' + x';
    MessageRoundTrip(m, x);
    MessageRoundTrip(m', x');
    Cut(b, x);
    Cut(b', x');
  }

  /** Cut a byte stream into requests, one size header and that many bytes at a time. */
  function SplitFrames(b: seq<SChar>): Option<seq<Message>> {
    if b == [] then Some([])
    else if |b| < 4 then None
    else
      var size: int := BytesInt(b[..4]);
      if size < 0 || |b| < 4 + size then None
      else
        match DecodeMessage(b[4..4 + size])
        case Done(m, used) =>
          (match SplitFrames(b[4 + size..])
           case None => None
           case Some(ms) => if used == size then Some([m] + ms) else None)
        case _ => None
  }

  function Stream(ms: seq<Message>): seq<SChar> {
    if ms == [] then [] else Frame(ms[0]) + Stream(ms[1..])
  }

  /** Any number of requests sent back to back is recovered, in order. */
  lemma {:induction false} StreamRoundTrip(ms: seq<Message>)
    requires forall k | 0 <= k < |ms| :: ms[k].Valid() && ms[k].Short()
    ensures SplitFrames(Stream(ms)) == Some(ms)
  {
    hide SplitFrames, Frame, Message.Valid, Message.Short;
    if ms == [] {
      SplitNothing();
    } else {
      SplitOne(ms[0], Stream(ms[1..]));
      StreamRoundTrip(ms[1..]);
      assert ms == [ms[0]] + ms[1..];
    }
  }

  lemma SplitNothing()
    ensures SplitFrames([]) == Some([])
  {
  }

  /** Splitting cuts off the first frame and goes on behind it. */
  lemma SplitOne(m: Message, rest: seq<SChar>)
    requires m.Valid() && m.Short()
    ensures SplitFrames(Frame(m) + rest) ==
            match SplitFrames(rest)
            case None => None
            case Some(ms) => Some([m] + ms)
  {
    hide Body, DecodeMessage, IntBytes, BytesInt;
    var body := Body(m);
    IntBytesRoundTrip(|body|);
    FrameParts(body, rest);
    MessageRoundTrip(m, []);
    assert body + [] == body;
  }

  // -------------------------------------------------- answers: round trip

  /**
   An answer of status OK comes back whole, however long its string: the reader
   takes the length from the frame and not from the truncated length byte.
   */
  lemma AnswerRoundTrip(a: Arg)
    requires a.Valid()
    ensures DecodeAnswer(AnswerBody(RET_OK, Some(a))).Done?
    ensures DecodeAnswer(AnswerBody(RET_OK, Some(a))).value == Reply(RET_OK, a.Type(), a)
  {
    hide DecodeInteger, EncodeInteger, CStr;
    var b := AnswerBody(RET_OK, Some(a));
    match a
    case Void =>
    case Int(i) =>
      assert b[2..] == EncodeInteger(i) + [];
      IntegerRoundTrip(i, []);
    case Str(s) =>
      assert b[3..] == s;
      CStrUnique(s, |s|);
      assert s[..|s|] == s;
  }

  /** An error status comes back unchanged and without a value. */
  lemma ErrorRoundTrip(status: SChar)
    requires status != RET_OK
    ensures DecodeAnswer(AnswerBody(status, None)) == Done(Bare(status), 1)
  {
  }
}
