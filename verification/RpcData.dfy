/**
 The request and answer structures as C keeps them, in allocated blocks, and
 the functions that size, write, read, build and release them.
 */
module RpcData {
  import opened CTypes
  import opened Wrappers
  import opened Wire

  /** The allocator. Allocation always succeeds; releasing needs a live block. */
  class Heap {
    ghost var live: set<object>

    constructor ()
      ensures live == {}
    {
      live := {};
    }

    method MallocChars(n: nat) returns (block: array<SChar>)
      modifies this
      ensures fresh(block) && block.Length == n && live == old(live) + {block}
    {
      block := new SChar[n];
      live := live + {block};
    }

    method MallocInt() returns (block: IntCell)
      modifies this
      ensures fresh(block) && live == old(live) + {block}
    {
      block := new IntCell();
      live := live + {block};
    }

    method MallocArgs(n: nat) returns (block: array<RpcArg>)
      modifies this
      ensures fresh(block) && block.Length == n && live == old(live) + {block}
    {
      block := new RpcArg[n];
      live := live + {block};
    }

    /** Accounts for a block of another type that has just been allocated. */
    ghost method Malloc(block: object)
      modifies this
      ensures live == old(live) + {block}
    {
      live := live + {block};
    }

    method Free(ghost block: object)
      requires block in live
      modifies this
      ensures live == old(live) - {block}
    {
      live := live - {block};
    }
  }

  /** A block of `sizeof(int)` bytes. */
  class IntCell {
    var value: int

    constructor () {
    }
  }

  /** The `void *` of an argument; `Unset` where nothing has been stored. */
  datatype Data = Null | IntPtr(cell: IntCell) | StrPtr(chars: array<SChar>) | Unset

  datatype RpcArg = RpcArg(typ: SChar, data: Data) {
    ghost function Blocks(): set<object> {
      match data
      case Null => {}
      case IntPtr(cell) => {cell}
      case StrPtr(chars) => {chars}
      case Unset => {}
    }

    /** The pointer is of the kind the type byte announces; strings are terminated. */
    ghost predicate Tagged()
      reads Blocks()
    {
      && (typ == TY_INT ==> data.IntPtr?)
      && (typ == TY_STR ==> data.StrPtr? && 0 in data.chars[..])
    }

    ghost function Value(): (a: Arg)
      reads Blocks()
      requires Tagged()
      ensures typ == TY_STR ==> a.Valid()
      ensures TypeExists(typ) ==> a.Type() == typ
    {
      if typ == TY_INT then Int(data.cell.value)
      else if typ == TY_STR then Str(CStr(data.chars[..]))
      else Void
    }
  }

  /** The block a pointer designates; none for NULL. */
  ghost function Block(pointer: object?): set<object> {
    if pointer == null then {} else {pointer}
  }

  ghost function AllBlocks(args: seq<RpcArg>): set<object> {
    set k, o | 0 <= k < |args| && o in args[k].Blocks() :: o
  }

  ghost predicate AllTagged(args: seq<RpcArg>)
    reads AllBlocks(args)
  {
    forall k | 0 <= k < |args| :: args[k].Tagged()
  }

  predicate TypesExist(args: seq<RpcArg>) {
    forall k | 0 <= k < |args| :: TypeExists(args[k].typ)
  }

  ghost function Values(args: seq<RpcArg>): (vs: seq<Arg>)
    reads AllBlocks(args)
    requires AllTagged(args)
    ensures |vs| == |args| && forall k | 0 <= k < |args| :: vs[k] == args[k].Value()
  {
    if args == [] then [] else
      assert forall k | 0 <= k < |args[1..]| :: args[1..][k] == args[k + 1];
      [args[0].Value()] + Values(args[1..])
  }

  /** `struct message`. */
  class MessageStruct {
    var commandLength: int
    var command: array?<SChar>
    var returnType: SChar
    var argc: int
    var argv: array?<RpcArg>

    constructor () {
    }

    ghost function Args(): seq<RpcArg>
      reads this, argv
    {
      if argv == null then [] else argv[..]
    }

    /** Every block `free_message` has to release. */
    ghost function Owned(): set<object>
      reads this, argv
    {
      Block(command) + Block(argv) + AllBlocks(Args())
    }

    /** Lengths and pointers agree, every type is known, and no block is owned twice. */
    ghost predicate Formed()
      reads this, argv, Owned()
    {
      && command != null && 0 <= commandLength && commandLength + 1 == command.Length && command[commandLength] == 0
      && (if argc > 0 then argv != null && argv.Length == argc else argv == null)
      && AllTagged(Args()) && TypesExist(Args())
      && (forall k | 0 <= k < |Args()| :: Args()[k].typ == TY_VOID ==> Args()[k].data == Null)
      && NoSharing(command, Args())
    }

    /** The request the structure stands for. */
    ghost function Value(): Message
      reads this, argv, Owned()
      requires Formed()
    {
      Message(command[..commandLength], returnType, argc, Values(Args()))
    }
  }

  /** No two arguments share a block, and none is stored in the command's block. */
  ghost predicate NoSharing(command: object, args: seq<RpcArg>) {
    && (forall k | 0 <= k < |args| :: command !in args[k].Blocks())
    && (forall j, k | 0 <= j < k < |args| :: args[j].Blocks() !! args[k].Blocks())
  }

  // ------------------------------------------------------------- C library

  method Strlen(s: array<SChar>) returns (n: nat)
    requires 0 in s[..]
    ensures n < s.Length && s[n] == 0 && CStr(s[..]) == s[..n]
  {
    n := 0;
    while s[n] != 0
      invariant n < s.Length && NulFree(s[..n]) && 0 in s[n..]
      decreases s.Length - n
    {
      n := n + 1;
    }
    CStrUnique(s[..], n);
  }

  /** Writes `src` at offset `at`, and nothing else. */
  method Memcpy(dst: array<SChar>, at: nat, src: seq<SChar>)
    requires at + |src| <= dst.Length
    modifies dst
    ensures dst[..at] == old(dst[..at])
    ensures dst[..at + |src|] == old(dst[..at]) + src
    ensures dst[at + |src|..] == old(dst[at + |src|..])
  {
    forall k | 0 <= k < |src| {
      dst[at + k] := src[k];
    }
  }

  // -------------------------------------------------------------- integers

  /** The digit-counting loop of `arg_size` and `serialize_integer`. */
  method CountDigits(n: nat) returns (size: nat)
    ensures size == |Digits(n)|
  {
    size := 0;
    var tmp := n;
    while tmp != 0
      invariant tmp >= 0 && size + |Digits(tmp)| == |Digits(n)|
    {
      tmp := tmp / 10;
      size := size + 1;
    }
  }

  /** The digit-writing loop of `serialize_integer`: from the last digit back to the first. */
  method WriteDigits(n: nat, buf: array<SChar>, at: nat)
    requires at + |Digits(n)| <= buf.Length
    modifies buf
    ensures buf[at..at + |Digits(n)|] == Digits(n)
    ensures forall k | 0 <= k < buf.Length && !(at <= k < at + |Digits(n)|) :: buf[k] == old(buf[k])
  {
    var tmp, size := n, |Digits(n)|;
    while tmp != 0
      invariant tmp >= 0 && size == |Digits(tmp)| <= |Digits(n)|
      invariant Digits(n) == Digits(tmp) + buf[at + size..at + |Digits(n)|]
      invariant forall k | 0 <= k < buf.Length && !(at <= k < at + |Digits(n)|) :: buf[k] == old(buf[k])
    {
      ghost var written := buf[at + size..at + |Digits(n)|];
      buf[at + size - 1] := 48 + tmp % 10;
      assert buf[at + size - 1..at + |Digits(n)|] == [48 + tmp % 10] + written;
      tmp := tmp / 10;
      size := size - 1;
    }
  }

  /** Writes a length byte and a numeral at `at`, and nothing else. */
  method SerializeInteger(i: int, buf: array<SChar>, at: nat) returns (count: nat)
    requires -INT_MAX <= i <= INT_MAX
    requires at + |EncodeInteger(i)| <= buf.Length
    modifies buf
    ensures count == |EncodeInteger(i)|
    ensures buf[at..at + count] == EncodeInteger(i)
    ensures forall k | 0 <= k < buf.Length && !(at <= k < at + count) :: buf[k] == old(buf[k])
  {
    hide Digits, Numeral, EncodeInteger;
    EncodeIntegerParts(i);
    var neg, n := 0, i;
    if n < 0 {
      neg, n := 1, -n;
    }
    if n == 0 {
      buf[at] := 1;
      buf[at + 1] := 48;
      return 2;
    }
    var size := CountDigits(n);
    if neg == 1 {
      buf[at + 1] := 45;
      size := size + 1;
    }
    WriteDigits(n, buf, at + 1 + neg);
    buf[at] := ToSChar(size);
    assert buf[at + 1 + neg..at + size + 1] == Digits(n);
    assert buf[at..at + 1 + neg] == if neg == 1 then [ToSChar(size), 45] else [ToSChar(size)];
    assert buf[at..at + size + 1] == buf[at..at + 1 + neg] + buf[at + 1 + neg..at + size + 1];
    return size + 1;
  }

  /** The length byte, the sign and the digits of an encoded integer. */
  lemma EncodeIntegerParts(i: int)
    requires -INT_MAX <= i <= INT_MAX
    ensures i == 0 ==> EncodeInteger(i) == [1, 48]
    ensures i != 0 ==>
              var ds := Digits(if i < 0 then -i else i);
              && 1 <= |ds| <= 10
              && EncodeInteger(i) == (if i < 0 then [ToSChar(1 + |ds|), 45] else [ToSChar(|ds|)]) + ds
  {
    NumeralLength(i);
  }

  /** What the loop cannot accumulate it never will. */
  lemma {:induction false} AccumulateStops(ds: seq<SChar>, k: nat)
    requires k <= |ds| && Accumulate(ds[..k]).None?
    ensures Accumulate(ds).None?
    decreases |ds|
  {
    if k < |ds| {
      assert ds[..|ds| - 1][..k] == ds[..k];
      AccumulateStops(ds[..|ds| - 1], k);
    } else {
      assert ds[..k] == ds;
    }
  }

  /** One more character, read off the buffer. */
  lemma AccumulateStep(b: seq<SChar>, start: nat, cpt: nat, end: nat, res: int)
    requires start <= cpt < |b| && cpt < end && Accumulate(b[start..cpt]) == Some(res)
    ensures var next := 10 * res + (b[cpt] as int - 48);
            if IsInt32(10 * res) && IsInt32(next) then Accumulate(b[start..cpt + 1]) == Some(next)
            else end <= |b| ==> Accumulate(b[start..end]).None?
  {
    var ds := b[start..cpt + 1];
    assert ds[..|ds| - 1] == b[start..cpt];
    if Accumulate(ds).None? && end <= |b| {
      assert b[start..end][..|ds|] == ds;
      AccumulateStops(b[start..end], |ds|);
    }
  }

  /** Reads an integer at `at`; `Undefined` when C would leave the buffer or overflow `res`. */
  method DeserializeInteger(buf: array<SChar>, at: nat) returns (r: Decoded<int>)
    requires at <= buf.Length
    ensures r == DecodeInteger(buf[at..])
  {
    hide Accumulate;
    if buf.Length - at < 2 {
      return Undefined;
    }
    ghost var b := buf[at..];
    var neg, size, cpt := 0, buf[at] as int + 1, 1;
    var res: Int32 := 0;
    if buf[at + cpt] == 45 {
      neg := 1;
      cpt := 2;
    }
    var start := cpt;
    NothingAccumulated(b[start..start]);
    while cpt < size
      invariant start <= cpt <= (if size < start then start else size)
      invariant at + cpt <= buf.Length
      invariant Accumulate(b[start..cpt]) == Some(res)
    {
      if at + cpt >= buf.Length {
        return Undefined;
      }
      AccumulateStep(b, start, cpt, size, res);
      if !IsInt32(res * 10) {
        return Undefined;
      }
      var tenfold := res * 10;
      if !IsInt32(tenfold + (buf[at + cpt] as int - 48)) {
        return Undefined;
      }
      res := tenfold + (buf[at + cpt] as int - 48);
      cpt := cpt + 1;
    }
    if neg == 1 {
      if res == INT_MIN {
        return Undefined;
      }
      res := -res;
    }
    return Done(res, cpt);
  }

  lemma NothingAccumulated(ds: seq<SChar>)
    requires ds == []
    ensures Accumulate(ds) == Some(0)
  {
  }

  // -------------------------------------------------------------- requests

  /** The bytes of the arguments from `k` on start with those of argument `k`. */
  lemma EncodeArgsAt(vs: seq<Arg>, k: nat)
    requires k <= |vs|
    ensures k == |vs| ==> EncodeArgs(vs[k..]) == []
    ensures k < |vs| ==> EncodeArgs(vs[k..]) == EncodeArg(vs[k]) + EncodeArgs(vs[k + 1..])
  {
    assert k < |vs| ==> vs[k..][1..] == vs[k + 1..];
  }

  /** The body of the size pass: how many bytes one argument will take. */
  method OneArgSize(arg: RpcArg) returns (size: int)
    requires arg.Tagged() && arg.Value().Valid()
    ensures size == if TypeExists(arg.typ) then |EncodeArg(arg.Value())| else -1
  {
    size := 1;
    if arg.typ == TY_STR {
      var n := Strlen(arg.data.chars);
      size := size + 1 + n;
    } else if arg.typ == TY_INT {
      var tmp := arg.data.cell.value;
      if tmp < 0 {
        size := size + 1;
        tmp := -tmp;
      }
      if tmp == 0 {
        size := size + 1;
      }
      var digits := CountDigits(tmp);
      size := size + digits + 1;
    } else if arg.typ != TY_VOID {
      return -1;
    }
  }

  /** `args` holds the values `vs`, of which all but the unknown types can be sent. */
  ghost predicate Holds(args: array<RpcArg>, vs: seq<Arg>)
    reads args, AllBlocks(args[..])
  {
    && args.Length == |vs|
    && forall k | 0 <= k < |vs| :: args[k].Tagged() && args[k].Value() == vs[k] && vs[k].Valid()
  }

  /** The size pass: how many bytes the arguments `vs` will take; -1 if a type is unknown. */
  method ArgSize(argc: int, args: array?<RpcArg>, ghost vs: seq<Arg>) returns (size: int)
    requires args != null ==> argc == |vs| && Holds(args, vs)
    ensures args == null ==> size == 0
    ensures args != null ==> size == if TypesExist(args[..]) then |EncodeArgs(vs)| else -1
  {
    hide EncodeArgs, EncodeArg, Arg.Valid;
    if args == null {
      return 0;
    }
    size := 0;
    var cpt := 0;
    assert vs[0..] == vs;
    while cpt < argc
      invariant 0 <= cpt <= argc
      invariant forall k | 0 <= k < cpt :: TypeExists(args[k].typ)
      invariant size + |EncodeArgs(vs[cpt..])| == |EncodeArgs(vs)|
    {
      EncodeArgsAt(vs, cpt);
      assert args[cpt].Value() == vs[cpt];
      var one := OneArgSize(args[cpt]);
      if one == -1 {
        assert !TypeExists(args[..][cpt].typ);
        return -1;
      }
      size := size + one;
      cpt := cpt + 1;
    }
    EncodeArgsAt(vs, argc);
  }

  /** What follows the type byte of an encoded value. */
  lemma EncodeTail(v: Arg) returns (tail: seq<SChar>)
    ensures EncodeArg(v) == [v.Type()] + tail
    ensures v.Void? ==> tail == []
    ensures v.Int? ==> tail == EncodeInteger(v.i) && (v.Valid() ==> -INT_MAX <= v.i <= INT_MAX)
    ensures v.Str? ==> tail == [ToSChar(|v.s|)] + v.s
  {
    hide EncodeInteger, ToSChar;
    tail := match v
      case Void => []
      case Int(i) => EncodeInteger(i)
      case Str(t) => [ToSChar(|t|)] + t;
    if v.Str? {
      Assoc([TY_STR], [ToSChar(|v.s|)], v.s);
    }
  }

  /** Writes one argument, of value `v`, at `cpt`. */
  method SerializeArg(arg: RpcArg, ghost v: Arg, buf: array<SChar>, cpt: nat) returns (next: nat)
    requires buf !in arg.Blocks() && arg.Tagged() && TypeExists(arg.typ) && arg.Value() == v
    requires v.Valid() && cpt + |EncodeArg(v)| <= buf.Length
    modifies buf
    ensures next == cpt + |EncodeArg(v)|
    ensures buf[..next] == old(buf[..cpt]) + EncodeArg(v)
  {
    hide EncodeInteger, EncodeArg, Arg.Valid, CStr, ToSChar;
    ghost var tail := EncodeTail(v);
    ghost var before := buf[..cpt] + [arg.typ];
    Assoc(buf[..cpt], [arg.typ], tail);
    Memcpy(buf, cpt, [arg.typ]);
    next := cpt + 1;
    if arg.typ == TY_INT {
      var tmp := SerializeInteger(arg.data.cell.value, buf, next);
      Extend(buf, next, tmp);
      assert buf[..next] == before;
      next := next + tmp;
    } else if arg.typ == TY_STR {
      var tmp := Strlen(arg.data.chars);
      Memcpy(buf, next, [ToSChar(tmp)]);
      Memcpy(buf, next + 1, arg.data.chars[..tmp]);
      Assoc(before, [ToSChar(tmp)], arg.data.chars[..tmp]);
      next := next + 1 + tmp;
    }
    assert buf[..next] == before + tail;
  }

  lemma Extend(buf: array<SChar>, at: nat, n: nat)
    requires at + n <= buf.Length
    ensures buf[..at + n] == buf[..at] + buf[at..at + n]
  {
  }

  /** Everything a frame holds before its arguments. */
  function Header(size: int, m: Message): seq<SChar> {
    IntBytes(size) + IntBytes(|m.command|) + m.command + [m.returnType] + IntBytes(m.argc)
  }

  lemma FrameHeader(m: Message)
    ensures Frame(m) == Header(|Body(m)|, m) + EncodeArgs(m.argv)
    ensures |Frame(m)| == |Body(m)| + 4 == 13 + |m.command| + |EncodeArgs(m.argv)|
  {
    hide IntBytes, EncodeArgs;
    var a, b, c, d := IntBytes(|Body(m)|), IntBytes(|m.command|), [m.returnType], IntBytes(m.argc);
    Assoc(a, b + m.command + c + d, EncodeArgs(m.argv));
    Assoc(a, b + m.command + c, d);
    Assoc(a, b + m.command, c);
    Assoc(a, b, m.command);
  }

  /** The writes of `serialize_message` before its loop. */
  method SerializeHeader(m: MessageStruct, size: int, block: array<SChar>) returns (cpt: nat)
    requires m.command != null && m.command != block && 0 <= m.commandLength <= m.command.Length
    requires 13 + m.commandLength <= block.Length
    modifies block
    ensures cpt == 13 + m.commandLength
    ensures block[..cpt] == IntBytes(size) + IntBytes(m.commandLength) + m.command[..m.commandLength]
                            + [m.returnType] + IntBytes(m.argc)
  {
    hide IntBytes;
    cpt := 0;
    Memcpy(block, cpt, IntBytes(size));
    cpt := cpt + 4;
    Memcpy(block, cpt, IntBytes(m.commandLength));
    cpt := cpt + 4;
    Memcpy(block, cpt, m.command[..m.commandLength]);
    cpt := cpt + m.commandLength;
    Memcpy(block, cpt, [m.returnType]);
    cpt := cpt + 1;
    Memcpy(block, cpt, IntBytes(m.argc));
    cpt := cpt + 4;
    assert block[..0] == [];
  }

  /** The loop of `serialize_message`. */
  method SerializeArgs(argc: int, args: array?<RpcArg>, ghost vs: seq<Arg>, block: array<SChar>, at: nat)
    returns (cpt: nat)
    requires if argc <= 0 then vs == [] else args != null && argc == |vs| && Holds(args, vs)
    requires args != null && argc > 0 ==> TypesExist(args[..])
    requires forall k | 0 <= k < |vs| :: block !in args[k].Blocks()
    requires at + |EncodeArgs(vs)| == block.Length
    modifies block
    ensures cpt == block.Length && block[..] == old(block[..at]) + EncodeArgs(vs)
  {
    hide EncodeArgs, EncodeArg, Arg.Valid;
    cpt := at;
    var i := 0;
    assert vs[0..] == vs;
    while i < argc
      invariant 0 <= i <= |vs|
      invariant forall k | i <= k < |vs| :: args[k].Tagged() && args[k].Value() == vs[k]
      invariant cpt + |EncodeArgs(vs[i..])| == block.Length
      invariant block[..cpt] + EncodeArgs(vs[i..]) == old(block[..at]) + EncodeArgs(vs)
    {
      ghost var before := block[..cpt];
      EncodeArgsAt(vs, i);
      cpt := SerializeArg(args[i], vs[i], block, cpt);
      Assoc(before, EncodeArg(vs[i]), EncodeArgs(vs[i + 1..]));
      i := i + 1;
    }
    EncodeArgsAt(vs, |vs|);
    assert block[..cpt] == block[..] == block[..cpt] + [];
  }

  /**
   The size pass and the writer agree: the block allocated from the size pass is
   filled to its last byte with the request's frame.
   */
  method SerializeMessage(m: MessageStruct, heap: Heap) returns (msgSize: int, block: array<SChar>)
    requires m.Formed() && m.Value().Valid()
    modifies heap
    ensures fresh(block) && heap.live == old(heap.live) + {block}
    ensures block[..] == old(Frame(m.Value())) && msgSize == block.Length
  {
    hide EncodeArgs, EncodeArg, Frame, Body, Arg.Valid;
    ghost var v := m.Value();
    FrameHeader(v);
    assert m.argv != null ==> forall k | 0 <= k < |v.argv| :: m.argv[k] == m.Args()[k];
    assert m.argv != null ==> Holds(m.argv, v.argv);
    var argSize := ArgSize(m.argc, m.argv, v.argv);
    EncodeArgsAt(v.argv, |v.argv|);
    assert v.argv == [] ==> v.argv[|v.argv|..] == v.argv;
    assert argSize == |EncodeArgs(v.argv)|;
    var size := 8 + m.commandLength + 1 + argSize;
    assert size == |Body(v)|;
    block := heap.MallocChars(size + 4);
    var cpt := SerializeHeader(m, size, block);
    assert block[..cpt] == Header(size, v);
    cpt := SerializeArgs(m.argc, m.argv, v.argv, block, cpt);
    msgSize := size + 4;
  }

  /**
   Reads one argument at `cpt` into fresh blocks; `Failed` for an unknown type or a
   length `malloc` refuses, `Undefined` when the bytes run out or a copy runs past its
   block.
   */
  method DeserializeArg(buf: array<SChar>, cpt: nat, heap: Heap) returns (r: Decoded<RpcArg>)
    requires cpt <= buf.Length
    modifies heap
    ensures match DecodeArg(buf[cpt..])
            case Failed => r == Failed
            case Undefined => r == Undefined
            case Done(v, used) =>
              && r.Done? && r.used == used && cpt + used <= buf.Length
              && r.value.Tagged() && TypeExists(r.value.typ) && r.value.Value() == v
              && fresh(r.value.Blocks()) && heap.live == old(heap.live) + r.value.Blocks()
              && (r.value.typ == TY_VOID ==> r.value.data == Null)
  {
    hide DecodeInteger, DecodeString, CStr;
    ghost var b := buf[cpt..];
    if cpt < buf.Length && b[0] == TY_STR {
      DecodeArgString(b);
    }
    if cpt == buf.Length {
      return Undefined;
    }
    var typ := buf[cpt];
    if typ == TY_VOID {
      return Done(RpcArg(typ, Null), 1);
    } else if typ == TY_INT {
      assert b[1..] == buf[cpt + 1..];
      var cell := heap.MallocInt();
      var n := DeserializeInteger(buf, cpt + 1);
      if n.Done? {
        cell.value := n.value;
        return Done(RpcArg(typ, IntPtr(cell)), 1 + n.used);
      }
      return if n.Failed? then Failed else Undefined;
    } else if typ == TY_STR {
      assert b[1..] == buf[cpt + 1..];
      var s := DeserializeString(buf, cpt + 1, heap);
      if s.Done? {
        return Done(RpcArg(typ, StrPtr(s.value)), 1 + s.used);
      }
      return if s.Failed? then Failed else Undefined;
    }
    return Failed;
  }

  /** A length byte and that many characters. */
  function DecodeString(b: seq<SChar>): Decoded<seq<SChar>> {
    if |b| < 1 then Undefined
    else if b[0] < -1 then Failed
    else if b[0] == -1 then Undefined
    else
      var n := b[0] as int;
      if |b| < 1 + n then Undefined else Done(CStr(b[1..1 + n]), 1 + n)
  }

  lemma DecodeArgString(b: seq<SChar>)
    requires |b| >= 1 && b[0] == TY_STR
    ensures DecodeArg(b) == match DecodeString(b[1..])
                            case Done(s, used) => Done(Str(s), 1 + used)
                            case Failed => Failed
                            case Undefined => Undefined
  {
    if |b| >= 2 && b[1] >= 0 && |b| >= 2 + b[1] as int {
      assert b[1..][1..1 + b[1] as int] == b[2..2 + b[1] as int];
    }
  }

  method DeserializeString(buf: array<SChar>, cpt: nat, heap: Heap) returns (r: Decoded<array<SChar>>)
    requires cpt <= buf.Length
    modifies heap
    ensures match DecodeString(buf[cpt..])
            case Failed => r == Failed
            case Undefined => r == Undefined
            case Done(s, used) =>
              && r.Done? && r.used == used && cpt + used <= buf.Length
              && fresh(r.value) && heap.live == old(heap.live) + {r.value}
              && 0 in r.value[..] && CStr(r.value[..]) == s
  {
    hide CStr;
    if cpt == buf.Length {
      return Undefined;
    }
    var tmp := buf[cpt] as int;
    if tmp < -1 {
      return Failed;
    }
    if tmp == -1 {
      return Undefined;
    }
    if cpt + 1 + tmp > buf.Length {
      return Undefined;
    }
    var data := CopyChars(buf, cpt + 1, tmp, heap);
    assert buf[cpt..][1..1 + tmp] == buf[cpt + 1..cpt + 1 + tmp];
    return Done(data, 1 + tmp);
  }

  /** Characters of a frame, in a block of their own with a NUL after them. */
  method CopyChars(buf: array<SChar>, at: nat, n: nat, heap: Heap) returns (data: array<SChar>)
    requires at + n <= buf.Length
    modifies heap
    ensures fresh(data) && heap.live == old(heap.live) + {data}
    ensures 0 in data[..] && CStr(data[..]) == CStr(buf[at..at + n])
  {
    hide CStr;
    data := heap.MallocChars(n + 1);
    Memcpy(data, 0, buf[at..at + n]);
    data[n] := 0;
    assert data[..][..n] == data[..n] == buf[at..at + n];
    Terminated(data[..], n);
  }

  /** A NUL written after `n` characters ends the string they hold. */
  lemma Terminated(s: seq<SChar>, n: nat)
    requires n < |s| && s[n] == 0
    ensures 0 in s && CStr(s) == CStr(s[..n])
  {
    var k := |CStr(s[..n])|;
    assert s[..k] == s[..n][..k];
    CStrUnique(s, k);
  }

  /**
   The reading loop: `argc` arguments from `at` on, each into fresh blocks that no
   other argument uses.
   */
  method DeserializeArgs(buf: array<SChar>, at: nat, argv: array<RpcArg>, heap: Heap)
    returns (r: Decoded<nat>)
    requires at <= buf.Length
    modifies heap, argv
    ensures match DecodeArgs(buf[at..], argv.Length)
            case Failed => r == Failed
            case Undefined => r == Undefined
            case Done(vs, used) =>
              && r == Done(at + used, used)
              && FreshArgs(argv[..], vs) && TypesExist(argv[..])
              && fresh(AllBlocks(argv[..])) && heap.live == old(heap.live) + AllBlocks(argv[..])
  {
    hide DecodeArg, DecodeArgs, After, FreshArgs, AllBlocks;
    NoBlocks();
    ghost var b := buf[at..];
    ghost var vs := [];
    var cpt, i := at, 0;
    assert b[0..] == b;
    AfterNothing(DecodeArgs(b, argv.Length));
    while i < argv.Length
      invariant 0 <= i <= argv.Length && at <= cpt <= buf.Length
      invariant After(vs, cpt - at, DecodeArgs(b[cpt - at..], argv.Length - i)) == DecodeArgs(b, argv.Length)
      invariant FreshArgs(argv[..i], vs) && TypesExist(argv[..i])
      invariant fresh(AllBlocks(argv[..i])) && heap.live == old(heap.live) + AllBlocks(argv[..i])
    {
      ghost var done := argv[..i];
      ghost var rest := b[cpt - at..];
      assert rest == buf[cpt..];
      DecodeArgsStep(vs, cpt - at, rest, argv.Length - i);
      var arg := DeserializeArg(buf, cpt, heap);
      if arg.Failed? {
        return Failed;
      } else if arg.Undefined? {
        return Undefined;
      }
      argv[i] := arg.value;
      assert argv[..i + 1] == done + [arg.value];
      AllBlocksAppend(done, arg.value);
      FreshArgsAppend(done, vs, arg.value);
      ghost var v := arg.value.Value();
      assert rest[arg.used..] == b[cpt + arg.used - at..];
      vs := vs + [v];
      cpt := cpt + arg.used;
      i := i + 1;
    }
    DecodeArgsStep(vs, cpt - at, b[cpt - at..], 0);
    assert argv[..i] == argv[..];
    return Done(cpt, cpt - at);
  }

  /** Arguments of their own: terminated strings, these values, no shared block. */
  ghost predicate FreshArgs(args: seq<RpcArg>, vs: seq<Arg>)
    reads AllBlocks(args)
  {
    && |args| == |vs| && AllTagged(args)
    && (forall k | 0 <= k < |args| :: args[k].Value() == vs[k])
    && (forall k | 0 <= k < |args| :: args[k].typ == TY_VOID ==> args[k].data == Null)
    && (forall j, k | 0 <= j < k < |args| :: args[j].Blocks() !! args[k].Blocks())
  }

  lemma NoBlocks()
    ensures AllBlocks([]) == {} && FreshArgs([], [])
  {
  }

  lemma FreshArgsAppend(args: seq<RpcArg>, vs: seq<Arg>, arg: RpcArg)
    requires FreshArgs(args, vs) && arg.Tagged()
    requires arg.typ == TY_VOID ==> arg.data == Null
    requires AllBlocks(args) !! arg.Blocks()
    ensures FreshArgs(args + [arg], vs + [arg.Value()])
  {
    var all := args + [arg];
    forall j | 0 <= j < |args| ensures all[j].Blocks() !! arg.Blocks() {
      assert all[j] == args[j];
      assert args[j].Blocks() <= AllBlocks(args);
    }
  }

  lemma AfterNothing(rest: Decoded<seq<Arg>>)
    ensures After([], 0, rest) == rest
  {
    if rest.Done? {
      assert [] + rest.value == rest.value;
    }
  }

  lemma AllBlocksAppend(args: seq<RpcArg>, arg: RpcArg)
    ensures AllBlocks(args + [arg]) == AllBlocks(args) + arg.Blocks()
  {
    var all := args + [arg];
    assert all[|args|] == arg;
    forall o | o in AllBlocks(args) ensures o in AllBlocks(all) {
      var k :| 0 <= k < |args| && o in args[k].Blocks();
      assert o in all[k].Blocks();
    }
  }

  lemma NoArgs(rest: seq<SChar>, argc: int)
    requires argc <= 0
    ensures DecodeArgs(rest, argc) == Done([], 0)
  {
  }

  /** One round of the reading loop, on the bytes not yet read. */
  lemma DecodeArgsStep(vs: seq<Arg>, n: nat, rest: seq<SChar>, argc: nat)
    ensures argc == 0 ==> After(vs, n, DecodeArgs(rest, argc)) == Done(vs, n)
    ensures argc > 0 ==>
              After(vs, n, DecodeArgs(rest, argc)) ==
              match DecodeArg(rest)
              case Done(v, used) => After(vs + [v], n + used, DecodeArgs(rest[used..], argc - 1))
              case Failed => Failed
              case Undefined => Undefined
  {
    hide DecodeArg;
    if argc == 0 {
      assert vs + [] == vs;
    } else if DecodeArg(rest).Done? {
      var v, used := DecodeArg(rest).value, DecodeArg(rest).used;
      var tail := DecodeArgs(rest[used..], argc - 1);
      if tail.Done? {
        Assoc(vs, [v], tail.value);
      }
    }
  }

  lemma FormedIntro(m: MessageStruct, command: array<SChar>, vs: seq<Arg>)
    requires m.command == command && 0 <= m.commandLength && m.commandLength + 1 == command.Length
    requires command[m.commandLength] == 0
    requires if m.argc > 0 then m.argv != null && m.argv.Length == m.argc else m.argv == null
    requires FreshArgs(m.Args(), vs) && TypesExist(m.Args()) && command !in AllBlocks(m.Args())
    ensures m.Formed()
    ensures m.Value() == Message(command[..m.commandLength], m.returnType, m.argc, vs)
  {
    forall k | 0 <= k < |m.Args()| ensures command !in m.Args()[k].Blocks() {
      assert m.Args()[k].Blocks() <= AllBlocks(m.Args());
    }
  }

  /** The reads of `deserialize_message` before its loop; the cursor when they are done. */
  method DeserializeHeader(m: MessageStruct, buf: array<SChar>, heap: Heap)
    returns (r: Decoded<nat>, command: array<SChar>)
    modifies m, heap
    ensures buf[..] == old(buf[..])
    ensures r.Undefined? <==>
              || buf.Length < 4 || BytesInt(buf[..4]) == -1
              || (BytesInt(buf[..4]) >= 0 && buf.Length < 9 + BytesInt(buf[..4]))
    ensures r.Failed? <==> buf.Length >= 4 && BytesInt(buf[..4]) < -1
    ensures r.Done? ==>
              var n: int := BytesInt(buf[..4]);
              && r == Done(9 + n, 9 + n) && m.commandLength == n
              && m.command == command && fresh(command) && heap.live == old(heap.live) + {command}
              && command.Length == n + 1 && command[n] == 0 && command[..n] == buf[4..4 + n]
              && m.returnType == buf[4 + n] && m.argc == BytesInt(buf[5 + n..9 + n])
  {
    hide BytesInt;
    command := new SChar[0];
    if buf.Length < 4 {
      return Undefined, command;
    }
    assert buf[..4] == buf[0..4];
    m.commandLength := BytesInt(buf[0..4]);
    var n := m.commandLength;
    if n < -1 {
      return Failed, command;
    }
    if n == -1 || buf.Length < 9 + n {
      return Undefined, command;
    }
    command := heap.MallocChars(n + 1);
    m.command := command;
    Memcpy(command, 0, buf[4..4 + n]);
    command[n] := 0;
    m.returnType := buf[4 + n];
    m.argc := BytesInt(buf[5 + n..9 + n]);
    return Done(9 + n, 9 + n), command;
  }

  /** The pieces `DecodeMessage` takes from a block, read off the block itself. */
  lemma BlockDecodes(buf: array<SChar>)
    ensures buf.Length < 4 ==> DecodeMessage(buf[..]) == Undefined
    ensures buf.Length >= 4 ==>
              var n: int := BytesInt(buf[..4]);
              && (n < -1 ==> DecodeMessage(buf[..]) == Failed)
              && (n == -1 ==> DecodeMessage(buf[..]) == Undefined)
              && (0 <= n && buf.Length < 9 + n ==> DecodeMessage(buf[..]) == Undefined)
              && (0 <= n && 9 + n <= buf.Length ==>
                    var argc: int := BytesInt(buf[5 + n..9 + n]);
                    DecodeMessage(buf[..]) ==
                    match DecodeArgs(buf[9 + n..], argc)
                    case Done(vs, used) => Done(Message(buf[4..4 + n], buf[4 + n], argc, vs), 9 + n + used)
                    case Failed => Failed
                    case Undefined => Undefined)
  {
    hide BytesInt, DecodeArgs;
    var b := buf[..];
    if buf.Length >= 4 {
      assert b[..4] == buf[..4];
      var n: int := BytesInt(b[..4]);
      if 0 <= n && 9 + n <= buf.Length {
        assert b[5 + n..9 + n] == buf[5 + n..9 + n] && b[9 + n..] == buf[9 + n..];
        assert b[4..4 + n] == buf[4..4 + n];
      }
    }
  }

  /** Reads a request into fresh blocks and returns how far it is from `size` bytes. */
  method DeserializeMessage(m: MessageStruct, size: int, buf: array<SChar>, heap: Heap)
    returns (r: Decoded<int>)
    modifies m, heap
    ensures match DecodeMessage(buf[..])
            case Failed => r == Failed
            case Undefined => r == Undefined
            case Done(v, used) =>
              && r == Done(used - size, used)
              && m.Formed() && m.Value() == v
              && fresh(m.Owned()) && heap.live == old(heap.live) + m.Owned()
  {
    hide BytesInt, DecodeArgs, DecodeMessage, FreshArgs, AllBlocks, MessageStruct.Formed, MessageStruct.Value;
    BlockDecodes(buf);
    var cpt, command := DeserializeHeader(m, buf, heap);
    if !cpt.Done? {
      return if cpt.Failed? then Failed else Undefined;
    }
    if m.argc > 0 {
      m.argv := heap.MallocArgs(m.argc);
      var args := DeserializeArgs(buf, cpt.used, m.argv, heap);
      if !args.Done? {
        return if args.Failed? then Failed else Undefined;
      }
      FormedIntro(m, command, DecodeArgs(buf[cpt.used..], m.argc).value);
      return Done(args.value - size, args.value);
    }
    m.argv := null;
    NoArgs(buf[cpt.used..], m.argc);
    NoBlocks();
    FormedIntro(m, command, []);
    return Done(cpt.used - size, cpt.used);
  }

  // ------------------------------------------------ building and releasing

  /** `malloc(strlen(s) + 1)` then `strcpy`. */
  method CopyString(s: array<SChar>, heap: Heap) returns (copy: array<SChar>, n: nat)
    requires 0 in s[..]
    modifies heap
    ensures fresh(copy) && heap.live == old(heap.live) + {copy}
    ensures copy.Length == n + 1 && copy[n] == 0 && copy[..n] == old(CStr(s[..]))
    ensures 0 in copy[..] && CStr(copy[..]) == copy[..n]
  {
    n := Strlen(s);
    copy := heap.MallocChars(n + 1);
    Memcpy(copy, 0, s[..n]);
    copy[n] := 0;
    assert copy[..n] == copy[..][..n];
    CStrUnique(copy[..], n);
    assert copy[n] == copy[..][n];
  }

  /** Copies an argument's data into a block of its own; of an unknown type only the type. */
  method CopyArg(arg: RpcArg, heap: Heap) returns (copy: RpcArg)
    requires arg.Tagged()
    modifies heap
    ensures copy.typ == arg.typ && copy.Tagged() && copy.Value() == old(arg.Value())
    ensures copy.typ == TY_VOID ==> copy.data == Null
    ensures !TypeExists(copy.typ) ==> copy.data == Unset
    ensures fresh(copy.Blocks()) && heap.live == old(heap.live) + copy.Blocks()
  {
    if arg.typ == TY_VOID {
      copy := RpcArg(arg.typ, Null);
    } else if arg.typ == TY_INT {
      var cell := heap.MallocInt();
      cell.value := arg.data.cell.value;
      copy := RpcArg(arg.typ, IntPtr(cell));
    } else if arg.typ == TY_STR {
      var chars, n := CopyString(arg.data.chars, heap);
      copy := RpcArg(arg.typ, StrPtr(chars));
    } else {
      copy := RpcArg(arg.typ, Unset);
    }
  }

  /** The copying loop of `create_message`. */
  method CopyArgs(argv: array<RpcArg>, copies: array<RpcArg>, heap: Heap) returns (ghost vs: seq<Arg>)
    requires copies.Length <= argv.Length && copies != argv
    requires forall k | 0 <= k < copies.Length :: argv[k].Tagged()
    modifies heap, copies
    ensures |vs| == copies.Length && forall k | 0 <= k < |vs| :: vs[k] == old(argv[k].Value())
    ensures forall k | 0 <= k < copies.Length :: copies[k].typ == old(argv[k].typ)
    ensures FreshArgs(copies[..], vs)
    ensures fresh(AllBlocks(copies[..])) && heap.live == old(heap.live) + AllBlocks(copies[..])
  {
    hide FreshArgs, AllBlocks;
    NoBlocks();
    vs := [];
    var cpt := 0;
    while cpt < copies.Length
      invariant 0 <= cpt <= copies.Length && |vs| == cpt
      invariant forall k | 0 <= k < copies.Length ::
                  argv[k] == old(argv[k]) && argv[k].Tagged() && argv[k].Value() == old(argv[k].Value())
      invariant forall k | 0 <= k < cpt :: vs[k] == old(argv[k].Value()) && copies[k].typ == old(argv[k].typ)
      invariant FreshArgs(copies[..cpt], vs)
      invariant fresh(AllBlocks(copies[..cpt])) && heap.live == old(heap.live) + AllBlocks(copies[..cpt])
    {
      ghost var done := copies[..cpt];
      copies[cpt] := CopyArg(argv[cpt], heap);
      AllBlocksAppend(done, copies[cpt]);
      FreshArgsAppend(done, vs, copies[cpt]);
      assert copies[..cpt + 1] == done + [copies[cpt]];
      vs := vs + [copies[cpt].Value()];
      cpt := cpt + 1;
    }
    assert copies[..cpt] == copies[..];
  }

  /**
   Deep-copies a request into fresh blocks, unless a pointer or the return type is
   missing. The types of arguments are not looked at; where all are known the request
   is well formed.
   */
  method CreateMessage(m: MessageStruct, command: array?<SChar>, returnType: SChar, argc: int,
                       argv: array?<RpcArg>, heap: Heap)
    returns (code: int)
    requires command != null ==> 0 in command[..]
    requires argv != null && argc > 0 ==> argc <= argv.Length && forall k | 0 <= k < argc :: argv[k].Tagged()
    modifies m, heap
    ensures code == 0 || code == -1
    ensures code == 0 <==> command != null && TypeExists(returnType) && (argc > 0 ==> argv != null)
    ensures code == 0 ==>
              && fresh(m.Owned()) && heap.live == old(heap.live) + m.Owned()
              && |m.Args()| == (if argc > 0 then argc else 0)
              && forall k | 0 <= k < argc :: m.Args()[k].typ == old(argv[k].typ)
    ensures code == 0 && TypesExist(m.Args()) ==>
              && m.Formed() && m.Value().command == old(CStr(command[..]))
              && m.Value().returnType == returnType && m.Value().argc == argc
              && forall k | 0 <= k < argc :: m.Value().argv[k] == old(argv[k].Value())
  {
    hide FreshArgs, AllBlocks, MessageStruct.Formed, MessageStruct.Value, TypesExist, CStr;
    if command == null || !TypeExists(returnType) {
      return -1;
    }
    var copy, n := CopyString(command, heap);
    m.commandLength := n;
    m.command := copy;
    m.returnType := returnType;
    m.argc := argc;
    ghost var vs := [];
    if argc > 0 {
      if argv == null {
        return -1;
      }
      m.argv := heap.MallocArgs(argc);
      vs := CopyArgs(argv, m.argv, heap);
    } else {
      m.argv := null;
      NoBlocks();
    }
    if TypesExist(m.Args()) {
      FormedIntro(m, copy, vs);
    }
    return 0;
  }

  /** Releases every block the request owns, each exactly once, and nothing else. */
  method FreeMessage(m: MessageStruct, heap: Heap)
    requires m.Formed() && m.Owned() <= heap.live
    modifies heap
    ensures heap.live == old(heap.live) - m.Owned()
  {
    ghost var args := m.Args();
    heap.Free(m.command);
    var cpt := 0;
    while cpt < m.argc
      invariant 0 <= cpt <= |args|
      invariant heap.live == old(heap.live) - {m.command} - AllBlocks(args[..cpt])
    {
      var arg := m.argv[cpt];
      assert args[cpt] == arg && args[..cpt + 1] == args[..cpt] + [arg];
      AllBlocksAppend(args[..cpt], arg);
      assert arg.Blocks() <= AllBlocks(args);
      match arg.data {
        case IntPtr(cell) => heap.Free(cell);
        case StrPtr(chars) => heap.Free(chars);
        case _ =>
      }
      cpt := cpt + 1;
    }
    assert args[..cpt] == args;
    if m.argv != null {
      heap.Free(m.argv);
    }
  }

  // --------------------------------------------------------------- answers

  /** The "data completion" of `serialize_answer`: the type byte is written last. */
  method WriteValue(ret: RpcArg, dataSize: nat, data: array<SChar>)
    requires data !in ret.Blocks() && ret.Tagged() && TypeExists(ret.typ) && ret.Value().Valid()
    requires dataSize == |EncodeArg(ret.Value())| && data.Length == 5 + dataSize
    modifies data
    ensures data[5..] == old(EncodeArg(ret.Value()))
  {
    hide EncodeInteger, EncodeArg, Arg.Valid;
    ghost var v := ret.Value();
    ghost var tail := EncodeTail(v);
    if ret.typ == TY_INT {
      var n := SerializeInteger(ret.data.cell.value, data, 6);
      assert data[6..] == data[6..6 + n];
    } else if ret.typ == TY_STR {
      var strSize := dataSize - 2;
      Memcpy(data, 7, ret.data.chars[..strSize]);
      data[6] := ToSChar(strSize);
      assert data[6..] == [data[6]] + data[7..];
    }
    assert data[6..] == tail;
    data[5] := ret.typ;
    assert data[6..] == tail;
    assert data[5..] == [data[5]] + data[6..];
  }

  /**
   Builds an answer. NULL for an unknown type or a missing value on `RET_OK`;
   otherwise every byte of the block is the frame's. An error sent with a value
   still reserves room for it but leaves that room unwritten.
   */
  method SerializeAnswer(status: SChar, ret: Option<RpcArg>, heap: Heap)
    returns (msgSize: int, data: array?<SChar>)
    requires ret.Some? ==> ret.value.Tagged() && ret.value.Value().Valid()
    modifies heap
    ensures data == null <==> (ret.Some? && !TypeExists(ret.value.typ)) || (status == RET_OK && ret.None?)
    ensures data == null ==> heap.live == old(heap.live)
    ensures data != null ==> fresh(data) && heap.live == old(heap.live) + {data} && msgSize == data.Length
    ensures data != null && (status == RET_OK || ret.None?) ==>
              data[..] == AnswerFrame(status, if ret.Some? then Some(old(ret.value.Value())) else None)
    ensures data != null && status != RET_OK && ret.Some? ==>
              data.Length >= 5
              && data[..5] == IntBytes(1 + |EncodeArg(old(ret.value.Value()))|) + [status]
  {
    hide EncodeArg, IntBytes, Arg.Valid;
    msgSize := 0;
    var dataSize := 0;
    if ret.Some? {
      dataSize := OneArgSize(ret.value);
      if dataSize < 0 {
        return 0, null;
      }
    }
    var messageLength := 1 + dataSize;
    msgSize := 4 + messageLength;
    data := heap.MallocChars(msgSize);
    if status == RET_OK {
      if ret.None? {
        heap.Free(data);
        return msgSize, null;
      }
      WriteValue(ret.value, dataSize, data);
    }
    data[4] := status;
    Memcpy(data, 0, IntBytes(messageLength));
    AnswerParts(data);
    assert ret.None? ==> data[5..] == [];
  }

  lemma AnswerParts(data: array<SChar>)
    requires data.Length >= 5
    ensures data[..5] == data[..4] + [data[4]]
    ensures data[..] == data[..4] + ([data[4]] + data[5..])
  {
  }

  /**
   Reads an answer: its status, and on `RET_OK` the value in a fresh block. -1 for
   a frame too short to hold a status or a type, `None` when the C code would read
   past the frame.
   */
  method DeserializeAnswer(buf: array<SChar>, heap: Heap) returns (status: Option<int>, ret: RpcArg)
    modifies heap
    ensures match DecodeAnswer(buf[..])
            case Failed => status == Some(-1) && heap.live == old(heap.live)
            case Undefined => status == None
            case Done(Bare(st), _) => status == Some(st) && heap.live == old(heap.live)
            case Done(Reply(st, typ, v), _) =>
              && status == Some(st) && ret.typ == typ && ret.Tagged() && ret.Value() == v
              && fresh(ret.Blocks()) && heap.live == old(heap.live) + ret.Blocks()
  {
    hide DecodeInteger, CStr;
    ret := RpcArg(TY_VOID, Null);
    if buf.Length < 1 {
      return Some(-1), ret;
    }
    var st := buf[0];
    if st == RET_OK {
      if buf.Length < 2 {
        return Some(-1), ret;
      }
      ret := RpcArg(buf[1], Null);
      if ret.typ == TY_INT {
        var cell := heap.MallocInt();
        assert buf[..][2..] == buf[2..];
        var n := DeserializeInteger(buf, 2);
        if !n.Done? {
          return None, ret;
        }
        cell.value := n.value;
        ret := RpcArg(TY_INT, IntPtr(cell));
      } else if ret.typ == TY_STR {
        var dataLength := buf.Length - 3;
        if dataLength < 0 {
          return None, ret;
        }
        var data := CopyChars(buf, 3, dataLength, heap);
        assert buf[..][3..] == buf[3..] == buf[3..3 + dataLength];
        ret := RpcArg(TY_STR, StrPtr(data));
      }
    }
    return Some(st), ret;
  }
}
