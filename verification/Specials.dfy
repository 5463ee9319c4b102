/**
 The documentation of the registry: a size pass, then a writing pass over the
 same list into a block of exactly that size.
 */
module Specials {
  import opened CTypes
  import opened ListQueue
  import opened Mapper
  import opened RpcData
  import opened Wire

  function Chars(s: string): (r: seq<SChar>)
    ensures |r| == |s|
  {
    seq(|s|, k requires 0 <= k < |s| => ToSChar(s[k] as int))
  }

  const NEW_LINE: SChar := 10
  const COMMA: SChar := 44

  function HdName(): seq<SChar> { Chars("NAME: ") }
  function HdDoc(): seq<SChar> { Chars("DOC: ") }
  function NoDoc(): seq<SChar> { Chars("- no documentation -") }
  function HdRetType(): seq<SChar> { Chars("RETURNED TYPE: ") }
  function HdNbParam(): seq<SChar> { Chars("NUMBER OF PARAMETERS: ") }
  function HdParamTypes(): seq<SChar> { Chars("PARAMETERS TYPE: ") }

  /** `get_type` */
  function TypeText(typ: SChar): seq<SChar> {
    if typ == TY_VOID then Chars("<void>")
    else if typ == TY_INT then Chars("<int>")
    else if typ == TY_STR then Chars("<str>")
    else Chars("<unknown>")
  }

  // ----------------------------------------------------- the text, by meaning

  /** The types, separated by commas and ended by a new line. */
  function ParamList(types: seq<SChar>): seq<SChar> {
    if types == [] then []
    else TypeText(types[0]) + [if |types| > 1 then COMMA else NEW_LINE] + ParamList(types[1..])
  }

  function Params(types: seq<SChar>): seq<SChar> {
    if types == [] then [] else HdParamTypes() + ParamList(types) + [NEW_LINE]
  }

  function EntryText(f: Function): seq<SChar> {
    HdName() + f.name + [NEW_LINE]
    + HdDoc() + (if f.description == [] then NoDoc() else f.description) + [NEW_LINE]
    + HdRetType() + TypeText(f.returnType) + [NEW_LINE]
    + HdNbParam() + Digits(|f.argTypes|) + [NEW_LINE]
    + Params(f.argTypes)
  }

  /** One entry after the other, in registry order. */
  function EntriesText(fs: seq<Function>): seq<SChar> {
    if fs == [] then [] else EntryText(fs[0]) + EntriesText(fs[1..])
  }

  function DocText(fs: seq<Function>): seq<SChar> {
    EntriesText(fs) + [NEW_LINE]
  }

  /** How many entries have no description. */
  function Undocumented(fs: seq<Function>): nat {
    if fs == [] then 0 else (if fs[0].description == [] then 1 else 0) + Undocumented(fs[1..])
  }

  // ------------------------------------------------------------ the size pass

  method IntSize(i: nat) returns (size: nat)
    ensures size == |Digits(i)|
  {
    size := CountDigits(i);
  }

  method EntrySize(f: Function) returns (size: nat)
    ensures size == |EntryText(f)| - (if f.description == [] then |NoDoc()| else 0)
  {
    hide Chars;
    size := |HdName()| + |f.name| + 1;
    size := size + |HdDoc()| + |f.description| + 1;
    size := size + |HdRetType()| + |TypeText(f.returnType)| + 1;
    var digits := IntSize(|f.argTypes|);
    size := size + |HdNbParam()| + digits + 1;
    if |f.argTypes| > 0 {
      size := size + |HdParamTypes()|;
      ghost var base := size;
      var cpt := 0;
      assert f.argTypes[0..] == f.argTypes;
      while cpt < |f.argTypes|
        invariant 0 <= cpt <= |f.argTypes|
        invariant size + |ParamList(f.argTypes[cpt..])| == base + |ParamList(f.argTypes)|
      {
        assert f.argTypes[cpt..][1..] == f.argTypes[cpt + 1..];
        size := size + |TypeText(f.argTypes[cpt])|;
        size := size + 1;
        cpt := cpt + 1;
      }
      size := size + 1;
    }
  }

  /** The size pass forgets the text that stands in for a missing description. */
  method DocumentationSize(memory: Memory) returns (size: int)
    requires memory.Valid()
    ensures size == |DocText(memory.Contents())| - 20 * Undocumented(memory.Contents())
  {
    hide EntryText, Chars;
    ghost var nodes, fs := memory.fmap.nodes, memory.Contents();
    size := 0;
    var fmap := memory.fmap.first;
    ghost var k := 0;
    assert fs[0..] == fs;
    while fmap != null
      invariant k <= |nodes| && fmap == if k < |nodes| then nodes[k] else null
      invariant size + |EntriesText(fs[k..])| - 20 * Undocumented(fs[k..])
             == |EntriesText(fs)| - 20 * Undocumented(fs)
      decreases |nodes| - k
    {
      assert fs[k..][1..] == fs[k + 1..] && fs[k] == fmap.elem;
      var one := EntrySize(fmap.elem);
      size := size + one;
      fmap := fmap.next;
      k := k + 1;
    }
    size := size + 1;
  }

  lemma {:induction false} UndocumentedIff(fs: seq<Function>)
    ensures Undocumented(fs) == 0 <==> forall k | 0 <= k < |fs| :: fs[k].description != []
  {
    if fs != [] {
      UndocumentedIff(fs[1..]);
      assert forall k | 1 <= k < |fs| :: fs[k] == fs[1..][k - 1];
    }
  }

  /**
   The text and its final NUL fit the block of `documentation_size + 1` bytes
   exactly when every entry has a description.
   */
  lemma DocumentationFits(fs: seq<Function>)
    ensures var size := |DocText(fs)| - 20 * Undocumented(fs);
            |DocText(fs)| + 1 <= size + 1 <==> forall k | 0 <= k < |fs| :: fs[k].description != []
  {
    UndocumentedIff(fs);
  }

  /** The size pass on a registry it miscounts: one function, not described. */
  method PlaceholderExample(heap: Heap) returns (memory: Memory, size: int)
    modifies heap
    ensures fresh(memory) && memory.Valid()
    ensures memory.Contents() == [Function([102], [], TY_VOID, [], VoidFun(_ => ()))]
    ensures size + 1 < |DocText(memory.Contents())| + 1
  {
    memory := new Memory();
    var f := Function([102], [], TY_VOID, [], VoidFun(_ => ()));
    assert memory.Owned() == {};
    var code := AddFunction(memory, f, heap);
    size := DocumentationSize(memory);
    assert memory.Contents() == [f] && [f][1..] == [];
  }

  // --------------------------------------------------------- the writing pass

  /** `memcpy(doc + cpt, text, strlen(text)); cpt += strlen(text)` */
  method Put(doc: array<SChar>, cpt: nat, text: seq<SChar>) returns (next: nat)
    requires cpt + |text| <= doc.Length
    modifies doc
    ensures next == cpt + |text| && doc[..next] == old(doc[..cpt]) + text
  {
    Memcpy(doc, cpt, text);
    next := cpt + |text|;
  }

  /** `sprintf(doc + cpt, "%d", n)`: the numeral and a NUL, all inside the block. */
  method Sprintf(doc: array<SChar>, cpt: nat, n: nat)
    requires cpt + |Numeral(n)| + 1 <= doc.Length
    modifies doc
    ensures doc[..cpt + |Numeral(n)|] == old(doc[..cpt]) + Numeral(n)
  {
    Memcpy(doc, cpt, Numeral(n) + [0]);
    assert doc[..cpt + |Numeral(n)|] == doc[..cpt + |Numeral(n)| + 1][..cpt + |Numeral(n)|];
  }

  method PutParams(doc: array<SChar>, at: nat, types: seq<SChar>) returns (cpt: nat)
    requires at + |Params(types)| <= doc.Length
    modifies doc
    ensures cpt == at + |Params(types)| && doc[..cpt] == old(doc[..at]) + Params(types)
  {
    hide Chars, TypeText;
    cpt := at;
    ghost var before := doc[..at];
    if |types| > 0 {
      cpt := Put(doc, cpt, HdParamTypes());
      before := before + HdParamTypes();
      var i := 0;
      assert types[0..] == types;
      while i < |types|
        invariant 0 <= i <= |types|
        invariant cpt + |ParamList(types[i..])| == at + |HdParamTypes()| + |ParamList(types)|
        invariant cpt <= doc.Length && doc[..cpt] + ParamList(types[i..]) == before + ParamList(types)
      {
        ghost var done := doc[..cpt];
        var sep := if i < |types| - 1 then COMMA else NEW_LINE;
        assert types[i..][1..] == types[i + 1..];
        cpt := Put(doc, cpt, TypeText(types[i]));
        cpt := Put(doc, cpt, [sep]);
        Assoc(done, TypeText(types[i]), [sep]);
        Assoc(done, TypeText(types[i]) + [sep], ParamList(types[i + 1..]));
        i := i + 1;
      }
      assert doc[..cpt] == doc[..cpt] + ParamList(types[i..]);
      cpt := Put(doc, cpt, [NEW_LINE]);
      Assoc(old(doc[..at]), HdParamTypes(), ParamList(types));
      Assoc(old(doc[..at]), HdParamTypes() + ParamList(types), [NEW_LINE]);
    }
  }

  /** `sprintf`'s NUL, and the "0" it prints for no parameters, are overwritten. */
  method PutCount(doc: array<SChar>, at: nat, n: nat) returns (cpt: nat)
    requires at + |Digits(n)| + 2 <= doc.Length
    modifies doc
    ensures cpt == at + |Digits(n)| + 1
    ensures doc[..cpt] == old(doc[..at]) + Digits(n) + [NEW_LINE]
  {
    Sprintf(doc, at, n);
    var digits := IntSize(n);
    assert doc[..at + digits] == doc[..at + |Numeral(n)|][..at + digits];
    assert doc[..at + digits] == old(doc[..at]) + Digits(n);
    cpt := Put(doc, at + digits, [NEW_LINE]);
  }

  /** Writes an entry, or the placeholder where it has no description. */
  method PutEntry(doc: array<SChar>, at: nat, f: Function) returns (cpt: nat)
    requires at + |EntryText(f)| + 2 <= doc.Length
    modifies doc
    ensures cpt == at + |EntryText(f)| && doc[..cpt] == old(doc[..at]) + EntryText(f)
  {
    hide Chars, HdName, HdDoc, NoDoc, HdRetType, HdNbParam, TypeText, Params, Digits;
    cpt := PutLine(doc, at, HdName(), f.name);
    ghost var text := HdName() + f.name + [NEW_LINE];
    var description := if |f.description| > 0 then f.description else NoDoc();
    cpt := PutLine(doc, cpt, HdDoc(), description);
    text := Append3(old(doc[..at]), text, HdDoc(), description, [NEW_LINE]);
    cpt := PutLine(doc, cpt, HdRetType(), TypeText(f.returnType));
    text := Append3(old(doc[..at]), text, HdRetType(), TypeText(f.returnType), [NEW_LINE]);
    cpt := Put(doc, cpt, HdNbParam());
    cpt := PutCount(doc, cpt, |f.argTypes|);
    text := Append3(old(doc[..at]), text, HdNbParam(), Digits(|f.argTypes|), [NEW_LINE]);
    cpt := PutParams(doc, cpt, f.argTypes);
    Assoc(old(doc[..at]), text, Params(f.argTypes));
  }

  /** A header, its text and a new line. */
  method PutLine(doc: array<SChar>, at: nat, header: seq<SChar>, text: seq<SChar>) returns (cpt: nat)
    requires at + |header| + |text| + 1 <= doc.Length
    modifies doc
    ensures cpt == at + |header| + |text| + 1
    ensures doc[..cpt] == old(doc[..at]) + header + text + [NEW_LINE]
    ensures doc[..cpt] == old(doc[..at]) + (header + text + [NEW_LINE])
  {
    cpt := Put(doc, at, header);
    cpt := Put(doc, cpt, text);
    cpt := Put(doc, cpt, [NEW_LINE]);
    Assoc(old(doc[..at]), header, text);
    Assoc(old(doc[..at]), header + text, [NEW_LINE]);
  }

  /** Three more pieces after a prefix, nested as the text nests them. */
  lemma Append3<T>(p: seq<T>, t: seq<T>, a: seq<T>, b: seq<T>, c: seq<T>) returns (r: seq<T>)
    ensures r == t + a + b + c
    ensures p + t + a + b + c == p + r
  {
    r := t + a + b + c;
    Assoc(p, t, a);
    Assoc(p, t + a, b);
    Assoc(p, t + a + b, c);
  }

  /**
   The writing pass: in any block with room for it, the text of every entry, described
   or not, then a new line and the final NUL.
   */
  method Fill(memory: Memory, doc: array<SChar>)
    requires memory.Valid() && |DocText(memory.Contents())| + 1 <= doc.Length
    modifies doc
    ensures doc[..|DocText(memory.Contents())| + 1] == DocText(memory.Contents()) + [0]
  {
    hide EntryText, Chars;
    ghost var nodes, fs := memory.fmap.nodes, memory.Contents();
    var cpt := 0;
    var fmap := memory.fmap.first;
    ghost var k := 0;
    assert fs[0..] == fs;
    while fmap != null
      invariant k <= |nodes| && fmap == if k < |nodes| then nodes[k] else null
      invariant 0 <= cpt && cpt + |EntriesText(fs[k..])| + 1 == |DocText(fs)|
      invariant doc[..cpt] + EntriesText(fs[k..]) == EntriesText(fs)
      decreases |nodes| - k
    {
      ghost var done := doc[..cpt];
      assert fs[k..][1..] == fs[k + 1..] && fs[k] == fmap.elem;
      cpt := PutEntry(doc, cpt, fmap.elem);
      Assoc(done, EntryText(fs[k]), EntriesText(fs[k + 1..]));
      fmap := fmap.next;
      k := k + 1;
    }
    assert doc[..cpt] + [] == doc[..cpt];
    doc[cpt] := NEW_LINE;
    doc[cpt + 1] := 0;
  }

  /** The server's current documentation. */
  class Documentation {
    var docString: array?<SChar>

    constructor ()
      ensures docString == null
    {
      docString := null;
    }

    /**
     With every description present the text fills the block: the last write is
     the final NUL in its last byte. The block of an earlier call is released.
     Without one, the writing pass would leave the block.
     */
    method Generate(memory: Memory, heap: Heap) returns (size: int)
      requires memory.Valid()
      requires forall k | 0 <= k < |memory.Contents()| :: memory.Contents()[k].description != []
      requires docString != null ==> docString in heap.live
      modifies this, heap
      ensures size == |DocText(memory.Contents())|
      ensures docString != null && fresh(docString) && docString.Length == size + 1
      ensures docString[..] == DocText(memory.Contents()) + [0]
      ensures heap.live == old(heap.live) - Block(old(docString)) + {docString}
    {
      hide DocText, Undocumented;
      UndocumentedIff(memory.Contents());
      size := DocumentationSize(memory);
      if docString != null {
        heap.Free(docString);
      }
      docString := heap.MallocChars(size + 1);
      Fill(memory, docString);
      assert docString[..] == docString[..size + 1];
    }
  }
}
