# A verified model of the RPC service and its template language

The repository is a small remote procedure call service in C and the Pump
template language that generates its dispatcher. This project models both and
proves, for all inputs and all runs, what they are for.

The call path. `Wire` says what bytes requests and answers are, and proves the
round trips with their exact conditions. `RpcData` is the C codec itself: the
size pass, the writers that move a cursor through an allocated block, the readers
on arbitrary bytes, and the allocation and release of every block. `ListQueue`
and `Mapper` are the registry, an intrusive doubly linked list in which newer
entries shadow older ones. `Specials` is the two-pass documentation. `Service`
says what a request deserves; `Server` and `Client` are the code on both ends;
`Client.ExternalCall` is the whole call and returns what a direct call of the
newest function of that name would. `Processes` is the server as concurrent
processes: the accepting loop, the tracker, their mutex, and forked children with
alarms and deaths, over every interleaving; `Tracker` is the parent's linked list
of children and the sweep that removes them, tied to the steps of that model.

The template language. `PumpText`, `PumpPatterns` and `PumpLexer` say what the
tokens of a source are, as an automaton that leaves at most one list of them;
`PumpScan` is the tokenizer that finds it, `PumpCover` what the tokens account for.
`PumpSyntax`, `PumpParser` and `PumpTokens` are the grammar, its parser as a
function, and the recursive descent over a mutable token list. `PumpEval` gives the
pure semantics with the substitution and unrolling theorems, `PumpRun` the evaluator
that updates environments and output in place. `PumpInk`, `PumpSplit` and `PumpWrap`
are the line wrapper, with the exact condition under which it ever stops. `Pump` puts
the stages together.

Both meet in the template of the dispatcher. `Dispatcher`, `Pump` and `PumpTemplate`
follow it from its lines over tokens and tree to C, for any bound: a switch whose
case k passes on exactly the arguments 0 to k - 1. `DispatcherLines` shows that its
lines always wrap, and `Server.ExecuteFunction` calls through it.

Bytes from the network can make the C code read memory nobody has written. Decoders
and replies therefore have three outcomes: a result, an error exit, and one where C
leaves the effect open and nothing is claimed.

`CTypes` and `Wrappers` hold the machine types and the option and result types.
Methods follow the C and Python code; each is proved against a function, and the
lemmas state what is true of that function. `dafny verify dfyconfig.toml` checks
everything.

Where the documentation and the code differ, the code is modelled: a comment in
src/s_mapper.h:98 allows 127 parameters, the array and the generated dispatcher
allow 255.

## Model

| member | source | states |
|---|---|---|
| CTypes.IntBytesRoundTrip | src/u_rpc_data.c:264-283 | the four bytes copied out of any 32-bit int read back as that int, so headers can be trusted |
| CTypes.CStr | src/u_rpc_data.c:29-34 | what strlen and strcpy see of a block: its longest NUL-free prefix, ended by a NUL or by the block |
| CTypes.CStrUnique | src/u_rpc_data.c:29-34 | no other prefix is NUL-free and stopped by a NUL or the end, so a scanning loop that stops there has found it |
| Wire.NumeralLength | src/u_rpc_data.c:193-205 | a numeral has 1 to 11 characters and at most 10 digits for every int above INT_MIN, so the length byte never truncates |
| Wire.DigitsRoundTrip | src/u_rpc_data.c:207-238 | reading back the digits written gives the number, for every number up to INT_MAX, and no product or sum on the way overflows an int |
| Wire.IntegerRoundTrip | src/u_rpc_data.c:180-246 | reading back an integer above INT_MIN gives it, consumes exactly the bytes written, and ignores whatever follows |
| Wire.ArgRoundTrip | src/u_rpc_data.c:285-320 | a void, an int above INT_MIN or a NUL-free string of at most 127 characters is read back whole, whatever follows |
| Wire.LongArgLost | src/u_rpc_data.c:391-395 | a string argument of 128 characters or more is never read back as itself: its length byte is a signed char |
| Wire.ArgsRoundTrip | src/u_rpc_data.c:362-411 | any list of such arguments is read back in order, with exactly its bytes consumed |
| Wire.LongArgsLost | src/u_rpc_data.c:362-411 | one over-long string among the arguments is enough for the list read not to be the list written |
| Wire.MessageRoundTrip | src/u_rpc_data.c:332-415 | for every valid request, decoding its body followed by anything gives the request and its length if and only if every string argument is at most 127 characters long |
| Wire.LongStringExample | src/u_rpc_data.c:335-395 | a concrete valid request, with one string of 128 characters, that is not read back |
| Wire.FramesPrefixFree | src/u_rpc_data.c:257-283 | if two frames start the same byte stream they are the same request with the same rest |
| Wire.StreamRoundTrip | src/s_server.c:313-350 | cutting a concatenation of any number of frames by their 4-byte headers returns those requests in order and nothing else |
| Wire.SplitOne | src/s_server.c:313-350 | cutting a stream takes off its first frame and goes on with exactly the bytes behind it |
| Wire.AnswerRoundTrip | src/u_rpc_data.c:492-541 | every OK answer comes back with its type and value, also when a string is so long that its length byte truncates |
| Wire.ErrorRoundTrip | src/u_rpc_data.c:492-541 | an error status comes back unchanged, with nothing else |
| RpcData.Strlen | src/u_rpc_data.c:29 | the scan stops at the first NUL |
| RpcData.CountDigits | src/u_rpc_data.c:199-205 | the counting loop gives the number of decimal digits, 0 for 0 |
| RpcData.WriteDigits | src/u_rpc_data.c:207-216 | the loop from the last digit back to the first leaves the decimal digits in place and no other byte changed |
| RpcData.SerializeInteger | src/u_rpc_data.c:180-219 | writes the length byte and the numeral at the cursor, returns their count, and changes no other byte of the buffer |
| RpcData.DeserializeInteger | src/u_rpc_data.c:221-246 | on arbitrary bytes, with the value kept in 32 bits, agrees with the decoder in value and in bytes consumed, or reports that C would leave the buffer or overflow |
| RpcData.OneArgSize | src/u_rpc_data.c:139-172 | the size computed for one argument is the length of its encoding; -1 for an unknown type |
| RpcData.ArgSize | src/u_rpc_data.c:132-177 | the size pass over the arguments equals the number of bytes the writer will use, -1 if some type is unknown, 0 without arguments |
| RpcData.SerializeArg | src/u_rpc_data.c:285-326 | extends the bytes before the cursor by exactly the argument's encoding and advances the cursor past it |
| RpcData.SerializeHeader | src/u_rpc_data.c:257-283 | the bytes before the cursor are the size, the command with its length, the return type and the argument count |
| RpcData.SerializeArgs | src/u_rpc_data.c:285-326 | starting where the header ends, the loop fills the block to its last byte with the arguments in order |
| RpcData.SerializeMessage | src/u_rpc_data.c:248-330 | for every formed request the block has exactly size + 4 bytes, all of them the request's frame, with the cursor at the end |
| RpcData.DeserializeArg | src/u_rpc_data.c:366-409 | reads one argument into blocks of its own; the error exit for unknown types and for lengths malloc refuses, a distinct outcome where C leaves defined behaviour: a read past the end, an overflow, the length -1 |
| RpcData.DeserializeString | src/u_rpc_data.c:389-404 | reads a length byte and that many characters into a fresh terminated block; for the length -1, where C copies past an empty block, the distinct outcome |
| RpcData.DeserializeArgs | src/u_rpc_data.c:362-411 | on arbitrary bytes, the loop yields the values the decoder yields, in fresh blocks no two arguments share |
| RpcData.DeserializeHeader | src/u_rpc_data.c:342-360 | on arbitrary bytes, the command, return type and count are those at the cursor; a command length below -1 takes the error exit, -1 and a read past the end are told apart from it |
| RpcData.DeserializeMessage | src/u_rpc_data.c:332-437 | on arbitrary bytes, agrees with the decoder in all three outcomes; on success the structure is well formed, stands for the decoded request, owns only fresh blocks, and the result is how far the cursor is from the size |
| RpcData.CopyString | src/u_rpc_data.c:29-34 | a fresh terminated block with the same string |
| RpcData.CopyArg | src/u_rpc_data.c:51-76 | the copy has the same type and value and shares no block with the original |
| RpcData.CopyArgs | src/u_rpc_data.c:49-79 | every argument is copied in order into blocks that no other copy shares, leaving the originals alone |
| RpcData.CreateMessage | src/u_rpc_data.c:21-88 | succeeds exactly when the pointers it needs are there and the return type exists, whatever the types of the arguments; then it is a copy in fresh blocks, and where all types are known it stands for the request |
| RpcData.FreeMessage | src/u_rpc_data.c:109-124 | releases every block the request owns, each exactly once, and no other block |
| RpcData.WriteValue | src/u_rpc_data.c:461-483 | after writing the value behind its type byte, the block from offset 5 on is exactly the value's encoding |
| RpcData.SerializeAnswer | src/u_rpc_data.c:440-488 | NULL exactly for an unknown type or a missing value on OK; otherwise the block is filled with the answer's frame |
| RpcData.DeserializeAnswer | src/u_rpc_data.c:492-541 | on arbitrary bytes, agrees with the answer decoder: -1 when too short, the bare status, or the status with a value in a fresh block |
| ListQueue.ListHead.InsertHead | src/s_mapper.c:69 | both kinds of links describe the old list with the new entry in front |
| ListQueue.ListHead.Remove | src/s_mapper.c:127 | both kinds of links describe the old list without that entry, the others in their places |
| Mapper.CreateFunction | src/s_mapper.c:4-48 | an over-long name is refused before an unknown type; otherwise name, description, pointer and the truncated parameter types are stored |
| Mapper.IndexOf | src/s_mapper.c:100-105 | the first position of that name, or the length: none of the entries before it has the name |
| Mapper.AddFunction | src/s_mapper.c:50-73 | the list stays well formed, its size its length, with a freshly allocated entry in front of the old ones |
| Mapper.Find | src/s_mapper.c:118-123 | walking the links stops at the newest entry of that name, or at NULL if there is none |
| Mapper.ExistFunction | src/s_mapper.c:75-91 | 1, 0 or -1 as the name is registered, is not, or there is no registry; agrees with the lookup |
| Mapper.GetFunction | src/s_mapper.c:93-109 | the newest entry of that name, NULL exactly when there is none |
| Mapper.RemoveFunction | src/s_mapper.c:111-134 | unlinks and frees exactly the newest entry of that name, and succeeds exactly when there is one; the others keep their order |
| Mapper.ClearMapper | src/s_mapper.c:136-148 | frees every entry exactly once without using a link after its entry is gone, and leaves an empty, valid registry |
| Mapper.RemoveVersions | src/s_mapper.c:118-131 | removing a name takes the newest entry off that name's versions and leaves every other name's versions alone |
| Mapper.LookupIsTopOfStack | src/s_mapper.c:50-148 | after any history of add, remove and clear, a name's entries are a stack that only operations on that name and clearing touch, and a lookup returns its top |
| Specials.EntrySize | src/s_specials.c:66-92 | the size counted for an entry is the length of its text, short by the placeholder if it has no description |
| Specials.DocumentationSize | src/s_specials.c:58-100 | the size pass counts the text's length minus 20 characters for each entry without description |
| Specials.UndocumentedIff | src/s_specials.c:144-152 | that deficit is zero exactly when every entry has a description |
| Specials.DocumentationFits | src/s_specials.c:123-196 | the text and its final NUL fit the block if and only if every entry has a description |
| Specials.PlaceholderExample | src/s_specials.c:144-152 | the size pass, on a registry with one function without description, returns less than the length of its text |
| Specials.Sprintf | src/s_specials.c:168 | the numeral and sprintf's terminating NUL stay inside the block |
| Specials.PutCount | src/s_specials.c:164-170 | the count's digits and a new line, the NUL and the "0" of an empty parameter list having been overwritten |
| Specials.PutParams | src/s_specials.c:172-192 | the parameter types separated by commas and ended by a new line, and nothing for no parameters |
| Specials.PutEntry | src/s_specials.c:132-192 | extends the text by exactly the entry's text, the placeholder of an undescribed entry included, wherever the block has room |
| Specials.Fill | src/s_specials.c:128-196 | over any registry, given room, the writing pass produces exactly the text that the size is compared with |
| Specials.Documentation.Generate | src/s_specials.c:102-199 | with every description present, the block is filled to its last byte with the entries in registry order, a new line and a NUL; the previous block is freed |
| Dispatcher.CaseRuns | src/s_function_handler.c.pump:18-21 | with i bound to k, the loop body writes case k calling with argv[0] to argv[k-1], in order, separated by commas |
| Dispatcher.CasesRun | src/s_function_handler.c.pump:15-23 | the outer loop from k on writes the cases from k on, for any bound, in order |
| Dispatcher.SectionRuns | src/s_function_handler.c.pump:15-23 | one section writes its cases and leaves, for what follows, only the range it declared |
| Dispatcher.TemplateRuns | src/s_function_handler.c.pump:4-88 | for any bound n, evaluating the template writes the three sections with the cases 0 to n each, between the plain C |
| Dispatcher.LabelsDistinct | src/s_function_handler.c.pump:19 | no two cases of a section are printed with the same label |
| Dispatcher.SwitchPassesAll | src/s_function_handler.c.pump:13-28 | a call with at most n arguments selects the case that passes all of them on in order; with more, the default |
| PumpParser.ParseEmit | ext/pump.py:475-574 | parsing the written form of any syntax that fits before the rest gives its tree and leaves exactly the rest |
| PumpParser.ParseEmitElse | ext/pump.py:475-500 | the same for else branches: elif chains become nested ifs, blank code before else is dropped |
| PumpParser.ReadCode | ext/pump.py:564-574 | whatever the parser accepts is the written form of some syntax that fits before what it left and denotes the tree it returned |
| PumpParser.ParserIsGrammar | ext/pump.py:475-574 | the parser returns a tree and a rest if and only if the tokens spell some way of writing that tree which fits before that rest |
| PumpParser.ParsePrint | ext/pump.py:475-574 | printing a canonical tree before an end or a `]]` and parsing it gives back the tree and exactly the rest |
| PumpParser.CanonicalIsParsed | ext/pump.py:493-498 | the canonical trees (no blank raw code right after an else-less if) are exactly the trees some token list parses to |
| PumpTokens.TokenList.Pop | ext/pump.py:453-460 | removes the first token if it has the expected type, and aborts otherwise |
| PumpTokens.ParseBlockNode | ext/pump.py:512-516 | consumes a bracketed block as the grammar says, or aborts exactly when there is none |
| PumpTokens.ParseCodeNode | ext/pump.py:564-574 | the loop over the shared list returns the tree and leaves the tokens that the grammar's parser does, and aborts exactly when it fails |
| PumpTokens.ParseAtomicCodeNode | ext/pump.py:503-561 | the same for one atomic code; where none starts, the popped token is pushed back |
| PumpTokens.ParseVarNode | ext/pump.py:509-519 | the same behind `$var` |
| PumpTokens.ParseForNode | ext/pump.py:520-531 | the same behind `$for`, with an optional separator |
| PumpTokens.ParseIfNode | ext/pump.py:532-539 | the same behind `$if` |
| PumpTokens.ParseRangeNode | ext/pump.py:540-545 | the same behind `$range` |
| PumpTokens.ParseElseNode | ext/pump.py:475-500 | the same for what may follow an if |
| PumpEval.Substitution | ext/pump.py:614-704 | running code with x bound to k writes the same text, or fails the same, as running it with k in place of every free x and no binding; inner `$var x` and `$for x` shadow |
| PumpEval.RunAlike | ext/pump.py:656-704 | the generalization: environments that agree on every name but x run code and substituted code alike, and stay alike |
| PumpEval.UnrollRuns | ext/pump.py:668-680 | the rounds of a loop write what its unrolled code writes |
| PumpEval.ForIsUnrolling | ext/pump.py:668-680 | a `$for` is its written-out unrolling, failure and bindings included |
| PumpEval.UnrollCounts | ext/pump.py:672-680 | that unrolling has max(0, hi - lo + 1) bodies and one separator fewer, between neighbours only |
| PumpEval.ScopesClose | ext/pump.py:668-699 | a loop, branch or block leaves the bindings around it unchanged |
| PumpEval.RunOnlyPrepends | ext/pump.py:595-612 | running code only adds bindings in front of those it started with |
| PumpRun.Env.Clone | ext/pump.py:589-593 | a fresh environment with the same bindings |
| PumpEval.NormalizeIsNumeral | ext/pump.py:595-603 | pushing a value makes it an int exactly when it is the decimal text of one, and then of that one |
| PumpEval.NormalizeKeepsText | ext/pump.py:595-603 | however a value is stored, it is written out as the same text |
| PumpRun.Env.PushVariable | ext/pump.py:595-603 | from then on the name is written as the value was, whether or not it was stored as an int, and every other name keeps its meaning |
| PumpRun.Env.GetValue | ext/pump.py:614-620 | the newest binding of the name, or the error exit |
| PumpRun.Env.GetRange | ext/pump.py:632-638 | the newest range of the name, or the error exit |
| PumpRun.RunAtomicCode | ext/pump.py:656-699 | the evaluator on a mutable environment and output fails exactly when the pure semantics does, and otherwise leaves its bindings and appends its text; output is never taken back |
| PumpRun.RunLoop | ext/pump.py:668-680 | the same for the loop, which cannot touch the caller's bindings |
| PumpRun.RunCode | ext/pump.py:702-704 | the same for a list of atomic codes, in the caller's environment |
| PumpText.SubStringIsSpan | ext/pump.py:208-223 | text cut out by line and column is the text of the source between the two offsets |
| PumpPatterns.FirstMatchIsFirst | ext/pump.py:72-84 | at one place the token is that of the first pattern of the table that matches there |
| PumpPatterns.BestIsBest | ext/pump.py:169-183 | the match found is the leftmost of all patterns, and at that place the first of the table |
| PumpPatterns.OpensMatches | ext/pump.py:72-84 | some pattern of the table matches exactly where the text starts with `$`, `[[` or `]]` |
| PumpPatterns.RestOfLineStops | ext/pump.py:255 | the expression of a `$var` ends at the first comment of its line, or else before the line break |
| PumpPatterns.ParenMatches | ext/pump.py:281-300 | the expression behind a lone `$` ends at the parenthesis that closes the one it starts with: no count of open parentheses before it goes below zero, and there it is zero |
| PumpLexer.TokensAreUnique | ext/pump.py:310-379 | a source has at most one list of tokens: kinds, positions and texts are determined, token after token |
| PumpLexer.DeadIsFinal | ext/pump.py:243-278 | where no token can follow, no continuation of any kind reaches the end of the source |
| PumpScan.FindFirst | ext/pump.py:186-205 | the next table token, taken whole, with no place before it where a pattern matches; None only if there is none to the end |
| PumpScan.EmitFound | ext/pump.py:317-379 | appends the raw code before the token found, if there is any, and then that token, in the state its kind leads to |
| PumpScan.TokenizeVar | ext/pump.py:328-339 | appends the identifier, `=` and, unless a block follows, the expression that have to follow `$var`; it exits only if one of them is missing and no other token can stand there |
| PumpScan.TokenizeFor | ext/pump.py:340-346 | the same for the identifier behind `$for` |
| PumpScan.TokenizeRange | ext/pump.py:347-361 | the same for the identifier, `..` and the two bounds behind `$range` |
| PumpScan.TakeUpper | ext/pump.py:359-361 | the upper bound is the rest of the line with its line break; it exits only if there is no next line |
| PumpScan.TokenizeDollar | ext/pump.py:362-368 | the same for the expression in matched parentheses behind a lone `$` |
| PumpScan.TokenizeLines | ext/pump.py:310-379 | always ends; it returns the one list of tokens the source has, and exits with an error if and only if there is none |
| PumpCover.TokensInOrder | ext/pump.py:310-379 | the tokens of any source are ordered and disjoint, true to the text at their positions, apart only by what may be skipped, reach its end, and raw code has no marker |
| PumpCover.GapsAreBlank | ext/pump.py:310-379 | in a source without meta comments only whitespace is left between tokens |
| PumpInk.SegmentsConcat | ext/pump.py:748 | the segments a line is split into join up to the line |
| PumpSplit.EndsIff | ext/pump.py:752-758 | the recursive account of the splitting loop is right: it holds if and only if the loop's condition fails after some number of rounds |
| PumpSplit.EndsUnlessStuck | ext/pump.py:752-758 | the loop ends if and only if the segment has no trap: no word start, behind a space or in front, with more text to come than a continuation line takes and no space in that width (for the first word, in the first line's width) |
| PumpWrap.SplitSegment | ext/pump.py:752-758 | for any segment, splitting ends exactly when no round lacks a place to cut, and then loses no character but blanks and emits no line wider than 80 |
| PumpWrap.SplittingEnds | ext/pump.py:752-758 | on a line, the loop comes to its end after some number of rounds if and only if the first segment has no trap |
| PumpWrap.LongWordExample | ext/pump.py:752-758 | a line on which the script never stops: 81 characters without a space |
| PumpWrap.BreakableFits | ext/pump.py:741-768 | a line with a space in every window as wide as a continuation line is always wrapped to its end |
| PumpWrap.EmittedInk | ext/pump.py:755 | without a continuation mark the emitted lines print the pieces, blanks aside |
| PumpWrap.WrapCode | ext/pump.py:741-768 | wrapping ends if and only if the line has no trap; then the emitted lines carry its characters, blanks aside, in order, and if its segments fit a continuation line none is wider than 80 |
| Pump.Convert | ext/pump.py:823-827 | the text written is what the one token list of the source means by its one tree; it exits with an error if and only if the source has no tokens, they have no tree, or running it fails |
| Pump.SectionReads | src/s_function_handler.c.pump:15-23 | a section as parsed, with its expressions read, is the section the evaluator theorems are about |
| Pump.DispatcherGenerated | src/s_function_handler.c.pump:4-88 | from tokens to C for any bound n: parsing the tokens of the template as it is spelled and running the tree writes cases 0 to n in order in each section, case k passing argv[0] to argv[k-1] |
| PumpTemplate.SectionTokens | src/s_function_handler.c.pump:15-23 | the nine lines of a section have exactly the tokens of its syntax, wherever in a source they stand |
| PumpTemplate.TemplateEmits | src/s_function_handler.c.pump:4-88 | those tokens are the written form of the template's syntax |
| PumpTemplate.TemplateMeans | src/s_function_handler.c.pump:4-88 | from lines to C for any bound n: the template, with any plain C around its sections, has tokens, and they mean that C with the cases 0 to n in each section |
| PumpTemplate.GenerateDispatcher | ext/pump.py:823-827 | running the translator on the lines of the template writes that dispatcher |
| DispatcherLines.CallLineBreakable | src/s_function_handler.c.pump:20 | however many arguments, the generated call line has a space in every window as wide as a continuation line |
| DispatcherLines.CallSegmentsFit | src/s_function_handler.c.pump:20 | none of its segments is too wide for its line |
| DispatcherLines.WrapCallLine | ext/pump.py:775-776 | wrapping the call line of any arity up to 255 ends, keeps every character of the call in order, and emits no line wider than 80 |
| Service.Request | src/s_server.c:313-350 | what a child gets from arbitrary bytes, a frame cut short included: a request with as many arguments as it says, an exit, or a third outcome where C leaves it open |
| Service.ShortFrameExample | src/s_server.c:313-350 | a concrete frame whose header announces more than arrives, and which the child takes as a request all the same |
| Service.RequestArrives | src/s_server.c:313-350 | a child that is sent a frame reads exactly the request it was made from, whatever is sent after it |
| Service.RemoteIsLocal | src/c_client.c:5-64 | for every registry and sendable request, the client's code, status and stored value are those of the checks and of calling the newest function of that name directly |
| Service.ReturnTypeAgrees | src/s_server.c:232-242 | an accepted request agrees with the function in return type and number of arguments |
| Server.SendError | src/s_server.c:300-311 | sends one answer frame that carries only the status |
| Server.ReadMsg | src/s_server.c:313-350 | on arbitrary bytes, decodes only what was received and goes on exactly when they hold a request, which the filled structure then stands for; an exit and an open outcome are told apart |
| Server.SearchFunction | src/s_server.c:244-258 | the newest entry of that name, or an unknown-function answer and the end |
| Server.VerificationFunction | src/s_server.c:232-242 | goes on exactly when the request matches; otherwise sends the status of the first failing check: count, leftmost argument type, return type |
| Server.CallInto | src/s_function_handler.c.pump:53-80 | the result of the call, tagged and in a block of its own, or the NULL string it returned |
| Server.ExecuteFunction | src/s_function_handler.c.pump:4-88 | the case selected for this many arguments yields the answer frame of calling the function on all of them, and no frame exactly if that call returns a NULL string; the result's block is freed |
| Server.ReadRequest | src/s_server.c:201-202 | the request the bytes hold, the exit they cause, or that C leaves it open |
| Server.ExecuteClient | src/s_server.c:196-220 | over any registry and any bytes, sends exactly the one reply they determine, nothing where they make the child exit, and claims nothing where C leaves the effect open |
| Client.CollectArgs | src/c_client.c:19-37 | two walks over the variable arguments store exactly those before the NULL, in order |
| Client.PrepareRequest | src/c_client.c:18-40 | the request built stands for the command, type and arguments passed, in fresh blocks |
| Client.SendCmd | src/c_client.c:91-113 | sends exactly the request's frame and keeps nothing allocated |
| Client.GetAnswer | src/c_client.c:116-183 | on any stream, cut short or empty too, the code, printed status and stored value are those of what was received, `ret` is untouched otherwise, and nothing stays allocated; no claim where they depend on unwritten memory |
| Client.Transmition | src/c_client.c:51-64 | against a child of the server, the caller gets the local outcome |
| Client.ExternalCall | src/c_client.c:5-49 | the whole call: the value of the newest function of that name if the signature matches, else -1, the status of the first failing check and an untouched `ret`; every block allocated is released |
| Processes.ActFits | src/s_server.c:196-230 | each step of a child keeps it on the way to the one reply its request and the registry determine, or nowhere in particular where C leaves that open |
| Processes.StruckFits | src/s_server.c:12-16 | an alarm or a signal at any moment leaves NO_ANSWER as the only other frame that may come first |
| Processes.StepKeepsFrames | src/s_server.c:44-230 | every step of any process keeps the invariant about the frames sent |
| Processes.HeadIsTracked | src/s_server.c:139-140 | the child the tracker is about to wait for exists and has not been waited for |
| Processes.DropKeepsProcesses | src/s_server.c:162-173 | a removal takes out one entry, whose child has ended and is not listed again |
| Processes.StepKeepsProcesses | src/s_server.c:44-187 | every step keeps the invariant about the lock, the list and the children |
| Processes.RunInvariant | src/s_server.c:44-187 | both invariants hold after any run |
| Processes.FirstFrame | src/s_server.c:12-16 | over every run, wherever request and registry determine a reply, the first frame a client gets is that reply or NO_ANSWER, the latter only if its child's alarm fired or it was signalled; else no second frame follows |
| Processes.Conservation | src/s_server.c:93-187 | over every run, forked children are split disjointly into listed, removed and at most one awaiting insertion; pids and descriptors listed are distinct; the ECHILD branch is never taken; each entry is removed once, after its process ended |
| Processes.SweepsToTheEnd | src/s_server.c:126-182 | over every run, the tracker gives the mutex back only when no child is listed: a sweep waits for every listed child to end, and until then no new child can be listed |
| Processes.AloneReplies | src/s_server.c:196-220 | left alone, the stepwise child sends what the sequential one does wherever that is determined, and ends |
| Tracker.KeepTrackOfClient | src/s_server.c:93-104 | the linked list stays well formed, with a freshly allocated entry for the child in front |
| Tracker.DropFirst | src/s_server.c:162-166 | unlinking and freeing the first entry leaves the rest, and the saved link is its first entry |
| Tracker.UnlinkFirst | src/s_server.c:150-171 | unlinking the first entry leaves the others in their order, well linked, and not the entry itself |
| Tracker.CheckClientTrack | src/s_server.c:133-180 | for any sequence of waitpid results, ECHILD included, the sweep leaves the entries the pure sweep leaves, frees exactly those it passed, once each and without reading a freed link, and answers for the first signalled child |
| Tracker.SweepResumes | src/s_server.c:139-142 | a sweep that is waiting goes on from there when more results come in |
| Tracker.FinishedSweepSawAll | src/s_server.c:134-180 | only a sweep that has seen as many children exit as were listed comes to its end |
| Tracker.SweepIsSteps | src/s_server.c:139-173 | one round of the sweep changes the list, the removals and the tracker as the steps of the process model do |

## Left out

- Integers of value INT_MIN: their negation overflows in C (src/u_rpc_data.c:156 and src/u_rpc_data.c:187), so sizes, writing and round trips are stated for the ints above it.
- Service.Request: has an outcome of its own, of which nothing is claimed, where C leaves the effect of received bytes open: reads behind what was received, the length -1, overflowing numerals, size headers that are short or negative.
- Server.ExecuteClient: claims nothing in that case, nor where the function called returns a NULL string; a result that overflows an answer (INT_MIN, a frame above INT_MAX) is excluded, as it overflows in C.
- Processes.FirstFrame: claims nothing of the first frame of a child in that case; every other child, and every other claim about such a run, is unaffected. The same holds for Processes.AloneReplies and Processes.ActFits.
- Client.GetAnswer: claims nothing where the answer received is cut short behind an OK status or makes the C code read past it; the server's answers never do.
- Server.ReadMsg: the error exit is taken to end the process; its cleanup, which frees fields that may never have been set, is not modelled and could kill the child first, as a Kill step of Processes does.
- RpcData.SerializeAnswer: an error answer that is given a value reserves room for it without writing there; what those bytes are is left open, as it is in C.
- RpcData.CreateMessage: a failing call may leave blocks allocated and fields unset; the `goto fail` cleanups of the codec, which read fields that were never set, are not modelled. An argument of unknown type is copied without its value, which C leaves uninitialized.
- RpcData.DeserializeMessage: after an error exit or an undefined read nothing is said about the structure.
- Mapper.CreateFunction: requires what the C code leaves unchecked, room for the description and at most 255 parameters; beyond that it writes outside its arrays. The room for names and the caller's `ret` is not modelled either.
- Specials.Documentation.Generate: requires that every entry has a description, since otherwise its block is too short, as Specials.DocumentationFits says for all registries; what C does then is undefined.
- Pump.Convert: reading a meta expression is a parameter, since its syntax is Python's; `StripMetaComments` before it and the beautifier's line-by-line choice of a wrapper after it are not part.
- PumpTemplate.TemplateMeans: the plain C around the sections is arbitrary text without markers; the sections, the line break that stays in the inner range's upper bound and the separators are those of the file.
- PumpWrap.WrapCode: says nothing of what was emitted before the script starts to loop. A first segment exactly as wide as its line is left out of the claim about widths, since the script then emits an empty line and may emit the segment behind a deeper indentation.
- Processes.SweepsToTheEnd: does not claim that a sweep ends, since a child that is still running is polled again at once. The parent's list is a value in Processes; its links are the subject of Tracker.
- Tracker.CheckClientTrack: the results of `waitpid` are a parameter; errors other than ECHILD, which WNOHANG does not give, are not among them. What C does behind the ECHILD branch, where it looks at a status never written, is left open.
- Failing malloc, locks, timers, sends and receives; a fork that fails is a step.
- Sockets, partial transfers, real processes, timers and the five-second limits: connections are byte sequences, what a peer sends is there when it is read, and alarms, signals and schedules are arbitrary steps.
- Host byte order, taken to be little-endian, and the 32-bit int and signed char of the usual targets.
- Python's `eval` and regular expressions: meta expressions are a small datatype, the token table is matched by hand-written functions; whitespace is ASCII; exceptions and `sys.exit` are one failure.
- Wrapping of comments, and the exceptions for preprocessor lines and IWYU pragmas.
- The bodies of the default functions (functions are arbitrary), command lines, help texts, logging, debug printers, example programs and build files.
