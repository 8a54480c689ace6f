# RootWire: the filter compiler and the capture files, verified

RootWire captures Ethernet frames. Two of its parts are modelled here and proved correct in Dafny:
the compiler that turns a tcpdump-style expression (`tcp and not port 22`) into a classic-BPF
program, together with the interpreter that gives such programs their meaning, and the byte formats
of capture files. `dafny verify dfyconfig.toml` checks everything.

## The compiler

An expression means one of three things on a packet: it is true, it is false, or it aborts, because
it looks at a byte past the end of the packet. `Filter.Eval` gives that meaning in terms of packet
fields; `not` does not undo an abort, and `and`/`or` look at their right side only if the left has
not decided. The main theorem is `Compiler.CompilesExactly`: a text compiles exactly when it
derives a tree whose longest jump fits eight bits, and the program then accepts exactly the packets
of which the tree is true, for every text and every byte string, unless the run is longer than the
interpreter's step guard allows.

Two theorems say the converse. `Defects.FailsExactly`: a token list gets a syntax error exactly when
it has the defect the error names, told in terms of the grammar. `Identity.ProgramsDecide`: two
expressions compile to the same program exactly when they are the same up to double negation,
De Morgan's laws and association, so the program gives the expression back.

| file | part |
|---|---|
| `Bytes.dfy`, `Wrappers.dfy` | byte orders, bitwise operators; optional values and errors |
| `Vm.dfy`, `Machine.dfy` | the interpreter; the same machine as a relation between states |
| `Filter.dfy`, `Frames.dfy` | expressions and their three-valued meaning; what they mean byte by byte |
| `Lexer.dfy`, `Numerals.dfy`, `Lexemes.dfy` | tokens; decimals and dotted quads; the lexer told by character codes |
| `Grammar.dfy`, `Parser.dfy`, `Printing.dfy` | the grammar as a relation, the recursive-descent parser, trees back to text |
| `Defects.dfy`, `Malformed.dfy` | what is wrong where the parser fails, and the errors of near misses |
| `Assembler.dfy` | the emitter, the label discipline, the resolver |
| `Conditions.dfy`, `Simulation.dfy` | label-free code, and that the interpreter runs it as it means |
| `Lowering.dfy`, `Costs.dfy` | the primitives as such code, and the steps they take |
| `Codegen.dfy`, `Emission.dfy`, `Listings.dfy` | labelled code and its links; the code generator as it runs; the programs of single primitives |
| `Correctness.dfy`, `Segments.dfy`, `Ranges.dfy` | what programs and their parts do; sizes and jump ranges |
| `Algebra.dfy`, `Identity.dfy` | laws that keep the bytes, and that no other expressions share a program |
| `Golden.dfy`, `Layouts.dfy`, `Tcpdump.dfy`, `Battery.dfy` | tcpdump's programs, what code they are, and the compiled ones against them, from the tree and from the text |
| `Compiler.dfy`, `Packing.dfy` | from text to program; programs as the kernel's bytes |
| `Pcap.dfy`, `Pcapng.dfy`, `Captures.dfy` | classic capture files, their writer and reader; the pcapng block walk; both byte by byte |

How the proof goes: the code generator runs as methods that append to an emitter and make labels
(`Emission`). They are proved to append `Codegen.Code` of a *condition*, a small structure of loads,
tests and branches that an expression lowers to. Replacing labels by distances gives the condition's
label-free code (`GeneratedLinks`), which is what the resolver computes on every stream that keeps the
label discipline (`ResolvesToLink`, `EmittedResolves`). The interpreter runs label-free code as the
condition says (`CodeRuns`), and the condition says what the expression means (`LowerMeans`).
tcpdump's optimized programs are label-free code of other conditions, ones that load a field once
and test it several times, so the same simulation settles when both answer alike.

A label is the counter value it was made with; the original compares labels by identity. Label hints
play no part.

## Where the code differs from what is said of it

- `port` never tests for EtherType 0x0800: every frame that is not IPv6 is read as IPv4
  (`src/rootwire/bpf_compiler.py:640-646`). The module's documentation calls the result a strict
  subset of tcpdump's `port` (`src/rootwire/bpf_compiler.py:36-44`); it is not:
  `Tcpdump.OtherEtherTypes` says exactly which frames only the compiled program takes,
  `Tcpdump.OnlySctp` which only tcpdump's does, and `Tcpdump.NotASubset` and `Tcpdump.NotASuperset`
  give one of each.
- The interpreter takes its 10,000-step guard for a sign of a jump loop (`tests/bpf_vm.py:130-135`).
  `Ranges.GuardIsReachable` gives an expression that compiles, with every jump local, whose run
  trips the guard. `Correctness.CompilerCorrect` says exactly when, with `Costs.Cost` counting the
  steps by recursion on the expression.

## Model

| member | source | states |
|---|---|---|
| `Compiler.CompilesExactly` | src/rootwire/bpf_compiler.py:729-750 | A text compiles if and only if it derives a tree from the grammar whose longest jump is at most 255; then on every packet the interpreter keeps 0x40000 bytes exactly when the tree is True and none otherwise, or its step guard goes off, exactly when the run is longer than 10,000 |
| `Compiler.CompileExpression` | src/rootwire/bpf_compiler.py:729-750 | The method returns the specification's result, all four kinds of error included |
| `Compiler.UnderstoodExactly` | src/rootwire/bpf_compiler.py:735-738 | Lexing and parsing give a tree exactly when the text is lexically sound and derives that tree |
| `Compiler.CanonicalCompiles` | src/rootwire/bpf_compiler.py:6-17 | The canonical text of every well-formed tree derives the tree, and compiles to the tree's own program exactly when its jumps fit |
| `Compiler.SameProgramIff` | src/rootwire/bpf_compiler.py:729-750 | Two texts, one of which compiles, compile to the same program if and only if their trees are the same up to double negation, De Morgan's laws and association |
| `Compiler.SyntaxErrorIff` | src/rootwire/bpf_compiler.py:729-750 | A text gets a syntax error exactly when its tokens, of which there are some, have the defect the error names |
| `Compiler.UnexpectedIff` | src/rootwire/bpf_compiler.py:144-149 | A character is reported at a position exactly when the pieces the text falls into end there and the character's code begins no piece |
| `Compiler.TooFarIff` | src/rootwire/bpf_compiler.py:710-719 | A jump distance is reported exactly when the text derives a tree in whose code it is the first over 255 |
| `Compiler.EmptyIff` | src/rootwire/bpf_compiler.py:735-737 | The empty-expression error arises exactly on texts of characters with the codes 9-13 and 28-32 only |
| `Correctness.CompilerCorrect` | src/rootwire/bpf_compiler.py:649-750 | The interpreter's answer for a compiled tree: 0x40000 exactly when the three-valued meaning is True, 0 on False and Abort, and the guard exactly when the steps, counted by recursion on the tree, pass 10,000 |
| `Costs.LowerSpends` | tests/bpf_vm.py:122-154 | The tests of a tree take exactly the steps counted by recursion on the tree and its meaning, from any registers |
| `Correctness.CompiledRuns` | tests/bpf_vm.py:122-154 | A compiled program ends every run by a return or a rejected load: it never runs off its end nor meets an unsupported opcode, and takes at most as many steps as it has instructions |
| `Segments.LabelledSegmentRuns` | src/rootwire/bpf_compiler.py:649-680 | What is appended for one node, anywhere in a disciplined stream that resolves: entered at its first instruction with any A and X, the run goes on where its true label lies, where its false label lies, or is rejected, as the node's meaning on the packet says |
| `Segments.ExitsArePlaced` | src/rootwire/bpf_compiler.py:393-423 | Code that keeps the label discipline has both its exits placed behind it |
| `Correctness.SegmentRuns` | tests/bpf_vm.py:122-154 | The same of label-free code at any place in any program, its exits given as distances |
| `Correctness.ShortProgramsAnswer` | tests/bpf_vm.py:122-154 | Programs of at most 10,000 instructions never meet the step guard |
| `Correctness.CompiledHorizon` | src/rootwire/bpf_compiler.py:357-374 | The answer, step guard included, depends on the first 78 bytes only, and with 78 bytes no load is out of bounds |
| `Filter.EvalGrows` | tests/bpf_vm.py:157-160 | A packet that decides an expression decides it alike when more bytes follow |
| `Filter.NeverAborts` | src/rootwire/bpf_compiler.py:357-374 | No expression aborts on 78 bytes or more |
| `Filter.Horizon` | src/rootwire/bpf_compiler.py:357-374 | Nothing past byte 78 changes the meaning |
| `Filter.HorizonIsTight` | src/rootwire/bpf_compiler.py:599-631 | 78 is exact: a 77-byte packet on which an expression aborts |
| `Ranges.DesugaredVerdicts` | src/rootwire/bpf_compiler.py:511-554 | `host H` and `port P` compile to other programs than their src-or-dst forms and get the same answers from the interpreter on every packet, truncated ones included |
| `Filter.OperandOrderMatters` | src/rootwire/bpf_compiler.py:667-678 | A 14-byte frame on which `ip or tcp` is True and `tcp or ip` aborts |
| `Filter.PortIgnoresEtherType` | src/rootwire/bpf_compiler.py:633-646 | A frame that is neither IPv4 nor IPv6 on which `port 80` is True |
| `Frames.ProtocolBytes` | src/rootwire/bpf_compiler.py:447-508 | Each protocol word is True exactly on frames with these bytes: the two of the EtherType, the transport protocol at 23, at 20, or at 54 behind a Fragment header |
| `Frames.PortBytes` | src/rootwire/bpf_compiler.py:557-646 | `port` is True exactly on frames with these bytes: over IPv6 (12-13 are 86 DD) 6 or 17 at 20 and the port's two bytes at 54 or 56; else 6 or 17 at 23, a fragment offset of zero in 20-21, and the two bytes at 14 + 4 * (p[14] % 16) or two further on |
| `Filter.QuadInjective` | src/rootwire/bpf_compiler.py:325-328 | Different octets pack to different addresses |
| `Filter.HostOctets` | src/rootwire/bpf_compiler.py:511-529 | `host a.b.c.d` is True exactly when bytes 12-13 are 08 00 and the four octets stand in order at 26 or at 30, as the direction says |
| `Vm.Run` | tests/bpf_vm.py:64-70 | The interpreter, with a rejected load answered by 0 |
| `Machine.RunsExactly` | tests/bpf_vm.py:64-160 | The answer on any program and packet is v if and only if a trace of states from the start ends with v; one instruction's move, miss, return or exception is told by the opcode's bit fields and the packet's bytes, and the guard by 10,000 instructions |
| `Machine.MovesAsStep` | tests/bpf_vm.py:73-109 | One instruction takes the machine to the next state exactly as its bit fields and the bytes read say |
| `Machine.StopsAsStep` | tests/bpf_vm.py:73-154 | And it returns, misses the packet's end or raises exactly as they say |
| `Vm.LoadBytes` | tests/bpf_vm.py:157-160 | A load inside the packet reads one, two or four bytes, the first counting most |
| `Bytes.AndBits` | tests/bpf_vm.py:105-106 | Bit by bit, the conjunction is that of the two operands |
| `Bytes.SharesBit` | tests/bpf_vm.py:105-106 | It is not zero exactly when both have some bit set |
| `Vm.RunLoop` | tests/bpf_vm.py:122-154 | The dispatch loop with its registers, pc and step guard ends as the recursive specification of the run does |
| `Vm.Dispatch` | tests/bpf_vm.py:136-154 | One turn of the loop: the instruction's effect is what the run does next |
| `Vm.DecodesLoad` | tests/bpf_vm.py:73-84 | Exactly which opcodes load four, two or one byte at an absolute and at an indexed offset |
| `Vm.DecodesHeaderLength` | tests/bpf_vm.py:87-92 | Exactly which opcodes load four times the low nibble into X |
| `Vm.DecodesJump` | tests/bpf_vm.py:95-109 | Exactly which opcodes are `jeq` and `jset` against a constant |
| `Vm.DecodesReturn` | tests/bpf_vm.py:112-119 | Exactly which opcodes return a constant |
| `Vm.DecodesFault` | tests/bpf_vm.py:73-154 | Every other opcode raises, and exactly which of the seven exceptions |
| `Vm.ExecGrows` | tests/bpf_vm.py:122-160 | For any program: a run that is not rejected is the same run, step for step, on every longer packet |
| `Vm.AcceptanceSurvivesGrowth` | tests/bpf_vm.py:64-160 | For any program: accepting a truncated packet is never undone by the missing bytes |
| `Simulation.CodeRuns` | tests/bpf_vm.py:122-154 | From label-free code at any place in any program, and with any registers, the run goes on as the condition says: at one of its two exits or rejected, with the registers and in the number of steps that says |
| `Simulation.RunsFinished` | src/rootwire/bpf_compiler.py:744-748 | A condition's code with its two returns answers by how the condition is left |
| `Lowering.TransportMeans` | src/rootwire/bpf_compiler.py:472-508 | The tests of `tcp`/`udp` mean: the IPv4 protocol, or the IPv6 next header, looked for past one Fragment header |
| `Lowering.ProtoMeans` | src/rootwire/bpf_compiler.py:447-469 | The tests of each protocol mean what the protocol says of the packet |
| `Lowering.HostMeans` | src/rootwire/bpf_compiler.py:511-529 | The tests of `host` mean EtherType IPv4 and the address in the chosen field |
| `Lowering.Port6Means` | src/rootwire/bpf_compiler.py:557-596 | The tests of `port` over IPv6 mean TCP or UDP next, and the port at 54 or 56 |
| `Lowering.Port4Means` | src/rootwire/bpf_compiler.py:599-630 | The tests of `port` over IPv4 mean TCP or UDP, a first fragment, and the port behind a header of 4·IHL bytes |
| `Lowering.PortMeans` | src/rootwire/bpf_compiler.py:633-646 | IPv6 frames by the one, all other frames by the other |
| `Lowering.LowerMeans` | src/rootwire/bpf_compiler.py:649-680 | All tests together mean the expression, whatever the registers held before |
| `Emission.TestAt` | src/rootwire/bpf_compiler.py:426-444 | Appends a load and a jump, and nothing else |
| `Emission.CompileProto` | src/rootwire/bpf_compiler.py:447-469 | Appends exactly the code of the protocol's condition |
| `Emission.CompileTcpOrUdp` | src/rootwire/bpf_compiler.py:472-508 | Appends exactly the code of the transport condition, in its order and with its five labels |
| `Emission.CompileHost` | src/rootwire/bpf_compiler.py:511-529 | Appends exactly the code of the host condition |
| `Emission.CompilePortValue` | src/rootwire/bpf_compiler.py:532-554 | Appends exactly the code of the one or two port tests |
| `Emission.CompilePortV6` | src/rootwire/bpf_compiler.py:557-596 | Appends exactly the code of the IPv6 port condition |
| `Emission.CompilePortV4` | src/rootwire/bpf_compiler.py:599-630 | Appends exactly the code of the IPv4 port condition |
| `Emission.CompilePort` | src/rootwire/bpf_compiler.py:633-646 | Appends exactly the code of the port condition |
| `Emission.Compile` | src/rootwire/bpf_compiler.py:649-680 | Appends exactly the code of the lowered node against the two labels; earlier items and their order stay, and the counter grows by the labels it made |
| `Emission.CompileNot` | src/rootwire/bpf_compiler.py:667-668 | The operand's code against the labels swapped, and no instruction of its own |
| `Emission.CompileAnd` | src/rootwire/bpf_compiler.py:669-673 | Appends exactly the code of both operands with a fresh label between them, which the left side goes to when it holds |
| `Emission.CompileOr` | src/rootwire/bpf_compiler.py:674-678 | Appends exactly the code of both operands with a fresh label between them, which the left side goes to when it does not hold |
| `Emission.Assemble` | src/rootwire/bpf_compiler.py:741-750 | The whole back end yields the label-free code bounded to 8 bits, or its first distance past them |
| `Emission.EmittedResolves` | src/rootwire/bpf_compiler.py:683-726 | In every emitted stream each label used is placed once and strictly later, so resolving never misses a label and never sees a negative offset |
| `Codegen.GeneratedLinks` | src/rootwire/bpf_compiler.py:649-680 | Generated code, in front of any stream, places exactly the labels it made, is a fixed distance for all others and, with labels replaced by distances, is the label-free code for the distances of its two exits |
| `Codegen.GeneratedDisciplined` | src/rootwire/bpf_compiler.py:403-423 | Generated code keeps the label discipline in front of any disciplined stream |
| `Assembler.Emitter.constructor` | src/rootwire/bpf_compiler.py:411-413 | An empty stream and no labels |
| `Assembler.Emitter.NewLabel` | src/rootwire/bpf_compiler.py:415-417 | A label that occurs in no item so far |
| `Assembler.Emitter.PlaceLabel` | src/rootwire/bpf_compiler.py:419-420 | Appends the placement |
| `Assembler.Emitter.Emit` | src/rootwire/bpf_compiler.py:422-423 | Appends the instruction |
| `Assembler.Resolve` | src/rootwire/bpf_compiler.py:683-726 | The two passes compute the specification's program or its first error |
| `Assembler.ResolvesExactly` | src/rootwire/bpf_compiler.py:706-726 | On any stream: resolution keeps order, opcodes and operands, every jump lands where its label lies, and it succeeds exactly when every label used is ahead and at most 255 instructions away |
| `Assembler.PositionsAreDistances` | src/rootwire/bpf_compiler.py:700-706 | On a disciplined stream the recorded position of a label is its distance from the start |
| `Assembler.ResolvesToLink` | src/rootwire/bpf_compiler.py:700-726 | On a disciplined stream resolution is linking by distance, and fails only for a distance over 255 |
| `Assembler.FailsToResolve` | src/rootwire/bpf_compiler.py:706-726 | On any stream: resolution fails with an error if and only if the first instruction with a label that is nowhere, behind it or too far ahead has that error, the jump for true before that for false |
| `Assembler.BoundedFails` | src/rootwire/bpf_compiler.py:710-719 | Bounding fails exactly with the first distance over 255 |
| `Assembler.BoundedFits` | src/rootwire/bpf_compiler.py:710-719 | Bounding succeeds exactly when all distances fit 8 bits, and changes nothing |
| `Listings.EtherTypeListings` | src/rootwire/bpf_compiler.py:447-469 | The programs of `ip`, `arp` and `ip6`, instruction for instruction |
| `Listings.IcmpListing` | src/rootwire/bpf_compiler.py:447-469 | The program of `icmp` |
| `Listings.TransportListings` | src/rootwire/bpf_compiler.py:472-508 | The programs of `tcp` and `udp` |
| `Listings.HostListings` | src/rootwire/bpf_compiler.py:511-529 | The program of `host` for any address and direction |
| `Listings.PortListings` | src/rootwire/bpf_compiler.py:532-646 | The program of `port` for any number and direction |
| `Ranges.LowerShape` | src/rootwire/bpf_compiler.py:447-680 | Size and longest jump of the code, by recursion on the expression: 2 for ip, arp, ip6; 4 for icmp; 12 for tcp, udp; 4 or 6 for host; 17 or 21 for port |
| `Ranges.CompilesIff` | src/rootwire/bpf_compiler.py:710-719 | An expression compiles exactly when its longest jump is at most 255, to its size plus two instructions; the error reports a distance over 255 |
| `Ranges.TwentyOneCompile` | tests/test_bpf_compiler.py:495-509 | n ORed `tcp` compile exactly when n is at most 21 |
| `Ranges.GuardIsReachable` | tests/bpf_vm.py:130-135 | An expression that compiles, is True of a 14-byte frame and whose run on it trips the 10,000-step guard |
| `Algebra.LawsKeepBytes` | src/rootwire/bpf_compiler.py:667-678 | Double negation, De Morgan and re-association leave the program, or the failure to assemble one, unchanged |
| `Algebra.CanonDecidesBytes` | src/rootwire/bpf_compiler.py:667-678 | The laws anywhere inside an expression: trees with the same canonical form assemble alike |
| `Identity.ProgramsDecide` | src/rootwire/bpf_compiler.py:649-750 | Two trees, one of which compiles, have the same program if and only if they have the same canonical form: the program determines the tree up to the three laws |
| `Identity.CodeDecides` | src/rootwire/bpf_compiler.py:649-680 | The same of code of any length, whether or not it assembles |
| `Identity.NormalFormsAreUnique` | src/rootwire/bpf_compiler.py:649-680 | Trees in normal form with the same code between the same two exits are the same tree |
| `Identity.LeadingIsFirst` | src/rootwire/bpf_compiler.py:447-646 | The operands of a tree's code tell its first primitive, with its address, port and direction |
| `Identity.Crosses` | src/rootwire/bpf_compiler.py:667-678 | Inside an operand every place behind its first primitive is jumped over, to a farther place in it or to the exit its left side takes when it decides alone |
| `Lexemes.TextsByCode` | src/rootwire/bpf_compiler.py:123-133 | What each alternative takes, by character codes: four groups of one to three digits, digits, a letter and letters or digits, a parenthesis, or white space of the codes 9-13 and 28-32 |
| `Lexemes.LexesExactly` | src/rootwire/bpf_compiler.py:139-157 | A text lexes to a token list if and only if it falls as a whole into pieces, each the longest of its kind in front and a number only where no dotted address is, of which these are the tokens |
| `Lexemes.StopsExactly` | src/rootwire/bpf_compiler.py:144-149 | It stops at a position if and only if it falls into pieces up to there and the character's code begins none |
| `Lexemes.LaidLexes` | src/rootwire/bpf_compiler.py:131-157 | Genuine tokens laid out with any white space in front, behind and between them lex to themselves; none is needed next to a parenthesis |
| `Lexer.Tokenize` | src/rootwire/bpf_compiler.py:139-157 | The loop returns the specification's tokens, or the position where nothing matches |
| `Lexer.Scanning` | src/rootwire/bpf_compiler.py:139-157 | The same for any pattern whose matches are not empty |
| `Lexer.DottedExact` | src/rootwire/bpf_compiler.py:125 | Dotted groups are found exactly when a prefix has them, and as far as they go |
| `Lexer.MatchExact` | src/rootwire/bpf_compiler.py:123-133 | The pattern takes the first alternative any prefix belongs to, and that alternative's longest prefix; none only where no prefix belongs to any |
| `Lexer.MatchesIff` | src/rootwire/bpf_compiler.py:123-150 | Whether something matches depends on the next character only |
| `Lexer.Partition` | src/rootwire/bpf_compiler.py:139-157 | Tokens and white space reassemble the input up to the stop, each piece belongs to its alternative, and the lexer stops at a character no token starts with or at the end |
| `Lexer.JoinedLexes` | src/rootwire/bpf_compiler.py:139-157 | Every genuine token list, joined with single spaces (with or without spaces inside parentheses), lexes to itself |
| `Lexer.LexingIsStable` | src/rootwire/bpf_compiler.py:139-157 | Joining the tokens of a text with single spaces and lexing again gives the same tokens |
| `Numerals.AddressIff` | src/rootwire/bpf_compiler.py:314-328 | A dotted token gives an address exactly when its four numbers are at most 255, and then the number its octets write in order |
| `Numerals.OctetOr` | src/rootwire/bpf_compiler.py:325-328 | Shifting by eight and or-ing an octet is adding it |
| `Numerals.ValueFromFront` | src/rootwire/bpf_compiler.py:336-340 | Every digit counts by its place, leading zeros included |
| `Numerals.DecimalValue` | src/rootwire/bpf_compiler.py:336-340 | Canonical decimals read back |
| `Parser.ParsesExactly` | src/rootwire/bpf_compiler.py:6-17 | The parser accepts exactly the token lists that derive from the grammar, with the tree they derive |
| `Parser.TreesAreUnique` | src/rootwire/bpf_compiler.py:6-17 | No token list derives two trees |
| `Parser.OrReaches` | src/rootwire/bpf_compiler.py:252-256 | Whatever span derives `or_expr`, the parser gets to its end with its tree |
| `Parser.AndReaches` | src/rootwire/bpf_compiler.py:258-262 | The same for `and_expr` |
| `Parser.OrSound` | src/rootwire/bpf_compiler.py:252-256 | What the parser reads as `or_expr` derives from it, left associative |
| `Parser.AndSound` | src/rootwire/bpf_compiler.py:258-262 | The same for `and_expr` |
| `Parser.PrimitiveSound` | src/rootwire/bpf_compiler.py:279-340 | What it reads as a primitive is one, with the value its token writes |
| `Parser.PrimitiveComplete` | src/rootwire/bpf_compiler.py:279-340 | Every primitive of the grammar is read |
| `Parser.Descent.constructor` | src/rootwire/bpf_compiler.py:209-212 | Starts at the first token |
| `Parser.Descent.ParseAll` | src/rootwire/bpf_compiler.py:214-218 | One expression and nothing after it |
| `Parser.Descent.MatchWord` | src/rootwire/bpf_compiler.py:242-250 | Takes the next token exactly when it is the word |
| `Parser.Descent.OrExpression` | src/rootwire/bpf_compiler.py:252-256 | The loop reads what the recursive specification reads and leaves the position behind it |
| `Parser.Descent.AndExpression` | src/rootwire/bpf_compiler.py:258-262 | The same for `and` |
| `Parser.Descent.NotExpression` | src/rootwire/bpf_compiler.py:264-267 | The same for `not` |
| `Parser.Descent.PrimaryExpression` | src/rootwire/bpf_compiler.py:269-277 | The same for parentheses |
| `Parser.Descent.Primitive` | src/rootwire/bpf_compiler.py:279-312 | The same for primitives, with every error |
| `Parser.Descent.ParseIpv4` | src/rootwire/bpf_compiler.py:314-328 | Splits, checks and folds an address |
| `Parser.Descent.ParsePort` | src/rootwire/bpf_compiler.py:330-341 | Reads and checks a port |
| `Grammar.DerivedIsWellFormed` | src/rootwire/bpf_compiler.py:14-17 | Derived trees have addresses of 32 bits and ports of 16 |
| `Printing.PrintedDerives` | src/rootwire/bpf_compiler.py:6-17 | A tree printed with the fewest parentheses derives by the rule it was printed for, wherever it stands |
| `Printing.PrintedParses` | src/rootwire/bpf_compiler.py:214-218 | Every well-formed tree is what its printed tokens parse to |
| `Printing.CanonicalReads` | src/rootwire/bpf_compiler.py:123-341 | Every well-formed tree is read back from its canonical text |
| `Tcpdump.TcpVerdict` | tests/test_bpf_compiler.py:32-45 | `tcp`: the same answer as tcpdump's program on every packet |
| `Tcpdump.UdpVerdict` | tests/test_bpf_compiler.py:46-59 | `udp`: the same answer on every packet |
| `Tcpdump.IcmpVerdict` | tests/test_bpf_compiler.py:60-67 | `icmp`: the same answer on every packet |
| `Tcpdump.EtherTypeVerdicts` | tests/test_bpf_compiler.py:68-85 | `arp`, `ip`, `ip6`: the same answer on every packet |
| `Tcpdump.HostVerdicts` | tests/test_bpf_compiler.py:86-125 | The three bare `host`: the same answer exactly unless the frame is ARP or RARP and carries the address |
| `Tcpdump.PortVerdicts` | tests/test_bpf_compiler.py:126-195 | The three bare `port`: the same answer exactly unless an IPv4 or IPv6 frame carries SCTP with the port, or a frame of another EtherType reads as IPv4 with it |
| `Tcpdump.TcpAndPortVerdict` | tests/test_bpf_compiler.py:196-217 | `tcp and port 80`: the same answer on every packet |
| `Tcpdump.UdpOrIcmpVerdict` | tests/test_bpf_compiler.py:218-232 | `udp or icmp`: the same answer on every packet |
| `Tcpdump.NotArpVerdict` | tests/test_bpf_compiler.py:233-238 | `not arp`: the same answer on every packet |
| `Tcpdump.TcpOrUdpAndPortVerdict` | tests/test_bpf_compiler.py:239-263 | `(tcp or udp) and port 53`: the same answer on every packet |
| `Tcpdump.TcpAndNotPortVerdict` | tests/test_bpf_compiler.py:264-288 | `tcp and not port 22`: the same answer on every packet |
| `Tcpdump.HostAndPortVerdicts` | tests/test_bpf_compiler.py:289-342 | The two of a host and a port: the same answer exactly unless SCTP over IPv4 runs between them |
| `Tcpdump.NotTcpOrUdpVerdict` | tests/test_bpf_compiler.py:310-324 | `not (tcp or udp)`: the same answer on every packet |
| `Tcpdump.NotTcpOrUdpEnds` | tests/test_bpf_compiler.py:310-324 | What tcpdump's program with a shared test computes |
| `Tcpdump.CannedVerdicts` | src/rootwire/bpf.py:94-144 | Canned `tcp`, `udp`, `arp`, `ip6` answer as the compiled words on every packet |
| `Tcpdump.OtherEtherTypes` | src/rootwire/bpf_compiler.py:36-44 | The frames only the compiled `port` takes are exactly those of EtherTypes other than IPv4 and IPv6 that read as IPv4 with the port |
| `Tcpdump.NotASubset` | src/rootwire/bpf_compiler.py:36-44 | A frame that the compiled `port 80` accepts and tcpdump's refuses: the documented subset is none |
| `Tcpdump.NotASuperset` | src/rootwire/bpf_compiler.py:36-44 | A frame that tcpdump's `port 80` accepts and the compiled one refuses |
| `Tcpdump.OnlySctp` | src/rootwire/bpf_compiler.py:36-44 | The frames only tcpdump's `port` takes are exactly the IPv4 and IPv6 frames of SCTP with the port |
| `Battery.ProtocolAgrees` | src/rootwire/cli.py:230-236 | From the text: each protocol word compiles to the answers of tcpdump's program and of the canned filter of that name |
| `Battery.TcpAndPortAgrees` | tests/test_bpf_compiler.py:353-364 | From the text `tcp and port 80` |
| `Battery.UdpOrIcmpAgrees` | tests/test_bpf_compiler.py:353-364 | From the text `udp or icmp` |
| `Battery.NotArpAgrees` | tests/test_bpf_compiler.py:353-364 | From the text `not arp` |
| `Battery.TcpOrUdpAndPortAgrees` | tests/test_bpf_compiler.py:353-364 | From the text `(tcp or udp) and port 53` |
| `Battery.TcpAndNotPortAgrees` | tests/test_bpf_compiler.py:353-364 | From the text `tcp and not port 22` |
| `Battery.NotTcpOrUdpAgrees` | tests/test_bpf_compiler.py:353-364 | From the text `not (tcp or udp)` |
| `Battery.HostsAgreeIff` | tests/test_bpf_compiler.py:353-364 | From the three `host` texts, with the exact condition |
| `Battery.PortsAgreeIff` | tests/test_bpf_compiler.py:353-364 | From the three `port` texts, with the exact condition |
| `Battery.HostAndPortsAgreeIff` | tests/test_bpf_compiler.py:353-364 | From the two texts of a host and a port, with the exact condition |
| `Battery.TwentyOneTexts` | tests/test_bpf_compiler.py:495-509 | `tcp or … or tcp` as it is typed compiles exactly up to 21 of them |
| `Battery.WordEndToEnd` | src/rootwire/bpf_compiler.py:447-508 | Each protocol word, from the text: accepted exactly on frames with its bytes |
| `Battery.PortEndToEnd` | src/rootwire/bpf_compiler.py:330-341 | `port`, with or without a direction, from the text of every number up to 65535: accepted exactly on frames with its bytes |
| `Battery.PortTooLarge` | src/rootwire/bpf_compiler.py:336-340 | Every number over 65535 is refused with the number |
| `Battery.PortBoundary` | src/rootwire/bpf_compiler.py:336-340 | `port 65535` compiles and `port 65536` does not |
| `Battery.HostEndToEnd` | src/rootwire/bpf_compiler.py:314-328 | `host a.b.c.d`, from the text: accepted exactly when the frame is IPv4 and has the four octets in order at 26 or 30 |
| `Defects.FailsExactly` | src/rootwire/bpf_compiler.py:214-341 | The parser fails with an error if and only if the tokens have that defect, in terms of the grammar: where an operand is due there is none, for the reason given; a complete expression leaves a parenthesis open; or a token behind a complete expression cannot continue it |
| `Defects.OperandDueFails` | src/rootwire/bpf_compiler.py:252-277 | Whatever error reading an operand gives where one is due, at the start, behind an operator or `not`, inside parentheses, is the error of the whole |
| `Defects.PrimitiveFails` | src/rootwire/bpf_compiler.py:279-341 | A primitive is refused with an error exactly when what the error says of its tokens is so |
| `Malformed.DueBehind` | src/rootwire/bpf_compiler.py:252-277 | Behind a complete expression and an operator an operand is due, and inside a parenthesis or `not` there, too |
| `Malformed.TrailingTokens` | src/rootwire/bpf_compiler.py:214-218 | Behind a complete expression, anything but an operator is what the error names |
| `Malformed.DanglingOperator` | tests/test_bpf_compiler.py:481-493 | A dangling operator lacks a primitive; a dangling direction behind it is named instead |
| `Malformed.Unbalanced` | src/rootwire/bpf_compiler.py:269-277 | One opening parenthesis too many is unclosed, one closing too many is unexpected, around any expression |
| `Malformed.NoStart` | src/rootwire/bpf_compiler.py:305-312 | Wherever an operand is due, with or without a direction, a token that begins no primitive: unknown words are told from misplaced ones |
| `Malformed.AddressOutOfRange` | src/rootwire/bpf_compiler.py:314-328 | Wherever an operand is due, with or without a direction: `host` without an address, or with a dotted token that writes none |
| `Malformed.NumberOutOfRange` | src/rootwire/bpf_compiler.py:330-341 | Wherever an operand is due, with or without a direction: `port` without a number, or with one over 65535 |
| `Pcap.PcapWriter.constructor` | src/rootwire/pcap.py:151-163 | The 24 bytes of the header, one by one, and no records |
| `Pcap.PcapWriter.Write` | src/rootwire/pcap.py:165-175 | Appends, exactly when the time is from 0 to 2^32 * 10^9 and the length under 2^32, four little-endian words and the frame: seconds and nanoseconds that make up the time, and the length twice; otherwise leaves the file as it was |
| `Pcap.HeaderWords` | src/rootwire/pcap.py:170-173 | The four words of a record header, by their bytes |
| `Pcap.ReadPcap` | tests/conftest.py:231-249 | The independent reader returns the frames of the specification's records, or nothing for an unknown magic |
| `Pcap.ReadFrames` | tests/conftest.py:241-249 | The cursor loop returns the data of every record from byte 24 on |
| `Pcap.FileReads` | tests/conftest.py:231-249 | Behind any header with one of the four magics, records in its byte order read back in order, with all four words, the two lengths equal or not |
| `Pcap.WrittenReads` | src/rootwire/pcap.py:143-175 | Everything written reads back: the frames in order, and each time to the nanosecond |
| `Pcap.CutFileReads` | tests/conftest.py:231-249 | A file cut off anywhere reads as the records wholly there and at most one more with its data clipped; without its magic it is no pcap file |
| `Captures.AnyFileReads` | tests/conftest.py:231-249 | On any bytes at all: no frames without one of the four magics, byte by byte; else the data of the records from byte 24 on, whose lengths the third words spell, and of one cut off at the end |
| `Captures.FallsIntoRecords` | tests/conftest.py:241-249 | Any bytes fall into such records and a rest that begins none |
| `Pcap.RoundTrip` | src/rootwire/pcap.py:143-175 | A whole session of the writer's writes, and then the test reader, gives the frames in order |
| `Pcapng.PcapngLinktype` | src/rootwire/pcap.py:76-126 | The cursor loop, with byte order and answer so far, computes the walk of the specification on any bytes, and stays in range |
| `Pcapng.CutFileAnswers` | src/rootwire/pcap.py:76-126 | For any sections with their own byte orders and any blocks, cut off anywhere: the first link type other than 1 among the whole interface blocks, else 1 if there are any, else none |
| `Captures.AnyBytesAnswer` | src/rootwire/pcap.py:104-126 | On any bytes at all, told by literal bytes: of the blocks wholly there up to the first that is not, each in the byte order of the last section header, the first interface block's link type that is not 1, or 1 if there are interface blocks, or none |
| `Captures.FallsIntoBlocks` | src/rootwire/pcap.py:109-126 | Any bytes fall into such blocks and a rest that begins none |
| `Captures.SectionInBytes` | src/rootwire/pcap.py:108-115 | A section header is 0A 0D 0D 0A, its length, 4D 3C 2B 1A in little-endian order or 1A 2B 3C 4D in big-endian order, its body and its length |
| `Captures.InterfaceInBytes` | src/rootwire/pcap.py:119-120 | An interface block is the number 1, its length, its body and its length, in the byte order in force |
| `Captures.InterfaceDeclares` | src/rootwire/pcap.py:119-120 | It declares the number its body's first two bytes spell |
| `Captures.DeclaredIs` | src/rootwire/pcap.py:129-140 | A file of 24 bytes with one of the four magics declares the word at 20 in the magic's byte order, and any other what its blocks say |
| `Pcapng.WalksBlocks` | src/rootwire/pcap.py:104-126 | The same from the middle of a walk |
| `Pcapng.FileAnswers` | src/rootwire/pcap.py:76-126 | The same for uncut files |
| `Pcapng.FirstForeignIsFirst` | src/rootwire/pcap.py:120-123 | The answer is the first link type other than Ethernet in file order, if there is one |
| `Pcapng.ForeignStaysForeign` | src/rootwire/pcap.py:76-126 | On any bytes: a foreign link type once found stays the answer however the file goes on |
| `Pcapng.ClassicDeclares` | src/rootwire/pcap.py:129-140 | A classic file declares the last header field, in the byte order of its magic |
| `Pcapng.WriterDeclaresEthernet` | src/rootwire/pcap.py:129-163 | Every file the writer makes declares link type 1 |
| `Pcapng.PcapngDeclares` | src/rootwire/pcap.py:129-140 | pcapng files are not taken for classic ones, and declare what the walk finds |
| `Packing.PacksExactly` | src/rootwire/bpf.py:47-55 | Packing succeeds exactly when every field is in range, takes eight bytes an instruction, and unpacks to the program, in either byte order |
| `Packing.PacksInBytes` | src/rootwire/bpf.py:47-55 | On a little-endian machine the eight bytes are the opcode in two, both jumps in one each, and the operand in four |
| `Packing.CompiledPacks` | src/rootwire/bpf.py:47-55 | Whatever compiles can be packed |
| `Packing.NarrowLower` | src/rootwire/bpf_compiler.py:511-646 | Every operand of a well-formed expression fits 32 bits |

## Left out

- Texts of error messages: errors are values that carry the position, the word or the number reported.
- Characters beyond ASCII: the patterns of the original also match Unicode digits and white space.
- Python's limits: recursion depth in the parser and in the code generator, and 4,300 digits in one number.
- Parser.Descent: errors after which the original discards the parser; the position it leaves then is not specified.
- Labels by identity and their hints: a label is its counter value, which is as unique.
- Pcap.PcapWriter.Write: opening, buffering, flushing and closing the file; the file is the bytes written, and the time now is a parameter.
- Pcap.ReadPcap: the exception for a file that is no capture is the absence of a result.
- Reading captures for replay (`src/rootwire/pcap.py:192-223`): it delegates to netprotocols, which is not part of this model.
- Attaching programs to sockets, ctypes structures and kernel limits on program length (`src/rootwire/bpf.py`).
- Packet capture, decoding, output and the command line, apart from the choice between a canned filter and compiling.
