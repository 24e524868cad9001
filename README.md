# rubyVM core in Dafny

rubyVM compiles a small subset of Ruby to bytecode for a four-opcode stack machine:

- The syntax tree comes from Ruby's Prism parser as JSON.
- `generateAssembly` lowers it to assembly-like text lines: mnemonics from the `ASSEMBLY` table, plus `LABEL_n:` definitions for `if`, `while`, `for` and `def`.
- `assemble` turns those lines into bytes in two passes. Pass 1 records every label's address and drops the label lines. Pass 2 emits each line's opcode from `OPCODES`, then two little-endian bytes per operand. An operand is a number, a label address or a variable number handed out by `getVariableId`.
- `MyVM.run` executes the bytes. `0x01 lo hi` pushes, `0x02` adds, `0x03` prints and `0xff` halts; any other byte throws.
- `postProcessAssembly` is a further pass over the text, defined but never called. It deletes `LOAD` lines inside function bodies.

The model follows that structure, one module per stage:

| module | file | models |
|---|---|---|
| `Ast` | ast.dfy | the `Node` union, its `type` tags, and the shape the lowerer relies on (`WellTyped`) |
| `Mnemonics` | mnemonics.dfy | the `ASSEMBLY` table, plus the mnemonics the lowerer names but the table lacks |
| `Opcodes` | opcodes.dfy | the `OPCODES` record |
| `Strings` | strings.dfy | decimal text, `split(" ")`/`join(" ")`, `Number(arg)`, UTF-8 |
| `Lowering` | lowering.dfy | `generateAssembly`, `getNewLabel`, `getNewFuncLabel` and the `functionTable` |
| `LoweringFacts`, `FunctionTable` | lowering_facts.dfy, function_table.dfy | what lowering guarantees about labels and the function table |
| `PostPass` | postpass.dfy | `postProcessAssembly`, as a loop and as a function |
| `Assembler` | assembler.dfy | `assemble` and `getVariableId`: pass 1, pass 2 and the variable table, as methods of a class over the module-level table and as functions |
| `AssemblerFacts` | assembler_facts.dfy | label addresses, error behaviour and operand sizes |
| `VM` | vm.dfy | `MyVM` (`run`, `readInt16`) as a class, with a step function specifying it |
| `VMFacts` | vm_facts.dfy | agreement of the VM with `OPCODES` and with the assembler's byte order |
| `Pipeline` | pipeline.dfy | the whole chain on the programs it can run end to end |

The lowerer's two module-level variables are `labelId` and `functionTable`. They are threaded through lowering as an explicit `Context`, updated in the order the source updates them.

The assembler's `variableTable`/`variableId` pair is the field state of the `Assembler` class. Its methods are specified by the functions `SlotOf`, `EncodeArgs`, `Pass1` and `EncodeLines`.

A `JIF`/`JUMP` target is a label that the same code defines exactly once (`JumpTargetsDefinedOnce`). Each label's recorded address is the offset where the next instruction's bytes begin (`LabelPointsAtInstruction`).

`OPCODES` covers only `PUSH_NUM`, `ADD`, `PUTS` and `HALT`, so few programs assemble at all. `Pipeline.EndToEnd` covers one fragment of them: statements that `puts`/`print` a sum of integer literals, and `exit`. A literal reaches the machine as one two-byte operand, so it arrives modulo 65536: `puts -5` prints 65531 (`Pipeline.PutsNegativeLiteral`). Other programs can assemble too, such as a `def` whose body prints a literal, `puts 3, 4`, a bare range, or a string literal ending in ':' (`Pipeline.PutsColonString`); the end-to-end theorem does not cover them. For the fragment, `Pipeline.EndToEnd` proves four things:

- lowering succeeds;
- assembly succeeds and leaves the variable table alone;
- the machine prints each printed sum, of the literals modulo 65536, in order, and ends with an empty stack;
- it halts exactly when the program calls `exit`.

## Model

| member | source | states |
|---|---|---|
| Ast.TagIdentifiesVariant | src/modules/ast/interface.ts:3-106 | every variant's `type` string identifies that variant |
| Ast.SameTagSameVariant | src/modules/ast/interface.ts:3-106 | the union is discriminated: two nodes with equal `type` strings are the same variant |
| Mnemonics.SpellingRoundTrip | src/constants.ts:2-31 | every mnemonic's text reads back to that mnemonic |
| Mnemonics.SpellingInjective | src/constants.ts:2-31 | no two mnemonics share a text |
| Mnemonics.SpellingShape | src/constants.ts:2-31 | no mnemonic text contains a space or a colon, or starts with `LABEL_`; so `split(" ")` yields the mnemonic first, and the mnemonic itself never makes a line pass for a label or a function entry (an operand can: see Pipeline.ColonStringIsLabel) |
| Mnemonics.ReferenceIsLoad | src/constants.ts:19 | the `REFERENCE` entry is `LOAD`, the text the post-pass deletes |
| Opcodes.OpcodeTable | src/modules/VM/constants.ts:3-8 | exactly `NUMBER`, `ADDITION`, `OUTPUT` and `END` have a byte: 0x01, 0x02, 0x03 and 0xff |
| Opcodes.OpcodeKeys | src/modules/VM/constants.ts:3-8 | the record's keys are `PUSH_NUM`, `ADD`, `PUTS` and `HALT` and nothing else |
| Opcodes.OpcodesInjective | src/modules/VM/constants.ts:3-8 | no two keys share a byte |
| Opcodes.ZeroUnassigned | src/modules/VM/constants.ts:3-8 | byte 0x00 is never an opcode |
| Strings.ParseDec | src/index.ts:311-317 | `Number` of the decimal text of `n` is `n` |
| Strings.ParseIntText | src/index.ts:311-317 | `Number` of the text a template literal gives an integer, its `-` included, is that integer |
| Strings.DecInjective | src/index.ts:17 | distinct counter values print as distinct decimal texts |
| Strings.JoinSplit | src/index.ts:276 | joining the fields of `split(" ")` with spaces gives the line back |
| Strings.SplitJoin | src/index.ts:276 | splitting a join of space-free words gives the words back |
| Strings.SplitCount | src/index.ts:276 | `split(" ")` has one more field than the line has spaces |
| Strings.Utf8Append | src/index.ts:280 | `TextEncoder` output of a concatenation is the concatenation of the outputs |
| Lowering.Lower | src/index.ts:33-210 | `generateAssembly` with the counter and table as an explicit `Context`: it returns the code and the counter and table the source leaves, threaded through the children in the order the source visits them; the counter never goes back and the table never loses a name (its errors: LoweringFacts.LowerErrors) |
| LoweringFacts.LowerErrors | src/index.ts:33-210 | lowering fails with `Unknown node type:<tag>` on `break`, `next` and a bare target node, which the `switch` has no case for, and with a TypeError on a call other than `exit` without `arguments`, a `def` without `parameters` and a bare `return`, the fields the serializer leaves out when nil; `exit` never reads its arguments, and an error in a call's receiver comes first |
| LoweringFacts.LowerTotal | src/index.ts:33-210 | the other half of the error contract: whatever the counter and table, a well-typed tree lowers without error exactly when it is `Supported`, a predicate read off the `switch` on its own: every node kind has a case, and every field the lowerer reads is present (`exit` and a bare range read no children) |
| LoweringFacts.LowerAllTotal | src/index.ts:33-210 | a list of statements lowers without error exactly when each statement is `Supported` |
| LoweringFacts.NewLabelsDistinct | src/index.ts:15-18 | `getNewLabel` never returns the same label for two counter values |
| LoweringFacts.FuncLabelMeetsNewLabel | src/index.ts:15-29 | `getNewFuncLabel(name)` equals `getNewLabel`'s label for counter `k` exactly when `name` is the decimal text of `k` |
| LoweringFacts.LabelDiscipline | src/index.ts:33-210 | lowering consumes the counter values from its start to its end, defines each of those labels at most once and no other numbered label, and every `JIF`/`JUMP` it emits targets a label that the same code defines |
| LoweringFacts.LabelDisciplineAll | src/index.ts:38-39 | the same for a `flatMap` over a statement list, the counter threaded through |
| LoweringFacts.IfShape | src/index.ts:123-134 | the `if` layout (condition, `JIF end`, body, `end:`) keeps the label discipline |
| LoweringFacts.WhileShape | src/index.ts:169-182 | the `while` layout, with its two labels taken before the condition and the body, keeps the label discipline |
| LoweringFacts.ForShape | src/index.ts:136-164 | the `for` layout, with its two labels taken after the bounds and the body, keeps the label discipline |
| LoweringFacts.JumpTargetsDefinedOnce | src/index.ts:123-182 | every `JIF`/`JUMP` the lowerer emits has one operand, and that label is defined exactly once in the emitted code |
| FunctionTable.TableGrowth | src/index.ts:188-195 | lowering never removes a function from the table; a subtree without `def` leaves the table as it found it |
| FunctionTable.TableGrowthAll | src/index.ts:38-39 | the same for a statement list |
| FunctionTable.LowerAllAppend | src/index.ts:39 | lowering a concatenated statement list is lowering the first part and then the second, from the state the first leaves |
| FunctionTable.LowerPair | src/index.ts:39 | a two-statement list lowers to the first statement's code followed by the second's |
| FunctionTable.KnownCallCarriesArity | src/index.ts:54-67 | a call (other than `exit`) to a name in the table ends with `CALL name <parameter count>`, counted in the table as it stands after the receiver and arguments are lowered; with no `def` among those, that is the entry the call started with |
| FunctionTable.CallAfterDef | src/index.ts:60-67 | a call after its `def` becomes `CALL name <parameter count>`, even when the name is a builtin such as `puts` |
| FunctionTable.CallBeforeDef | src/index.ts:104-109 | a call that precedes its `def` becomes a bare `CALL name`, whatever the `def` registers later |
| FunctionTable.RecursiveCallHasArity | src/index.ts:188-195 | the body of a `def` already sees its own table entry, so a recursive call carries the count |
| PostPass.PostProcessAssembly | src/index.ts:218-243 | the loop yields the lines the specification function keeps |
| PostPass.InFunctionMeaning | src/index.ts:220-237 | the `inFunction` flag is set exactly when a `LABEL_<letter>` line has been seen with no `RET`/`RETURN` after it |
| PostPass.UnchangedIffNoLoadInside | src/index.ts:218-243 | the pass leaves its input unchanged exactly when no `LOAD` line sits inside a function body |
| PostPass.NonLoadsKept | src/index.ts:218-243 | every line that is not a `LOAD` survives, in order |
| PostPass.FlagSurvives | src/index.ts:218-243 | the output leaves the `inFunction` flag where the input left it |
| PostPass.PostProcessIdempotent | src/index.ts:218-243 | running the pass on its own output deletes nothing more |
| PostPass.LengthBound | src/index.ts:218-243 | the pass never adds lines |
| Assembler.Assembler.GetVariableId | src/index.ts:247-254 | the number and new table are those of `SlotOf`, and the table stays injective and below the counter |
| AssemblerFacts.SlotOfFacts | src/index.ts:247-254 | a known variable keeps its number; a new one gets the counter's value and the counter moves on; no other entry changes and distinct variables keep distinct numbers |
| AssemblerFacts.SlotOfIdempotent | src/index.ts:247-254 | asking twice for the same variable gives the same number and changes nothing more |
| Assembler.LocateLabels | src/index.ts:264-285 | pass 1's loop yields the instruction lines, label table and end address of `Pass1` |
| Assembler.Assembler.EncodeOperands | src/index.ts:300-327 | the operand loop emits the bytes and variable table of `EncodeArgs` |
| Assembler.Assembler.Assemble | src/index.ts:263-331 | `assemble` returns the bytes of `Assembled`, or the error naming the unknown instruction, and leaves the variable table where `Assembled` does |
| Assembler.FailureSticks | src/index.ts:292-295 | once pass 2 has thrown, later lines change nothing |
| AssemblerFacts.Pass1Shape | src/index.ts:269-285 | pass 1 keeps exactly the non-label lines, in order, and ends at their total size |
| AssemblerFacts.LabelsRecorded | src/index.ts:270-273 | a label is in the table exactly when some `name:` line defines it |
| AssemblerFacts.LabelAddress | src/index.ts:269-285 | a label's address is the size of the instruction lines before its last definition |
| AssemblerFacts.EncodeArgsValid | src/index.ts:318-322 | operand encoding only adds variables and keeps earlier numbers |
| AssemblerFacts.EncodeLinesValid | src/index.ts:289-328 | so does pass 2 as a whole |
| AssemblerFacts.OperandBytes | src/index.ts:310-326 | outside `PUSH_STR`, every operand becomes exactly two bytes |
| AssemblerFacts.EncodedSize | src/index.ts:281-283 | a successful pass 2 emits exactly the bytes pass 1 reserved |
| AssemblerFacts.EncodePrefix | src/index.ts:289-328 | a successful pass 2 extends the bytes of every prefix of its input |
| AssemblerFacts.LabelPointsAtInstruction | src/index.ts:263-331 | when assembly succeeds, each label's recorded address is the offset where the bytes of the next instruction begin |
| AssemblerFacts.UnknownInstructionThrows | src/index.ts:292-295 | pass 2 throws exactly when some instruction's mnemonic is not one of the four own keys of `OPCODES` |
| AssemblerFacts.ThrowsAtFirstUnknown | src/index.ts:289-295 | the error names the first unknown mnemonic; the bytes and variables are those of the lines before it |
| AssemblerFacts.NoStringOpcode | src/index.ts:292-295 | `PUSH_STR` and `CALL` have no opcode, so pass 2 rejects them |
| AssemblerFacts.JoinedBytes | src/index.ts:280 | the UTF-8 length of the space-joined words is their total length plus one byte per separating space |
| AssemblerFacts.StringOperandBytes | src/index.ts:302-307 | a `PUSH_STR` operand list takes two bytes per word plus the words' UTF-8 bytes |
| AssemblerFacts.PushStrSizes | src/index.ts:279-283 | pass 1 reserves one length field for a `PUSH_STR` line; pass 2 writes one per word, so the two disagree by the number of spaces |
| VM.MyVM.ReadInt16 | src/modules/VM/myVM.ts:39-43 | returns the little-endian 16-bit value at `pc`, advances `pc` by two, and changes nothing else |
| VM.MyVM.Run | src/modules/VM/myVM.ts:10-37 | the final `pc`, stack, output and reason for stopping are those of `Execute` on the starting state |
| VMFacts.AssignedBytes | src/modules/VM/myVM.ts:14-35 | the VM dispatches on exactly the bytes 0x01, 0x02, 0x03 and 0xff |
| VMFacts.StepDispatch | src/modules/VM/myVM.ts:14-35 | an instruction throws exactly when its byte is not in `OPCODES`, halts exactly on `HALT`'s byte, and otherwise continues |
| VMFacts.OpcodeMeaning | src/modules/VM/myVM.ts:15-31 | `PUSH_NUM` pushes its operand and skips it, `ADD` replaces the top two numbers by their sum, `PUTS` prints and pops the top, and `HALT` stops |
| VMFacts.Int16OfLittleEndian | src/modules/VM/myVM.ts:39-43 | `readInt16` reads back the assembler's `[n & 0xff, (n >> 8) & 0xff]` as `n` modulo 65536 |
| VMFacts.ExecuteOutcome | src/modules/VM/myVM.ts:10-37 | a run only appends to the output and stops because the code ran out, on `HALT`, or on a byte `OPCODES` does not assign |
| Pipeline.LowerStatements | src/index.ts:33-97 | printed sums of literals (any integers other than 1 and 2) lower to the lines of their stack code |
| Pipeline.AssembleInstrs | src/index.ts:263-331 | those lines assemble to the concatenated encodings of their instructions |
| Pipeline.SemStatements | src/modules/VM/myVM.ts:10-37 | the stack code prints each statement's sum, of its literals modulo 65536, in order and stops at the first `exit` |
| Pipeline.RunInstrs | src/modules/VM/myVM.ts:10-37 | the machine steps through the encoded instructions one at a time, as the stack code does |
| Pipeline.CompileProgram | src/index.ts:33-331 | lowering then assembling such a program yields its instructions' bytes and leaves the variable table alone |
| Pipeline.RunProgram | src/modules/VM/myVM.ts:10-37 | started on those bytes, the machine prints the program's sums (of the literals modulo 65536) in order, ends with an empty stack, never meets an unknown opcode, and halts exactly when the program calls `exit` |
| Pipeline.EndToEnd | src/index.ts:338-362 | the chain `generateAssembly`, `assemble`, `new MyVM`, `run` on such a program prints its sums (of the literals modulo 65536) in order, and halts exactly on `exit` |
| Pipeline.PutsLiteralEndToEnd | src/index.ts:41-48 | `puts <v>` for any literal other than 1 and 2 lowers to `PUSH_NUM <v>` and `PUTS`, assembles, and prints `v` modulo 65536 |
| Pipeline.PutsNegativeLiteral | src/index.ts:41-48 | `puts -n` (0 < n < 65536) lowers to `PUSH_NUM -n`, which `Number` reads as -n and `& 0xff`/`>> 8` write in two's complement, so the machine prints `65536 - n` |
| Pipeline.ColonStringIsLabel | src/index.ts:184-186 | a string literal ending in ':' lowers to a `PUSH_STR` line that pass 1 (src/index.ts:270-273) takes for a label definition: the line is dropped, and its text less the colon is recorded as a label |
| Pipeline.PutsColonString | src/index.ts:263-331 | `puts "<u>"` with `u` ending in ':' assembles to the lone byte of `PUTS` |
| Pipeline.PutsAlonePrintsUndefined | src/modules/VM/myVM.ts:26-28 | that lone byte prints `undefined` |
| Pipeline.PutsPlainString | src/index.ts:289-295 | `puts "<u>"` with any other one-word string is rejected, because `PUSH_STR` has no byte |
| Pipeline.ArrayDefinitionRejected | src/index.ts:202-204 | an array literal's last line is `undefined <count>`, since the missing `ARRAY_DEFINITION` entry is concatenated into the text; pass 1 sizes it at three bytes, and pass 2 (src/index.ts:292-294) rejects it as `undefined` |
| Pipeline.ArrayLiteralEnds | src/index.ts:202-204 | an array literal's code ends with the `ARRAY_DEFINITION` line carrying the element count |
| Pipeline.SmallLiteralRejected | src/index.ts:41-48 | the literals 1 and 2 lower to `NUMBER1`/`NUMBER2`, which have no opcode, so their code never assembles |

## Left out

- The script at the end of src/index.ts (lines 333-365) is not modelled as code. It reads `ast.json`, logs the assembly and the bytecode, and times `run`. Pipeline.EndToEnd states the chain the script drives.
- `console.log` is modelled as appending to an `output` sequence. `undefined` is `None` and `NaN` is its own value.
- JavaScript numbers are unbounded `int`/`nat`. Stack sums never lose precision, and a literal of 10^21 or more, which a template literal prints in exponent form, is printed in plain digits.
- Operand bytes are written out exactly: `& 0xff` and `>> 8 & 0xff` keep an operand modulo 65536, so a label address or number outside 0..65535 wraps around, and a negative literal `-n` is read back as `65536 - n` (VMFacts.Int16OfLittleEndian, Pipeline.PutsNegativeLiteral).
- `Number(arg)` is modelled on decimal digit strings, with or without one leading `-`. The empty string reads as 0, and anything else is NaN. A `+` sign, decimal points, exponents, hexadecimal, `Infinity` and surrounding whitespace are not modelled. Of the operands the lowerer emits, only the name of a method called `Infinity` (in `CALL Infinity`) takes one of these forms: the source reads it as a number and writes 0, where the model looks up the label `LABEL_Infinity`.
- `TextEncoder` is modelled as UTF-8 over Unicode scalar values. Lone surrogates cannot occur in Dafny strings.
- Nine mnemonics the lowerer names are missing from `ASSEMBLY`: `NUMBER1`, `NUMBER2`, `EQUAL`, `NOT_EQUAL`, `ARRAY_ASSIGNMENT`, `ARRAY_REFERRENCE`, `SHUFFLE`, `RETURN` and `ARRAY_DEFINITION`.
- For the first eight, the lowerer puts the missing entry itself into the line list. In the source that is `undefined`, and `assemble` then crashes with a TypeError on `line.endsWith` rather than with its "Unknown instruction" error. The model spells each by its key name (`NUMBER1`, ...). None is in `OPCODES`, so the model's `assemble` rejects them with `UnknownInstruction` naming the key (Pipeline.SmallLiteralRejected). The line text, the error name and the kind of failure therefore differ from the source for these eight.
- `ARRAY_DEFINITION` is concatenated with the element count (src/index.ts:204), giving the line `undefined <count>`. The model reproduces that text exactly: pass 1 sizes it at three bytes, and pass 2 throws `Unknown instruction: undefined`, as in the source (Pipeline.ArrayDefinitionRejected).
- The lowered lines are built as structured values (mnemonic plus operands, or a label definition) and rendered to text by `Lowering.Text`. The assembler and the post-pass work on the rendered text, as the source does.
- `def_node`, `return_node` and `array_node` are lowered by the source but missing from the `Node` union; the model adds them to `Ast.Node`. The optional fields the lowerer never reads (`locals`, `depth`, `flags`) are not modelled.
- Ast.Node: the serializer drops every nil field. A call's `receiver` and `arguments`, a definition's `parameters` and a `return`'s `arguments` are `Option`s, and Lowering.Lower fails with `MissingField` where the source throws a TypeError (LoweringFacts.LowerErrors). The bodies of `if`, `while`, `for` and `def` and the bounds of a `for` range are always present in the model. An empty body or an open-ended range is nil in the parser's output and makes the source throw a TypeError; the model has no such tree.
- `postProcessAssembly` is modelled and proved on its own. Nothing in the source calls it, so the pipeline does not.
- `assemble` is split into the methods LocateLabels (pass 1), EncodeOperands (the operand loop) and Assemble (pass 2). The original is one function.
- Assembler.Assembler.Assemble returns `Err` where the source throws. The error carries only the mnemonic. The bytes emitted before the throw are described by AssemblerFacts.ThrowsAtFirstUnknown.
- LoweringFacts.LabelDiscipline and LoweringFacts.JumpTargetsDefinedOnce assume no `def` is named with digits only. Such a name makes `getNewFuncLabel` collide with `getNewLabel` (LoweringFacts.FuncLabelMeetsNewLabel).
- VM.MyVM.Run: the code is an `array<byte>` fixed at construction, as the `Uint8Array` is. `run` throwing is returned as a `Faulted` status.
- Pipeline.EndToEnd covers only the fragment of `puts`/`print` of sums of integer literals, and `exit`. The literals may be any integers except 1 and 2. The machine receives each modulo 65536, so a negative literal `-n` prints as `65536 - n` (Pipeline.PutsNegativeLiteral). Some programs outside the fragment also assemble (a `def` whose body prints a literal, `puts 3, 4`, a bare range, a string ending in ':'); their runs are not described. Sums are unbounded on the machine, as JavaScript numbers are for these sizes.
- Opcodes.OpcodeOf: only the record's four own keys are modelled. In JavaScript, `OPCODES[instr]` also finds the members a plain object inherits from `Object.prototype` (`toString`, `constructor`, `valueOf`, `hasOwnProperty`, `__proto__`, ...). For those names the source does not throw, and a function or object reaches the byte array as 0. The model rejects them as unknown instructions. The lowerer never emits these names.
- AssemblerFacts.UnknownInstructionThrows: "unknown" means not one of the four own keys of `OPCODES`. A mnemonic that names an inherited `Object.prototype` member is rejected in the model but not in the source (see Opcodes.OpcodeOf above).
- AssemblerFacts.ThrowsAtFirstUnknown: the same reading of "unknown" as for AssemblerFacts.UnknownInstructionThrows.
- Assembler.Assembler.Assemble: returns `Err` for an inherited `Object.prototype` member name, where the source emits a 0 byte and goes on.
