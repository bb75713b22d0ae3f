# Verification of the mocha compiler

A model of the parts of the mocha Java compiler where a mistake would miscompile or misread a program without a
word, and proofs about them. `dafny verify dfyconfig.toml` checks the whole project. Code that the compiler runs as
loops over fields and buffers is a class with methods here, each proved against a function; the theorems are about
those functions.

## What is modelled

**Writing bytecode** (`classfile/`). A method body is a list of calls on the code writer, replayed under a growing set
of long branches until every short offset fits. `CodeWriter` is the writer with its buffer, labels, depths and patching;
`Pass` and `Resolve` say what one pass leaves in the buffer; `Replay` is the loop over passes, its convergence and the
leastness of the set it chooses. `StackDiscipline` proves the depths it tracks right for every path. `Decode` reads
bytes back one instruction at a time, `CodeImage` shows that reading an accepted body gives that body, and `Machine`
runs both, the symbolic body and its bytes, with handlers and switches, and shows that they cannot be told apart. The
plain instructions' effects, values, state and exceptions are a parameter, so the theorem holds for all of them.
`Effects` has what each instruction does to a stack of typed values and shows the writer to count it right; `Format` has
the numbers of the file format.

**Constant pool and class file** (`classfile/`). `Pool` and `PoolBuilder` intern, `PoolReader` reads back, and
`PoolRoundTrip` shows each index to resolve to exactly what it was given. `ClassAssembler` builds a file, attribute
lengths patched after the fact, while interning goes on; `ClassDecoder` reads one through bounded cursors; `ClassFile` and
`ClassReader` are what they compute, and `ClassRoundTrip` shows the one to undo the other.

**Lowering** (`lower/`). Boolean expressions as branches and as values, and assignment, compound assignment, ++ and --
over locals, fields and array elements, run on a stack machine and compared with what the language says they mean.
`ConditionsLimits` and `LvaluesLimits` tell exactly where they differ, `Promotion` what type arithmetic is done in.

**Definite assignment** (`flow/`). The analysis over in-place bitsets with separate states for true and false and a
descending loop fixpoint, against a semantics of statements in which runs of any length are considered. `Walker` is the
code, `Analysis` the rules it computes, `Gains` what they add, `Execution` the semantics, `Soundness` the theorems that what is
accepted is safe, `Completion` and `Paths` those that what is reported is so, against runs that may take either way.

**Front end.** `scanner/` tiles any text with tokens, and the text decides the tokens (`Numerals` and `Extents` say what
tokens those are); `token/` translates Unicode escapes and maps offsets back; `parser/` climbs operator precedence over
rejoined shifts, against the language's grammar in `Grammar`; `types/` holds subtyping by a marking search on possibly
cyclic graphs, against the language's direct supertypes in `Supertypes`, and the generic-signature parser; `analyzer/`
holds overload selection and constant folding, whose arithmetic `Arithmetic` describes.

## What turned out not to hold

Each of these is kept as the code has it, with a concrete input where it fails and, for all inputs, the exact condition
under which it does not.

- A floating relational test that jumps on true takes the jump when an operand is NaN (`ConditionsLimits.NaNJumps`,
  `ConditionsLimits.CompareExactly`, and for whole conditions and the values made of them `ConditionsLimits.CondExactly`
  and `ConditionsLimits.ValueExactly`). Where a constant operand keeps such a test from being run or from mattering the
  condition is sufficient only, as `ConditionsLimits.ConstantHides` shows.
- A compound shift on a byte, short or char is not narrowed back (`LvaluesLimits.ShiftOverflows`,
  `LvaluesLimits.ShiftsExactly`, `LvaluesLimits.CompoundExactly`).
- The expression before a static field that is assigned is not evaluated (`LvaluesLimits.QualifierExactly`,
  `LvaluesLimits.StepQualifierExactly`, `LvaluesLimits.CompoundExactly`).
- A checkcast or instanceof on an empty stack is accepted (`StackDiscipline.CastOnEmptyStackAccepted`,
  `StackDiscipline.UnderflowExactly`).
- A handler label that is never placed is accepted (`StackDiscipline.UnplacedHandlerAccepted`,
  `Machine.HandlerRowsExactly`).
- The builder writes files its own reader refuses: those whose pool holds a method type
  (`ClassRoundTrip.MethodTypeRefused`, `ClassRoundTrip.ClassReadsBack`).
- What the leading operand of an assert's condition assigns is still claimed after it, with assertions off
  (`Soundness.AssertUnsound`, `Soundness.AssertExactly`).
- The place of a store is checked as if it were evaluated after the right side, and the place of ++ and -- is not checked
  at all (`Soundness.StoreUnsound`, `Soundness.FieldStoreUnsound`, `Soundness.StepUnsound`, `Soundness.PlaceExactly`).
  The condition is exact where every operand of the place is evaluated in every run; where paths part it is sufficient,
  and `Soundness.CarefulPlace` shows that it is not necessary there.
- A read of a local that every path has assigned is reported where the walk goes by the first operand of a condition: behind
  a while, behind an if whose branch cannot complete, behind && and ||; and where an assignment in the place of a store comes
  first (`Paths.WhileOverreported`, `Paths.IfOverreported`, `Paths.ValueOverreported`, `Paths.PlaceOverreported`). Where
  statements are tidy in the sense of `Paths.TidyStmt` the reports are exact (`Paths.StmtExactly`).
- A label, and a do whose body cannot complete, are said to complete normally (`Completion.Overstated`,
  `Completion.AliveExactly`).
- `a instanceof T + b` is read as a sum (`Precedence.SumOfInstance`, `Precedence.ParseCanonicalExactly`,
  `Grammar.ReadIsGrammar`).
- `1_.5` and `0b` are accepted as numbers (`Numerals.SlipsAccepted`, `Numerals.LiteralExactly`).
- A type parameter without a bound, unless it is the last, is refused or misread (`Signature.UnboundedRefused`,
  `Signature.UnboundedMisread`, `Signature.ClassReadsBack`).
- Strings that are no generic signatures are accepted: an unnamed type variable, void as an element or argument, empty
  angle brackets, and names with characters no identifier holds (`SignatureLimits.StrayAccepted`,
  `SignatureLimits.ConformsExactly`).
- Among variable-arity methods the choice goes by count and position (`Overload.ByTypeNotChosen`,
  `Overload.LongestExactly`, `Overload.ByTypeExactly`).
- The comment on the pool says that every index is 0 after a failure; an index already given is still answered
  (`Pool.AnswersAfterFailure`, `Pool.AfterFailure`).
- The comment on blocks says one unreachable statement is reported for each; every one is (`Analysis.EveryDeadReported`).

## Model

| member | source | states |
|---|---|---|
| CodeWriter.Writer.Branch | classfile/codewriter.go:646-670 | Emits the short form, `goto_w`, or the inverted test over a `goto_w`, as the previous pass decided; every other field of the writer changes as the specification of one pass says, or an error is pending |
| CodeWriter.Writer.EmitSwitch | classfile/codewriter.go:695-776 | Pads to the alignment of its own offset, records each target with the depth after the pop, and ends the flow |
| CodeWriter.Writer.TableSwitchOver | classfile/codewriter.go:695-728 | Refuses a reversed range or a target list of the wrong length; otherwise emits the keys low to high with their targets |
| CodeWriter.Writer.LookupSwitchOver | classfile/codewriter.go:732-776 | Sorts the pairs by match, refuses a repeated match or lists of different lengths |
| Calls.SortSorts | classfile/codewriter.go:732-776 | The insertion sort permutes the pairs and orders them, and the neighbour check after it passes if and only if no match value repeats in the caller's list |
| CodeWriter.Writer.Mark | classfile/codewriter.go:103-126 | Places a label once, joins its depth with the fall-through depth, takes the label's depth after dead code, refuses a label no branch has reached |
| CodeWriter.Writer.NoteDepth | classfile/codewriter.go:129-138 | Records the depth of the first arrival and refuses every later arrival with another |
| CodeWriter.Writer.Push | classfile/codewriter.go:142-151 | Raises the depth, raises max_stack with it, and refuses a depth past the limit without losing the error |
| CodeWriter.Writer.Pop | classfile/codewriter.go:153-159 | Refuses to pop below zero |
| CodeWriter.Writer.UseLocal | classfile/codewriter.go:164-178 | Grows max_locals to cover the slot and its width, or refuses the slot |
| CodeWriter.Writer.EmitOp | classfile/codewriter.go:183-189 | Refuses an opcode where control cannot be |
| CodeWriter.Writer.LocalOp | classfile/codewriter.go:233-249 | Chooses compact, byte or wide form by the slot |
| CodeWriter.Writer.Iinc | classfile/codewriter.go:252-271 | Chooses the byte or the wide form by slot and delta, refusing a delta past sixteen bits or a slot past the limit |
| CodeWriter.Writer.IntConst | classfile/codewriter.go:297-312 | Pushes an int by the shortest of iconst, bipush, sipush and ldc |
| CodeWriter.Writer.LoadConst | classfile/codewriter.go:382-397 | ldc, ldc_w or ldc2_w by index and width, with one or two slots pushed |
| CodeWriter.Writer.FieldAccess | classfile/codewriter.go:421-441 | Pops and pushes what the access and the field width call for |
| CodeWriter.Writer.Call | classfile/codewriter.go:464-490 | Pops arguments and receiver, pushes the result, and writes the count byte of invokeinterface |
| CodeWriter.Writer.TypeOp | classfile/codewriter.go:496-557 | new and the array and type tests; checkcast and instanceof leave the tracked depth alone |
| CodeWriter.Writer.MultiArray | classfile/codewriter.go:525-545 | Refuses a dimension count of zero, past 255 or past the descriptor's own |
| CodeWriter.Writer.SimpleOp | classfile/codewriter.go:566-582 | Applies the opcode's stack effect, which Effects.SimpleExactly finds right, and ends the flow after a return or athrow |
| Effects.SimpleExactly | classfile/codewriter.go:889-935 | The writer emits an operand-free instruction if and only if section 6.5 of the JVM Specification has one that names no local; the slots it counts are those of the operands and results there, dup family included, and it ends the flow just where the instruction does |
| Effects.ApplyPossible | classfile/codewriter.go:889-935 | On a stack of whole values with exactly the counted slots the instruction has its effect: no count is larger than needed |
| Effects.CallCounts | classfile/codewriter.go:197-582 | Every call counts the slots its instruction takes and gives by the kinds of its operands and results; a cast or type test counts only the difference |
| Effects.LocalCounts | classfile/codewriter.go:197-249 | A local access takes and gives the slots of its type and reserves as many locals from its slot |
| Effects.StackCounted | classfile/codewriter.go:566-582 | However control gets to a call of an accepted body, the typed values then on the stack take exactly the slots counted there, and no more than max_stack |
| Effects.LineAccepted | classfile/codewriter.go:566-582 | Straight-line code that runs on a typed stack is accepted, counted right at every call, and max_stack is the greatest height, no less and no more |
| CodeWriter.Writer.Catch | classfile/codewriter.go:784-795 | Records a handler row and joins the handler's depth at one |
| CodeWriter.Writer.Perform | classfile/codewriter.go:183-795 | Any one call of a body takes the writer from its state to the state the specification of one pass gives, error included |
| CodeWriter.Writer.ResolveLabels | classfile/codewriter.go:808-856 | Fails on an unplaced label; else adds every overflowing short branch to the widen set and asks for another pass; else every field holds its offset |
| CodeWriter.Writer.ResolveBranches | classfile/codewriter.go:808-831 | The loop over branches: the widen set grows by exactly the branches whose offset does not fit, the others are patched |
| CodeWriter.Writer.ResolveSwitches | classfile/codewriter.go:833-856 | The loop over switches patches each default and case offset relative to the opcode |
| Pass.BufferHolds | classfile/codewriter.go:646-776 | At every point of a clean pass the buffer is the encodings of the commands end to end, each at the position the widen set gives it |
| Pass.LabelPlaces | classfile/codewriter.go:103-126 | A label is placed exactly when it was marked, at the position of its mark |
| Pass.MarkedOnce | classfile/codewriter.go:103-126 | A clean pass marks no label twice |
| Pass.BranchRecords | classfile/codewriter.go:646-670 | The recorded branches are the branch commands in order, so a branch's ordinal names the same command in every pass |
| Pass.PassesAgree | classfile/builder.go:209-236 | Two passes over one body under any two widen sets accept or refuse it alike and compute the same depths and limits |
| Resolve.FinishedHolds | classfile/codewriter.go:808-856 | After the last pass each command's bytes are exactly its encoding with the distances to its labels; no patch touches another command |
| Resolve.OtherWindow | classfile/codewriter.go:808-856 | A patch inside one command leaves the bytes of every other as they were |
| Replay.MethodBuilder.Code | classfile/builder.go:192-282 | The result is that of replaying from the empty set under the cap of ten passes: code, limits and appended handler rows when it settles within the size limit, an error and nothing changed otherwise |
| Replay.MethodBuilder.RunBody | classfile/builder.go:209-229 | One pass on a fresh writer reaches the state the specification gives for that widen set |
| Replay.WidenGrows | classfile/codewriter.go:808-831 | A repeated pass widens at least one more branch of the body and nothing else |
| Replay.Converges | classfile/builder.go:209-236 | From any widen set, one pass more than the branches left short is enough |
| Replay.SettlesWithin | classfile/builder.go:209-236 | Without the cap, replay settles within the number of branches plus one, and more passes change nothing |
| Replay.CapOnlyStops | classfile/builder.go:209-236 | The cap can refuse a body but never gives another result than more passes would |
| Replay.PositionsMonotone | classfile/codewriter.go:646-776 | Widening more branches never moves a command back, switch padding included |
| Replay.GapsMonotone | classfile/codewriter.go:646-670 | Without switches widening never brings two commands closer |
| Replay.LeastWidening | classfile/builder.go:209-236 | For a switch-free body the branches widened are the least set under which every other branch fits sixteen bits |
| StackDiscipline.StackDiscipline | classfile/codewriter.go:103-159 | In an accepted body all paths reach an instruction with one depth, none underflows or passes max_stack, and control never runs off the end, handler entry included (section 4.9.2 of the JVM Specification) |
| StackDiscipline.EntryDepthStep | classfile/codewriter.go:129-138 | Every step of control flow, handler entry included, arrives with the depth the writer recorded |
| StackDiscipline.UnderflowExactly | classfile/codewriter.go:548-557 | An accepted call lacks an operand exactly when it is a checkcast or instanceof where the writer counted an empty stack |
| StackDiscipline.CastOnEmptyStackAccepted | classfile/codewriter.go:548-551 | Such a body is accepted: a cast as the first instruction |
| StackDiscipline.UnplacedHandlerAccepted | classfile/builder.go:268-279 | A return with a try range after it whose label is never placed is accepted, and the row's handler says 65535 |
| Machine.HandlerRowsExactly | classfile/builder.go:268-279 | A row of an accepted body says 65535 exactly when its handler label was never placed; all rows point inside the code array exactly when all handler labels were placed |
| Decode.Iter.Next | classfile/code.go:211-252 | Steps to the next whole instruction; a malformed one stops the iteration for good with an error |
| Decode.Iter.Collect | classfile/code.go:211-252 | Iterating to the end gives the walk of the array, or an error exactly when some instruction is malformed |
| Decode.ReadSwitch | classfile/code.go:129-172 | The loop gives the default and the cases, targets relative to the opcode |
| Decode.PlainRoundTrip | classfile/code.go:211-307 | Every call without a label decodes, wherever it stands, to the operation and operands asked for, in every form the writer chooses |
| Decode.IncRoundTrip | classfile/code.go:64-73 | Both forms of iinc give back slot and signed delta |
| Decode.LocalRoundTrip | classfile/code.go:44-61 | Compact, byte and wide local forms give back the slot |
| Decode.ShortRoundTrip | classfile/code.go:88-97 | A short branch gives back its target |
| Decode.LongRoundTrip | classfile/code.go:88-97 | A goto_w gives back its target |
| Decode.SwitchRoundTrip | classfile/code.go:129-172 | Both switches decode at every alignment to their default and cases |
| Decode.TableLen | classfile/code.go:259-307 | A tableswitch is as long as its padding, its three words and a word for each case its bounds count |
| Decode.LookupLen | classfile/code.go:259-307 | A lookupswitch is as long as its padding, its two words and two words for each pair |
| CodeImage.IterationReadsBody | classfile/code.go:211-252 | Iterating an accepted body's bytes yields exactly the body: each call's operation, operands and label positions, a widened test as its two instructions |
| CodeImage.TargetsAreBoundaries | classfile/code.go:88-97 | Every target is an instruction boundary strictly inside the code array (section 4.9.1 of the JVM Specification) |
| Machine.WideningPreservesMeaning | classfile/codewriter.go:646-670 | Under any semantics of the plain instructions the bytes and the symbolic body have the same outcome: same stack and state on return, same escaping exception, neither stops while the other goes on; no assumption on which labels of try ranges were placed |
| Machine.StepSimulates | classfile/codewriter.go:646-670 | Each step of the body is one or two steps of its bytes between corresponding configurations, exceptions dispatched alike |
| Machine.BranchSimulates | classfile/codewriter.go:646-670 | Short, long and inverted forms do what the symbolic branch does |
| Format.TestsByNumber | classfile/codewriter.go:615-670 | What each conditional branch tests, by the opcode numbers of section 6.5 |
| Format.PadAligned | classfile/codewriter.go:695-776 | Switch operands begin at the next multiple of four after the opcode, and no further |
| Machine.SwitchChoice | classfile/codewriter.go:695-776 | The encoded cases send every key where the caller's own unsorted table sends it |
| Machine.TableRows | classfile/builder.go:268-279 | Handler rows are the ranges' code offsets, none wrapped but those of labels never placed, which say 65535 |
| PoolBuilder.Builder.Add | classfile/poolbuilder.go:65-82 | Appends one entry, or two slots for a long or double; once the pool is full or an error is pending adds nothing and answers 0 |
| PoolBuilder.Builder.Utf8Index | classfile/poolbuilder.go:85-102 | Interns a string, refusing an encoding past 65535 bytes |
| PoolBuilder.Builder.NumberIndex | classfile/poolbuilder.go:177-235 | Interns numbers by bit pattern |
| PoolBuilder.Builder.NameIndex | classfile/poolbuilder.go:106-135 | Interns the name first, then the entry that refers to it |
| PoolBuilder.Builder.NameAndTypeIndex | classfile/poolbuilder.go:138-147 | Interns both strings and encodes the indices they were given |
| PoolBuilder.Builder.MemberIndex | classfile/poolbuilder.go:150-174 | Interns class and name-and-type and encodes their indices |
| PoolBuilder.Builder.EmitTable | classfile/poolbuilder.go:255-262 | Writes the slot count and the entries in index order, phantom slots as nothing |
| PoolBuilder.EntryStable | classfile/poolbuilder.go:237-250 | An entry encoded when it was added is its encoding in every later table: indices never move |
| Format.EntryFormat | classfile/poolbuilder.go:60-250 | Every constant's bytes are the tag and fields of section 4.4, most significant byte first |
| Format.HeaderFormat | classfile/builder.go:292-355 | A class file begins with the magic number, its versions and the pool's slot count |
| Pool.InternKeeps | classfile/poolbuilder.go:85-235 | Interning keeps the table valid, moves no entry, and places the constant unless an error is pending |
| Pool.InterningExact | classfile/poolbuilder.go:85-235 | After any error-free calls two constants have one index exactly when they are equal, and no index is 0 |
| Pool.AnswersStand | classfile/poolbuilder.go:65-82 | Every answer of an error-free run is where its constant is at the end of the run |
| Pool.ReplayAnswers | classfile/builder.go:209-236 | Repeating the calls on the table they left answers the same indices and adds nothing, so replayed loads keep their lengths |
| Pool.AfterFailure | classfile/poolbuilder.go:57-82 | Once an error is pending no entry is added; a constant already interned still answers its index, although the comment says every index is 0 |
| Pool.AnswersAfterFailure | classfile/poolbuilder.go:57-102 | A string, one too long to encode, and the first again answer 1, 0 and 1 |
| PoolReader.Reader.ReadU2 | classfile/reader.go:57-64 | Sticky error: zero and no movement past the end or after a failure, the big-endian value otherwise |
| PoolReader.Reader.ReadU4 | classfile/reader.go:66-74 | Four bytes big-endian; after a failure or past the end, zero, no movement and the error kept |
| PoolReader.Reader.ReadBytes | classfile/reader.go:80-91 | A slice of the input; after a failure or past the end, nothing, no movement and the error kept |
| PoolReader.Reader.Pool | classfile/constpool.go:439-518 | The loop reads exactly the entries of the recursive reading, and fails exactly when it has none: short input, unknown or too recent tag, forbidden byte in a string, long or double in the last slot |
| PoolReader.Strings.Utf8 | classfile/constpool.go:141-157 | The memo answers what decoding answers, the first time and every time after |
| PoolRoundTrip.ResolvesExactly | classfile/constpool.go:123-240 | Each index of a pool read back resolves to what its slot was given, and index 0, phantom slots and indices past the end to nothing |
| PoolRoundTrip.LoadsExactly | classfile/constpool.go:405-436 | Const gives exactly the loadable constants |
| PoolRoundTrip.PoolReadsBack | classfile/constpool.go:439-518 | After any error-free interning calls the emitted table, between any bytes, is read if and only if no entry is newer than the file; it is then read whole, each answered index resolves to its constant and every other index is refused |
| PoolRoundTrip.SupportedExactly | classfile/poolbuilder.go:128-135 | At version 49 that is so if and only if no call asked for a method type, whatever else was interned |
| ClassFile.Sink.OpenAttr | classfile/writer.go:28-35 | Leaves the length zero and remembers its place |
| ClassFile.Sink.CloseAttr | classfile/writer.go:28-35 | Whatever was appended since, the length patched in is its length and no other byte changes |
| ClassAssembler.Assembler.EmitField | classfile/builder.go:366-389 | Interns names, ConstantValue and Signature in that order and appends the field with the indices of the final table |
| ClassAssembler.Assembler.EmitMethod | classfile/builder.go:391-497 | Refuses exactly a body that must not be there or is missing; else interns in order and appends the method |
| ClassAssembler.Assembler.EmitCode | classfile/builder.go:418-479 | The Code attribute with its own attributes opened and closed inside it; local names are interned before it is opened |
| ClassAssembler.Assembler.EmitFields | classfile/builder.go:310-314 | The field table holds each field as the final table indexes it, although later fields go on interning |
| ClassAssembler.Assembler.EmitMethods | classfile/builder.go:315-318 | The method table holds each method as the final table indexes it; the error is set exactly when some method's body does not match its flags |
| ClassAssembler.Assembler.Tables | classfile/builder.go:297-330 | All interning is done by the time the tables are made, and their bytes use the indices of the table then complete |
| ClassAssembler.Assembler.Bytes | classfile/builder.go:292-355 | Refused exactly when an error is pending, the class cannot be declared or the pool ran over; otherwise the file, and reading it gives the class back if and only if no pool entry is newer than the file |
| ClassAssembler.FileReadsBack | classfile/classfile.go:112-185 | Whatever the pool held before, the file is read to its last byte and gives back name, super, interfaces, fields, methods, code, handlers and tables, if and only if no pool entry is newer than the file |
| ClassRoundTrip.ClassReadsBack | classfile/classfile.go:112-185 | From an empty pool, after any earlier interning calls that cover constants and catch types, a class whose tables fit reads back whole if and only if none of those calls asked for a method type; with one, the file is refused |
| ClassRoundTrip.MethodTypeRefused | classfile/constpool.go:439-518 | java/lang/Object built after one method type was interned: no error is reported, and the file is not read |
| ClassRoundTrip.HeaderReads | classfile/decoder.go:110-146 | Every backpatched length equals the body its bounded reader is given |
| ClassRoundTrip.CodeDecodes | classfile/decoder.go:373-417 | A Code body of legal size is read to its exact end, its nested tables included |
| ClassRoundTrip.PlacedReadsBack | classfile/classfile.go:112-185 | The round trip, and the refusal, from any valid pool that places what the class needs |
| ClassDecoder.Read | classfile/classfile.go:112-185 | Stepping the cursor through the file gives exactly the recursive reading, refusals included |
| ClassDecoder.Decoder.Attributes | classfile/decoder.go:110-146 | The loop over a bounded attribute table agrees with the recursive reading, cursor position and failure included |
| ClassDecoder.Decoder.Attribute | classfile/decoder.go:152-335 | Each attribute is read by a reader bounded by its body and refused unless the whole body is used |
| ClassDecoder.Decoder.Members | classfile/decoder.go:40-107 | Fields and methods: flags, two strings, attributes, in order |
| ClassDecoder.Decoder.CodeBody | classfile/decoder.go:373-417 | Refuses a code length of zero or past 65535; else limits, code, handlers and attributes |
| ClassDecoder.Decoder.ClassList | classfile/decoder.go:337-348 | Stops at the first name that does not resolve |
| ClassDecoder.Decoder.LocalVars | classfile/decoder.go:350-368 | Reads the rows of a local table, stopping at the first name or descriptor that does not resolve |
| ClassDecoder.Decoder.OrErr | classfile/decoder.go:424-436 | A value, provided nothing failed and no byte of the body is left |
| Emitter.CondEmitter.Cond | lower/cond.go:19-71 | Appends exactly the code whose runs ConditionsProof.CondCorrect is about, labels allocated in the same order |
| Emitter.CondEmitter.CondAnd | lower/cond.go:75-87 | Appends exactly the specified code for && in both senses, the skip label only where it is needed |
| Emitter.CondEmitter.CondOr | lower/cond.go:90-100 | Appends exactly the specified code for a disjunction in both senses |
| Emitter.CondEmitter.CompareOperands | lower/cond.go:103-167 | Appends exactly the specified code for a numeric comparison: promotion, fused test or three-way comparison |
| Emitter.CondEmitter.CompareReferences | lower/cond.go:107-127 | Appends exactly the specified code for a reference comparison, a null literal on either side fused |
| Emitter.CondEmitter.CondValue | lower/cond.go:206-215 | Appends exactly the specified code for a materialised condition, about which ConditionsProof.ValueCorrect is |
| Emitter.CondEmitter.Value | lower/expr.go:438-552 | Appends exactly the specified code for a boolean value: bitwise operators, conditionals and materialised conditions |
| ConditionsProof.CondCorrect | lower/cond.go:19-167 | From any stack the code reaches the target exactly when the expression evaluates to `when` and falls through otherwise, stack restored, operand effects once, in order and only where short-circuiting allows |
| ConditionsProof.ValueCorrect | lower/cond.go:206-215 | A materialised condition leaves exactly 0 or 1 above the stack it found |
| ConditionsLimits.CompareExactly | lower/cond.go:137-167 | The code of a comparison branches as the language says in every environment, from every stack and wherever its target is, if and only if it is not a floating relational test that jumps on true |
| ConditionsLimits.NaNJumps | lower/expr.go:820-838 | On two NaN doubles the code emitted for x < y to jump on true reaches its target, and x < y is false |
| ConditionsLimits.CondExactly | lower/cond.go:19-167 | For every condition without constant operands: its code branches as the language says in every environment, from every stack and under every placement of its labels, if and only if no floating relational test in it jumps on true |
| ConditionsLimits.ValueExactly | lower/cond.go:206-215 | The same of the code that makes a value of it |
| ConditionsLimits.ConstantHides | lower/cond.go:19-30 | true or x < y, jumping on true, is right although its test jumps on true: with constant operands the condition is sufficient and not necessary |
| ConditionsProof.FusedTestExact | lower/expr.go:820-838 | The variant chosen for NaN gives the right answer exactly unless the test jumps on true and an operand is NaN |
| ConditionsProof.CondLabels | lower/cond.go:75-100 | The code marks only labels it allocated, each at most once |
| ConditionsProof.PlacementExists | lower/cond.go:19-71 | Such code can always be placed, so the theorem is about code that exists |
| AssignEmitter.Emitter.Assign | lower/expr.go:560-571 | Appends exactly the code LvaluesProof.AssignCorrect is about |
| AssignEmitter.Emitter.Compound | lower/expr.go:573-601 | Appends exactly the code LvaluesProof.CompoundRuns is about |
| AssignEmitter.Emitter.IncDec | lower/expr.go:610-644 | Chooses iinc for an int local by its bare name that is not captured, and the generic path for every other location and kind |
| AssignEmitter.Emitter.ReadModifyWrite | lower/expr.go:629-644 | The generic path of ++ and -- |
| AssignEmitter.Emitter.Lvalue | lower/expr.go:676-707 | Evaluates the parts of the location once |
| AssignEmitter.Emitter.Primitive | lower/convert.go:38-119 | The switch over both kinds emits the opcodes LvaluesProof.PrimitiveMeans is about, narrowing through int in two steps |
| LvaluesProof.AssignCorrect | lower/expr.go:560-571 | Plain assignment to a local, static, instance field or element of either width, no expression standing before a static field: location then value, one cell changed, the assigned value left if wanted and nothing otherwise (section 15.26.1 of the Java Language Specification) |
| LvaluesProof.CompoundCorrect | lower/expr.go:573-601 | Compound assignment, shifts on byte, short and char apart: location once, old value, right side, operation, conversion back (section 15.26.2) |
| LvaluesProof.CompoundRuns | lower/expr.go:573-601 | What the code of every compound assignment does, these shifts included |
| Promotion.PromotedLeast | types/subtype.go:205-216 | Two operands are promoted to the least of int, long, float and double that both become by identity or by the widening conversions of section 5.1.2, and to no other |
| Promotion.UnaryLeast | types/subtype.go:194-202 | So is one |
| Promotion.ComparedLeast | lower/cond.go:118-135 | So are the operands of a comparison |
| Promotion.ComputedInLeast | lower/expr.go:587-592 | The one arithmetic instruction a compound assignment emits is in the least type that the variable and the right side both become |
| Promotion.DistanceMasked | lower/expr.go:582-584 | A shift takes five bits of its distance for an int and six for a long, negative distances included |
| LvaluesProof.ShiftExactly | lower/expr.go:582-584 | A compound shift is right if and only if its int result fits the variable, or no value is wanted and an array store truncates it |
| LvaluesLimits.ShiftOverflows | lower/expr.go:582-584 | byte b = 64; b <<= 1 leaves and stores 128 where the language says -128, with the shifts of section 15.19 |
| LvaluesLimits.ShiftsExactly | lower/expr.go:582-584 | With the shifts of section 15.19, the code of a compound shift is right in every environment and memory if and only if the variable is an int or a long, or the shift is >>=, or a char's >>>=, or an array element is shifted and no value wanted |
| LvaluesLimits.CompoundExactly | lower/expr.go:559-601 | The code of any compound assignment is right in every environment with those shifts and every memory if and only if no expression stands before a static field and a shift is one of those of ShiftsExactly |
| LvaluesLimits.QualifierExactly | lower/expr.go:676-707 | Assignment to a static field is right in every environment if and only if no expression stands before it; the code does not evaluate one |
| LvaluesLimits.StepQualifierExactly | lower/expr.go:676-707 | ++ and -- on a static field are right in every environment if and only if no expression stands before it |
| LvaluesProof.StepCorrect | lower/expr.go:610-644 | Prefix and postfix ++ and -- on the generic path (sections 15.14.2 and 15.15.1) |
| LvaluesProof.IincRefines | lower/expr.go:646-659 | The iinc shortcut ends in the same state as the generic path, overflow included |
| LvaluesProof.IncDecCorrect | lower/expr.go:610-644 | ++ and -- are right whichever code is chosen |
| LvaluesProof.PrimitiveMeans | lower/convert.go:38-119 | The opcodes chosen compute the conversion of section 5.1 for every pair of convertible kinds |
| LvaluesProof.StashRuns | lower/item.go:45-125 | For every location and width the copy ends below the operands of the store |
| Bits.SetBitAt | analyzer/flow/bits.go:36-42 | Sets one member and no other |
| Bits.ClearBitAt | analyzer/flow/bits.go:44-49 | Clears one member and no other |
| Bits.Intersect | analyzer/flow/bits.go:61-71 | Word by word it is the intersection |
| Bits.SameSet | analyzer/flow/bits.go:87-98 | Answers whether the two sets are equal |
| Bits.AssignFacts | analyzer/flow/bits.go:146-149 | Marks a variable assigned and no longer unassigned, in place |
| Bits.CopyInto | analyzer/flow/alive.go:453-458 | Overwrites the words the caller shares |
| Bits.MembersPut | analyzer/flow/bits.go:36-49 | Setting or clearing a bit of a word array adds or removes exactly one member |
| FlowWalker.Walker.Expression | analyzer/flow/assign.go:29-138 | Leaves in the caller's bits and the reports what the rules of Analysis give |
| FlowWalker.Walker.Condition | analyzer/flow/assign.go:153-224 | Two new states, for true and for false, and the leading operand's effect left in the caller's state |
| FlowWalker.Walker.FullyAssigned | analyzer/flow/assign.go:229-236 | After a constant condition the impossible branch claims everything |
| FlowWalker.Walker.Read | analyzer/flow/assign.go:239-258 | Reports a read of a local not definitely assigned |
| FlowWalker.Walker.Write | analyzer/flow/assign.go:261-280 | Marks the local assigned and reports one that may already have been assigned |
| FlowWalker.Walker.Statement | analyzer/flow/alive.go:45-134 | Whether the statement can complete normally, and its assignments |
| FlowWalker.Walker.Statements | analyzer/flow/alive.go:22-41 | What follows a dead statement is reported and walked on a copy |
| FlowWalker.Walker.IfStatement | analyzer/flow/alive.go:173-199 | Joins the branches that can complete |
| FlowWalker.Walker.WhileStatement | analyzer/flow/alive.go:201-230 | A constant-true loop cannot complete |
| FlowWalker.Walker.DoStatement | analyzer/flow/alive.go:232-253 | The body is always walked before its condition |
| FlowWalker.Walker.ForStatement | analyzer/flow/alive.go:255-290 | Init, condition, body and post in their order |
| FlowWalker.Walker.Settle | analyzer/flow/alive.go:201-253 | The loop ends: each round that changes the pair of sets makes it smaller; what it ends with is the fixpoint |
| FlowWalker.Walker.MethodBody | analyzer/flow/flow.go:165-182 | Reports a missing return exactly when a value is owed and the body can complete |
| Gains.ExprGains | analyzer/flow/assign.go:29-138 | A walk that reports no read adds exactly the locals the expression assigns on every path, told from the expression alone |
| Gains.CondGained | analyzer/flow/assign.go:153-224 | So does a walk of a condition, for its leading operand and for each branch |
| Analysis.EveryDeadReported | analyzer/flow/alive.go:22-41 | Every statement after one that cannot complete is reported, not only the first of them |
| Completion.AliveExactly | analyzer/flow/alive.go:45-304 | A statement is said to complete normally if and only if some run of it does that takes either way wherever no constant decides, where labelled statements, do bodies and for initialisers can |
| Completion.MissingReturnExactly | analyzer/flow/flow.go:165-182 | A body is said to fall off its end if and only if some such run does |
| Completion.UnreachableExactly | analyzer/flow/alive.go:22-41 | Exactly those statements are reported unreachable that stand where no such run gets |
| Completion.RunCompletes | analyzer/flow/alive.go:45-134 | Every run of the language that completes is one of those runs |
| Completion.Overstated | analyzer/flow/alive.go:64-253 | A label over a return, and a do over one, are said to complete and cannot |
| Paths.StmtExactly | analyzer/flow/alive.go:45-304 | Where a statement is tidy, a read of an unassigned local is reported if and only if some path reads it so, and the local counts as assigned afterwards if and only if no path leaves it without a value |
| Paths.ExprExactly | analyzer/flow/assign.go:29-138 | The same of an expression |
| Paths.CondExactly | analyzer/flow/assign.go:153-224 | The same of a condition, on each branch |
| Paths.DeclaredExactly | analyzer/flow/alive.go:45-304 | The same of a local declared without a value and the rest of its block |
| Paths.RunTakesPath | analyzer/flow/alive.go:45-304 | Every run of the language that reads a local without a value, or ends with none, takes one of the paths |
| Paths.WhileOverreported | analyzer/flow/alive.go:201-229 | while (p or (v = e) != 0) leaves v assigned on every path, and a read behind it is reported |
| Paths.IfOverreported | analyzer/flow/alive.go:173-199 | So does if (!(p && (v = e) != 0)) return, and a read behind it is reported |
| Paths.ValueOverreported | analyzer/flow/assign.go:29-138 | So does the value (p ? v = e : (v = e)) && q |
| Paths.PlaceOverreported | analyzer/flow/assign.go:29-138 | a[v = e] = v reads v after assigning it, and the read is reported |
| Soundness.EntryFixed | analyzer/flow/alive.go:201-253 | The settled entry is below the first guess, is kept by the body, and its own pass is the one reported |
| Soundness.DefiniteAssignmentSound | analyzer/flow/assign.go:239-258 | If no read is reported, every place stored to or stepped would be clean if walked first, and no assert starts by assigning something new, then no run of the body, for any calls, values and loop counts, reads an unassigned local (chapter 16 of the Java Language Specification) |
| Soundness.ExprSound | analyzer/flow/assign.go:29-138 | What the analysis claims after an expression holds after every run of it |
| Soundness.CondSound | analyzer/flow/assign.go:153-224 | Each branch claims only what holds when the condition came out that way |
| Soundness.StmtSound | analyzer/flow/alive.go:45-134 | What it claims after a statement holds after every normal completion |
| Soundness.AliveSound | analyzer/flow/alive.go:45-134 | A statement reported unable to complete never completes normally, in any state |
| Soundness.MissingReturnSound | analyzer/flow/flow.go:165-182 | A body not reported for a missing return never falls off its end |
| Soundness.ForeverSound | analyzer/flow/alive.go:396-403 | A loop with a constant-true condition is never left normally |
| Soundness.AssertExactly | analyzer/flow/alive.go:45-134 | The facts kept after an accepted assert are right with assertions off if and only if all that the condition's leading operand assigns on every path was already assigned |
| Soundness.AssertUnsound | analyzer/flow/alive.go:45-134 | A body the analysis accepts that reads an unassigned local with assertions off |
| Soundness.PlaceExactly | analyzer/flow/assign.go:282-303 | An accepted store, compound store or ++ on an element or field is safe when walking its place first reports nothing; if every operand of the place is evaluated in every run, only then |
| Soundness.StoreUnsound | analyzer/flow/assign.go:282-303 | a[i] = (i = 1) is accepted with i unassigned |
| Soundness.FieldStoreUnsound | analyzer/flow/assign.go:282-303 | o.f = (o = x) is accepted with o unassigned |
| Soundness.StepUnsound | analyzer/flow/assign.go:48-58 | a[0]++ and o.f++ are accepted with a and o unassigned: nothing in them is walked |
| Soundness.CarefulPlace | analyzer/flow/assign.go:153-224 | Where paths part the condition is only sufficient: y && !y && i never reads i |
| Precedence.Parser.ParseBinary | parser/expr.go:96-141 | The climbing loop computes the recursive reading the theorems are about |
| Precedence.ParsesCanonical | parser/expr.go:96-141 | Tokens that spell a canonical tree, before any suffix that does not continue it, are read as that tree, and the parser stops there |
| Precedence.ParseSound | parser/expr.go:96-141 | Every whole result is spelled by exactly the tokens consumed, right operands strictly tighter, left ones at least as tight or an instanceof, and what follows does not continue it |
| Precedence.ParseCanonicalExactly | parser/expr.go:96-141 | The result is canonical if and only if no operator tighter than instanceof comes directly after one in the tokens consumed |
| Precedence.SumOfInstance | parser/expr.go:106-140 | a instanceof T + b, a syntax error of the language, is read as a sum |
| Precedence.OpFound | parser/expr.go:149-167 | An operator before an operand is found exactly as it is spelled, rejoined shifts included |
| Precedence.CanonicalExactly | token/precedence.go:20-44 | Of the trees climbing can build, exactly those without such an operator are canonical |
| Grammar.DerivesExactly | token/precedence.go:20-44 | The trees derived at each level of the grammar of sections 15.17 to 15.24, one production a level naming its operators, are exactly the canonical trees that bind at least as tight: the numbers of the table are the levels |
| Grammar.ReadsGrammar | parser/expr.go:96-141 | Tokens the grammar derives, with no operator behind them, are read as the derivation's tree |
| Grammar.ReadIsGrammar | parser/expr.go:96-141 | A whole result is a derivation of the tokens consumed if and only if no operator tighter than instanceof comes directly after one among them |
| Grammar.Unambiguous | token/precedence.go:20-44 | Tokens have at most one derivation |
| Lexemes.PunctLongest | scanner/scanner.go:130-257 | The operator chosen stands there and no longer entry of the table does; nothing is chosen only where no entry stands |
| Scanner.Scan | scanner/scanner.go:42-48 | On every text the tokens tile it: in order, non-empty but for the last, gaps exactly white space and dropped comments, both flags exact; no diagnostic is empty or outside the text |
| Scanner.Scanner.Run | scanner/scanner.go:65-80 | The loop ends and leaves the tiling |
| Scanner.Scanner.ScanToken | scanner/scanner.go:82-125 | Whatever stands there, one token is spelled and the offset moves on |
| Scanner.Scanner.SkipTrivia | scanner/scanner.go:261-292 | Stops where neither white space nor a comment begins, with both flags right |
| Scanner.Scanner.Emit | scanner/scanner.go:294-310 | Adjacent exactly when nothing lies between; a newline flag exactly when one does |
| Scanner.Scanner.Comment | scanner/text.go:187-210 | Kept or dropped, a comment leaves the next token not adjacent |
| Scanner.Scanner.ScanBlockComment | scanner/text.go:163-185 | Ends at the first closing mark or the end of the text and knows whether it crossed a line |
| Scanner.Scanner.ScanIdent | scanner/ident.go:14-44 | The longest run of letters and digits, or the hyphenated keyword |
| Scanner.Scanner.SpliceNonSealed | scanner/ident.go:49-63 | Spliced exactly when "non-sealed" stands there and no letter or digit abuts it |
| Scanner.Scanner.ScanString | scanner/text.go:39-60 | Ends after the first quote no backslash takes, or before the line terminator |
| Scanner.Scanner.ScanChar | scanner/text.go:9-37 | Ends after the first quote no backslash takes or before the line terminator; reported unless exactly one character was read |
| Scanner.Scanner.ScanTextBlock | scanner/text.go:66-113 | Ends after the first three quotes no backslash takes |
| Scanner.Scanner.Escape | scanner/text.go:117-152 | Moves over exactly one escape sequence, octal ones of one to three digits |
| Scanner.Scanner.ScanNumber | scanner/number.go:15-98 | Kind and end are those of Lexemes.Number, about which Numerals.NumberExactly is, and nothing is reported if and only if Lexemes.QuietNumber holds, about which Numerals.LiteralExactly is |
| Scanner.Scanner.ScanHexNumber | scanner/number.go:100-149 | Kind and end of a hexadecimal number, binary exponent included, are those of Lexemes.HexNumber, reported exactly unless Lexemes.QuietHex holds |
| Scanner.Scanner.CheckRun | scanner/number.go:175-189 | One diagnostic exactly when an underscore ends the run or a digit is outside the radix |
| Numerals.NumberExactly | scanner/number.go:15-149 | What is scanned as a number is the longest text there that a grammar of strings takes for one, and that text tells whether it is floating-point |
| Numerals.LiteralExactly | scanner/number.go:15-149 | Nothing is reported of a number if and only if it is a literal of sections 3.10.1 and 3.10.2, but for an underscore right before the point, exponent or suffix of a decimal one and a binary one without digits |
| Numerals.SlipsAccepted | scanner/number.go:15-98 | 1_.5 and 0b are accepted and are no literals |
| Extents.LineEndExactly | scanner/text.go:154-161 | A line comment ends at the first line terminator or with the text |
| Extents.BlockEndExactly | scanner/text.go:163-185 | A block comment ends over the first closing mark or with the text |
| Extents.WordEndExactly | scanner/ident.go:14-44 | Among ASCII characters a word is the longest run of letters, digits, underscores and dollar signs |
| Extents.EscapeExactly | scanner/text.go:117-152 | The longest escape of section 3.10.7 is gone over, or the backslash and one rune where there is none |
| Extents.LiteralEndExactly | scanner/text.go:39-60 | A literal is units that are no bare quote, backslash or line terminator, and the closing quote if one comes before the line ends |
| Extents.TextEndExactly | scanner/text.go:66-113 | A text block ends over the first delimiter no backslash takes away, or with the text |
| Tiling.TiledUnique | scanner/scanner.go:65-125 | A text has one token stream that tiles it: kinds, spans and flags are decided |
| Tiling.SpelledUnique | scanner/scanner.go:82-125 | At one place at most one kind of token is spelled, with one end |
| Tiling.SourceRebuilt | scanner/scanner.go:65-80 | Gaps and tokens put together are the text |
| Tiling.JoinExactly | token/token.go:64-83 | From a > token, Join finds exactly the longest shift operator, compound or not, spelled at that point of the text, and none when none is |
| Escapes.Translate | token/file.go:177-233 | The run-at-a-time loop computes the recursive reading of section 3.3 of the Java Language Specification and records its escapes |
| Escapes.EncodeDecodes | token/file.go:270-278 | No code point, lone surrogates included, is lost or confused |
| Escapes.EncodeForm | token/file.go:270-278 | The lead byte tells the length and the others are trail bytes, as section 4 of RFC 3629 has them |
| Escapes.Hex4Exactly | token/file.go:236-265 | Four bytes are read as a code unit if and only if they are its four hexadecimal digits, each in whichever case |
| Escapes.PairedExactly | token/file.go:177-233 | Two adjacent escapes are one code point if and only if they are its two UTF-16 units; any other escape is its own unit |
| Escapes.RawStart | token/file.go:110-123 | The binary search finds the raw offset the pieces give |
| Escapes.RawEnd | token/file.go:125-139 | The binary search finds the raw end the pieces give, the whole escape when strictly inside one |
| Escapes.RawSpan | token/file.go:101-108 | A span maps to its start and its end; the clamp acts only on a span given backwards, which becomes empty |
| Escapes.StartMonotone | token/file.go:110-123 | The map of starts is monotone |
| Escapes.EndMonotone | token/file.go:125-139 | The map of ends is monotone |
| Escapes.StartEndMeet | token/file.go:101-139 | The two maps agree at an offset exactly when it is not strictly inside an escape |
| Escapes.TextAgrees | token/file.go:177-233 | A byte outside escapes is the raw byte it maps to; an escape maps to its backslash |
| Escapes.SpanWhole | token/file.go:101-108 | A span widens to the smallest run of whole pieces that covers it |
| Escapes.EmptySpan | token/file.go:101-139 | An empty span stays empty between pieces and bytes, and widens to the one escape it lies strictly inside |
| Subtype.Search.ClassSubtype | types/subtype.go:92-121 | On failure everything newly visited has all its parents visited and the target is not among them; it ends on cyclic graphs |
| Subtype.IsSubclass | types/subtype.go:92-121 | True exactly when the target is Object or reachable |
| Subtype.Supers | types/subtype.go:131-160 | Every other reachable class, each once |
| Subtype.IsSubtype | types/subtype.go:15-87 | The recursion with its searches answers the subtype relation |
| Supertypes.SubtypingExactly | types/subtype.go:15-192 | Subtyping is the least reflexive and transitive relation that holds the direct supertypes of section 4.10, each kind a clause of its own, over proper types of a rooted hierarchy |
| Subtype.SubtypingTransitive | types/subtype.go:15-87 | Subtyping is transitive on error-free types when Object, Cloneable and Serializable have no supertype but Object |
| Subtype.SubtypingReflexive | types/types.go:421-482 | Every type is below itself and every class below Object |
| Subtype.SubclassTransitive | types/subtype.go:92-121 | Being a subclass is transitive when Object has no supertype, on cyclic graphs too |
| Subtype.WidensTransitive | types/subtype.go:167-192 | Primitive widening is transitive |
| Overload.MostSpecific | analyzer/attr/apply.go:225-240 | One forward scan and one check find a method at least as specific as every other exactly when there is one |
| Overload.MoreSpecificTransitive | analyzer/attr/apply.go:242-260 | Being more specific is transitive |
| Overload.WinnersAgree | analyzer/attr/apply.go:225-240 | Whatever the order of candidates, two winners are each as specific as the other |
| Overload.CompareMethods | analyzer/attr/apply.go:242-270 | The loop over parameters answers the relation |
| Overload.CheckApplicable | analyzer/attr/apply.go:150-198 | The checks answer applicability in a phase |
| Overload.CheckArg | analyzer/attr/apply.go:203-221 | Answers the conversions of the phase; those of the first are what Overload.StrictExactly says |
| Overload.StrictExactly | analyzer/attr/apply.go:203-221 | By strict invocation an argument fits exactly the types reached from its own by direct supertypes and widening (section 15.12.2.2) |
| Overload.ExpansionExactly | analyzer/attr/apply.go:150-198 | A variable-arity method takes its arguments as if its last parameter were written out once for each of them, or as the array itself (section 15.12.2.4) |
| Overload.SpecificExactly | analyzer/attr/apply.go:242-260 | A method is at least as specific as another if and only if the other takes, by strict invocation, whatever it takes (section 15.12.2.5) |
| Overload.SelectMethod | analyzer/attr/apply.go:121-147 | The earliest phase with an applicable method decides; it answers none, ambiguous or the winner exactly as that phase has none, no winner or one |
| Overload.LongestExactly | analyzer/attr/apply.go:225-246 | The third phase chooses a candidate if and only if none has more parameters and none after it as many, whatever the types |
| Overload.ByTypeExactly | analyzer/attr/apply.go:225-246 | Where one candidate alone is by section 15.12.2.5 at least as specific as every other, the third phase chooses it if and only if it is the last of the longest, and chooses it in every order of the candidates if and only if it is longer than all others |
| Overload.ByTypeNotChosen | analyzer/attr/apply.go:242-246 | Of f(String...) and f(Object...), in that order, the second is chosen, although only the first is most specific by section 15.12.2.5 |
| Folding.FoldExact | analyzer/attr/fold.go:32-282 | A recorded value is the run-time value, and folding declines exactly when some subexpression divides by zero |
| Folding.WideRight | analyzer/attr/fold.go:210-272 | 64-bit arithmetic then truncation is 32-bit arithmetic, for every operator |
| Folding.Truncation | analyzer/attr/fold.go:210-225 | Wrapping to 64 bits first changes no 32-bit result |
| Folding.BitsTruncate | analyzer/attr/fold.go:236-241 | Combining all 64 bits and truncating is combining the low 32 |
| Folding.Ushr32 | analyzer/attr/fold.go:246-251 | The unsigned shift of the low 32 bits, truncated, is the int shift |
| Folding.Ushr64 | analyzer/attr/fold.go:246-251 | The unsigned shift of a long |
| Arithmetic.PromotedLeast | types/subtype.go:194-216 | The type of an operation on integral types is the least of int and long that its operands become |
| Arithmetic.WrapExactly | analyzer/attr/fold.go:210-272 | Wrapping gives the one int, or long, congruent to the number |
| Arithmetic.NarrowExactly | analyzer/attr/fold.go:326-350 | A cast to byte, short or char gives the one value of the type congruent to the number |
| Arithmetic.DivisionExactly | analyzer/attr/fold.go:226-235 | Quotient and remainder are the only numbers of which sections 15.17.2 and 15.17.3 hold |
| Arithmetic.CombinedBit | analyzer/attr/fold.go:236-241 | Each bit of a bitwise operation's result is the operation on the operands' bits |
| SignatureParser.ParseClassSignature | types/signature.go:72-87 | The loop computes the recursive reading the theorems are about |
| SignatureParser.ParseMethodSignature | types/signature.go:89-114 | Loops over arguments and throws compute the recursive reading MethodExactly is about |
| SignatureParser.ParseFieldSignature | types/signature.go:116-126 | Computes the recursive reading FieldExactly is about, refusing trailing characters |
| SignatureParser.Parser.ReferenceType | types/signature.go:220-242 | Agrees with the recursive reading, stays in bounds, never moves back and keeps the first error |
| SignatureParser.Parser.ClassType | types/signature.go:246-270 | Name, arguments and the loop over suffixes agree with the recursive reading; bounds, progress and first error kept |
| SignatureParser.Parser.TypeArgs | types/signature.go:272-283 | The loop up to the closing bracket agrees with the recursive reading; bounds, progress and first error kept |
| SignatureParser.Parser.TypeArg | types/signature.go:287-300 | Wildcards and plain arguments agree with the recursive reading |
| SignatureParser.Parser.TypeParams | types/signature.go:170-181 | The loop over parameters agrees with the recursive reading |
| SignatureParser.Parser.TypeParam | types/signature.go:183-203 | One parameter, class and interface bounds flattened, agrees with the recursive reading |
| SignatureParser.Parser.JavaType | types/signature.go:207-218 | Any type, void included, agrees with the recursive reading |
| SignatureParser.Parser.Ident | types/signature.go:305-315 | Everything up to the first stop character |
| Signature.ClassExactly | types/signature.go:72-87 | A string is read as a class signature if and only if it spells it and every type parameter but the last has a bound |
| Signature.MethodExactly | types/signature.go:89-114 | A string is read as a method signature if and only if it spells it and every type parameter but the last has a bound |
| Signature.FieldExactly | types/signature.go:116-126 | A string is read as a field signature if and only if it spells it |
| Signature.RefExactly | types/signature.go:220-270 | A reference type is read from one place to another if and only if it is spelled from the one to the other |
| Signature.ClassReadsBack | types/signature.go:72-87 | A well-formed tree is read back from its printed form if and only if every type parameter but the last has a bound, whichever first bounds are printed as class bounds (section 4.7.9.1 of the JVM Specification) |
| Signature.MethodReadsBack | types/signature.go:89-114 | A well-formed method signature tree is read back from its printed form if and only if every type parameter but the last has a bound |
| Signature.FieldReadsBack | types/signature.go:116-126 | A well-formed field signature tree is read back from its printed form |
| SignatureLimits.ConformsExactly | types/signature.go:116-126 | A string is a field signature of section 4.7.9.1 of the JVM Specification if and only if it is accepted, the tree read has no void and only legal names, and no angle bracket closes at once |
| SignatureLimits.StrayAccepted | types/signature.go:207-315 | T;, [V, La<>; and La[; are accepted and lie outside that grammar |
| Signature.UnboundedRefused | types/signature.go:183-203 | <A:B:Lx;>Ly; is refused: what follows the unbounded A is taken for its bound |
| Signature.UnboundedMisread | types/signature.go:183-203 | <A:T:Lx;>Ly; is accepted as one parameter A bounded by a type variable named :Lx |

## Left out

Weaker than, or beside, what the source does:

- Replay.LeastWidening: switch-free bodies only; with a switch, widening a branch may take padding away elsewhere, distances are not monotone in the set, and leastness is not claimed.
- Replay.MethodBuilder.Code: descriptors are not parsed; argument slots, field widths and call widths are parameters, as are the pool indices of the calls, which PoolBuilder accounts for. Debug rows for lines and locals are not produced here.
- Machine.WideningPreservesMeaning: jsr, jsr_w and ret are not emitted by the writer and have no step.
- CodeWriter.Writer.LoadConst: the constant behind the index is a parameter; Lconst, Fconst, Dconst and Cconst choose between an immediate and this.
- Pool.InterningExact: the ten interning maps are one map over tagged constants; modified UTF-8 is an abstract codec that decoding inverts and whose bytes are never zero or from 0xF0 up.
- PoolRoundTrip.ResolvesExactly: module, package, method handle and dynamic entries are read but have no accessor here, since the builder never writes them.
- ClassAssembler.Assembler.Bytes: the version is 49; descriptors are not checked when members are added, and the static final rule for constants belongs to the call that sets one.
- ClassDecoder.Decoder.Attribute: attributes the builder never writes are kept undecoded where the source decodes them; hoisting of attributes into fields, read modes and other versions are not modelled.
- ConditionsProof.CondCorrect: assumes that no floating relational test jumps on true, which ConditionsLimits.CondExactly shows necessary; the writer's refusal of code after a folded constant is not combined with it, since it is about the emitted code; the label condValue allocates and never uses is not allocated here.
- LvaluesProof.CompoundCorrect: shifts on byte, short and char are LvaluesLimits.ShiftsExactly's; boxed operands, String += and the boolean &=, or= and ^= are not modelled; floating arithmetic is an operation about which only its kind is known.
- Soundness.DefiniteAssignmentSound: one direction, on the fragment without break, continue, switch, try, lambdas and patterns. Its conditions on places and asserts are those of Soundness.PlaceExactly and Soundness.AssertExactly, told in the walk's states, which do not credit what the place of an earlier ++ assigned. An initialiser does not mention its own variable.
- Soundness.PlaceExactly: the second direction is for places without &&, or, ?: and nested stores.
- ConditionsLimits.CondExactly: an operand's number names its occurrence, so none occurs twice; with constant operands only one direction holds (ConditionsProof.CondCorrect, ConditionsLimits.ConstantHides).
- LvaluesLimits.QualifierExactly: where a reference is assigned, the right side is not the very occurrence that is the qualifier.
- FlowWalker.Walker.Statement: definite unassignment is carried as the code carries it but no theorem is about it; the width of the bitsets is fixed up front, because growing a state held by value does not reach the caller.
- FlowWalker.Walker.CheckBlanks: every local declared without an initialiser counts as blank, as in the source.
- Paths.StmtExactly: for tidy statements (`Paths.TidyStmt`); elsewhere the walk may report more, as the instances under Paths show, or less, as those under Soundness do. The bound on rounds names a path's length and limits nothing.
- Completion.AliveExactly: for statements in which labelled statements, do bodies and for initialisers can complete, which the walk takes for granted.
- Effects.CallCounts: the types of a field, a constant and a method are known by their widths alone.
- Precedence.Parser.ParseBinary: a unary expression, a type and a pattern each count as one token; the depth limit is not modelled, nor are the assignment and conditional levels.
- Scanner.Scanner.ScanToken: keywords are not told from identifiers, bracket nesting is not tracked, and diagnostics have spans but no text.
- Scanner.Scanner.ScanNumber: how many reports there are and where is not stated, only whether there is one; the value is not computed.
- Extents.WordEndExactly: among ASCII characters; which runes above them are letters is a parameter.
- Lexemes.PunctLongest: two > are never one token, by the source's own rule.
- Escapes.Translate: the diagnostic for an invalid escape, the trailing control-Z and the line table are not modelled.
- Subtype.SubtypingTransitive: types completed lazily, error types and capture are not modelled; a type variable carries its bound, so none is bounded by a type that mentions it, and two are the same when their bounds are where the source compares symbols; super wildcards are dropped.
- Overload.SelectMethod: assignment conversion of an argument is a parameter; poly expressions are not rechecked; between variable-arity methods only parameter counts are compared, as in the source (Overload.LongestExactly).
- Folding.FoldExact: strings, floating constants, conditional expressions and names are not folded here, and literals arrive as values.
- SignatureLimits.ConformsExactly: field signatures only; class and method signatures are compared with the parser's own spelling of names and brackets (Signature.ClassExactly, Signature.MethodExactly).
- SignatureParser.Parser.ReferenceType: the texts of errors are kept only as far as keeping the first goes.

Not modelled at all:

- Statement lowering: its loops mark labels no branch has reached, and its try ranges do not cover catch bodies.
- Resolution of signature trees to types, symbol completion and its locks.
- Parsing of statements, declarations, types and lambdas, speculation and recovery.
- Attribution beyond the two cores above, warnings, tree walks and dumps.
- The class path, zip and file access, and the opcode, descriptor and modified UTF-8 packages, which are not part of this model; opcode lengths follow section 6.5 of the JVM Specification.
