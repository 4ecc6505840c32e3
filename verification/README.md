# LLVM diagnostic records, modelled in Dafny

This project models `llvm/lib/IR/DiagnosticInfo.cpp`. That file implements LLVM's diagnostic records: the messages that passes and back ends hand to the context's diagnostic handler. The model covers these parts:

- **Plugin kinds** (`kind_registry.dfy`). Plugins get their diagnostic kinds from a 32-bit counter, which is pre-incremented on each request.
- **Locations** (`location.dfy`). A location is an optional file/line/column triple, resolved from a debug location or from a subprogram. It renders as `file:line:column`, or as `<unknown>:0:0` when it is not available.
- **Remark arguments** (`arguments.dfy`). Strings, integers, types, values and debug locations become key/text pairs, and some carry a location.
- **Optimization remarks** (`remarks.dfy`). These are passed, missed and analysis remarks plus optimization failures. The model covers their constructors, the `<<` insertion protocol (arguments, verbosity, the extra-arguments split), message assembly, printing with optional hotness, and per-pass enablement.
- **Barebone calling-convention diagnostics** (`barebone_cc.dfy`). There are twelve sub-kinds, each with its own factory. One printer produces `[location: ]in function NAME: SENTENCE`.
- **Single-template diagnostics** (`misc_diagnostics.dfy`). These cover:
  - inline asm;
  - resource limit;
  - debug-metadata version;
  - invalid debug metadata;
  - sample and PGO profiles;
  - instruction-selection fallback;
  - unsupported constructs;
  - mis-expectations.

Common helpers:
- `text.dfy` holds decimal rendering and parsing, and character search.
- `ir.dfy` holds the parts of the IR that diagnostics read: files, debug locations, subprograms, functions, blocks, instructions, call sites and values.
- `basics.dfy` holds `Option` and the fixed-width integer types.

Printed IR (a function as an operand, a type, a module) is text that the IR printer produces. The model carries it as a string.

Facts of the code that are easy to get wrong:
- An unavailable location renders as `<unknown>:0:0`.
- The stack-size sentence is `stack size limit of L exceeded: U used`.
- There are twelve barebone sub-kinds, each with its own constructor.
- A second extra-arguments marker moves the split to the current argument count. The last marker wins (`Remarks.ApplyAllSplit`).

## Model

| member | source | states |
|---|---|---|
| KindRegistry.Init | llvmorg/llvm/lib/IR/DiagnosticInfo.cpp:46-47 | the counter starts at the first plugin kind |
| KindRegistry.Allocate | llvmorg/llvm/lib/IR/DiagnosticInfo.cpp:46-49 | the kind returned is the counter's new value, one above the old one unless the counter was at INT32_MAX |
| KindRegistry.AllocateManyCounts | llvmorg/llvm/lib/IR/DiagnosticInfo.cpp:46-49 | while the counter cannot pass INT32_MAX, the i-th of n requests returns start + i + 1 and the counter ends at start + n |
| KindRegistry.PluginKindsFresh | llvmorg/llvm/lib/IR/DiagnosticInfo.cpp:46-49 | plugin kinds start at DK_FirstPluginKind + 1, all lie above DK_FirstPluginKind, and are strictly increasing, hence pairwise distinct, up to INT32_MAX - DK_FirstPluginKind requests |
| KindRegistry.CounterWrapsAtLimit | llvmorg/llvm/lib/IR/DiagnosticInfo.cpp:46-49 | the bound is needed: one more request wraps to INT32_MIN, which is not above DK_FirstPluginKind |
| KindRegistry.AllocateManyStep | llvmorg/llvm/lib/IR/DiagnosticInfo.cpp:46-49 | one more request appends exactly the next kind to those already handed out |
| MiscDiagnostics.SrcLocCookie | llvmorg/llvm/lib/IR/DiagnosticInfo.cpp:57-62 | the cookie is the zero-extended first operand of !srcloc when that operand is an integer constant, and 0 in every other case (no node, no operands, other metadata) |
| MiscDiagnostics.MakeInlineAsm | llvmorg/llvm/lib/IR/DiagnosticInfo.cpp:53-63 | a non-zero cookie implies the instruction has a !srcloc whose first operand is an integer constant |
| MiscDiagnostics.PrintInlineAsm | llvmorg/llvm/lib/IR/DiagnosticInfo.cpp:65-69 | a zero cookie prints the bare message; otherwise the message and " at line " come first, and the rest is text that reads back as the cookie, which by Text.ParseNatCanonical is exactly its canonical decimal |
| MiscDiagnostics.PrintResourceLimit | llvmorg/llvm/lib/IR/DiagnosticInfo.cpp:71-78 | the text starts with "NAME limit" and ends with " exceeded (SIZE) in FUNCTION"; nothing else lies between them for a zero limit, and exactly " of LIMIT" for a non-zero one |
| MiscDiagnostics.ResourceLimitClause | llvmorg/llvm/lib/IR/DiagnosticInfo.cpp:74-75 | a non-zero limit inserts exactly " of LIMIT" after "NAME limit", compared with a zero limit |
| MiscDiagnostics.PrintDebugMetadataVersion | llvmorg/llvm/lib/IR/DiagnosticInfo.cpp:80-83 | the fixed prefix, the version's decimal text, then ") in MODULE", with nothing else |
| MiscDiagnostics.MetadataVersionRoundTrip | llvmorg/llvm/lib/IR/DiagnosticInfo.cpp:80-83 | the version reads back from the text, whatever the module text |
| MiscDiagnostics.PrintIgnoringInvalidDebugMetadata | llvmorg/llvm/lib/IR/DiagnosticInfo.cpp:85-88 | the module identifier follows the fixed prefix verbatim |
| MiscDiagnostics.PrintSampleProfile | llvmorg/llvm/lib/IR/DiagnosticInfo.cpp:90-98 | the message always ends the text; with an empty file name it is the whole text; otherwise the file name starts it |
| MiscDiagnostics.SampleProfileLineClause | llvmorg/llvm/lib/IR/DiagnosticInfo.cpp:92-96 | with a file name, a zero line gives "FILE: MSG" and a positive line gives "FILE:LINE: MSG" |
| MiscDiagnostics.PrintPGOProfile | llvmorg/llvm/lib/IR/DiagnosticInfo.cpp:100-104 | a null file name prints only the message; a present one, even empty, prints "FILE: " before it |
| Location.FromDebugLoc | llvmorg/llvm/lib/IR/DiagnosticInfo.cpp:111-117 | an empty debug location gives the unavailable location; otherwise file, line and column are copied; available iff a file is present |
| Location.FromSubprogram | llvmorg/llvm/lib/IR/DiagnosticInfo.cpp:119-126 | a null subprogram gives the unavailable location; otherwise its file and scope line, column 0 |
| Location.RelativePath | llvmorg/llvm/lib/IR/DiagnosticInfo.cpp:128-130 | defined only for an available location: the file name as recorded |
| Location.AbsolutePath | llvmorg/llvm/lib/IR/DiagnosticInfo.cpp:132-140 | an absolute file name is returned as is; a relative one is joined to the file's directory |
| Location.LocationStr | llvmorg/llvm/lib/IR/DiagnosticInfo.cpp:154-161 | an unavailable location renders "<unknown>:0:0"; an available one starts with its file name and ':' and reads back as its file, line and column, which by Location.ParseLocationStrCanonical pins the text to "file:line:column" in canonical decimals |
| Location.ParseLocationStrCanonical | llvmorg/llvm/lib/IR/DiagnosticInfo.cpp:154-161 | a text that reads back as a location is exactly "file:line:column" with canonical decimals: no zero-padded or other spelling parses |
| Location.FileLineColumnRoundTrip | llvmorg/llvm/lib/IR/DiagnosticInfo.cpp:154-161 | splitting "file:line:column" at its last two colons gives back file, line and column, even when the file name contains colons |
| Location.LocationStrRoundTrip | llvmorg/llvm/lib/IR/DiagnosticInfo.cpp:154-161 | every location string parses back to its location's file, line and column, or to ("<unknown>", 0, 0) |
| Arguments.ValueArg | llvmorg/llvm/lib/IR/DiagnosticInfo.cpp:163-182 | only functions and instructions can carry a location; functions, arguments and globals give their name without a leading mangling escape, constants their operand text, instructions their opcode name, anything else "" |
| Arguments.DropManglingEscape | llvmorg/llvm/lib/IR/DiagnosticInfo.cpp:175-176 | a name loses its first character exactly when that is the mangling escape; otherwise it is unchanged |
| Arguments.EscapedFunctionName | llvmorg/llvm/lib/IR/DiagnosticInfo.cpp:175-176 | a function whose name starts with the escape gets an argument text that differs from the raw name: it is the name without the escape |
| Arguments.StringArg | llvmorg/llvm/lib/IR/DiagnosticInfo.cpp:184-191 | the text is the string itself (for a type argument, the printed type); there is no location |
| Arguments.IntArg | llvmorg/llvm/lib/IR/DiagnosticInfo.cpp:193-203 | the text parses back as the signed number, which by Text.ParseIntCanonical makes it exactly itostr's decimal ("-0" and zero padding are rejected); there is no location |
| Arguments.UnsignedArg | llvmorg/llvm/lib/IR/DiagnosticInfo.cpp:205-214 | the text parses back as the unsigned number, which by Text.ParseNatCanonical makes it exactly utostr's decimal; there is no location |
| Text.NatToStringRoundTrip | llvmorg/llvm/lib/IR/DiagnosticInfo.cpp:205-214 | decimal rendering of an unsigned number parses back to it |
| Text.IntToStringRoundTrip | llvmorg/llvm/lib/IR/DiagnosticInfo.cpp:193-203 | decimal rendering of a signed number parses back to it |
| Text.ParseNatCanonical | llvmorg/llvm/lib/IR/DiagnosticInfo.cpp:205-214 | the converse of the round trip: a text that parses as N is exactly the decimal of N, so every "reads back as N" contract fixes the text |
| Text.ParseIntCanonical | llvmorg/llvm/lib/IR/DiagnosticInfo.cpp:193-203 | a text that parses as a signed N is exactly itostr's decimal of N, with a '-' only for a negative N |
| Arguments.DebugLocArg | llvmorg/llvm/lib/IR/DiagnosticInfo.cpp:216-224 | the text is "<UNKNOWN LOCATION>" iff the debug location is empty; otherwise it parses back to its file name, line and column, and by Location.ParseLocationStrCanonical is exactly "file:line:column"; the location is kept |
| Arguments.DebugLocArgAgreesWithLocationStr | llvmorg/llvm/lib/IR/DiagnosticInfo.cpp:216-224 | the argument's text equals its location's string when a file is present; without a file they differ (":L:C" against "<unknown>:0:0") |
| Remarks.Print | llvmorg/llvm/lib/IR/DiagnosticInfo.cpp:226-230 | "LOCATION: MSG" starts the text; without hotness that is the whole text; with hotness " (hotness: ", the number's decimal text and ")" follow directly, and the number reads back |
| Remarks.TrailingHotnessRoundTrip | llvmorg/llvm/lib/IR/DiagnosticInfo.cpp:228-229 | the hotness reads back from the suffix, whatever precedes it |
| Remarks.UnlocatedPrint | llvmorg/llvm/lib/IR/DiagnosticInfo.cpp:226-230 | an unlocated remark prints "<unknown>:0:0: MSG", and with hotness 7 "<unknown>:0:0: MSG (hotness: 7)" |
| Remarks.UnlocatedInstructionRemark | llvmorg/llvm/lib/IR/DiagnosticInfo.cpp:240-245 | a remark built from an instruction without a debug location prints "<unknown>:0:0: MSG" after any insertions |
| Remarks.NewRemark | llvmorg/llvm/lib/IR/DiagnosticInfo.cpp:232-323 | a new remark has no arguments, no split, no verbosity and no hotness; its severity is DS_Warning for a failure and DS_Remark for the other classes |
| Remarks.RemarkAt | llvmorg/llvm/lib/IR/DiagnosticInfo.cpp:232-238 | built from a location and a block: the block's function, the given location, the names given, an empty message, no split, not verbose, no hotness |
| Remarks.RemarkForInstruction | llvmorg/llvm/lib/IR/DiagnosticInfo.cpp:240-245 | built from an instruction: its block's function, its block, the location of its debug location, the names given, DS_Remark, no arguments, no split, not verbose, no hotness |
| IR.FirstBlock | llvmorg/llvm/lib/IR/DiagnosticInfo.cpp:247-249 | none iff the function has no blocks; otherwise its first block, whose parent is the function |
| Remarks.PassedForFunction | llvmorg/llvm/lib/IR/DiagnosticInfo.cpp:247-256 | built from a function: the subprogram's location (scope line, column 0), the entry block as code region iff the function has blocks, the names given, DS_Remark, no arguments, no split, not verbose, no hotness |
| Remarks.IsEnabled | llvmorg/llvm/lib/IR/DiagnosticInfo.cpp:258-262 | passed, missed and analysis remarks are enabled iff the handler enables their pass, analysis also when always printed; failures iff they are warnings |
| Remarks.FailureEnabledOnlyAsWarning | llvmorg/llvm/lib/IR/DiagnosticInfo.cpp:325-328 | a failure is enabled under DS_Warning and under no other severity, so every constructed failure is enabled |
| Remarks.EnablementByPassOnly | llvmorg/llvm/lib/IR/DiagnosticInfo.cpp:279-283 | two remarks of one class and one pass are enabled alike, whatever their arguments, location or severity |
| Remarks.InsertString | llvmorg/llvm/lib/IR/DiagnosticInfo.cpp:344-346 | appends one argument whose text is the string; nothing else changes |
| Remarks.InsertArgument | llvmorg/llvm/lib/IR/DiagnosticInfo.cpp:348-350 | appends the argument; nothing else changes; the split stays within the arguments |
| Remarks.SetVerbose | llvmorg/llvm/lib/IR/DiagnosticInfo.cpp:352-354 | the remark becomes verbose; nothing else changes |
| Remarks.SetExtraArgs | llvmorg/llvm/lib/IR/DiagnosticInfo.cpp:356-358 | the split is set to the current argument count; nothing else changes |
| Remarks.MessageArgs | llvmorg/llvm/lib/IR/DiagnosticInfo.cpp:363-366 | all arguments without a split, otherwise exactly those before it |
| Remarks.GetMsg | llvmorg/llvm/lib/IR/DiagnosticInfo.cpp:360-369 | the message is the texts of the arguments before the split, concatenated in order |
| Remarks.ConcatValsAppend | llvmorg/llvm/lib/IR/DiagnosticInfo.cpp:360-369 | the message of two argument runs is the concatenation of their messages |
| Remarks.MsgGrowsBeforeSplit | llvmorg/llvm/lib/IR/DiagnosticInfo.cpp:348-369 | before a split, each inserted argument extends the message by its text |
| Remarks.MsgStableAfterSplit | llvmorg/llvm/lib/IR/DiagnosticInfo.cpp:348-369 | after a split, inserting arguments never changes the message |
| Remarks.ApplyAllArgs | llvmorg/llvm/lib/IR/DiagnosticInfo.cpp:344-358 | after any insertion sequence, the arguments are exactly those inserted, in order |
| Remarks.ApplyAllSplit | llvmorg/llvm/lib/IR/DiagnosticInfo.cpp:356-358 | the split is the number of arguments inserted before the last marker, or -1 without a marker |
| Remarks.ApplyAllVerbose | llvmorg/llvm/lib/IR/DiagnosticInfo.cpp:352-354 | a remark is verbose after insertions iff a verbosity marker was among them |
| Remarks.InsertedArgsPrefix | llvmorg/llvm/lib/IR/DiagnosticInfo.cpp:344-350 | arguments inserted by a prefix of the insertions come first |
| Remarks.MsgOfInsertions | llvmorg/llvm/lib/IR/DiagnosticInfo.cpp:344-369 | the message is the text of the arguments inserted before the last extra-arguments marker, or of all of them without one |
| Remarks.ApplyAllPreservesHeader | llvmorg/llvm/lib/IR/DiagnosticInfo.cpp:344-358 | insertions change nothing but the arguments, the split and verbosity: class, severity, pass and remark names, function, location, code region and hotness are all as before |
| MiscDiagnostics.PrintUnsupported | llvmorg/llvm/lib/IR/DiagnosticInfo.cpp:330-338 | exactly "LOCATION: in function NAME TYPE: ", the message and a newline |
| MiscDiagnostics.PrintISelFallback | llvmorg/llvm/lib/IR/DiagnosticInfo.cpp:340-342 | the function's operand text follows the fixed prefix verbatim |
| MiscDiagnostics.MakeMisExpect | llvmorg/llvm/lib/IR/DiagnosticInfo.cpp:371-376 | a warning in the instruction's function, located at its debug location (file, line and column), available iff that has a file |
| MiscDiagnostics.PrintMisExpect | llvmorg/llvm/lib/IR/DiagnosticInfo.cpp:378-380 | "LOCATION: " is followed by the message verbatim |
| BareboneCC.LocationFor | llvmorg/llvm/lib/IR/DiagnosticInfo.cpp:385-393 | a given instruction's debug location wins, even an empty one; otherwise the subprogram's |
| BareboneCC.LocationForFallback | llvmorg/llvm/lib/IR/DiagnosticInfo.cpp:385-393 | an instruction without a debug location makes the location unavailable; without an instruction the scope line and column 0 are used |
| BareboneCC.MakeHWRegInvalid | llvmorg/llvm/lib/IR/DiagnosticInfo.cpp:395-405 | located at the call when one is given, else at the subprogram; keeps the call and the raw value |
| BareboneCC.MakeHWRegAllocFailure | llvmorg/llvm/lib/IR/DiagnosticInfo.cpp:407-418 | located at the call when one is given, else at the subprogram; keeps the call and the raw value |
| BareboneCC.MakeMultipartArgUnsupported | llvmorg/llvm/lib/IR/DiagnosticInfo.cpp:420-431 | located at the call when one is given, else at the subprogram; keeps the call and the type |
| BareboneCC.MakeNoClobberHWRegInvalid | llvmorg/llvm/lib/IR/DiagnosticInfo.cpp:433-442 | located at the subprogram; keeps the raw value |
| BareboneCC.MakeFramePointerNotAllowed | llvmorg/llvm/lib/IR/DiagnosticInfo.cpp:444-450 | located at the subprogram |
| BareboneCC.MakeLocalAreaSizeInvalid | llvmorg/llvm/lib/IR/DiagnosticInfo.cpp:452-463 | located at the subprogram; keeps the raw value and the alignment |
| BareboneCC.MakeLocalAreaSizeAlignNote | llvmorg/llvm/lib/IR/DiagnosticInfo.cpp:465-474 | located at the subprogram; keeps the alignment |
| BareboneCC.MakeLocalAreaSizeExceeded | llvmorg/llvm/lib/IR/DiagnosticInfo.cpp:476-487 | located at the subprogram; keeps the limit and the bytes used |
| BareboneCC.MakeReturnNotAllowed | llvmorg/llvm/lib/IR/DiagnosticInfo.cpp:489-496 | located at the return instruction when one is given, else at the subprogram |
| BareboneCC.MakeMustTailCall | llvmorg/llvm/lib/IR/DiagnosticInfo.cpp:498-507 | located at the call when one is given, else at the subprogram |
| BareboneCC.MakeNotInTailCallPosition | llvmorg/llvm/lib/IR/DiagnosticInfo.cpp:509-518 | located at the call when one is given, else at the subprogram |
| BareboneCC.MakeInNonBareboneFunction | llvmorg/llvm/lib/IR/DiagnosticInfo.cpp:520-529 | located at the call when one is given, else at the subprogram |
| BareboneCC.CalleeText | llvmorg/llvm/lib/IR/DiagnosticInfo.cpp:531-543 | nothing without a call; the callee's name when known; else the call's function type |
| BareboneCC.Print | llvmorg/llvm/lib/IR/DiagnosticInfo.cpp:545-620 | exactly "LOCATION: " (only when the location is available), "in function NAME: " and the sub-kind's sentence, with nothing in between |
| BareboneCC.PrintExact | llvmorg/llvm/lib/IR/DiagnosticInfo.cpp:545-548 | the whole text is the optional "LOCATION: ", then "in function NAME: ", then the sentence, as one concatenation |
| BareboneCC.Sentence | llvmorg/llvm/lib/IR/DiagnosticInfo.cpp:549-615 | the exact sentence of each of the twelve sub-kinds, built from fixed phrases and the raw value, type, callee or numbers |
| BareboneCC.CallClause | llvmorg/llvm/lib/IR/DiagnosticInfo.cpp:553-556 | " in a call to CALLEE" with a call, nothing without one |
| BareboneCC.CalleeBetweenPhrases | llvmorg/llvm/lib/IR/DiagnosticInfo.cpp:601-615 | in the three tail-call sentences the callee's text reads back from between the two fixed phrases |
| BareboneCC.LocalAreaSizeInvalidIgnoresAlign | llvmorg/llvm/lib/IR/DiagnosticInfo.cpp:587-589 | the bad-value sentence is the same for every alignment |
| BareboneCC.FramePointerNotAllowedText | llvmorg/llvm/lib/IR/DiagnosticInfo.cpp:545-586 | the exact text is "in function NAME: frame pointer not allowed", preceded by the subprogram's location and ": " when that is available |
| BareboneCC.HWRegInvalidCallClause | llvmorg/llvm/lib/IR/DiagnosticInfo.cpp:550-558 | " in a call to CALLEE" sits between head and ": VALUE" exactly when a call is given |
| BareboneCC.HWRegAllocFailureCallClause | llvmorg/llvm/lib/IR/DiagnosticInfo.cpp:559-566 | " in a call to CALLEE" sits between head and ": VALUE" exactly when a call is given |
| BareboneCC.MultipartArgCallClause | llvmorg/llvm/lib/IR/DiagnosticInfo.cpp:567-580 | the sentence names the type and ends with " in a call to CALLEE" exactly when a call is given |
| BareboneCC.AlignNoteRoundTrip | llvmorg/llvm/lib/IR/DiagnosticInfo.cpp:590-593 | the alignment reads back from the end of the note |
| BareboneCC.LocalAreaSizeExceededRoundTrip | llvmorg/llvm/lib/IR/DiagnosticInfo.cpp:594-597 | limit and bytes used both appear, in that order, and read back exactly (negative values included) |
| BareboneCC.ExceededTextRoundTrip | llvmorg/llvm/lib/IR/DiagnosticInfo.cpp:594-597 | any two integers in the stack-size sentence read back in order |

## Left out

- The float argument constructor (lines 196-197) is left out because it uses floating point and `llvm::to_string` formatting.
- `Location.AbsolutePath` does not define `sys::path::is_absolute` or the joining and `./`-stripping of `sys::path`. These are function parameters: they belong to the path library, not to this file.
- `DiagnosticInfoMIRParser::print` forwards an `SMDiagnostic`, which the source prints through the source manager. It is not modelled.
- The `anchor()` methods only pin vtables and are not modelled.
- The diagnostic handler's per-pass predicates and `shouldAlwaysPrint()` are parameters (`Remarks.RemarkFilter`, `alwaysPrint`). Their definitions are in other files. The same goes for how the `AlwaysPrint` pass name (line 51) enters `shouldAlwaysPrint()`.
- The printing of IR entities (functions as operands, types, modules, function types) is carried as opaque text.
- `FunctionRef.name` is the raw name, mangling escape included. Diagnostics that print it directly keep the escape, and remark arguments drop it (`Arguments.EscapedFunctionName`).
- `KindRegistry.Allocate` models the atomic increment as a sequential one. Concurrent callers are not modelled.
- `Remarks.SetExtraArgs` stores the argument count as an unbounded integer. The source's `int` field would truncate beyond 2^31 - 1 arguments.
- `MiscDiagnostics.MakeInlineAsm` stores the cookie as the 64-bit zero-extended value. The width of the header's cookie field is not part of this model.
- `Arguments.StringArg` is used with key "String" for `insert(StringRef)`. That key is set in DiagnosticInfo.h, which is not part of this model.
- `KindRegistry.Init` takes the first plugin kind as a parameter. Its value is fixed in DiagnosticInfo.h, which is not part of this model.
- The 32-bit widths of line and column follow the DILocation fields. Lines and columns are otherwise unconstrained.
