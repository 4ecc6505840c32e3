/** The parts of the IR and debug-metadata graph that diagnostics read.
    The C++ code holds non-owning pointers into that graph; here each
    referenced entity is an immutable value carrying exactly the attributes
    the diagnostic code asks of it. Names, printed types and printed
    operands are opaque strings produced by the IR printer. */
module IR {
  import opened Optional
  import opened Widths

  /** DiagnosticSeverity: DS_Error, DS_Warning, DS_Remark, DS_Note. */
  datatype Severity = DSError | DSWarning | DSRemark | DSNote

  /** DIFile: a file name as recorded (possibly relative) and its directory. */
  datatype DIFile = DIFile(filename: string, directory: string)

  /** A non-null DILocation: the scope's file (which may be absent), line and column. */
  datatype DILocation = DILocation(file: Option<DIFile>, line: uint32, column: uint32)

  /** DebugLoc: empty, or a DILocation. */
  type DebugLoc = Option<DILocation>

  /** DISubprogram: the file the subprogram is in and its scope line. */
  datatype DISubprogram = DISubprogram(file: Option<DIFile>, scopeLine: uint32)

  /** An IR function: its name, its attached subprogram (if any), the labels
      of its basic blocks in order, and its printed forms as an operand and
      as a function type. */
  datatype FunctionRef = FunctionRef(
    name: string,
    subprogram: Option<DISubprogram>,
    blocks: seq<string>,
    operandText: string,
    typeText: string)

  /** A basic block and the function that owns it. */
  datatype BasicBlock = BasicBlock(name: string, parent: FunctionRef)

  /** Metadata operands of an instruction's !srcloc node. */
  datatype Metadata = ConstantIntMD(zextValue: uint64) | OtherMD

  /** An instruction: opcode name, debug location, owning block, and the
      operands of its !srcloc metadata node when it has one. */
  datatype Instruction = Instruction(
    opcodeName: string,
    debugLoc: DebugLoc,
    parent: BasicBlock,
    srcloc: Option<seq<Metadata>>)

  /** A call instruction (CallBase): the statically known callee's name, if
      any, the printed function type of the call, and its debug location. */
  datatype CallSite = CallSite(calledFunction: Option<string>, functionTypeText: string, debugLoc: DebugLoc)

  /** The kinds of Value an optimization-remark argument distinguishes. */
  datatype Value =
    | FunctionValue(fn: FunctionRef)
    | InstructionValue(inst: Instruction)
    | ArgumentValue(name: string)
    | GlobalVariableValue(name: string)
    | ConstantValue(operandText: string)
    | OtherValue

  /** The function's entry block, or none for a declaration without blocks. */
  function FirstBlock(f: FunctionRef): (b: Option<BasicBlock>)
    ensures b.Some? <==> |f.blocks| > 0
    ensures b.Some? ==> b.value.parent == f && b.value.name == f.blocks[0]
  {
    if |f.blocks| == 0 then None else Some(BasicBlock(f.blocks[0], f))
  }
}
