/** Diagnostics of the barebone calling convention: a closed family of
    sub-kinds, each carrying only its own payload, rendered by one
    dispatching printer as "in function NAME: SENTENCE", preceded by the
    location when one is available. With one constructor per sub-kind and an
    exhaustive match, the printer has no unreachable default case. */
module BareboneCC {
  import opened Optional
  import opened Widths
  import opened Text
  import opened IR
  import opened Location

  predicate IsPowerOfTwo(n: nat)
    decreases n
  {
    n == 1 || (n >= 2 && n % 2 == 0 && IsPowerOfTwo(n / 2))
  }

  /** llvm::Align: a power of two, as a 64-bit value. */
  type Align = a: uint64 | IsPowerOfTwo(a) witness 1

  /** One constructor per DK_BareboneCC* sub-kind, holding exactly the fields
      that sub-kind's factory fills. A call site is optional wherever the C++
      factory takes a possibly-null CallBase pointer. */
  datatype Payload =
    | HWRegInvalid(call: Option<CallSite>, rawValue: string)
    | HWRegAllocFailure(call: Option<CallSite>, rawValue: string)
    | MultipartArgUnsupported(call: Option<CallSite>, argType: string)
    | NoClobberHWRegInvalid(rawValue: string)
    | FramePointerNotAllowed
    | LocalAreaSizeInvalid(rawValue: string, align: Align)
    | LocalAreaSizeAlignNote(align: Align)
    | LocalAreaSizeExceeded(localAreaSize: int64, bytesUsed: int64)
    | ReturnNotAllowed
    | MustTailCall(call: Option<CallSite>)
    | NotInTailCallPosition(call: Option<CallSite>)
    | InNonBareboneFunction(call: Option<CallSite>)

  datatype Diagnostic = Diagnostic(severity: Severity, fn: FunctionRef, loc: DiagnosticLocation, payload: Payload)

  /** The location rule of the private constructor: an instruction's debug
      location when an instruction is given (even an empty one), otherwise
      the function's subprogram. */
  function LocationFor(fn: FunctionRef, instrLoc: Option<DebugLoc>): (loc: DiagnosticLocation)
    ensures instrLoc.Some? ==> loc == FromDebugLoc(instrLoc.value)
    ensures instrLoc.None? ==> loc == FromSubprogram(fn.subprogram)
  {
    match instrLoc
    case Some(dl) => FromDebugLoc(dl)
    case None => FromSubprogram(fn.subprogram)
  }

  /** The debug location of a call instruction, when there is one. */
  function CallLoc(call: Option<CallSite>): Option<DebugLoc> {
    match call
    case Some(c) => Some(c.debugLoc)
    case None => None
  }

  /** An instruction without a debug location makes the location unavailable;
      the subprogram is consulted only when no instruction is given. */
  lemma LocationForFallback(fn: FunctionRef, instrLoc: Option<DebugLoc>)
    ensures instrLoc == Some(None) ==> !LocationFor(fn, instrLoc).IsValid()
    ensures instrLoc.None? && fn.subprogram.Some? ==>
      LocationFor(fn, instrLoc).line == fn.subprogram.value.scopeLine && LocationFor(fn, instrLoc).column == 0
    ensures instrLoc.None? ==>
      (LocationFor(fn, instrLoc).IsValid() <==> fn.subprogram.Some? && fn.subprogram.value.file.Some?)
  {
  }

  function MakeHWRegInvalid(severity: Severity, fn: FunctionRef, call: Option<CallSite>, rawValue: string): (d: Diagnostic)
    ensures d.payload == HWRegInvalid(call, rawValue) && d.severity == severity && d.fn == fn
    ensures call.Some? ==> d.loc == FromDebugLoc(call.value.debugLoc)
    ensures call.None? ==> d.loc == FromSubprogram(fn.subprogram)
  {
    Diagnostic(severity, fn, LocationFor(fn, CallLoc(call)), HWRegInvalid(call, rawValue))
  }

  function MakeHWRegAllocFailure(severity: Severity, fn: FunctionRef, call: Option<CallSite>, rawValue: string): (d: Diagnostic)
    ensures d.payload == HWRegAllocFailure(call, rawValue) && d.severity == severity && d.fn == fn
    ensures call.Some? ==> d.loc == FromDebugLoc(call.value.debugLoc)
    ensures call.None? ==> d.loc == FromSubprogram(fn.subprogram)
  {
    Diagnostic(severity, fn, LocationFor(fn, CallLoc(call)), HWRegAllocFailure(call, rawValue))
  }

  function MakeMultipartArgUnsupported(severity: Severity, fn: FunctionRef, call: Option<CallSite>, argType: string): (d: Diagnostic)
    ensures d.payload == MultipartArgUnsupported(call, argType) && d.severity == severity && d.fn == fn
    ensures call.Some? ==> d.loc == FromDebugLoc(call.value.debugLoc)
    ensures call.None? ==> d.loc == FromSubprogram(fn.subprogram)
  {
    Diagnostic(severity, fn, LocationFor(fn, CallLoc(call)), MultipartArgUnsupported(call, argType))
  }

  function MakeNoClobberHWRegInvalid(severity: Severity, fn: FunctionRef, rawValue: string): (d: Diagnostic)
    ensures d.payload == NoClobberHWRegInvalid(rawValue) && d.severity == severity && d.fn == fn
    ensures d.loc == FromSubprogram(fn.subprogram)
  {
    Diagnostic(severity, fn, LocationFor(fn, None), NoClobberHWRegInvalid(rawValue))
  }

  function MakeFramePointerNotAllowed(severity: Severity, fn: FunctionRef): (d: Diagnostic)
    ensures d.payload == FramePointerNotAllowed && d.severity == severity && d.fn == fn
    ensures d.loc == FromSubprogram(fn.subprogram)
  {
    Diagnostic(severity, fn, LocationFor(fn, None), FramePointerNotAllowed)
  }

  function MakeLocalAreaSizeInvalid(severity: Severity, fn: FunctionRef, rawValue: string, align: Align): (d: Diagnostic)
    ensures d.payload == LocalAreaSizeInvalid(rawValue, align) && d.severity == severity && d.fn == fn
    ensures d.loc == FromSubprogram(fn.subprogram)
  {
    Diagnostic(severity, fn, LocationFor(fn, None), LocalAreaSizeInvalid(rawValue, align))
  }

  function MakeLocalAreaSizeAlignNote(severity: Severity, fn: FunctionRef, align: Align): (d: Diagnostic)
    ensures d.payload == LocalAreaSizeAlignNote(align) && d.severity == severity && d.fn == fn
    ensures d.loc == FromSubprogram(fn.subprogram)
  {
    Diagnostic(severity, fn, LocationFor(fn, None), LocalAreaSizeAlignNote(align))
  }

  function MakeLocalAreaSizeExceeded(severity: Severity, fn: FunctionRef, localAreaSize: int64, bytesUsed: int64): (d: Diagnostic)
    ensures d.payload == LocalAreaSizeExceeded(localAreaSize, bytesUsed) && d.severity == severity && d.fn == fn
    ensures d.loc == FromSubprogram(fn.subprogram)
  {
    Diagnostic(severity, fn, LocationFor(fn, None), LocalAreaSizeExceeded(localAreaSize, bytesUsed))
  }

  /** The return instruction only supplies the location; it is not stored. */
  function MakeReturnNotAllowed(severity: Severity, fn: FunctionRef, returnInstr: Option<Instruction>): (d: Diagnostic)
    ensures d.payload == ReturnNotAllowed && d.severity == severity && d.fn == fn
    ensures returnInstr.Some? ==> d.loc == FromDebugLoc(returnInstr.value.debugLoc)
    ensures returnInstr.None? ==> d.loc == FromSubprogram(fn.subprogram)
  {
    var instrLoc := match returnInstr case Some(i) => Some(i.debugLoc) case None => None;
    Diagnostic(severity, fn, LocationFor(fn, instrLoc), ReturnNotAllowed)
  }

  function MakeMustTailCall(severity: Severity, fn: FunctionRef, call: Option<CallSite>): (d: Diagnostic)
    ensures d.payload == MustTailCall(call) && d.severity == severity && d.fn == fn
    ensures call.Some? ==> d.loc == FromDebugLoc(call.value.debugLoc)
    ensures call.None? ==> d.loc == FromSubprogram(fn.subprogram)
  {
    Diagnostic(severity, fn, LocationFor(fn, CallLoc(call)), MustTailCall(call))
  }

  function MakeNotInTailCallPosition(severity: Severity, fn: FunctionRef, call: Option<CallSite>): (d: Diagnostic)
    ensures d.payload == NotInTailCallPosition(call) && d.severity == severity && d.fn == fn
    ensures call.Some? ==> d.loc == FromDebugLoc(call.value.debugLoc)
    ensures call.None? ==> d.loc == FromSubprogram(fn.subprogram)
  {
    Diagnostic(severity, fn, LocationFor(fn, CallLoc(call)), NotInTailCallPosition(call))
  }

  function MakeInNonBareboneFunction(severity: Severity, fn: FunctionRef, call: Option<CallSite>): (d: Diagnostic)
    ensures d.payload == InNonBareboneFunction(call) && d.severity == severity && d.fn == fn
    ensures call.Some? ==> d.loc == FromDebugLoc(call.value.debugLoc)
    ensures call.None? ==> d.loc == FromSubprogram(fn.subprogram)
  {
    Diagnostic(severity, fn, LocationFor(fn, CallLoc(call)), InNonBareboneFunction(call))
  }

  /** PrintCallee: nothing without a call; the callee's name when it is
      statically known; otherwise the call's printed function type. */
  function CalleeText(call: Option<CallSite>): (t: string)
    ensures call.None? ==> t == ""
    ensures call.Some? && call.value.calledFunction.Some? ==> t == call.value.calledFunction.value
    ensures call.Some? && call.value.calledFunction.None? ==> t == call.value.functionTypeText
  {
    match call
    case None => ""
    case Some(c) =>
      match c.calledFunction
      case Some(name) => name
      case None => c.functionTypeText
  }

  /** " in a call to CALLEE" when a call instruction is present. */
  function CallClause(call: Option<CallSite>): (c: string)
    ensures call.None? ==> c == ""
    ensures call.Some? ==> c == " in a call to " + CalleeText(call)
  {
    if call.Some? then " in a call to " + CalleeText(call) else ""
  }

  const ExceededPrefix := "stack size limit of "
  const ExceededMiddle := " exceeded: "
  const ExceededSuffix := " used"
  const AlignNotePrefix := "the value in 'local-area-size' attribute must be a multiple of "

  const HWRegInvalidHead := "register requested by 'hwreg' attribute is unknown or invalid"
  const HWRegAllocFailureHead := "failed to allocate register requested by 'hwreg' attribute"
  const MultipartHead := "argument of type "
  const MultipartMiddle := " is passed in multiple registers, incompatible with 'hwreg'"
  const NoClobberHead := "unknown register in 'no-clobber-hwreg' attribute: "
  const FramePointerText := "frame pointer not allowed"
  const LocalAreaSizeInvalidHead := "bad value in 'local-area-size' attribute: "
  const ReturnNotAllowedText := "must terminate by tail-calling another barebonecc function"
  const MustTailHead := "function "
  const MustTailTail := " must be tail-called, use musttail marker"
  const CallToHead := "a call to function "
  const TailPositionTail := " must be in tail-call position"
  const NonBareboneTail := " is only allowed in barebonecc functions"

  /** A sentence head, the call clause, then ": " and the attribute's raw value. */
  function WithCallAndValue(head: string, call: Option<CallSite>, rawValue: string): string {
    head + CallClause(call) + ": " + rawValue
  }

  /** The stack-size sentence, limit first. */
  function ExceededText(limit: int, used: int): string {
    ExceededPrefix + IntToString(limit) + ExceededMiddle + IntToString(used) + ExceededSuffix
  }

  /** The sentence of each sub-kind. The raw attribute value, the type, the
      callee and the numbers are the only variable parts; the local-area-size
      complaint does not mention the alignment it carries. */
  function Sentence(p: Payload): (s: string)
    ensures p.HWRegInvalid? ==> s == HWRegInvalidHead + CallClause(p.call) + ": " + p.rawValue
    ensures p.HWRegAllocFailure? ==> s == HWRegAllocFailureHead + CallClause(p.call) + ": " + p.rawValue
    ensures p.MultipartArgUnsupported? ==> s == MultipartHead + p.argType + MultipartMiddle + CallClause(p.call)
    ensures p.NoClobberHWRegInvalid? ==> s == NoClobberHead + p.rawValue
    ensures p.FramePointerNotAllowed? ==> s == FramePointerText
    ensures p.LocalAreaSizeInvalid? ==> s == LocalAreaSizeInvalidHead + p.rawValue
    ensures p.LocalAreaSizeAlignNote? ==> s == AlignNotePrefix + NatToString(p.align)
    ensures p.LocalAreaSizeExceeded? ==>
      s == ExceededPrefix + IntToString(p.localAreaSize) + ExceededMiddle + IntToString(p.bytesUsed) + ExceededSuffix
    ensures p.ReturnNotAllowed? ==> s == ReturnNotAllowedText
    ensures p.MustTailCall? ==> s == MustTailHead + CalleeText(p.call) + MustTailTail
    ensures p.NotInTailCallPosition? ==> s == CallToHead + CalleeText(p.call) + TailPositionTail
    ensures p.InNonBareboneFunction? ==> s == CallToHead + CalleeText(p.call) + NonBareboneTail
  {
    match p
    case HWRegInvalid(call, raw) =>
      WithCallAndValue(HWRegInvalidHead, call, raw)
    case HWRegAllocFailure(call, raw) =>
      WithCallAndValue(HWRegAllocFailureHead, call, raw)
    case MultipartArgUnsupported(call, ty) =>
      MultipartHead + ty + MultipartMiddle + CallClause(call)
    case NoClobberHWRegInvalid(raw) =>
      NoClobberHead + raw
    case FramePointerNotAllowed =>
      FramePointerText
    case LocalAreaSizeInvalid(raw, _) =>
      LocalAreaSizeInvalidHead + raw
    case LocalAreaSizeAlignNote(a) =>
      AlignNotePrefix + NatToString(a)
    case LocalAreaSizeExceeded(limit, used) =>
      ExceededText(limit, used)
    case ReturnNotAllowed =>
      ReturnNotAllowedText
    case MustTailCall(call) =>
      MustTailHead + CalleeText(call) + MustTailTail
    case NotInTailCallPosition(call) =>
      CallToHead + CalleeText(call) + TailPositionTail
    case InNonBareboneFunction(call) =>
      CallToHead + CalleeText(call) + NonBareboneTail
  }

  /** The three call sentences differ only in their fixed phrases: the
      callee's text reads back from between them. */
  lemma CalleeBetweenPhrases(call: Option<CallSite>)
    ensures var s := Sentence(MustTailCall(call));
      |s| == |MustTailHead| + |CalleeText(call)| + |MustTailTail|
      && s[|MustTailHead|..|s| - |MustTailTail|] == CalleeText(call)
    ensures var s := Sentence(NotInTailCallPosition(call));
      |s| == |CallToHead| + |CalleeText(call)| + |TailPositionTail|
      && s[|CallToHead|..|s| - |TailPositionTail|] == CalleeText(call)
    ensures var s := Sentence(InNonBareboneFunction(call));
      |s| == |CallToHead| + |CalleeText(call)| + |NonBareboneTail|
      && s[|CallToHead|..|s| - |NonBareboneTail|] == CalleeText(call)
  {
    var c := CalleeText(call);
    assert (MustTailHead + c + MustTailTail)[|MustTailHead|..|MustTailHead| + |c|] == c;
    assert (CallToHead + c + TailPositionTail)[|CallToHead|..|CallToHead| + |c|] == c;
    assert (CallToHead + c + NonBareboneTail)[|CallToHead|..|CallToHead| + |c|] == c;
  }

  /** The bad-value sentence for 'local-area-size' is the same whatever
      alignment the diagnostic carries. */
  lemma LocalAreaSizeInvalidIgnoresAlign(rawValue: string, a1: Align, a2: Align)
    ensures Sentence(LocalAreaSizeInvalid(rawValue, a1)) == Sentence(LocalAreaSizeInvalid(rawValue, a2))
    ensures Sentence(LocalAreaSizeInvalid(rawValue, a1)) == LocalAreaSizeInvalidHead + rawValue
  {
  }

  /** Everything before the ": " that introduces the sentence: the location
      and ": " when the location is available, then "in function NAME". */
  function Lead(d: Diagnostic): string {
    if d.loc.IsValid() then LocationStr(d.loc) + ": in function " + d.fn.name else "in function " + d.fn.name
  }

  /** print: the location and ": " only when a location is available, then
      "in function NAME: " and the sub-kind's sentence, with nothing else in
      between. */
  function Print(d: Diagnostic): (s: string)
    ensures d.loc.IsValid() ==> StartsWith(s, LocationStr(d.loc) + ": in function " + d.fn.name + ": ")
    ensures !d.loc.IsValid() ==> StartsWith(s, "in function " + d.fn.name + ": ")
    ensures EndsWith(s, ": " + Sentence(d.payload))
    ensures d.loc.IsValid() ==> |s| == |LocationStr(d.loc)| + |": in function "| + |d.fn.name| + 2 + |Sentence(d.payload)|
    ensures !d.loc.IsValid() ==> |s| == |"in function "| + |d.fn.name| + 2 + |Sentence(d.payload)|
  {
    var tail := ": " + Sentence(d.payload);
    ConcatEnds(Lead(d), tail);
    Lead(d) + tail
  }

  lemma ConcatEnds(a: string, b: string)
    requires |b| >= 2
    ensures b[..2] == ": " ==> StartsWith(a + b, a + ": ")
    ensures StartsWith(a + b, a + b[..2]) && EndsWith(a + b, b)
  {
    assert (a + b)[..|a| + 2] == a + b[..2];
    assert (a + b)[|a|..] == b;
  }

  /** The printed text as one concatenation, for either kind of location. */
  lemma PrintExact(d: Diagnostic)
    ensures d.loc.IsValid() ==> Print(d) == LocationStr(d.loc) + ": in function " + d.fn.name + ": " + Sentence(d.payload)
    ensures !d.loc.IsValid() ==> Print(d) == "in function " + d.fn.name + ": " + Sentence(d.payload)
  {
    if d.loc.IsValid() {
      AppendAssoc(LocationStr(d.loc) + ": in function " + d.fn.name, ": ", Sentence(d.payload));
    } else {
      AppendAssoc("in function " + d.fn.name, ": ", Sentence(d.payload));
    }
  }

  /** Frame pointer not allowed prints exactly
      "in function NAME: frame pointer not allowed", preceded by the
      subprogram's location and ": " when that location is available. */
  lemma FramePointerNotAllowedText(severity: Severity, fn: FunctionRef)
    ensures var loc := FromSubprogram(fn.subprogram);
      loc.IsValid() ==>
        Print(MakeFramePointerNotAllowed(severity, fn))
        == LocationStr(loc) + ": in function " + fn.name + ": " + FramePointerText
    ensures !FromSubprogram(fn.subprogram).IsValid() ==>
      Print(MakeFramePointerNotAllowed(severity, fn)) == "in function " + fn.name + ": " + FramePointerText
  {
    var d := MakeFramePointerNotAllowed(severity, fn);
    PrintExact(d);
    assert Sentence(d.payload) == FramePointerText;
  }

  lemma AppendAssoc(a: string, b: string, c: string)
    ensures (a + b) + c == a + (b + c)
  {
  }

  /** The unknown-hwreg sentence carries " in a call to CALLEE" between its
      head and ": VALUE" exactly when a call instruction is given. */
  lemma HWRegInvalidCallClause(call: Option<CallSite>, rawValue: string)
    ensures call.Some? ==>
      Sentence(HWRegInvalid(call, rawValue)) == HWRegInvalidHead + " in a call to " + CalleeText(call) + ": " + rawValue
    ensures call.None? ==> Sentence(HWRegInvalid(call, rawValue)) == HWRegInvalidHead + ": " + rawValue
  {
    assert Sentence(HWRegInvalid(call, rawValue)) == WithCallAndValue(HWRegInvalidHead, call, rawValue);
  }

  /** Likewise for the failed-allocation sentence. */
  lemma HWRegAllocFailureCallClause(call: Option<CallSite>, rawValue: string)
    ensures call.Some? ==>
      Sentence(HWRegAllocFailure(call, rawValue)) == HWRegAllocFailureHead + " in a call to " + CalleeText(call) + ": " + rawValue
    ensures call.None? ==> Sentence(HWRegAllocFailure(call, rawValue)) == HWRegAllocFailureHead + ": " + rawValue
  {
    assert Sentence(HWRegAllocFailure(call, rawValue)) == WithCallAndValue(HWRegAllocFailureHead, call, rawValue);
  }

  /** The multi-register argument sentence ends with " in a call to CALLEE"
      exactly when a call instruction is given. */
  lemma MultipartArgCallClause(call: Option<CallSite>, argType: string)
    ensures call.Some? ==>
      Sentence(MultipartArgUnsupported(call, argType)) == Sentence(MultipartArgUnsupported(None, argType)) + " in a call to " + CalleeText(call)
    ensures Sentence(MultipartArgUnsupported(None, argType))
      == "argument of type " + argType + " is passed in multiple registers, incompatible with 'hwreg'"
  {
    var base := MultipartHead + argType + MultipartMiddle;
    assert Sentence(MultipartArgUnsupported(None, argType)) == base + CallClause(None);
    assert Sentence(MultipartArgUnsupported(call, argType)) == base + CallClause(call);
  }

  /** Reads the limit and the bytes used back from a stack-size sentence. */
  function ParseStackSizeExceeded(s: string): Option<(int, int)> {
    if StartsWith(s, ExceededPrefix) && |s| >= |ExceededPrefix| + |ExceededSuffix| && EndsWith(s, ExceededSuffix) then
      var body := s[|ExceededPrefix|..|s| - |ExceededSuffix|];
      match FirstIndexOf(body, ' ')
      case None => None
      case Some(k) =>
        if StartsWith(body[k..], ExceededMiddle) then
          match (ParseInt(body[..k]), ParseInt(body[k + |ExceededMiddle|..]))
          case (Some(limit), Some(used)) => Some((limit, used))
          case _ => None
        else None
    else None
  }

  /** Both numbers of a stack-size sentence appear verbatim, the limit before
      the bytes used: reading them back gives exactly the pair it was made from. */
  lemma LocalAreaSizeExceededRoundTrip(limit: int64, used: int64)
    ensures ParseStackSizeExceeded(Sentence(LocalAreaSizeExceeded(limit, used))) == Some((limit as int, used as int))
  {
    assert Sentence(LocalAreaSizeExceeded(limit, used)) == ExceededText(limit, used);
    ExceededTextRoundTrip(limit, used);
  }

  lemma ExceededTextRoundTrip(limit: int, used: int)
    ensures ParseStackSizeExceeded(ExceededText(limit, used)) == Some((limit, used))
  {
    var l := IntToString(limit);
    var u := IntToString(used);
    assert ExceededText(limit, used) == ExceededPrefix + (l + ExceededMiddle + u) + ExceededSuffix;
    IntToStringRoundTrip(limit);
    IntToStringRoundTrip(used);
    LFreeOfSpaces(limit);
    ParseExceededParts(l, u, limit, used);
  }

  /** The parser recovers two numbers from their texts placed around the
      middle phrase, when the first text has no space. */
  lemma ParseExceededParts(l: string, u: string, limit: int, used: int)
    requires ParseInt(l) == Some(limit) && ParseInt(u) == Some(used)
    requires forall j | 0 <= j < |l| :: l[j] != ' '
    ensures ParseStackSizeExceeded(ExceededPrefix + (l + ExceededMiddle + u) + ExceededSuffix) == Some((limit, used))
  {
    var body := l + ExceededMiddle + u;
    ExceededTextSlices(l, u);
    FirstIndexOfAt(body, ' ', |l|);
  }

  /** How the stack-size sentence splits into prefix, body and suffix, and
      the body into the two numbers and the middle phrase. */
  lemma ExceededTextSlices(l: string, u: string)
    ensures var body := l + ExceededMiddle + u;
      var s := ExceededPrefix + body + ExceededSuffix;
      && StartsWith(s, ExceededPrefix) && EndsWith(s, ExceededSuffix)
      && |s| >= |ExceededPrefix| + |ExceededSuffix|
      && s[|ExceededPrefix|..|s| - |ExceededSuffix|] == body
      && body[|l|] == ' '
      && StartsWith(body[|l|..], ExceededMiddle)
      && body[..|l|] == l
      && body[|l| + |ExceededMiddle|..] == u
  {
    var body := l + ExceededMiddle + u;
    var s := ExceededPrefix + body + ExceededSuffix;
    assert s[..|ExceededPrefix|] == ExceededPrefix;
    assert s[|s| - |ExceededSuffix|..] == ExceededSuffix;
    assert s[|ExceededPrefix|..|s| - |ExceededSuffix|] == body;
    assert body[|l|..][..|ExceededMiddle|] == ExceededMiddle;
    assert body[..|l|] == l;
    assert body[|l| + |ExceededMiddle|..] == u;
  }

  lemma LFreeOfSpaces(n: int)
    ensures forall j | 0 <= j < |IntToString(n)| :: IntToString(n)[j] != ' '
  {
  }

  /** The alignment of an alignment note reads back from the sentence's end. */
  lemma AlignNoteRoundTrip(a: Align)
    ensures StartsWith(Sentence(LocalAreaSizeAlignNote(a)), AlignNotePrefix)
    ensures ParseNat(Sentence(LocalAreaSizeAlignNote(a))[|AlignNotePrefix|..]) == Some(a as nat)
  {
    var s := Sentence(LocalAreaSizeAlignNote(a));
    assert s[..|AlignNotePrefix|] == AlignNotePrefix;
    assert s[|AlignNotePrefix|..] == NatToString(a);
    NatToStringRoundTrip(a);
  }
}
