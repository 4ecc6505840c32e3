/** Optimization remarks: passed, missed and analysis remarks and
    optimization failures. A remark accumulates arguments, may mark where
    the "extra" arguments begin, renders the arguments before that point as
    its message, and is filtered per pass. */
module Remarks {
  import opened Optional
  import opened Widths
  import opened Text
  import opened IR
  import opened Location
  import opened Arguments

  /** Analysis remarks are made with DK_OptimizationRemarkAnalysis, or with a
      more specific kind passed by a subclass. */
  datatype AnalysisKind = PlainAnalysis | FPCommute | Aliasing

  datatype RemarkClass = Passed | Missed | Analysis(kind: AnalysisKind) | Failure

  /** A remark. `firstExtraArgIndex` is -1 until an extra-arguments marker is
      inserted; then it is the number of arguments present at that moment. */
  datatype Remark = Remark(
    cls: RemarkClass,
    severity: Severity,
    passName: string,
    remarkName: string,
    fn: FunctionRef,
    loc: DiagnosticLocation,
    codeRegion: Option<BasicBlock>,
    args: seq<Argument>,
    firstExtraArgIndex: int,
    isVerbose: bool,
    hotness: Option<uint64>)

  /** The split point is unset or within the argument list. */
  predicate Valid(r: Remark) {
    r.firstExtraArgIndex == -1 || 0 <= r.firstExtraArgIndex <= |r.args|
  }

  /** A freshly constructed remark of the given class: severity DS_Warning for
      an optimization failure, DS_Remark otherwise; no arguments, no split,
      not verbose, no hotness. */
  function NewRemark(cls: RemarkClass, passName: string, remarkName: string, fn: FunctionRef,
                     loc: DiagnosticLocation, codeRegion: Option<BasicBlock>): (r: Remark)
    ensures Valid(r) && r.args == [] && r.firstExtraArgIndex == -1 && !r.isVerbose && r.hotness.None?
    ensures r.severity == DSWarning <==> cls.Failure?
    ensures r.severity == DSRemark <==> !cls.Failure?
    ensures r.cls == cls && r.passName == passName && r.remarkName == remarkName
    ensures r.fn == fn && r.loc == loc && r.codeRegion == codeRegion
  {
    var severity := if cls.Failure? then DSWarning else DSRemark;
    Remark(cls, severity, passName, remarkName, fn, loc, codeRegion, [], -1, false, None)
  }

  /** Construction from an explicit location and a code region (a basic
      block); the block's function is the remark's function. */
  function RemarkAt(cls: RemarkClass, passName: string, remarkName: string,
                    loc: DiagnosticLocation, block: BasicBlock): (r: Remark)
    ensures r.fn == block.parent && r.codeRegion == Some(block) && r.loc == loc
    ensures r.cls == cls && r.passName == passName && r.remarkName == remarkName
    ensures r.severity == (if cls.Failure? then DSWarning else DSRemark)
    ensures Valid(r) && r.args == [] && Msg(r) == ""
    ensures r.firstExtraArgIndex == -1 && !r.isVerbose && r.hotness.None?
  {
    NewRemark(cls, passName, remarkName, block.parent, loc, Some(block))
  }

  /** Construction from an instruction: its block's function, its debug
      location, its block as code region. Passed, missed and plain analysis
      remarks have this constructor. */
  function RemarkForInstruction(cls: RemarkClass, passName: string, remarkName: string,
                                inst: Instruction): (r: Remark)
    requires cls == Passed || cls == Missed || cls == Analysis(PlainAnalysis)
    ensures r.fn == inst.parent.parent && r.codeRegion == Some(inst.parent)
    ensures r.loc.IsValid() <==> inst.debugLoc.Some? && inst.debugLoc.value.file.Some?
    ensures inst.debugLoc.Some? ==> r.loc.line == inst.debugLoc.value.line && r.loc.column == inst.debugLoc.value.column
    ensures r.cls == cls && r.severity == DSRemark && Valid(r) && r.args == []
    ensures r.passName == passName && r.remarkName == remarkName
    ensures r.loc == FromDebugLoc(inst.debugLoc)
    ensures r.firstExtraArgIndex == -1 && !r.isVerbose && r.hotness.None?
  {
    NewRemark(cls, passName, remarkName, inst.parent.parent, FromDebugLoc(inst.debugLoc), Some(inst.parent))
  }

  /** Construction of a passed remark from a function: the subprogram's
      location and the function's entry block, if it has blocks. */
  function PassedForFunction(passName: string, remarkName: string, f: FunctionRef): (r: Remark)
    ensures r.fn == f && r.cls == Passed
    ensures r.loc.IsValid() <==> f.subprogram.Some? && f.subprogram.value.file.Some?
    ensures f.subprogram.Some? ==> r.loc.line == f.subprogram.value.scopeLine && r.loc.column == 0
    ensures r.codeRegion.Some? <==> |f.blocks| > 0
    ensures r.codeRegion.Some? ==> r.codeRegion.value == BasicBlock(f.blocks[0], f)
    ensures Valid(r) && r.args == []
    ensures r.passName == passName && r.remarkName == remarkName && r.severity == DSRemark
    ensures r.loc == FromSubprogram(f.subprogram)
    ensures r.firstExtraArgIndex == -1 && !r.isVerbose && r.hotness.None?
  {
    NewRemark(Passed, passName, remarkName, f, FromSubprogram(f.subprogram), FirstBlock(f))
  }

  /** insert(Argument): appends one argument; nothing else changes. */
  function InsertArgument(r: Remark, a: Argument): (r': Remark)
    ensures |r'.args| == |r.args| + 1 && r'.args[..|r.args|] == r.args && r'.args[|r.args|] == a
    ensures r'.firstExtraArgIndex == r.firstExtraArgIndex && r'.isVerbose == r.isVerbose
    ensures r'.(args := r.args) == r
    ensures Valid(r) ==> Valid(r')
  {
    r.(args := r.args + [a])
  }

  /** insert(StringRef): appends an argument carrying the string. */
  function InsertString(r: Remark, s: string): (r': Remark)
    ensures |r'.args| == |r.args| + 1 && r'.args[..|r.args|] == r.args
    ensures r'.args[|r.args|].val == s && r'.args[|r.args|].key == StringKey
    ensures r'.firstExtraArgIndex == r.firstExtraArgIndex && r'.isVerbose == r.isVerbose
    ensures r'.(args := r.args) == r
    ensures Valid(r) ==> Valid(r')
  {
    InsertArgument(r, StringArg(StringKey, s))
  }

  /** insert(setIsVerbose): marks the remark verbose; nothing else changes. */
  function SetVerbose(r: Remark): (r': Remark)
    ensures r'.isVerbose
    ensures r'.(isVerbose := r.isVerbose) == r
  {
    r.(isVerbose := true)
  }

  /** insert(setExtraArgs): arguments inserted from now on are extra. */
  function SetExtraArgs(r: Remark): (r': Remark)
    ensures r'.firstExtraArgIndex == |r.args| && Valid(r')
    ensures r'.(firstExtraArgIndex := r.firstExtraArgIndex) == r
  {
    r.(firstExtraArgIndex := |r.args|)
  }

  /** The `Val` texts of `args`, concatenated in order without separators. */
  function ConcatVals(args: seq<Argument>): string
    decreases |args|
  {
    if |args| == 0 then "" else ConcatVals(args[..|args| - 1]) + args[|args| - 1].val
  }

  /** The arguments the message is made of: all of them when no split was
      marked, otherwise those before the split. */
  function MessageArgs(r: Remark): (m: seq<Argument>)
    requires Valid(r)
    ensures r.firstExtraArgIndex == -1 ==> m == r.args
    ensures r.firstExtraArgIndex != -1 ==> |m| == r.firstExtraArgIndex && m == r.args[..r.firstExtraArgIndex]
  {
    if r.firstExtraArgIndex == -1 then r.args else r.args[..r.firstExtraArgIndex]
  }

  /** The message as a value. */
  function Msg(r: Remark): string
    requires Valid(r)
  {
    ConcatVals(MessageArgs(r))
  }

  /** getMsg: streams the text of every argument before the split. */
  method GetMsg(r: Remark) returns (msg: string)
    requires Valid(r)
    ensures msg == ConcatVals(MessageArgs(r))
  {
    var end := if r.firstExtraArgIndex == -1 then |r.args| else r.firstExtraArgIndex;
    msg := "";
    var i := 0;
    while i < end
      invariant 0 <= i <= end
      invariant msg == ConcatVals(r.args[..i])
    {
      assert r.args[..i + 1][..i] == r.args[..i];
      msg := msg + r.args[i].val;
      i := i + 1;
    }
    assert r.args[..end] == MessageArgs(r);
  }

  lemma {:induction false} ConcatValsAppend(a: seq<Argument>, b: seq<Argument>)
    ensures ConcatVals(a + b) == ConcatVals(a) + ConcatVals(b)
    decreases |b|
  {
    if |b| > 0 {
      var b' := b[..|b| - 1];
      assert (a + b)[..|a + b| - 1] == a + b';
      ConcatValsAppend(a, b');
    } else {
      assert a + b == a;
    }
  }

  /** Before a split is marked, every inserted argument extends the message by its text. */
  lemma MsgGrowsBeforeSplit(r: Remark, a: Argument)
    requires Valid(r) && r.firstExtraArgIndex == -1
    ensures Msg(InsertArgument(r, a)) == Msg(r) + a.val
  {
    assert (r.args + [a])[..|r.args|] == r.args;
  }

  /** After a split is marked, inserting arguments never changes the message. */
  lemma MsgStableAfterSplit(r: Remark, a: Argument)
    requires Valid(r) && r.firstExtraArgIndex != -1
    ensures Msg(InsertArgument(r, a)) == Msg(r)
  {
    assert (r.args + [a])[..r.firstExtraArgIndex] == r.args[..r.firstExtraArgIndex];
  }

  /** One use of the `<<` insertion operator on a remark. */
  datatype Insertion = InsertStr(s: string) | InsertArg(arg: Argument) | InsertVerbose | InsertExtraArgs

  function Apply(r: Remark, op: Insertion): Remark {
    match op
    case InsertStr(s) => InsertString(r, s)
    case InsertArg(a) => InsertArgument(r, a)
    case InsertVerbose => SetVerbose(r)
    case InsertExtraArgs => SetExtraArgs(r)
  }

  /** The insertions applied left to right. */
  function ApplyAll(r: Remark, ops: seq<Insertion>): Remark
    decreases |ops|
  {
    if |ops| == 0 then r else Apply(ApplyAll(r, ops[..|ops| - 1]), ops[|ops| - 1])
  }

  /** The arguments a sequence of insertions adds, in order. */
  function InsertedArgs(ops: seq<Insertion>): seq<Argument>
    decreases |ops|
  {
    if |ops| == 0 then []
    else
      var last := ops[|ops| - 1];
      InsertedArgs(ops[..|ops| - 1]) +
        match last
        case InsertStr(s) => [StringArg(StringKey, s)]
        case InsertArg(a) => [a]
        case _ => []
  }

  /** Position in `ops` of the last extra-arguments marker, if any. */
  function LastSplitMarker(ops: seq<Insertion>): (k: Option<nat>)
    ensures k.Some? ==> k.value < |ops| && ops[k.value] == InsertExtraArgs
    decreases |ops|
  {
    if |ops| == 0 then None
    else if ops[|ops| - 1] == InsertExtraArgs then Some(|ops| - 1)
    else LastSplitMarker(ops[..|ops| - 1])
  }

  /** What any sequence of insertions does to the arguments of a remark
      without any: they are exactly those inserted, in order. */
  lemma {:induction false} ApplyAllArgs(r: Remark, ops: seq<Insertion>)
    requires r.args == []
    ensures ApplyAll(r, ops).args == InsertedArgs(ops)
    decreases |ops|
  {
    if |ops| > 0 {
      var init := ops[..|ops| - 1];
      ApplyAllArgs(r, init);
      var before := ApplyAll(r, init);
      assert ApplyAll(r, ops) == Apply(before, ops[|ops| - 1]);
      match ops[|ops| - 1]
      case InsertStr(str) =>
        assert InsertedArgs(ops) == InsertedArgs(init) + [StringArg(StringKey, str)];
      case InsertArg(a) =>
        assert InsertedArgs(ops) == InsertedArgs(init) + [a];
      case InsertVerbose =>
        assert InsertedArgs(ops) == InsertedArgs(init) + [];
      case InsertExtraArgs =>
        assert InsertedArgs(ops) == InsertedArgs(init) + [];
    }
  }

  /** The split index after any sequence of insertions into a remark
      without arguments or split: the number of arguments inserted before the
      last marker (so the last marker wins), or -1 without a marker. */
  lemma {:induction false} ApplyAllSplit(r: Remark, ops: seq<Insertion>)
    requires r.args == [] && r.firstExtraArgIndex == -1
    ensures Valid(ApplyAll(r, ops))
    ensures LastSplitMarker(ops).None? ==> ApplyAll(r, ops).firstExtraArgIndex == -1
    ensures LastSplitMarker(ops).Some? ==>
      ApplyAll(r, ops).firstExtraArgIndex == |InsertedArgs(ops[..LastSplitMarker(ops).value])|
    decreases |ops|
  {
    if |ops| > 0 {
      var init := ops[..|ops| - 1];
      ApplyAllSplit(r, init);
      ApplyAllArgs(r, init);
      assert ApplyAll(r, ops) == Apply(ApplyAll(r, init), ops[|ops| - 1]);
      if ops[|ops| - 1] != InsertExtraArgs && LastSplitMarker(init).Some? {
        var k := LastSplitMarker(init).value;
        assert ops[..k] == init[..k];
      }
    }
  }

  /** A remark that was not verbose is verbose after a sequence of
      insertions iff a verbosity marker was among them. */
  lemma {:induction false} ApplyAllVerbose(r: Remark, ops: seq<Insertion>)
    requires !r.isVerbose
    ensures ApplyAll(r, ops).isVerbose <==> InsertVerbose in ops
    decreases |ops|
  {
    if |ops| > 0 {
      var init := ops[..|ops| - 1];
      ApplyAllVerbose(r, init);
      assert ops == init + [ops[|ops| - 1]];
    }
  }

  /** The arguments inserted by a prefix of the insertions come first. */
  lemma {:induction false} InsertedArgsPrefix(ops: seq<Insertion>, k: nat)
    requires k <= |ops|
    ensures |InsertedArgs(ops[..k])| <= |InsertedArgs(ops)|
    ensures InsertedArgs(ops)[..|InsertedArgs(ops[..k])|] == InsertedArgs(ops[..k])
    decreases |ops|
  {
    if k < |ops| {
      var init := ops[..|ops| - 1];
      InsertedArgsPrefix(init, k);
      assert init[..k] == ops[..k];
    } else {
      assert ops[..k] == ops;
    }
  }

  /** The message of a remark built by any sequence of insertions is the
      text of the arguments inserted before the last extra-arguments marker,
      or of all of them without one, in insertion order. */
  lemma MsgOfInsertions(r: Remark, ops: seq<Insertion>)
    requires r.args == [] && r.firstExtraArgIndex == -1
    ensures Valid(ApplyAll(r, ops))
    ensures LastSplitMarker(ops).None? ==> Msg(ApplyAll(r, ops)) == ConcatVals(InsertedArgs(ops))
    ensures LastSplitMarker(ops).Some? ==>
      Msg(ApplyAll(r, ops)) == ConcatVals(InsertedArgs(ops[..LastSplitMarker(ops).value]))
  {
    ApplyAllSplit(r, ops);
    ApplyAllArgs(r, ops);
    if LastSplitMarker(ops).Some? {
      InsertedArgsPrefix(ops, LastSplitMarker(ops).value);
    }
  }

  /** " (hotness: N)" when a hotness is attached, nothing otherwise. */
  function HotnessSuffix(hotness: Option<uint64>): string {
    match hotness
    case None => ""
    case Some(n) => " (hotness: " + NatToString(n) + ")"
  }

  /** Reads N back from a text ending in " (hotness: N)". */
  function TrailingHotness(s: string): Option<nat> {
    if |s| >= 1 && s[|s| - 1] == ')' then
      var body := s[..|s| - 1];
      match LastIndexOf(body, ' ')
      case None => None
      case Some(j) =>
        if j >= 10 && body[j - 10..j + 1] == " (hotness: " then ParseNat(body[j + 1..]) else None
    else None
  }

  lemma TrailingHotnessRoundTrip(prefix: string, hotness: Option<uint64>)
    ensures hotness.Some? ==> TrailingHotness(prefix + HotnessSuffix(hotness)) == Some(hotness.value as nat)
  {
    if hotness.None? {
      return;
    }
    var n := hotness.value;
    var d := NatToString(n);
    var s := prefix + " (hotness: " + d + ")";
    assert s == prefix + HotnessSuffix(hotness);
    var body := prefix + " (hotness: " + d;
    assert s[..|s| - 1] == body;
    var j := |prefix| + 10;
    forall k | j < k < |body|
      ensures body[k] != ' '
    {
      assert body[k] == d[k - j - 1];
    }
    LastIndexOfAt(body, ' ', j);
    assert body[j - 10..j + 1] == " (hotness: ";
    assert body[j + 1..] == d;
    NatToStringRoundTrip(n);
  }

  /** print: "location: message", then " (hotness: N)" directly after it
      when a hotness is set. */
  function Print(r: Remark): (s: string)
    requires Valid(r)
    ensures StartsWith(s, LocationStr(r.loc) + ": " + Msg(r))
    ensures r.hotness.None? ==> s == LocationStr(r.loc) + ": " + Msg(r)
    ensures r.hotness.Some? ==> TrailingHotness(s) == Some(r.hotness.value as nat)
    ensures r.hotness.Some? ==>
      var head := LocationStr(r.loc) + ": " + Msg(r);
      && StartsWith(s, head + " (hotness: ")
      && EndsWith(s, ")")
      && |s| == |head| + 12 + |NatToString(r.hotness.value)|
      && s[|head| + 11..|s| - 1] == NatToString(r.hotness.value)
  {
    var head := LocationStr(r.loc) + ": " + Msg(r);
    TrailingHotnessRoundTrip(head, r.hotness);
    var s := head + HotnessSuffix(r.hotness);
    if r.hotness.Some? then
      var digits := NatToString(r.hotness.value);
      assert s == head + " (hotness: " + digits + ")";
      assert s[..|head| + 11] == head + " (hotness: ";
      assert s[|head| + 11..|s| - 1] == digits;
      s
    else
      s
  }

  /** A remark whose location is unavailable renders its message after
      "<unknown>:0:0: ", with " (hotness: 7)" appended once hotness 7 is
      attached. */
  lemma UnlocatedPrint(r: Remark)
    requires Valid(r) && !r.loc.IsValid() && r.hotness.None?
    ensures Print(r) == "<unknown>:0:0: " + Msg(r)
    ensures Print(r.(hotness := Some(7))) == "<unknown>:0:0: " + Msg(r) + " (hotness: 7)"
  {
    var r7 := r.(hotness := Some(7));
    assert Valid(r7) && r7.loc == r.loc;
    assert Msg(r7) == Msg(r);
    assert NatToString(7) == "7";
    assert HotnessSuffix(Some(7)) == " (hotness: 7)";
    var head := LocationStr(r.loc) + ": " + Msg(r);
    assert head == "<unknown>:0:0: " + Msg(r);
    assert Print(r7) == head + HotnessSuffix(Some(7));
  }

  /** The remark built from an instruction without a debug location, after
      any insertions, is such a remark: it prints "<unknown>:0:0: " and its
      message. */
  lemma UnlocatedInstructionRemark(cls: RemarkClass, passName: string, remarkName: string,
                                   inst: Instruction, ops: seq<Insertion>)
    requires cls == Passed || cls == Missed || cls == Analysis(PlainAnalysis)
    requires inst.debugLoc.None?
    ensures var r := ApplyAll(RemarkForInstruction(cls, passName, remarkName, inst), ops);
      && Valid(r) && r.hotness.None?
      && Print(r) == "<unknown>:0:0: " + Msg(r)
  {
    var r0 := RemarkForInstruction(cls, passName, remarkName, inst);
    ApplyAllSplit(r0, ops);
    ApplyAllPreservesHeader(r0, ops);
    UnlocatedPrint(ApplyAll(r0, ops));
  }

  /** Insertions touch only the arguments, the split and verbosity. */
  lemma {:induction false} ApplyAllPreservesHeader(r: Remark, ops: seq<Insertion>)
    ensures ApplyAll(r, ops).loc == r.loc && ApplyAll(r, ops).hotness == r.hotness
    ensures ApplyAll(r, ops).cls == r.cls && ApplyAll(r, ops).severity == r.severity
    ensures ApplyAll(r, ops).passName == r.passName
    ensures ApplyAll(r, ops).(args := r.args, firstExtraArgIndex := r.firstExtraArgIndex, isVerbose := r.isVerbose) == r
    decreases |ops|
  {
    if |ops| > 0 {
      ApplyAllPreservesHeader(r, ops[..|ops| - 1]);
    }
  }

  /** The per-pass predicates of the context's diagnostic handler. */
  datatype RemarkFilter = RemarkFilter(
    passedEnabled: string -> bool,
    missedEnabled: string -> bool,
    analysisEnabled: string -> bool)

  /** isEnabled. `alwaysPrint` is the analysis remark's shouldAlwaysPrint(). */
  function IsEnabled(r: Remark, filter: RemarkFilter, alwaysPrint: bool): (b: bool)
    ensures r.cls.Passed? ==> (b <==> filter.passedEnabled(r.passName))
    ensures r.cls.Missed? ==> (b <==> filter.missedEnabled(r.passName))
    ensures r.cls.Analysis? ==> (b <==> filter.analysisEnabled(r.passName) || alwaysPrint)
    ensures r.cls.Failure? ==> (b <==> r.severity == DSWarning)
  {
    match r.cls
    case Passed => filter.passedEnabled(r.passName)
    case Missed => filter.missedEnabled(r.passName)
    case Analysis(_) => filter.analysisEnabled(r.passName) || alwaysPrint
    case Failure => r.severity == DSWarning
  }

  /** An optimization failure is enabled under DS_Warning and under none of
      the other three severities, whatever the filter says; a constructed
      one (which is a warning) is therefore always enabled. */
  lemma FailureEnabledOnlyAsWarning(r: Remark, filter: RemarkFilter, alwaysPrint: bool)
    requires r.cls.Failure?
    ensures IsEnabled(r.(severity := DSWarning), filter, alwaysPrint)
    ensures !IsEnabled(r.(severity := DSError), filter, alwaysPrint)
    ensures !IsEnabled(r.(severity := DSRemark), filter, alwaysPrint)
    ensures !IsEnabled(r.(severity := DSNote), filter, alwaysPrint)
    ensures forall passName, loc, block ::
      IsEnabled(RemarkAt(Failure, passName, r.remarkName, loc, block), filter, alwaysPrint)
  {
  }

  /** Passed, missed and analysis remarks are filtered by pass name alone:
      two remarks of the same class and pass are enabled alike, whatever
      their arguments, location or severity. */
  lemma EnablementByPassOnly(r1: Remark, r2: Remark, filter: RemarkFilter, alwaysPrint: bool)
    requires r1.cls == r2.cls && !r1.cls.Failure? && r1.passName == r2.passName
    ensures IsEnabled(r1, filter, alwaysPrint) == IsEnabled(r2, filter, alwaysPrint)
  {
  }
}
