/** Single-purpose diagnostics with one fixed sentence template each:
    inline-asm errors, resource limits, debug-metadata problems, sample and
    PGO profile problems, instruction-selection fallback, unsupported
    constructs and mis-expectations. Printed functions and modules appear
    as the text the IR printer gives them. */
module MiscDiagnostics {
  import opened Optional
  import opened Widths
  import opened Text
  import opened IR
  import opened Location

  /* ---------------------------------------------------------------- inline asm */

  datatype InlineAsm = InlineAsm(severity: Severity, msg: string, instr: Instruction, locCookie: uint64)

  /** The cookie of a !srcloc node: its first operand when that is an
      integer constant, otherwise 0 (the field's initial value). */
  function SrcLocCookie(srcloc: Option<seq<Metadata>>): (c: uint64)
    ensures srcloc.Some? && |srcloc.value| > 0 && srcloc.value[0].ConstantIntMD? ==> c == srcloc.value[0].zextValue
    ensures !(srcloc.Some? && |srcloc.value| > 0 && srcloc.value[0].ConstantIntMD?) ==> c == 0
  {
    match srcloc
    case Some(ops) => if |ops| > 0 && ops[0].ConstantIntMD? then ops[0].zextValue else 0
    case None => 0
  }

  function MakeInlineAsm(instr: Instruction, msg: string, severity: Severity): (d: InlineAsm)
    ensures d.instr == instr && d.msg == msg && d.severity == severity
    ensures d.locCookie != 0 ==> instr.srcloc.Some? && |instr.srcloc.value| > 0 && instr.srcloc.value[0].ConstantIntMD?
    ensures d.locCookie == SrcLocCookie(instr.srcloc)
  {
    InlineAsm(severity, msg, instr, SrcLocCookie(instr.srcloc))
  }

  const AtLine := " at line "

  /** print: the message, then " at line N" when the cookie is non-zero. */
  function PrintInlineAsm(d: InlineAsm): (s: string)
    ensures d.locCookie == 0 ==> s == d.msg
    ensures d.locCookie != 0 ==> StartsWith(s, d.msg + AtLine)
    ensures d.locCookie != 0 ==> ParseNat(s[|d.msg| + |AtLine|..]) == Some(d.locCookie as nat)
  {
    if d.locCookie != 0 then
      var s := d.msg + AtLine + NatToString(d.locCookie);
      assert s[..|d.msg + AtLine|] == d.msg + AtLine;
      assert s[|d.msg| + |AtLine|..] == NatToString(d.locCookie);
      NatToStringRoundTrip(d.locCookie);
      s
    else d.msg
  }

  /* ------------------------------------------------------------ resource limit */

  datatype ResourceLimit = ResourceLimit(
    severity: Severity,
    resourceName: string,
    resourceSize: uint64,
    resourceLimit: uint64,
    fn: FunctionRef)

  /** print: "NAME limit[ of LIMIT] exceeded (SIZE) in FUNCTION"; a zero
      limit is omitted. The function prints as its operand text. */
  function PrintResourceLimit(d: ResourceLimit): (s: string)
    ensures StartsWith(s, d.resourceName + " limit")
    ensures EndsWith(s, " exceeded (" + NatToString(d.resourceSize) + ") in " + d.fn.operandText)
    ensures d.resourceLimit == 0 ==>
      |s| == |d.resourceName + " limit"| + |" exceeded (" + NatToString(d.resourceSize) + ") in " + d.fn.operandText|
    ensures d.resourceLimit != 0 ==>
      && |s| == |d.resourceName + " limit"| + |" of " + NatToString(d.resourceLimit)|
           + |" exceeded (" + NatToString(d.resourceSize) + ") in " + d.fn.operandText|
      && s[|d.resourceName + " limit"|..][..|" of " + NatToString(d.resourceLimit)|] == " of " + NatToString(d.resourceLimit)
  {
    var head := d.resourceName + " limit";
    var ofLimit := if d.resourceLimit != 0 then " of " + NatToString(d.resourceLimit) else "";
    var tail := " exceeded (" + NatToString(d.resourceSize) + ") in " + d.fn.operandText;
    assert (head + ofLimit + tail)[|head|..][..|ofLimit|] == ofLimit;
    assert (head + ofLimit + tail)[..|head|] == head;
    assert (head + ofLimit + tail)[|head + ofLimit|..] == tail;
    head + ofLimit + tail
  }

  /** A non-zero limit inserts exactly " of LIMIT" after "NAME limit" into the
      text printed without a limit. */
  lemma ResourceLimitClause(d: ResourceLimit)
    requires d.resourceLimit != 0
    ensures var without := PrintResourceLimit(d.(resourceLimit := 0));
      var k := |d.resourceName + " limit"|;
      && k <= |without|
      && PrintResourceLimit(d) == without[..k] + " of " + NatToString(d.resourceLimit) + without[k..]
  {
    var head := d.resourceName + " limit";
    var tail := " exceeded (" + NatToString(d.resourceSize) + ") in " + d.fn.operandText;
    var without := PrintResourceLimit(d.(resourceLimit := 0));
    assert without == head + tail;
    assert without[..|head|] == head && without[|head|..] == tail;
  }

  /* ------------------------------------------------------------ debug metadata */

  const VersionPrefix := "ignoring debug info with an invalid version ("

  /** DiagnosticInfoDebugMetadataVersion::print. */
  function PrintDebugMetadataVersion(metadataVersion: uint32, moduleText: string): (s: string)
    ensures StartsWith(s, VersionPrefix)
    ensures EndsWith(s, ") in " + moduleText)
    ensures |s| == |VersionPrefix| + |NatToString(metadataVersion)| + |") in " + moduleText|
    ensures s[|VersionPrefix|..|VersionPrefix| + |NatToString(metadataVersion)|] == NatToString(metadataVersion)
  {
    var tail := ") in " + moduleText;
    var s := VersionPrefix + NatToString(metadataVersion) + tail;
    assert s[..|VersionPrefix|] == VersionPrefix;
    assert s[|VersionPrefix|..|VersionPrefix| + |NatToString(metadataVersion)|] == NatToString(metadataVersion);
    assert s[|s| - |tail|..] == tail;
    s
  }

  /** The version number up to the first ')' after the prefix. */
  function ParseMetadataVersion(s: string): Option<nat> {
    if StartsWith(s, VersionPrefix) then
      var rest := s[|VersionPrefix|..];
      match FirstIndexOf(rest, ')')
      case Some(k) => ParseNat(rest[..k])
      case None => None
    else None
  }

  /** The version reads back from the printed text, whatever the module's text. */
  lemma MetadataVersionRoundTrip(metadataVersion: uint32, moduleText: string)
    ensures ParseMetadataVersion(PrintDebugMetadataVersion(metadataVersion, moduleText)) == Some(metadataVersion as nat)
  {
    var v := NatToString(metadataVersion);
    var s := PrintDebugMetadataVersion(metadataVersion, moduleText);
    var rest := v + ") in " + moduleText;
    assert s[|VersionPrefix|..] == rest;
    FirstIndexOfAt(rest, ')', |v|);
    assert rest[..|v|] == v;
    NatToStringRoundTrip(metadataVersion);
  }

  /** DiagnosticInfoIgnoringInvalidDebugMetadata::print. */
  function PrintIgnoringInvalidDebugMetadata(moduleIdentifier: string): (s: string)
    ensures StartsWith(s, "ignoring invalid debug info in ")
    ensures s[|"ignoring invalid debug info in "|..] == moduleIdentifier
  {
    "ignoring invalid debug info in " + moduleIdentifier
  }

  /* ----------------------------------------------------------------- profiles */

  datatype SampleProfile = SampleProfile(severity: Severity, fileName: string, lineNum: uint32, msg: string)

  /** print: "FILE[:LINE]: MSG", or just MSG without a file name; a zero line
      number is omitted. */
  function PrintSampleProfile(d: SampleProfile): (s: string)
    ensures EndsWith(s, d.msg)
    ensures d.fileName == "" ==> s == d.msg
    ensures d.fileName != "" ==> StartsWith(s, d.fileName)
  {
    if d.fileName != "" then
      var lineText := if d.lineNum > 0 then ":" + NatToString(d.lineNum) else "";
      var s := d.fileName + lineText + ": " + d.msg;
      assert s[..|d.fileName|] == d.fileName;
      assert s[|s| - |d.msg|..] == d.msg;
      s
    else d.msg
  }

  /** With a file name, a non-zero line number inserts exactly ":LINE" after
      the file name into the text printed without one. */
  lemma SampleProfileLineClause(d: SampleProfile)
    requires d.fileName != "" && d.lineNum > 0
    ensures PrintSampleProfile(d.(lineNum := 0)) == d.fileName + ": " + d.msg
    ensures PrintSampleProfile(d) == d.fileName + ":" + NatToString(d.lineNum) + ": " + d.msg
  {
  }

  /** The file name is a C string that may be null. */
  datatype PGOProfile = PGOProfile(severity: Severity, fileName: Option<string>, msg: string)

  /** print: "FILE: MSG" when a file name is given (even an empty one), else MSG. */
  function PrintPGOProfile(d: PGOProfile): (s: string)
    ensures EndsWith(s, d.msg)
    ensures d.fileName.None? ==> s == d.msg
    ensures d.fileName.Some? ==> |s| == |d.fileName.value| + 2 + |d.msg| && StartsWith(s, d.fileName.value + ": ")
  {
    match d.fileName
    case Some(f) =>
      var s := f + ": " + d.msg;
      assert s[..|f + ": "|] == f + ": ";
      assert s[|s| - |d.msg|..] == d.msg;
      s
    case None => d.msg
  }

  /* ------------------------------------------------------- located diagnostics */

  /** DiagnosticInfoISelFallback::print. */
  function PrintISelFallback(fn: FunctionRef): (s: string)
    ensures StartsWith(s, "Instruction selection used fallback path for ")
    ensures s[|"Instruction selection used fallback path for "|..] == fn.operandText
  {
    "Instruction selection used fallback path for " + fn.operandText
  }

  datatype Unsupported = Unsupported(severity: Severity, fn: FunctionRef, loc: DiagnosticLocation, msg: string)

  /** print: "LOCATION: in function NAME TYPE: MSG" and a newline. */
  function PrintUnsupported(d: Unsupported): (s: string)
    ensures StartsWith(s, LocationStr(d.loc) + ": in function " + d.fn.name + " " + d.fn.typeText + ": ")
    ensures EndsWith(s, d.msg + "\n")
    ensures |s| == |LocationStr(d.loc) + ": in function " + d.fn.name + " " + d.fn.typeText + ": "| + |d.msg| + 1
  {
    var head := LocationStr(d.loc) + ": in function " + d.fn.name + " " + d.fn.typeText + ": ";
    var s := head + d.msg + "\n";
    assert s[..|head|] == head;
    assert s[|s| - |d.msg + "\n"|..] == d.msg + "\n";
    s
  }

  datatype MisExpect = MisExpect(severity: Severity, fn: FunctionRef, loc: DiagnosticLocation, msg: string)

  /** Construction from an instruction: a warning located at the
      instruction's debug location, in the instruction's function. */
  function MakeMisExpect(inst: Instruction, msg: string): (d: MisExpect)
    ensures d.severity == DSWarning && d.fn == inst.parent.parent && d.msg == msg
    ensures d.loc.IsValid() <==> inst.debugLoc.Some? && inst.debugLoc.value.file.Some?
    ensures inst.debugLoc.Some? ==> d.loc.line == inst.debugLoc.value.line && d.loc.column == inst.debugLoc.value.column
    ensures d.loc == FromDebugLoc(inst.debugLoc)
  {
    MisExpect(DSWarning, inst.parent.parent, FromDebugLoc(inst.debugLoc), msg)
  }

  /** print: "LOCATION: MSG". */
  function PrintMisExpect(d: MisExpect): (s: string)
    ensures StartsWith(s, LocationStr(d.loc) + ": ")
    ensures s[|LocationStr(d.loc)| + 2..] == d.msg
  {
    var head := LocationStr(d.loc) + ": ";
    assert (head + d.msg)[..|head|] == head;
    head + d.msg
  }
}
