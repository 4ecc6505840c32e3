/** Arguments of optimization remarks: a key, the text the argument
    contributes to the message, and an optional source location. */
module Arguments {
  import opened Optional
  import opened Widths
  import opened Text
  import opened IR
  import opened Location

  /** Key of an argument made from a bare string by `insert(StringRef)`
      (set by Argument's one-string constructor in DiagnosticInfo.h). */
  const StringKey := "String"

  /** Text of a DebugLoc argument whose location is empty. */
  const UnknownLocationText := "<UNKNOWN LOCATION>"

  datatype Argument = Argument(key: string, val: string, loc: DiagnosticLocation)

  /** DIScope::getFilename: the file's name, or "" when the scope has no file. */
  function FileName(file: Option<DIFile>): string {
    match file
    case Some(f) => f.filename
    case None => ""
  }

  /** Argument(Key, StringRef), and Argument(Key, Type *) with the type's
      printed text as the string. */
  function StringArg(key: string, s: string): (a: Argument)
    ensures a.key == key && a.val == s && !a.loc.IsValid()
  {
    Argument(key, s, Unavailable)
  }

  /** Argument(Key, int / long / long long): the signed decimal text of N. */
  function IntArg(key: string, n: int64): (a: Argument)
    ensures a.key == key && !a.loc.IsValid()
    ensures ParseInt(a.val) == Some(n as int)
  {
    IntToStringRoundTrip(n);
    Argument(key, IntToString(n), Unavailable)
  }

  /** Argument(Key, unsigned / unsigned long / unsigned long long): the decimal text of N. */
  function UnsignedArg(key: string, n: uint64): (a: Argument)
    ensures a.key == key && !a.loc.IsValid()
    ensures ParseNat(a.val) == Some(n as nat)
  {
    NatToStringRoundTrip(n);
    Argument(key, NatToString(n), Unavailable)
  }

  /** Argument(Key, DebugLoc): "file:line:column", or "<UNKNOWN LOCATION>"
      for an empty DebugLoc; the location itself is kept as well. */
  function DebugLocArg(key: string, dl: DebugLoc): (a: Argument)
    ensures a.key == key && a.loc == FromDebugLoc(dl)
    ensures a.val == UnknownLocationText <==> dl.None?
    ensures dl.Some? ==>
      ParseLocationStr(a.val) == Some(LocationParts(FileName(dl.value.file), dl.value.line, dl.value.column))
  {
    match dl
    case None => Argument(key, UnknownLocationText, FromDebugLoc(dl))
    case Some(d) =>
      var col := NatToString(d.column);
      var text := FileLineColumn(FileName(d.file), d.line, d.column);
      FileLineColumnRoundTrip(FileName(d.file), d.line, d.column);
      assert text[|text| - 1] == col[|col| - 1];
      assert UnknownLocationText[|UnknownLocationText| - 1] == '>';
      Argument(key, text, FromDebugLoc(dl))
  }

  /** The marker byte 1 that keeps a symbol name from being mangled. */
  const ManglingEscape: char := '\U{01}'

  /** GlobalValue::dropLLVMManglingEscape: the name without a leading
      mangling-escape marker; a name without one is unchanged. Only the first
      marker is removed. */
  function DropManglingEscape(name: string): (r: string)
    ensures |name| > 0 && name[0] == ManglingEscape ==> r == name[1..]
    ensures (|name| == 0 || name[0] != ManglingEscape) ==> r == name
    ensures name == [ManglingEscape] + r || name == r
  {
    if |name| > 0 && name[0] == ManglingEscape then name[1..] else name
  }

  /** Argument(Key, Value *): the display text and location of a value.
      Functions contribute their name and their subprogram's location,
      instructions their opcode name and debug location, arguments and
      global variables their name, other constants their printed operand,
      and anything else nothing. Names lose a leading mangling escape. */
  function ValueArg(key: string, v: Value): (a: Argument)
    ensures a.key == key
    ensures a.loc.IsValid() ==> v.FunctionValue? || v.InstructionValue?
    ensures v.FunctionValue? ==> a.val == DropManglingEscape(v.fn.name) && a.loc == FromSubprogram(v.fn.subprogram)
    ensures v.InstructionValue? ==> a.val == v.inst.opcodeName && a.loc == FromDebugLoc(v.inst.debugLoc)
    ensures v.ArgumentValue? || v.GlobalVariableValue? ==> a.val == DropManglingEscape(v.name)
    ensures v.ConstantValue? ==> a.val == v.operandText
    ensures v.OtherValue? ==> a.val == ""
  {
    var loc :=
      match v
      case FunctionValue(f) => FromSubprogram(f.subprogram)
      case InstructionValue(i) => FromDebugLoc(i.debugLoc)
      case _ => Unavailable;
    var val :=
      match v
      case FunctionValue(f) => DropManglingEscape(f.name)
      case ArgumentValue(n) => DropManglingEscape(n)
      case GlobalVariableValue(n) => DropManglingEscape(n)
      case ConstantValue(t) => t
      case InstructionValue(i) => i.opcodeName
      case OtherValue => "";
    Argument(key, val, loc)
  }

  /** A function whose name carries the mangling escape appears in a remark
      argument without it, although diagnostics that print the function's
      name directly keep it. */
  lemma EscapedFunctionName(key: string, f: FunctionRef)
    requires |f.name| > 0 && f.name[0] == ManglingEscape
    ensures ValueArg(key, FunctionValue(f)).val == f.name[1..]
    ensures ValueArg(key, FunctionValue(f)).val != f.name
  {
    assert |f.name[1..]| < |f.name|;
  }

  /** A DebugLoc argument's text is its own location's string whenever the
      debug location has a file. When the scope has no file the two differ:
      the argument still prints ":line:column" while the location, having no
      file, is unavailable and prints "<unknown>:0:0". */
  lemma DebugLocArgAgreesWithLocationStr(key: string, dl: DebugLoc)
    ensures dl.Some? && dl.value.file.Some? ==>
      DebugLocArg(key, dl).val == LocationStr(DebugLocArg(key, dl).loc)
    ensures dl.Some? && dl.value.file.None? ==>
      && DebugLocArg(key, dl).val == FileLineColumn("", dl.value.line, dl.value.column)
      && LocationStr(DebugLocArg(key, dl).loc) == UnknownLocationStr
  {
  }
}
