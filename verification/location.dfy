/** DiagnosticLocation: an optional (file, line, column) triple resolved from
    a debug location or a subprogram, and its rendering as the
    "file:line:column" prefix of a diagnostic. */
module Location {
  import opened Optional
  import opened Widths
  import opened Text
  import opened IR

  /** The location is available exactly when it refers to a file. */
  datatype DiagnosticLocation = DiagnosticLocation(file: Option<DIFile>, line: uint32, column: uint32) {
    predicate IsValid() {
      file.Some?
    }
  }

  /** A default-constructed location: no file, line 0, column 0. */
  const Unavailable := DiagnosticLocation(None, 0, 0)

  /** What an unavailable location renders as. */
  const UnknownLocationStr := "<unknown>:0:0"

  function FromDebugLoc(dl: DebugLoc): (loc: DiagnosticLocation)
    ensures dl.None? ==> loc == Unavailable
    ensures loc.IsValid() <==> dl.Some? && dl.value.file.Some?
    ensures dl.Some? ==> loc.file == dl.value.file && loc.line == dl.value.line && loc.column == dl.value.column
  {
    match dl
    case None => Unavailable
    case Some(d) => DiagnosticLocation(d.file, d.line, d.column)
  }

  function FromSubprogram(sp: Option<DISubprogram>): (loc: DiagnosticLocation)
    ensures sp.None? ==> loc == Unavailable
    ensures loc.IsValid() <==> sp.Some? && sp.value.file.Some?
    ensures sp.Some? ==> loc.file == sp.value.file && loc.line == sp.value.scopeLine && loc.column == 0
  {
    match sp
    case None => Unavailable
    case Some(s) => DiagnosticLocation(s.file, s.scopeLine, 0)
  }

  /** The file name as recorded in the debug metadata. */
  function RelativePath(loc: DiagnosticLocation): (path: string)
    requires loc.IsValid()
    ensures path == loc.file.value.filename
  {
    loc.file.value.filename
  }

  /** The absolute path of the location's file. Whether a name is absolute,
      and how a directory and a relative name are joined with a leading "./"
      removed, belong to the path library and are parameters here. */
  function AbsolutePath(loc: DiagnosticLocation, isAbsolute: string -> bool, joinNormalized: (string, string) -> string): (path: string)
    requires loc.IsValid()
    ensures isAbsolute(RelativePath(loc)) ==> path == RelativePath(loc)
    ensures !isAbsolute(RelativePath(loc)) ==> path == joinNormalized(loc.file.value.directory, RelativePath(loc))
  {
    var name := loc.file.value.filename;
    if isAbsolute(name) then name else joinNormalized(loc.file.value.directory, name)
  }

  /** "file:line:column", the shape shared by location strings and DebugLoc arguments. */
  function FileLineColumn(filename: string, line: nat, column: nat): string {
    filename + ":" + NatToString(line) + ":" + NatToString(column)
  }

  /** getLocationStr. An available location reads back as its relative path,
      line and column; ParseLocationStrCanonical makes that the only text
      that does. */
  function LocationStr(loc: DiagnosticLocation): (s: string)
    ensures !loc.IsValid() ==> s == UnknownLocationStr
    ensures loc.IsValid() ==> StartsWith(s, RelativePath(loc) + ":")
    ensures loc.IsValid() ==> ParseLocationStr(s) == Some(LocationParts(RelativePath(loc), loc.line, loc.column))
  {
    if loc.IsValid() then
      FileLineColumnRoundTrip(RelativePath(loc), loc.line, loc.column);
      FileLineColumn(RelativePath(loc), loc.line, loc.column)
    else UnknownLocationStr
  }

  /** The three fields read back from a location string. */
  datatype LocationParts = LocationParts(filename: string, line: nat, column: nat)

  /** Splits "file:line:column" at its last two colons; the file name itself
      may contain colons. */
  function ParseLocationStr(s: string): Option<LocationParts> {
    match LastIndexOf(s, ':')
    case None => None
    case Some(j) =>
      match LastIndexOf(s[..j], ':')
      case None => None
      case Some(i) =>
        match (ParseNat(s[i + 1..j]), ParseNat(s[j + 1..]))
        case (Some(line), Some(column)) => Some(LocationParts(s[..i], line, column))
        case _ => None
  }

  lemma FileLineColumnRoundTrip(filename: string, line: nat, column: nat)
    ensures ParseLocationStr(FileLineColumn(filename, line, column)) == Some(LocationParts(filename, line, column))
  {
    var l := NatToString(line);
    var c := NatToString(column);
    var head := filename + ":" + l;
    var s := head + ":" + c;
    assert s == FileLineColumn(filename, line, column);
    forall k | |head| < k < |s|
      ensures s[k] != ':'
    {
      assert s[k] == c[k - |head| - 1];
    }
    LastIndexOfAt(s, ':', |head|);
    assert s[..|head|] == head;
    forall k | |filename| < k < |head|
      ensures head[k] != ':'
    {
      assert head[k] == l[k - |filename| - 1];
    }
    LastIndexOfAt(head, ':', |filename|);
    assert s[..|filename|] == filename;
    assert s[|filename| + 1..|head|] == l;
    assert s[|head| + 1..] == c;
    NatToStringRoundTrip(line);
    NatToStringRoundTrip(column);
  }

  /** A text that parses as a location is exactly "file:line:column" with
      both numbers in canonical decimal: no other spelling reads back. */
  lemma ParseLocationStrCanonical(s: string, p: LocationParts)
    requires ParseLocationStr(s) == Some(p)
    ensures s == FileLineColumn(p.filename, p.line, p.column)
  {
    var j := LastIndexOf(s, ':').value;
    var i := LastIndexOf(s[..j], ':').value;
    var lineText, columnText := s[i + 1..j], s[j + 1..];
    assert p == LocationParts(s[..i], ParseNat(lineText).value, ParseNat(columnText).value);
    SplitAtColons(s, i, j);
    ParseNatCanonical(lineText, p.line);
    ParseNatCanonical(columnText, p.column);
  }

  /** A text cut at two colons is the three pieces joined by them. */
  lemma SplitAtColons(s: string, i: nat, j: nat)
    requires i < j < |s| && s[i] == ':' && s[j] == ':'
    ensures s == s[..i] + ":" + s[i + 1..j] + ":" + s[j + 1..]
  {
    assert s == s[..i] + [s[i]] + s[i + 1..j] + [s[j]] + s[j + 1..];
  }

  /** Every location string reads back as the file, line and column it was
      made from, or as ("<unknown>", 0, 0) when the location is unavailable. */
  lemma LocationStrRoundTrip(loc: DiagnosticLocation)
    ensures loc.IsValid() ==>
      ParseLocationStr(LocationStr(loc)) == Some(LocationParts(RelativePath(loc), loc.line, loc.column))
    ensures !loc.IsValid() ==>
      ParseLocationStr(LocationStr(loc)) == Some(LocationParts("<unknown>", 0, 0))
  {
    if loc.IsValid() {
      FileLineColumnRoundTrip(RelativePath(loc), loc.line, loc.column);
    } else {
      FileLineColumnRoundTrip("<unknown>", 0, 0);
      assert FileLineColumn("<unknown>", 0, 0) == UnknownLocationStr;
    }
  }
}
