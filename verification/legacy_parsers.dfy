/**
 * The stand-alone `parsers.py` module: `DependencyParser.parse_package_json`
 * (npm records, null sections skipped), `DependencyParser.parse_requirements_txt`
 * (a line classifier for PEP 440 comparison operators) and its own two-entry
 * `get_parser_for_file`. The module imports a name its config module does not
 * define, so nothing can import it; its functions are modelled as written.
 */
module LegacyParsers {
  import opened Wrappers
  import opened Types
  import opened Strings
  import NodeJS

  // ---------------------------------------------------------------- package.json

  /**
   * What `parse_package_json` returns or raises. A decode failure is re-raised
   * as `JSONDecodeError(msg)`, whose constructor needs three arguments, so the
   * caller sees a TypeError; a document that is not an object has no `.get`.
   */
  function PackageJsonSpec(path: Path, file: FileState): Result<seq<Dependency>, Error> {
    var p := PathString(path);
    match file
    case Missing => Err(FileNotFound(p))
    case NotUtf8(_) => Err(EncodingError(None))
    case Text(_, None, _) => Err(TypeError)
    case Text(_, Some(NotAnObject), _) => Err(AttributeError)
    case Text(_, Some(JsonObject(fields)), _) => Ok(NodeJS.RecordsOf(p, fields, Npm, |NodeJS.NpmDependencySections|))
  }

  /** `DependencyParser.parse_package_json`. */
  method ParsePackageJson(path: Path, file: FileState) returns (r: Result<seq<Dependency>, Error>)
    ensures r == PackageJsonSpec(path, file)
  {
    var p := PathString(path);
    if file.Missing? {
      return Err(FileNotFound(p));
    } else if file.NotUtf8? {
      return Err(EncodingError(None));
    } else if file.json.None? {
      return Err(TypeError);
    } else if file.json.value.NotAnObject? {
      return Err(AttributeError);
    }
    var fields := file.json.value.fields;
    var deps: seq<Dependency> := [];
    for i := 0 to |NodeJS.NpmDependencySections|
      invariant deps == NodeJS.RecordsOf(p, fields, Npm, i)
    {
      var section := NodeJS.NpmDependencySections[i];
      deps := NodeJS.AppendSection(deps, p, section, Npm, NodeJS.SectionItems(fields, section));
    }
    return Ok(deps);
  }

  /**
   * Every decoded object is read: a null section contributes nothing instead
   * of failing, and the records are those of the package parser labelled `npm`.
   */
  lemma PackageJsonNeverFailsOnObjects(path: Path, lines: seq<string>, fields: map<string, JsonSection>, xml: Option<Element>)
    ensures var r := PackageJsonSpec(path, Text(lines, Some(JsonObject(fields)), xml));
      && r.Ok?
      && |r.value| == NodeJS.ItemCount(fields, |NodeJS.NpmDependencySections|)
      && forall k :: 0 <= k < |r.value| ==> r.value[k].ecosystem == Npm && r.value[k].origin.Section?
  {
    NodeJS.RecordsOfShape(PathString(path), fields, Npm, |NodeJS.NpmDependencySections|);
  }

  /**
   * Without a null section and without an Ionic package, the stand-alone
   * parser and the package parser give the same records; with a null section
   * the package parser fails where this one does not.
   */
  lemma PackageJsonAgreesWithNodeJS(path: Path, lines: seq<string>, fields: map<string, JsonSection>, xml: Option<Element>)
    ensures var file := Text(lines, Some(JsonObject(fields)), xml);
      && (!NodeJS.HasNullSection(fields) && !NodeJS.DeclaresIonic(fields) ==> PackageJsonSpec(path, file) == NodeJS.NodeJSSpec(path, file))
      && (NodeJS.HasNullSection(fields) ==> PackageJsonSpec(path, file).Ok? && NodeJS.NodeJSSpec(path, file) == Err(TypeError))
  {
  }

  // ---------------------------------------------------------------- requirements.txt

  /** The operators of the `any(...)` test, in the order written there. */
  const AnyOps: seq<string> := [">=", "<=", ">", "<", "~=", "!="]

  /** The operators the extraction loop tries, in priority order. */
  const ComparisonOps: seq<string> := [">=", "<=", "~=", "!=", ">", "<"]

  /** A stripped line the loop passes over: empty, a comment, or an option such as `-r`. */
  predicate SkippedLine(line: string) {
    line == [] || StartsWith(line, "#") || StartsWith(line, "-")
  }

  /** The first operator, from position `j` of the priority list on, that occurs in the line. */
  function FirstOpFrom(line: string, j: nat): Option<string>
    requires j <= |ComparisonOps|
    decreases |ComparisonOps| - j
  {
    if j == |ComparisonOps| then None
    else if Contains(line, ComparisonOps[j]) then Some(ComparisonOps[j])
    else FirstOpFrom(line, j + 1)
  }

  /** The operator the extraction loop settles on. */
  function FirstOp(line: string): Option<string> {
    FirstOpFrom(line, 0)
  }

  /** `any(op in line for op in [...])`. */
  predicate HasAnyOp(line: string) {
    exists k :: 0 <= k < |AnyOps| && Contains(line, AnyOps[k])
  }

  /** What a line declares: a name and the version specifier, if any. */
  datatype Requirement = Requirement(name: string, versionSpec: Option<string>)

  /** How `parse_requirements_txt` reads one stripped line; None for a skipped line. */
  function ReadRequirement(line: string): Option<Requirement> {
    if SkippedLine(line) then None else Some(SplitRequirement(line))
  }

  /** How a line that is not skipped is split into a name and a version specifier. */
  function SplitRequirement(line: string): Requirement {
    if Contains(line, "==") then
      Requirement(Strip(Before(line, "==")), Some(Strip(After(line, "=="))))
    else
      match FirstOp(line)
      case Some(op) => Requirement(Strip(Before(line, op)), Some(op + Strip(After(line, op))))
      case None => Requirement(Strip(line), None)
  }

  /** The record of a requirement read from line `lineNumber`. */
  function PypiRecord(req: Requirement, lineNumber: nat, path: string): Dependency {
    Dependency(Pypi, req.name, req.versionSpec, path, PypiLine(lineNumber))
  }

  /** The record, if any, of what line `lineNumber` reads as. */
  function RecordOf(reading: Option<Requirement>, lineNumber: nat, path: string): seq<Dependency> {
    match reading
    case None => []
    case Some(req) => [PypiRecord(req, lineNumber, path)]
  }

  /** The records the extraction loop has collected after the first `n` lines. */
  function RequirementsRun(lines: seq<string>, n: nat, path: string): seq<Dependency>
    requires n <= |lines|
  {
    if n == 0 then []
    else
      RequirementsRun(lines, n - 1, path) + RecordOf(ReadRequirement(Strip(lines[n - 1])), n, path)
  }

  /** The reading of every stripped line, in order. */
  function LineReads(lines: seq<string>): (readings: seq<Option<Requirement>>)
    ensures |readings| == |lines|
  {
    seq(|lines|, i requires 0 <= i < |lines| => ReadRequirement(Strip(lines[i])))
  }

  /** The records made from the first `n` readings, numbering lines from 1. */
  function RecordsOfReads(readings: seq<Option<Requirement>>, n: nat, path: string): seq<Dependency>
    requires n <= |readings|
  {
    if n == 0 then []
    else
      RecordsOfReads(readings, n - 1, path) + RecordOf(readings[n - 1], n, path)
  }

  /**
   * What `parse_requirements_txt` returns or raises. A decoding failure is
   * re-raised as `UnicodeDecodeError(msg)`, whose constructor needs five
   * arguments, so the caller sees a TypeError.
   */
  function RequirementsSpec(path: Path, file: FileState): Result<seq<Dependency>, Error> {
    var p := PathString(path);
    match file
    case Missing => Err(FileNotFound(p))
    case NotUtf8(_) => Err(TypeError)
    case Text(lines, _, _) => Ok(RequirementsRun(lines, |lines|, p))
  }

  /** An operator of the priority list occurs in the line exactly when one of the `any` test does. */
  lemma {:induction false} FirstOpFromSome(line: string, j: nat)
    requires j <= |ComparisonOps|
    ensures FirstOpFrom(line, j).Some? <==> exists m :: j <= m < |ComparisonOps| && Contains(line, ComparisonOps[m])
    decreases |ComparisonOps| - j
  {
    if j < |ComparisonOps| {
      FirstOpFromSome(line, j + 1);
    }
  }

  /** The `any` test and the extraction loop agree on whether the line has an operator. */
  lemma AnyOpIffFirstOp(line: string)
    ensures HasAnyOp(line) <==> FirstOp(line).Some?
  {
    FirstOpFromSome(line, 0);
    assert AnyOps[0] == ComparisonOps[0] && AnyOps[1] == ComparisonOps[1] && AnyOps[2] == ComparisonOps[4];
    assert AnyOps[3] == ComparisonOps[5] && AnyOps[4] == ComparisonOps[2] && AnyOps[5] == ComparisonOps[3];
    if FirstOp(line).Some? {
      var m :| 0 <= m < |ComparisonOps| && Contains(line, ComparisonOps[m]);
      var k := if m == 0 then 0 else if m == 1 then 1 else if m == 2 then 4 else if m == 3 then 5 else if m == 4 then 2 else 3;
      assert Contains(line, AnyOps[k]);
    }
  }

  /** The body of the extraction loop for one stripped line: what it appends, if anything. */
  method ReadLine(line: string) returns (req: Option<Requirement>)
    ensures req == ReadRequirement(line)
  {
    if line == [] || StartsWith(line, "#") {
      return None;
    }
    if StartsWith(line, "-") {
      return None;
    }
    if Contains(line, "==") {
      var name, version := Before(line, "=="), After(line, "==");
      req := Some(Requirement(Strip(name), Some(Strip(version))));
    } else if exists k :: 0 <= k < |AnyOps| && Contains(line, AnyOps[k]) {
      AnyOpIffFirstOp(line);
      var j := 0;
      while j < |ComparisonOps|
        invariant 0 <= j <= |ComparisonOps|
        invariant FirstOpFrom(line, j) == FirstOp(line)
      {
        var op := ComparisonOps[j];
        if Contains(line, op) {
          var name, version := Before(line, op), After(line, op);
          return Some(Requirement(Strip(name), Some(op + Strip(version))));
        }
        j := j + 1;
      }
      assert false;
    } else {
      AnyOpIffFirstOp(line);
      req := Some(Requirement(Strip(line), None));
    }
  }

  /** `DependencyParser.parse_requirements_txt`. */
  method ParseRequirementsTxt(path: Path, file: FileState) returns (r: Result<seq<Dependency>, Error>)
    ensures r == RequirementsSpec(path, file)
  {
    var p := PathString(path);
    if file.Missing? {
      return Err(FileNotFound(p));
    } else if file.NotUtf8? {
      return Err(TypeError);
    }
    var lines := file.lines;
    var deps: seq<Dependency> := [];
    for i := 0 to |lines|
      invariant deps == RequirementsRun(lines, i, p)
    {
      var req := ReadLine(Strip(lines[i]));
      if req.Some? {
        deps := deps + [PypiRecord(req.value, i + 1, p)];
      }
    }
    return Ok(deps);
  }

  /** The number of readings among the first `n` that yield a requirement. */
  function CountSome(readings: seq<Option<Requirement>>, n: nat): nat
    requires n <= |readings|
  {
    if n == 0 then 0 else CountSome(readings, n - 1) + (if readings[n - 1].Some? then 1 else 0)
  }

  /** One record per reading that yields a requirement. */
  lemma {:induction false} RecordsCount(readings: seq<Option<Requirement>>, n: nat, path: string)
    requires n <= |readings|
    ensures |RecordsOfReads(readings, n, path)| == CountSome(readings, n)
  {
    if n > 0 {
      RecordsCount(readings, n - 1, path);
    }
  }

  /** Every record names a line between 1 and `n`, and the lines strictly increase. */
  predicate LinesIncrease(rs: seq<Dependency>, n: nat) {
    && (forall k :: 0 <= k < |rs| ==> rs[k].origin.PypiLine? && 1 <= rs[k].origin.lineNumber <= n)
    && (forall k, k' :: 0 <= k < k' < |rs| ==> rs[k].origin.lineNumber < rs[k'].origin.lineNumber)
  }

  /** Records carry 1-based line numbers up to `n`, in strictly increasing line order. */
  lemma {:induction false} RecordsOrder(readings: seq<Option<Requirement>>, n: nat, path: string)
    requires n <= |readings|
    ensures LinesIncrease(RecordsOfReads(readings, n, path), n)
  {
    if n > 0 {
      RecordsOrder(readings, n - 1, path);
      var before := RecordsOfReads(readings, n - 1, path);
      var rs := RecordsOfReads(readings, n, path);
      assert rs == before + RecordOf(readings[n - 1], n, path);
      assert forall k :: 0 <= k < |before| ==> rs[k] == before[k];
      assert forall k :: |before| <= k < |rs| ==> rs[k].origin == PypiLine(n);
    }
  }

  /** Record `k` is the `pypi` record of the reading its line number names. */
  lemma {:induction false} RecordsFrom(readings: seq<Option<Requirement>>, n: nat, path: string, k: nat)
    requires n <= |readings| && k < |RecordsOfReads(readings, n, path)|
    ensures var d := RecordsOfReads(readings, n, path)[k];
      && d.origin.PypiLine? && 1 <= d.origin.lineNumber <= n
      && d.ecosystem == Pypi && d.declaredIn == path
      && readings[d.origin.lineNumber - 1] == Some(Requirement(d.name, d.versionSpec))
  {
    var before := RecordsOfReads(readings, n - 1, path);
    if k < |before| {
      RecordsFrom(readings, n - 1, path, k);
      assert RecordsOfReads(readings, n, path)[k] == before[k];
    }
  }

  /** The loop's records are the records of the line readings. */
  lemma {:induction false} RequirementsRunReads(lines: seq<string>, n: nat, path: string)
    requires n <= |lines|
    ensures RequirementsRun(lines, n, path) == RecordsOfReads(LineReads(lines), n, path)
  {
    if n > 0 {
      RequirementsRunReads(lines, n - 1, path);
      var reading := ReadRequirement(Strip(lines[n - 1]));
      assert LineReads(lines)[n - 1] == reading;
    }
  }

  /** A line yields a requirement exactly when the loop does not pass over it. */
  lemma ReadRequirementSome(line: string)
    ensures ReadRequirement(line).Some? <==> !SkippedLine(line)
  {
  }

  /** The number of lines among the first `n` that the loop does not pass over. */
  function KeptLines(lines: seq<string>, n: nat): nat
    requires n <= |lines|
  {
    if n == 0 then 0 else KeptLines(lines, n - 1) + (if SkippedLine(Strip(lines[n - 1])) then 0 else 1)
  }

  /** When a reading yields a requirement exactly for the lines not passed over, counting either is the same. */
  lemma {:induction false} KeptLinesCount(readings: seq<Option<Requirement>>, lines: seq<string>, n: nat)
    requires n <= |lines| == |readings|
    requires forall i :: 0 <= i < |lines| ==> (readings[i].Some? <==> !SkippedLine(Strip(lines[i])))
    ensures CountSome(readings, n) == KeptLines(lines, n)
  {
    if n > 0 {
      KeptLinesCount(readings, lines, n - 1);
    }
  }

  /** Every record is a `pypi` record of the file. */
  lemma {:induction false} RecordsKind(readings: seq<Option<Requirement>>, n: nat, path: string)
    requires n <= |readings|
    ensures forall d :: d in RecordsOfReads(readings, n, path) ==> d.ecosystem == Pypi && d.declaredIn == path
  {
    if n > 0 {
      RecordsKind(readings, n - 1, path);
    }
  }

  /**
   * What `parse_requirements_txt` returns for a readable file: one `pypi`
   * record per line that is not empty, a comment or an option, in strictly
   * increasing line order.
   */
  lemma RequirementsShape(path: Path, lines: seq<string>, json: Option<JsonDoc>, xml: Option<Element>)
    ensures RequirementsSpec(path, Text(lines, json, xml)).Ok?
    ensures var rs := RequirementsSpec(path, Text(lines, json, xml)).value;
      && |rs| == KeptLines(lines, |lines|)
      && (forall d :: d in rs ==> d.ecosystem == Pypi && d.declaredIn == PathString(path))
      && LinesIncrease(rs, |lines|)
  {
    var p := PathString(path);
    var readings := LineReads(lines);
    RequirementsRunReads(lines, |lines|, p);
    RecordsCount(readings, |lines|, p);
    forall i | 0 <= i < |lines|
      ensures readings[i].Some? <==> !SkippedLine(Strip(lines[i]))
    {
      ReadRequirementSome(Strip(lines[i]));
    }
    KeptLinesCount(readings, lines, |lines|);
    RecordsOrder(readings, |lines|, p);
    RecordsKind(readings, |lines|, p);
  }

  /** Record `k` of the line loop carries what its own line, which is not passed over, reads as. */
  lemma RunLine(lines: seq<string>, p: string, k: nat)
    requires k < |RequirementsRun(lines, |lines|, p)|
    ensures var d := RequirementsRun(lines, |lines|, p)[k];
      && d.origin.PypiLine? && 1 <= d.origin.lineNumber <= |lines|
      && var line := Strip(lines[d.origin.lineNumber - 1]);
         !SkippedLine(line) && ReadRequirement(line) == Some(Requirement(d.name, d.versionSpec))
  {
    var readings := LineReads(lines);
    var rs := RequirementsRun(lines, |lines|, p);
    assert rs == RecordsOfReads(readings, |lines|, p) by {
      RequirementsRunReads(lines, |lines|, p);
    }
    RecordsFrom(readings, |lines|, p, k);
    var d := rs[k];
    var n := d.origin.lineNumber;
    var line := Strip(lines[n - 1]);
    assert ReadRequirement(line) == Some(Requirement(d.name, d.versionSpec)) by {
      assert readings[n - 1] == ReadRequirement(line);
    }
    assert !SkippedLine(line) by {
      ReadRequirementSome(line);
    }
  }

  /** Record `k` of a readable file carries what its own line, which is not passed over, reads as. */
  lemma RequirementsLine(path: Path, lines: seq<string>, json: Option<JsonDoc>, xml: Option<Element>, k: nat)
    requires RequirementsSpec(path, Text(lines, json, xml)).Ok?
    requires k < |RequirementsSpec(path, Text(lines, json, xml)).value|
    ensures var d := RequirementsSpec(path, Text(lines, json, xml)).value[k];
      && d.origin.PypiLine? && 1 <= d.origin.lineNumber <= |lines|
      && var line := Strip(lines[d.origin.lineNumber - 1]);
         !SkippedLine(line) && ReadRequirement(line) == Some(Requirement(d.name, d.versionSpec))
  {
    assert RequirementsSpec(path, Text(lines, json, xml)).value == RequirementsRun(lines, |lines|, PathString(path));
    RunLine(lines, PathString(path), k);
  }

  // What a line reads as, for the three forms a requirement takes.

  /** The characters the comparison operators are made of. */
  const OpChars: set<char> := {'<', '>', '=', '~', '!'}

  /** No operator character occurs in `s`. */
  predicate OpFree(s: string) {
    forall c :: c in s ==> c !in OpChars
  }

  /** A name the loop keeps as it is: not empty, not a comment or an option, no whitespace at either end. */
  predicate PlainName(name: string) {
    name != [] && name[0] != '#' && name[0] != '-' && !IsSpace(name[0]) && !IsSpace(name[|name| - 1])
  }

  /** `==` splits a pinned requirement at its first `==`: the name, and the stripped rest. */
  lemma PinnedRoundTrip(name: string, version: string)
    requires PlainName(name) && '=' !in name
    ensures ReadRequirement(name + "==" + version) == Some(Requirement(name, Some(Strip(version))))
  {
    var line := name + "==" + version;
    SplitOnceAfterFree(name, "==", version);
    IndexOfAfterFree(name, "==", version);
    assert line[0] == name[0];
    StripKeeps(name);
  }

  /**
   * A string none of whose characters occurs around `op`, at least as long
   * as `op` and different from it, does not occur in `x + op + y`.
   */
  lemma OpNotFound(x: string, op: string, y: string, t: string)
    requires t != [] && (forall c :: c in t ==> c !in x && c !in y) && |t| >= |op| && t != op
    ensures !Contains(x + op + y, t)
  {
    var line := x + op + y;
    IndexOfSpec(line, t);
    assert t[0] in t && t[|t| - 1] in t;
    forall j: nat | j + |t| <= |line|
      ensures !OccursAt(line, t, j)
    {
      var w := line[j..j + |t|];
      if j < |x| {
        assert w[0] == x[j] && x[j] in x;
      } else if j + |t| > |x| + |op| {
        var i := j + |t| - 1 - |x| - |op|;
        assert w[|t| - 1] == y[i] && y[i] in y;
      } else {
        assert w == op;
      }
    }
  }

  /** The priority list, from position `m` up to `k`, settles on operator `k` when only it occurs. */
  lemma {:induction false} FirstOpIs(name: string, version: string, k: nat, m: nat)
    requires k < |ComparisonOps| && m <= k
    requires OpFree(name) && OpFree(version)
    ensures FirstOpFrom(name + ComparisonOps[k] + version, m) == Some(ComparisonOps[k])
    decreases k - m
  {
    var op := ComparisonOps[k];
    var line := name + op + version;
    if m == k {
      IndexOfAfterFree(name, op, version);
    } else {
      var t := ComparisonOps[m];
      assert forall c :: c in t ==> c in OpChars;
      assert forall c :: c in t ==> c !in name && c !in version;
      OpNotFound(name, op, version, t);
      FirstOpIs(name, version, k, m + 1);
    }
  }

  /**
   * A requirement written with one comparison operator reads back as its
   * name and the operator followed by the stripped version.
   */
  lemma OperatorRoundTrip(name: string, k: nat, version: string)
    requires k < |ComparisonOps|
    requires PlainName(name) && OpFree(name) && OpFree(version)
    ensures ReadRequirement(name + ComparisonOps[k] + version)
         == Some(Requirement(name, Some(ComparisonOps[k] + Strip(version))))
  {
    var op := ComparisonOps[k];
    var line := name + op + version;
    assert line[0] == name[0];
    assert '=' in OpChars;
    OpNotFound(name, op, version, "==");
    FirstOpIs(name, version, k, 0);
    SplitOnceAfterFree(name, op, version);
    StripKeeps(name);
  }

  /** With no operator at all, the whole stripped line is the name and there is no version. */
  lemma {:induction false} NoOpFrom(line: string, m: nat)
    requires m <= |ComparisonOps| && OpFree(line)
    ensures FirstOpFrom(line, m) == None
    decreases |ComparisonOps| - m
  {
    if m < |ComparisonOps| {
      NotContainsFirstChar(line, ComparisonOps[m]);
      NoOpFrom(line, m + 1);
    }
  }

  /** A bare name reads as itself, without a version. */
  lemma BareNameRoundTrip(name: string)
    requires PlainName(name) && OpFree(name)
    ensures ReadRequirement(name) == Some(Requirement(name, None))
  {
    NotContainsFirstChar(name, "==");
    NoOpFrom(name, 0);
    StripKeeps(name);
  }

  /**
   * `>=` outranks `<` whatever their places: in `a<b>=c` the name is
   * everything before `>=`, the `<` included.
   */
  lemma OperatorPriority(a: string, b: string, c: string)
    requires OpFree(a) && OpFree(b) && OpFree(c) && PlainName(a + "<" + b)
    ensures ReadRequirement(a + "<" + b + ">=" + c) == Some(Requirement(a + "<" + b, Some(">=" + Strip(c))))
  {
    var name := a + "<" + b;
    var line := name + ">=" + c;
    assert !SkippedLine(line) by {
      assert line[0] == name[0];
    }
    assert forall ch :: ch in name ==> ch in a || ch == '<' || ch in b;
    assert !Contains(line, "==") by {
      assert line == name + ">" + "=" + c;
      assert '=' in OpChars;
      OpNotFound(name + ">", "=", c, "==");
    }
    assert FirstOp(line) == Some(">=") by {
      assert '>' in OpChars;
      IndexOfAfterFree(name, ">=", c);
      assert ComparisonOps[0] == ">=";
    }
    assert Before(line, ">=") == name && After(line, ">=") == c by {
      SplitOnceAfterFree(name, ">=", c);
    }
    StripKeeps(name);
  }

  /** A triple `=` is read as `==` followed by a version that starts with `=`. */
  lemma TripleEquals()
    ensures ReadRequirement("foo===1.0") == Some(Requirement("foo", Some("=1.0")))
  {
    assert "foo===1.0" == "foo" + "==" + "=1.0";
    PinnedRoundTrip("foo", "=1.0");
    StripKeeps("=1.0");
  }

  // ---------------------------------------------------------------- lookup

  /** The two functions of the module's own table. */
  datatype LegacyParser = PackageJsonParser | RequirementsTxtParser

  /** The module's `get_parser_for_file`: a fixed two-entry table, ValueError otherwise. */
  function LegacyGetParserForFile(name: string): (r: Result<LegacyParser, Error>)
    ensures r.Ok? ==> name == "package.json" || name == "requirements.txt"
    ensures r.Err? ==> r.error == UnsupportedFile(name)
  {
    if name == "package.json" then Ok(PackageJsonParser)
    else if name == "requirements.txt" then Ok(RequirementsTxtParser)
    else Err(UnsupportedFile(name))
  }

  /**
   * Calling the function the table returns: `parse_package_json` for the
   * package.json entry, `parse_requirements_txt` for the requirements.txt one.
   */
  method LegacyParse(parser: LegacyParser, path: Path, file: FileState) returns (r: Result<seq<Dependency>, Error>)
    ensures parser == PackageJsonParser ==> r == PackageJsonSpec(path, file)
    ensures parser == RequirementsTxtParser ==> r == RequirementsSpec(path, file)
  {
    match parser
    case PackageJsonParser =>
      r := ParsePackageJson(path, file);
    case RequirementsTxtParser =>
      r := ParseRequirementsTxt(path, file);
  }

  /** Looking a file name up and calling what the table returns parses it with the parser its name calls for. */
  method LegacyLookupAndParse(name: string, path: Path, file: FileState) returns (r: Result<seq<Dependency>, Error>)
    ensures name == "package.json" ==> r == PackageJsonSpec(path, file)
    ensures name == "requirements.txt" ==> r == RequirementsSpec(path, file)
    ensures name != "package.json" && name != "requirements.txt" ==> r == Err(UnsupportedFile(name))
  {
    var parser := LegacyGetParserForFile(name);
    if parser.Err? {
      return Err(parser.error);
    }
    r := LegacyParse(parser.value, path, file);
  }

  /**
   * Exactly package.json and requirements.txt have a function, each its own,
   * and every other name is refused with its own name in the error.
   */
  lemma LegacyLookup(name: string)
    ensures LegacyGetParserForFile(name).Ok? <==> name in {"package.json", "requirements.txt"}
    ensures LegacyGetParserForFile(name).Err? ==> LegacyGetParserForFile(name).error == UnsupportedFile(name)
    ensures LegacyGetParserForFile("package.json") != LegacyGetParserForFile("requirements.txt")
  {
    assert "package.json" != "requirements.txt" by {
      assert "package.json"[0] != "requirements.txt"[0];
    }
  }
}
