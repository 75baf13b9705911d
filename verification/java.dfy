/**
 * The Java parser: `pom.xml` through a namespaced XML search for dependency
 * elements, `build.gradle` / `build.gradle.kts` through a line-by-line
 * heuristic with an "inside the dependencies block" flag.
 */
module Java {
  import opened Wrappers
  import opened Types
  import opened Strings

  /** `get_supported_files()`. */
  const JavaSupportedFiles: seq<string> := ["pom.xml", "build.gradle", "build.gradle.kts"]

  /** The POM namespace bound to the `mvn` prefix. */
  const PomNamespace: string := "http://maven.apache.org/POM/4.0.0"

  /** `mvn:local`. */
  function Pom(local: string): QName {
    QName(PomNamespace, local)
  }

  // ---------------------------------------------------------------- Maven

  /** The elements strictly below `e`, in document order. */
  function Descendants(e: Element): seq<Element>
    decreases e, 1
  {
    DescendantsOf(e.children)
  }

  /** Each element of `es` followed by its own descendants. */
  function DescendantsOf(es: seq<Element>): seq<Element>
    decreases es, 0
  {
    if es == [] then [] else [es[0]] + Descendants(es[0]) + DescendantsOf(es[1..])
  }

  /** The elements of `es` with the given tag, in order. */
  function WithTag(es: seq<Element>, tag: QName): seq<Element> {
    if es == [] then []
    else WithTag(es[..|es| - 1], tag) + (if es[|es| - 1].tag == tag then [es[|es| - 1]] else [])
  }

  /** `root.findall(".//mvn:<local>", ns)`: every element below the root with that tag, in document order. */
  function FindAll(root: Element, local: string): seq<Element> {
    WithTag(Descendants(root), Pom(local))
  }

  /** The first of `es` with the given tag: every element before it has another tag. */
  function FirstWithTag(es: seq<Element>, tag: QName): (r: Option<Element>)
    ensures r.Some? ==> r.value in es && r.value.tag == tag
    ensures r.Some? ==>
      exists i :: 0 <= i < |es| && es[i] == r.value && forall j :: 0 <= j < i ==> es[j].tag != tag
    ensures r.None? ==> forall i :: 0 <= i < |es| ==> es[i].tag != tag
  {
    if es == [] then None
    else if es[0].tag == tag then Some(es[0])
    else FirstWithTag(es[1..], tag)
  }

  /** `e.find("mvn:<local>", ns)`: the first direct child with that tag. */
  function Find(e: Element, local: string): Option<Element> {
    FirstWithTag(e.children, Pom(local))
  }

  /** `f"{x}"` for an element's `.text`, which is None for an empty element. */
  function FormatText(text: Option<string>): string {
    match text
    case Some(s) => s
    case None => "None"
  }

  /** A `dependency` element has both a groupId and an artifactId child. */
  predicate HasCoordinates(dep: Element) {
    Find(dep, "groupId").Some? && Find(dep, "artifactId").Some?
  }

  /** The record built from one `dependency` element that has both coordinates. */
  function MavenRecord(path: string, dep: Element): Dependency
    requires HasCoordinates(dep)
  {
    var version := Find(dep, "version");
    var scope := Find(dep, "scope");
    Dependency(
      Maven,
      FormatText(Find(dep, "groupId").value.text) + ":" + FormatText(Find(dep, "artifactId").value.text),
      if version.Some? then version.value.text else None,
      path,
      MavenScope(if scope.Some? then scope.value.text else Some("compile")))
  }

  /** The records of a list of `dependency` elements, skipping those without coordinates. */
  function MavenRecords(path: string, deps: seq<Element>): seq<Dependency> {
    if deps == [] then []
    else
      var last := deps[|deps| - 1];
      MavenRecords(path, deps[..|deps| - 1]) + (if HasCoordinates(last) then [MavenRecord(path, last)] else [])
  }

  /** What `_parse_maven` returns or raises for a file in the given state. */
  function MavenSpec(path: Path, file: FileState): Result<seq<Dependency>, Error> {
    var p := PathString(path);
    if file.Missing? then Err(FileNotFound(p))
    else if file.xml.None? then Err(MalformedManifest(p))
    else Ok(MavenRecords(p, FindAll(file.xml.value, "dependency")))
  }

  /** `_parse_maven`. */
  method ParseMaven(path: Path, file: FileState) returns (r: Result<seq<Dependency>, Error>)
    ensures r == MavenSpec(path, file)
  {
    var p := PathString(path);
    if file.Missing? {
      return Err(FileNotFound(p));
    } else if file.xml.None? {
      return Err(MalformedManifest(p));
    }
    var root := file.xml.value;
    var found := FindAll(root, "dependency");
    var deps: seq<Dependency> := [];
    for i := 0 to |found|
      invariant deps == MavenRecords(p, found[..i])
    {
      assert found[..i + 1][..i] == found[..i];
      var dependency := found[i];
      var groupId := Find(dependency, "groupId");
      var artifactId := Find(dependency, "artifactId");
      var version := Find(dependency, "version");
      var scope := Find(dependency, "scope");
      if groupId.Some? && artifactId.Some? {
        var name := FormatText(groupId.value.text) + ":" + FormatText(artifactId.value.text);
        var versionSpec := if version.Some? then version.value.text else None;
        deps := deps + [Dependency(Maven, name, versionSpec, p,
                                   MavenScope(if scope.Some? then scope.value.text else Some("compile")))];
      }
    }
    assert found[..|found|] == found;
    return Ok(deps);
  }

  /** The number of elements of `deps` that have both coordinates. */
  function CountWithCoordinates(deps: seq<Element>): nat {
    if deps == [] then 0
    else CountWithCoordinates(deps[..|deps| - 1]) + (if HasCoordinates(deps[|deps| - 1]) then 1 else 0)
  }

  /**
   * One record per `dependency` element that has a groupId and an artifactId
   * (so never more records than elements), each with the file's path, the
   * `maven` ecosystem, name `groupId:artifactId` and a scope field.
   */
  lemma {:induction false} MavenRecordsShape(path: string, deps: seq<Element>)
    ensures var rs := MavenRecords(path, deps);
      && |rs| == CountWithCoordinates(deps) <= |deps|
      && forall k :: 0 <= k < |rs| ==>
           && rs[k].ecosystem == Maven
           && rs[k].declaredIn == path
           && rs[k].origin.MavenScope?
           && exists i :: 0 <= i < |deps| && HasCoordinates(deps[i]) && rs[k] == MavenRecord(path, deps[i])
  {
    if deps != [] {
      var init := deps[..|deps| - 1];
      MavenRecordsShape(path, init);
      var rs := MavenRecords(path, deps);
      forall k | 0 <= k < |rs|
        ensures exists i :: 0 <= i < |deps| && HasCoordinates(deps[i]) && rs[k] == MavenRecord(path, deps[i])
      {
        if k < |MavenRecords(path, init)| {
          var i :| 0 <= i < |init| && HasCoordinates(init[i]) && rs[k] == MavenRecord(path, init[i]);
          assert deps[i] == init[i];
        } else {
          assert rs[k] == MavenRecord(path, deps[|deps| - 1]);
        }
      }
    }
  }

  /** The elements of `deps` that have both coordinates, in document order. */
  function Coordinated(deps: seq<Element>): (r: seq<Element>)
    ensures |r| == CountWithCoordinates(deps)
    ensures forall i :: 0 <= i < |r| ==> r[i] in deps && HasCoordinates(r[i])
  {
    if deps == [] then []
    else
      var last := deps[|deps| - 1];
      Coordinated(deps[..|deps| - 1]) + (if HasCoordinates(last) then [last] else [])
  }

  /**
   * Record `k` is the one built from the `k`-th `dependency` element that has
   * both coordinates: the loop skips the others and keeps document order.
   */
  lemma {:induction false} MavenRecordsAt(path: string, deps: seq<Element>)
    ensures |MavenRecords(path, deps)| == |Coordinated(deps)|
    ensures forall k :: 0 <= k < |Coordinated(deps)| ==>
              MavenRecords(path, deps)[k] == MavenRecord(path, Coordinated(deps)[k])
  {
    if deps != [] {
      MavenRecordsAt(path, deps[..|deps| - 1]);
    }
  }

  /** A `dependency` element without a version and a scope gives no version and the scope "compile". */
  lemma MavenDefaults(path: string, dep: Element)
    requires HasCoordinates(dep)
    requires Find(dep, "version").None? && Find(dep, "scope").None?
    ensures MavenRecord(path, dep).versionSpec == None
    ensures MavenRecord(path, dep).origin == MavenScope(Some("compile"))
  {
  }

  /** Filtering by tag keeps exactly the elements with that tag. */
  lemma {:induction false} WithTagMembers(es: seq<Element>, tag: QName)
    ensures forall e :: e in WithTag(es, tag) <==> e in es && e.tag == tag
  {
    if es != [] {
      WithTagMembers(es[..|es| - 1], tag);
      assert es == es[..|es| - 1] + [es[|es| - 1]];
    }
  }

  /** Filtering by a tag that no element carries leaves nothing. */
  lemma {:induction false} WithTagNone(es: seq<Element>, tag: QName)
    requires forall i :: 0 <= i < |es| ==> es[i].tag != tag
    ensures WithTag(es, tag) == []
  {
    if es != [] {
      WithTagNone(es[..|es| - 1], tag);
    }
  }

  /** A document with no POM-namespaced `dependency` element below its root yields no record. */
  lemma MavenNoDependencyElements(path: Path, lines: seq<string>, json: Option<JsonDoc>, root: Element)
    requires forall e :: e in Descendants(root) ==> e.tag != Pom("dependency")
    ensures MavenSpec(path, Text(lines, json, Some(root))) == Ok([])
  {
    WithTagNone(Descendants(root), Pom("dependency"));
  }

  /**
   * `ET.parse` decodes the bytes itself, so whether they are UTF-8 makes no
   * difference: a POM in another declared encoding gives the records of the
   * document it decodes to, and one that does not decode is malformed.
   */
  lemma MavenEncodingIndependent(path: Path, lines: seq<string>, json: Option<JsonDoc>, xml: Option<Element>)
    ensures MavenSpec(path, NotUtf8(xml)) == MavenSpec(path, Text(lines, json, xml))
    ensures xml.None? ==> MavenSpec(path, NotUtf8(xml)) == Err(MalformedManifest(PathString(path)))
    ensures xml.Some? ==> MavenSpec(path, NotUtf8(xml)) == Ok(MavenRecords(PathString(path), FindAll(xml.value, "dependency")))
  {
  }

  // ---------------------------------------------------------------- Gradle

  /** The configuration keywords that mark a dependency line. */
  const GradleKeywords: seq<string> :=
    ["implementation", "api", "compile", "testImplementation", "testCompile", "runtimeOnly", "compileOnly"]

  /** A (stripped) line that opens the dependencies block. */
  predicate OpensBlock(line: string) {
    Contains(line, "dependencies") && Contains(line, "{")
  }

  /** `any(keyword in line for keyword in [...])`: substring containment, so "api" matches inside any word. */
  predicate HasKeyword(line: string) {
    exists k :: 0 <= k < |GradleKeywords| && Contains(line, GradleKeywords[k])
  }

  /** `line.split("//")[0].strip()` when the line contains "//". */
  function DropComment(line: string): string {
    if Contains(line, "//") then Strip(Before(line, "//")) else line
  }

  /** The configuration: what precedes the first "(" when there is one, else "implementation". */
  function GradleScope(line: string): string {
    if Contains(line, "(") then Strip(Before(line, "(")) else "implementation"
  }

  /** The record a stripped line inside the dependencies block yields, if any. */
  function GradleRecord(line: string, lineNumber: nat, path: string): Option<Dependency> {
    if !HasKeyword(line) then None
    else
      var l := DropComment(line);
      if '\'' !in l && '"' !in l then None
      else
        var quote := if '\'' in l then '\'' else '"';
        var quoted := Split(l, quote);
        if |quoted| < 2 then None
        else
        var parts := Split(quoted[1], ':');
        if |parts| < 2 then None
        else Some(Dependency(Gradle, parts[0] + ":" + parts[1],
                             if |parts| >= 3 then Some(parts[2]) else None,
                             path, GradleLine(lineNumber, GradleScope(l))))
  }

  /**
   * Once a line holds a quote, splitting it at the quote chosen always gives
   * at least two parts, so the `len(parts) >= 2` test never fails.
   */
  lemma QuotedLineSplits(l: string)
    requires '\'' in l || '"' in l
    ensures |Split(l, if '\'' in l then '\'' else '"')| >= 2
  {
    SplitTwo(l, if '\'' in l then '\'' else '"');
  }

  /** The loop state: the block flag and the records so far. */
  datatype GradleState = GradleState(inBlock: bool, deps: seq<Dependency>)

  /** One iteration of the line loop. */
  function GradleStep(st: GradleState, raw: string, lineNumber: nat, path: string): GradleState {
    var line := Strip(raw);
    if OpensBlock(line) then GradleState(true, st.deps)
    else if !st.inBlock then st
    else if line == "}" then GradleState(false, st.deps)
    else
      match GradleRecord(line, lineNumber, path)
      case None => st
      case Some(d) => GradleState(true, st.deps + [d])
  }

  /** The state after the first `n` lines. */
  function GradleRun(lines: seq<string>, n: nat, path: string): GradleState
    requires n <= |lines|
  {
    if n == 0 then GradleState(false, [])
    else GradleStep(GradleRun(lines, n - 1, path), lines[n - 1], n, path)
  }

  /** What `_parse_gradle` returns or raises for a file in the given state. */
  function GradleSpec(path: Path, file: FileState): Result<seq<Dependency>, Error> {
    var p := PathString(path);
    match file
    case Missing => Err(FileNotFound(p))
    case NotUtf8(_) => Err(EncodingError(Some(p)))
    case Text(lines, _, _) => Ok(GradleRun(lines, |lines|, p).deps)
  }

  /** The body of the line loop inside a dependencies block, for a stripped line that is not "}". */
  method ReadGradleLine(line: string, lineNum: nat, p: string) returns (rec: Option<Dependency>)
    ensures rec == GradleRecord(line, lineNum, p)
  {
    rec := None;
    if exists k :: 0 <= k < |GradleKeywords| && Contains(line, GradleKeywords[k]) {
      var l := line;
      if Contains(l, "//") {
        l := Strip(Before(l, "//"));
      }
      if '\'' in l || '"' in l {
        var quote := if '\'' in l then '\'' else '"';
        var parts := Split(l, quote);
        if |parts| >= 2 {
          var depString := parts[1];
          var depParts := Split(depString, ':');
          if |depParts| >= 2 {
            var name := depParts[0] + ":" + depParts[1];
            var versionSpec := if |depParts| >= 3 then Some(depParts[2]) else None;
            var scope := if Contains(l, "(") then Strip(Before(l, "(")) else "implementation";
            rec := Some(Dependency(Gradle, name, versionSpec, p, GradleLine(lineNum, scope)));
          }
        }
      }
    }
  }

  /** `_parse_gradle`. */
  method ParseGradle(path: Path, file: FileState) returns (r: Result<seq<Dependency>, Error>)
    ensures r == GradleSpec(path, file)
  {
    var p := PathString(path);
    if file.Missing? {
      return Err(FileNotFound(p));
    } else if file.NotUtf8? {
      return Err(EncodingError(Some(p)));
    }
    var lines := file.lines;
    var deps: seq<Dependency> := [];
    var inDependenciesBlock := false;
    for i := 0 to |lines|
      invariant GradleState(inDependenciesBlock, deps) == GradleRun(lines, i, p)
    {
      var lineNum := i + 1;
      var line := Strip(lines[i]);
      if Contains(line, "dependencies") && Contains(line, "{") {
        inDependenciesBlock := true;
        continue;
      }
      if inDependenciesBlock {
        if line == "}" {
          inDependenciesBlock := false;
          continue;
        }
        var rec := ReadGradleLine(line, lineNum, p);
        if rec.Some? {
          deps := deps + [rec.value];
        }
      }
    }
    return Ok(deps);
  }

  /**
   * `d` is the record that line number `d.origin.lineNumber` of `lines` yields:
   * the stripped line neither opens a block nor is "}", and reading it gives `d`.
   */
  predicate FromLine(lines: seq<string>, d: Dependency, path: string) {
    && d.origin.GradleLine?
    && 1 <= d.origin.lineNumber <= |lines|
    && var line := Strip(lines[d.origin.lineNumber - 1]);
       !OpensBlock(line) && line != "}" && GradleRecord(line, d.origin.lineNumber, path) == Some(d)
  }

  /** A record read from a line is a `gradle` record of the file, numbered with that line, from a line holding a keyword. */
  lemma GradleRecordShape(line: string, lineNumber: nat, path: string)
    requires GradleRecord(line, lineNumber, path).Some?
    ensures var d := GradleRecord(line, lineNumber, path).value;
      && HasKeyword(line)
      && d.ecosystem == Gradle && d.declaredIn == path
      && d.origin.GradleLine? && d.origin.lineNumber == lineNumber
  {
  }

  /** One loop iteration keeps the records it had and adds at most one, numbered with the current line. */
  lemma GradleStepGrows(st: GradleState, raw: string, n: nat, path: string)
    ensures var deps := GradleStep(st, raw, n, path).deps;
      || deps == st.deps
      || (&& |deps| == |st.deps| + 1 && deps[..|st.deps|] == st.deps
          && deps[|st.deps|] == GradleRecord(Strip(raw), n, path).value
          && deps[|st.deps|].origin == GradleLine(n, deps[|st.deps|].origin.scope))
  {
    var deps := GradleStep(st, raw, n, path).deps;
    if deps != st.deps {
      assert deps == st.deps + [GradleRecord(Strip(raw), n, path).value];
      GradleRecordShape(Strip(raw), n, path);
    }
  }

  /**
   * A record the loop adds was read from a line that neither opens a block nor is "}",
   * while the loop was inside a `dependencies {` block.
   */
  lemma GradleStepFrom(st: GradleState, lines: seq<string>, n: nat, path: string)
    requires 1 <= n <= |lines|
    requires |GradleStep(st, lines[n - 1], n, path).deps| > |st.deps|
    ensures FromLine(lines, GradleStep(st, lines[n - 1], n, path).deps[|st.deps|], path)
    ensures st.inBlock
  {
    GradleStepGrows(st, lines[n - 1], n, path);
  }

  /** Every record is numbered with a line from 1 to `n`. */
  predicate NumberedWithin(rs: seq<Dependency>, n: nat) {
    forall k :: 0 <= k < |rs| ==> rs[k].origin.GradleLine? && 1 <= rs[k].origin.lineNumber <= n
  }

  /** Line numbers strictly increase along the records. */
  predicate NumbersIncrease(rs: seq<Dependency>) {
    forall k, k' :: 0 <= k < k' < |rs| ==>
      rs[k].origin.GradleLine? && rs[k'].origin.GradleLine? && rs[k].origin.lineNumber < rs[k'].origin.lineNumber
  }

  /** Keeping the records, or adding one numbered `n` after records numbered below `n`, keeps both orderings. */
  lemma GrowsInOrder(before: seq<Dependency>, rs: seq<Dependency>, n: nat)
    requires n >= 1 && NumberedWithin(before, n - 1) && NumbersIncrease(before)
    requires || rs == before
             || (&& |rs| == |before| + 1 && rs[..|before|] == before
                 && rs[|before|].origin.GradleLine? && rs[|before|].origin.lineNumber == n)
    ensures NumberedWithin(rs, n) && NumbersIncrease(rs)
  {
    if rs != before {
      forall k | 0 <= k < |rs|
        ensures rs[k].origin.GradleLine? && 1 <= rs[k].origin.lineNumber <= n
      {
        if k < |before| {
          assert rs[k] == before[k];
        }
      }
      forall k, k' | 0 <= k < k' < |rs|
        ensures rs[k].origin.GradleLine? && rs[k'].origin.GradleLine?
        ensures rs[k].origin.lineNumber < rs[k'].origin.lineNumber
      {
        assert rs[k] == before[k];
        if k' < |before| {
          assert rs[k'] == before[k'];
        }
      }
    }
  }

  /** Records of the first `n` lines carry 1-based line numbers up to `n`, strictly increasing. */
  lemma {:induction false} GradleRunOrder(lines: seq<string>, n: nat, path: string)
    requires n <= |lines|
    ensures NumberedWithin(GradleRun(lines, n, path).deps, n)
    ensures NumbersIncrease(GradleRun(lines, n, path).deps)
  {
    if n > 0 {
      var st := GradleRun(lines, n - 1, path);
      GradleRunOrder(lines, n - 1, path);
      assert GradleRun(lines, n, path) == GradleStep(st, lines[n - 1], n, path);
      GradleStepGrows(st, lines[n - 1], n, path);
      GrowsInOrder(st.deps, GradleRun(lines, n, path).deps, n);
    }
  }

  /** Record `k` of the first `n` lines was read from the line its line number names. */
  lemma {:induction false} GradleRunFrom(lines: seq<string>, n: nat, path: string, k: nat)
    requires n <= |lines| && k < |GradleRun(lines, n, path).deps|
    ensures FromLine(lines, GradleRun(lines, n, path).deps[k], path)
  {
    var st := GradleRun(lines, n - 1, path);
    GradleStepGrows(st, lines[n - 1], n, path);
    if k < |st.deps| {
      GradleRunFrom(lines, n - 1, path, k);
    } else {
      GradleStepFrom(st, lines, n, path);
    }
  }

  /**
   * `d` was read while inside a `dependencies {` block: the loop state after
   * the lines before its own line has `in_deps_block` set.
   */
  predicate ReadInBlock(lines: seq<string>, d: Dependency, path: string) {
    && d.origin.GradleLine?
    && 1 <= d.origin.lineNumber <= |lines|
    && GradleRun(lines, d.origin.lineNumber - 1, path).inBlock
  }

  /** Record `k` of the first `n` lines was read inside a `dependencies {` block, from one of those lines. */
  lemma {:induction false} GradleRunInBlock(lines: seq<string>, n: nat, path: string, k: nat)
    requires n <= |lines| && k < |GradleRun(lines, n, path).deps|
    ensures ReadInBlock(lines, GradleRun(lines, n, path).deps[k], path)
    ensures GradleRun(lines, n, path).deps[k].origin.lineNumber <= n
  {
    var st := GradleRun(lines, n - 1, path);
    GradleRunStep(lines, n, path);
    if k < |st.deps| {
      GradleRunInBlock(lines, n - 1, path, k);
      assert GradleRun(lines, n, path).deps[k] == st.deps[k];
    }
  }

  /** Line `n` keeps the records of the lines before it and adds at most one, only inside a block. */
  lemma GradleRunStep(lines: seq<string>, n: nat, path: string)
    requires 1 <= n <= |lines|
    ensures var st := GradleRun(lines, n - 1, path);
      var deps := GradleRun(lines, n, path).deps;
      && |st.deps| <= |deps| <= |st.deps| + 1
      && (forall j :: 0 <= j < |st.deps| ==> deps[j] == st.deps[j])
      && (|deps| > |st.deps| ==>
            st.inBlock && deps[|st.deps|].origin.GradleLine? && deps[|st.deps|].origin.lineNumber == n)
  {
    var st := GradleRun(lines, n - 1, path);
    assert GradleRun(lines, n, path) == GradleStep(st, lines[n - 1], n, path);
    GradleStepGrows(st, lines[n - 1], n, path);
    if |GradleRun(lines, n, path).deps| > |st.deps| {
      GradleStepFrom(st, lines, n, path);
    }
  }

  /**
   * What `_parse_gradle` returns: `gradle` records of the file, each read inside
   * a `dependencies {` block from a line of it that holds a keyword, in strictly
   * increasing line order.
   */
  lemma GradleSpecShape(path: Path, lines: seq<string>, json: Option<JsonDoc>, xml: Option<Element>)
    ensures GradleSpec(path, Text(lines, json, xml)).Ok?
    ensures var rs := GradleSpec(path, Text(lines, json, xml)).value;
      && (forall k :: 0 <= k < |rs| ==>
            && rs[k].ecosystem == Gradle && rs[k].declaredIn == PathString(path)
            && FromLine(lines, rs[k], PathString(path))
            && ReadInBlock(lines, rs[k], PathString(path))
            && HasKeyword(Strip(lines[rs[k].origin.lineNumber - 1])))
      && (forall k, k' :: 0 <= k < k' < |rs| ==> rs[k].origin.lineNumber < rs[k'].origin.lineNumber)
  {
    var p := PathString(path);
    var rs := GradleRun(lines, |lines|, p).deps;
    GradleRunOrder(lines, |lines|, p);
    forall k | 0 <= k < |rs|
      ensures FromLine(lines, rs[k], p)
      ensures ReadInBlock(lines, rs[k], p)
      ensures rs[k].ecosystem == Gradle && rs[k].declaredIn == p
      ensures HasKeyword(Strip(lines[rs[k].origin.lineNumber - 1]))
    {
      GradleRunFrom(lines, |lines|, p, k);
      GradleRunInBlock(lines, |lines|, p, k);
      GradleRecordShape(Strip(lines[rs[k].origin.lineNumber - 1]), rs[k].origin.lineNumber, p);
    }
  }

  /** Without a line that opens a dependencies block there are no records. */
  lemma {:induction false} GradleNeedsBlock(lines: seq<string>, n: nat, path: string)
    requires n <= |lines|
    requires forall i :: 0 <= i < n ==> !OpensBlock(Strip(lines[i]))
    ensures GradleRun(lines, n, path) == GradleState(false, [])
  {
    if n > 0 {
      GradleNeedsBlock(lines, n - 1, path);
    }
  }

  /** A coordinate part free of the characters the heuristic splits or tests on. */
  predicate Plain(s: string) {
    ':' !in s && '\'' !in s && '"' !in s && '/' !in s && '(' !in s && '{' !in s
  }

  /**
   * A whole quoted coordinate such as `g:a:v`: unlike a `Plain` part it may hold
   * colons, but still no quote, slash, parenthesis or brace.
   */
  predicate PlainCoordinate(d: string) {
    '\'' !in d && '"' !in d && '/' !in d && '(' !in d && '{' !in d
  }

  /** An ASCII letter. */
  predicate Letter(c: char) {
    'a' <= c <= 'z' || 'A' <= c <= 'Z'
  }

  /** A string of ASCII letters, like every configuration keyword. */
  predicate Word(s: string) {
    forall c :: c in s ==> Letter(c)
  }

  /** A word holds no whitespace and none of the characters the heuristic tests on. */
  lemma WordPlain(s: string)
    requires Word(s)
    ensures Plain(s) && ' ' !in s
    ensures forall i :: 0 <= i < |s| ==> !IsSpace(s[i])
  {
    forall i | 0 <= i < |s|
      ensures !IsSpace(s[i])
    {
      assert s[i] in s;
    }
  }

  /** Every configuration keyword is a non-empty word. */
  lemma KeywordIsWord(k: nat)
    requires k < |GradleKeywords|
    ensures GradleKeywords[k] != [] && Word(GradleKeywords[k])
  {
    if k == 0 { assert GradleKeywords[k] == "implementation"; }
    else if k == 1 { assert GradleKeywords[k] == "api"; }
    else if k == 2 { assert GradleKeywords[k] == "compile"; }
    else if k == 3 { assert GradleKeywords[k] == "testImplementation"; }
    else if k == 4 { assert GradleKeywords[k] == "testCompile"; }
    else if k == 5 { assert GradleKeywords[k] == "runtimeOnly"; }
    else { assert GradleKeywords[k] == "compileOnly"; }
  }

  /** A line starting with a keyword holds a keyword. */
  lemma StartsWithKeyword(k: nat, rest: string)
    requires k < |GradleKeywords|
    ensures HasKeyword(GradleKeywords[k] + rest)
  {
    var kw := GradleKeywords[k];
    assert (kw + rest)[0..|kw|] == kw;
    ContainsAt(kw + rest, kw, 0);
  }

  /** A coordinate joined from plain parts has no quote, slash, parenthesis or brace. */
  lemma CoordinatePlain(g: string, a: string, v: string)
    requires Plain(g) && Plain(a) && Plain(v)
    ensures PlainCoordinate(g + ":" + a + ":" + v)
  {
  }

  /** `group:artifact:version` splits back into its three parts. */
  lemma CoordinateSplit(g: string, a: string, v: string)
    requires Plain(g) && Plain(a) && Plain(v)
    ensures Split(g + ":" + a + ":" + v, ':') == [g, a, v]
  {
    SplitAt(a, ':', v);
    assert g + ":" + a + ":" + v == g + [':'] + (a + [':'] + v);
    SplitAt(g, ':', a + [':'] + v);
  }

  /** The record of a keyword line without a comment whose first quoted part is `d`. */
  lemma GradleRecordOfQuoted(line: string, quote: char, d: string, lineNumber: nat, path: string)
    requires HasKeyword(line) && !Contains(line, "//")
    requires quote == (if '\'' in line then '\'' else '"') && quote in line
    requires |Split(line, quote)| >= 2 && Split(line, quote)[1] == d && |Split(d, ':')| >= 2
    ensures var parts := Split(d, ':');
      GradleRecord(line, lineNumber, path)
      == Some(Dependency(Gradle, parts[0] + ":" + parts[1], if |parts| >= 3 then Some(parts[2]) else None,
                         path, GradleLine(lineNumber, GradleScope(line))))
  {
    assert DropComment(line) == line;
  }

  /** The scope of a Kotlin-notation line `kw("d")` is the keyword. */
  lemma KotlinScope(kw: string, d: string)
    requires kw != [] && Word(kw)
    ensures GradleScope(kw + "(\"" + d + "\")") == kw
  {
    WordPlain(kw);
    var rest := "\"" + d + "\")";
    assert kw + "(\"" + d + "\")" == kw + "(" + rest;
    IndexOfAfterFree(kw, "(", rest);
    assert (kw + "(" + rest)[..|kw|] == kw;
    StripKeeps(kw);
  }

  /** `pre q d q post` splits at `q` into its three parts when none of them holds `q`. */
  lemma QuoteSplit(pre: string, q: char, d: string, post: string)
    requires q !in pre && q !in d && q !in post
    ensures Split(pre + [q] + (d + [q] + post), q) == [pre, d, post]
  {
    SplitAt(pre, q, d + [q] + post);
    SplitAt(d, q, post);
  }

  /**
   * A line `kw open d close` that starts with a keyword and ends in a closing
   * quote or parenthesis is already stripped and is not "}".
   */
  lemma KeywordLineStripped(kw: string, open: string, d: string, close: string)
    requires kw != [] && Word(kw) && close != [] && close[|close| - 1] in {'\'', ')'}
    ensures var line := kw + open + d + close; Strip(line) == line && line != "}"
  {
    WordPlain(kw);
    var line := kw + open + d + close;
    assert line[0] == kw[0] && line[|line| - 1] == close[|close| - 1];
    StripKeeps(line);
  }

  /** A Groovy-notation line `kw 'd'` holds no comment, no "(" and no "{". */
  lemma GroovyFree(kw: string, d: string)
    requires Word(kw) && '/' !in d && '(' !in d && '{' !in d
    ensures var line := kw + " '" + d + "'";
      !Contains(line, "//") && !Contains(line, "(") && !Contains(line, "{")
  {
    WordPlain(kw);
    var line := kw + " '" + d + "'";
    NotContainsFirstChar(line, "//");
    NotContainsFirstChar(line, "(");
    NotContainsFirstChar(line, "{");
  }

  /** A Groovy-notation line `kw 'd'` splits at its single quotes around `d`. */
  lemma GroovyQuotes(kw: string, d: string)
    requires Word(kw) && '\'' !in d
    ensures var line := kw + " '" + d + "'";
      '\'' in line && Split(line, '\'') == [kw + " ", d, ""]
  {
    WordPlain(kw);
    var line := kw + " '" + d + "'";
    assert line == (kw + " ") + ['\''] + (d + ['\''] + "");
    QuoteSplit(kw + " ", '\'', d, "");
  }

  /** A Kotlin-notation line `kw("d")` holds no comment and no "{". */
  lemma KotlinFree(kw: string, d: string)
    requires Word(kw) && '/' !in d && '{' !in d
    ensures var line := kw + "(\"" + d + "\")"; !Contains(line, "//") && !Contains(line, "{")
  {
    WordPlain(kw);
    var line := kw + "(\"" + d + "\")";
    NotContainsFirstChar(line, "//");
    NotContainsFirstChar(line, "{");
  }

  /** A Kotlin-notation line `kw("d")` has no single quote and splits at its double quotes around `d`. */
  lemma KotlinQuotes(kw: string, d: string)
    requires Word(kw) && '"' !in d && '\'' !in d
    ensures var line := kw + "(\"" + d + "\")";
      '\'' !in line && '"' in line && Split(line, '"') == [kw + "(", d, ")"]
  {
    WordPlain(kw);
    var line := kw + "(\"" + d + "\")";
    assert line == (kw + "(") + ['"'] + (d + ['"'] + ")");
    QuoteSplit(kw + "(", '"', d, ")");
  }

  /** A Groovy-notation line `kw 'd'` of a keyword and a plain coordinate is read as that coordinate, scoped "implementation". */
  lemma GroovyLine(kw: string, d: string, lineNumber: nat, path: string)
    requires kw != [] && Word(kw) && PlainCoordinate(d) && |Split(d, ':')| >= 2
    requires HasKeyword(kw + " '" + d + "'")
    ensures var line := kw + " '" + d + "'";
            var parts := Split(d, ':');
      && Strip(line) == line && !OpensBlock(line) && line != "}"
      && GradleRecord(line, lineNumber, path)
         == Some(Dependency(Gradle, parts[0] + ":" + parts[1], if |parts| >= 3 then Some(parts[2]) else None,
                            path, GradleLine(lineNumber, "implementation")))
  {
    var line := kw + " '" + d + "'";
    KeywordLineStripped(kw, " '", d, "'");
    GroovyFree(kw, d);
    GroovyQuotes(kw, d);
    GradleRecordOfQuoted(line, '\'', d, lineNumber, path);
  }

  /** A Kotlin-notation line `kw("d")` of a keyword and a plain coordinate is read as that coordinate, scoped by the keyword. */
  lemma KotlinLine(kw: string, d: string, lineNumber: nat, path: string)
    requires kw != [] && Word(kw) && PlainCoordinate(d) && |Split(d, ':')| >= 2
    requires HasKeyword(kw + "(\"" + d + "\")")
    ensures var line := kw + "(\"" + d + "\")";
            var parts := Split(d, ':');
      && Strip(line) == line && !OpensBlock(line) && line != "}"
      && GradleRecord(line, lineNumber, path)
         == Some(Dependency(Gradle, parts[0] + ":" + parts[1], if |parts| >= 3 then Some(parts[2]) else None,
                            path, GradleLine(lineNumber, kw)))
  {
    var line := kw + "(\"" + d + "\")";
    KeywordLineStripped(kw, "(\"", d, "\")");
    KotlinFree(kw, d);
    KotlinQuotes(kw, d);
    KotlinScope(kw, d);
    GradleRecordOfQuoted(line, '"', d, lineNumber, path);
  }

  /**
   * The Groovy notation `keyword 'group:artifact:version'` is read back as
   * `group:artifact` with that version, and its scope is "implementation"
   * whatever the keyword was.
   */
  lemma GroovyNotation(k: nat, g: string, a: string, v: string, lineNumber: nat, path: string)
    requires k < |GradleKeywords| && Plain(g) && Plain(a) && Plain(v)
    ensures var line := GradleKeywords[k] + " '" + (g + ":" + a + ":" + v) + "'";
      && Strip(line) == line && !OpensBlock(line) && line != "}"
      && GradleRecord(line, lineNumber, path)
         == Some(Dependency(Gradle, g + ":" + a, Some(v), path, GradleLine(lineNumber, "implementation")))
  {
    var d := g + ":" + a + ":" + v;
    var kw := GradleKeywords[k];
    assert kw != [] && Word(kw) by { KeywordIsWord(k); }
    assert PlainCoordinate(d) && Split(d, ':') == [g, a, v] by {
      CoordinatePlain(g, a, v);
      CoordinateSplit(g, a, v);
    }
    assert HasKeyword(kw + " '" + d + "'") by { StartsWithKeyword(k, " '" + d + "'"); }
    GroovyLine(kw, d, lineNumber, path);
  }

  /**
   * The Kotlin notation `keyword("group:artifact:version")` is read back as
   * `group:artifact` with that version, and its scope is the keyword.
   */
  lemma KotlinNotation(k: nat, g: string, a: string, v: string, lineNumber: nat, path: string)
    requires k < |GradleKeywords| && Plain(g) && Plain(a) && Plain(v)
    ensures var line := GradleKeywords[k] + "(\"" + (g + ":" + a + ":" + v) + "\")";
      && Strip(line) == line && !OpensBlock(line) && line != "}"
      && GradleRecord(line, lineNumber, path)
         == Some(Dependency(Gradle, g + ":" + a, Some(v), path, GradleLine(lineNumber, GradleKeywords[k])))
  {
    var d := g + ":" + a + ":" + v;
    var kw := GradleKeywords[k];
    assert kw != [] && Word(kw) by { KeywordIsWord(k); }
    assert PlainCoordinate(d) && Split(d, ':') == [g, a, v] by {
      CoordinatePlain(g, a, v);
      CoordinateSplit(g, a, v);
    }
    assert HasKeyword(kw + "(\"" + d + "\")") by { StartsWithKeyword(k, "(\"" + d + "\")"); }
    KotlinLine(kw, d, lineNumber, path);
  }

  /** What `JavaParser.parse` returns or raises: routing on the file name. */
  function JavaSpec(path: Path, file: FileState): Result<seq<Dependency>, Error> {
    if Name(path) == "pom.xml" then MavenSpec(path, file)
    else if Name(path) in ["build.gradle", "build.gradle.kts"] then GradleSpec(path, file)
    else Err(UnsupportedFile(Name(path)))
  }

  /** `JavaParser.parse`. */
  method ParseJava(path: Path, file: FileState) returns (r: Result<seq<Dependency>, Error>)
    ensures r == JavaSpec(path, file)
  {
    if Name(path) == "pom.xml" {
      r := ParseMaven(path, file);
    } else if Name(path) in ["build.gradle", "build.gradle.kts"] {
      r := ParseGradle(path, file);
    } else {
      r := Err(UnsupportedFile(Name(path)));
    }
  }

  /**
   * Every record of a successful `parse` is declared in the parsed file:
   * a `pom.xml` gives only maven records, a Gradle script only gradle ones.
   */
  lemma JavaRecordsKind(path: Path, file: FileState)
    requires JavaSpec(path, file).Ok?
    ensures forall d :: d in JavaSpec(path, file).value ==>
      && d.declaredIn == PathString(path)
      && (Name(path) == "pom.xml" ==> d.ecosystem == Maven)
      && (Name(path) != "pom.xml" ==> d.ecosystem == Gradle)
  {
    if Name(path) == "pom.xml" {
      MavenRecordsShape(PathString(path), FindAll(file.xml.value, "dependency"));
    } else {
      GradleSpecShape(path, file.lines, file.json, file.xml);
    }
  }
}
