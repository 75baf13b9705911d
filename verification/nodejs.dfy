/**
 * The package.json parser: one record per member of the four dependency
 * sections, in section order and then member order, all labelled `ionic` or
 * all labelled `npm` depending on whether an Ionic package is declared.
 */
module NodeJS {
  import opened Wrappers
  import opened Types

  /** The sections read, in the order they are read. */
  const NpmDependencySections: seq<string> :=
    ["dependencies", "devDependencies", "peerDependencies", "optionalDependencies"]

  /** Packages whose presence makes the whole file an Ionic project. */
  const IonicIndicators: seq<string> :=
    ["@ionic/angular", "@ionic/react", "@ionic/vue", "ionic-angular", "@ionic/core"]

  /** `get_supported_files()`. */
  const NodeSupportedFiles: seq<string> := ["package.json"]

  /** `data.get(section, {}) or {}`: the members the record loop visits; absent and null give none. */
  function SectionItems(fields: map<string, JsonSection>, section: string): seq<(string, string)> {
    if section in fields && fields[section].Members? then fields[section].pairs else []
  }

  /** The member names of a section. */
  function SectionKeys(fields: map<string, JsonSection>, section: string): set<string> {
    set p | p in SectionItems(fields, section) :: p.0
  }

  /** The section is present with the value `null`. */
  predicate IsNullSection(fields: map<string, JsonSection>, section: string) {
    section in fields && fields[section].Null?
  }

  predicate HasNullSection(fields: map<string, JsonSection>) {
    exists i :: 0 <= i < |NpmDependencySections| && IsNullSection(fields, NpmDependencySections[i])
  }

  /** Some dependency section declares a package of that name. */
  predicate Declares(fields: map<string, JsonSection>, name: string) {
    exists i :: 0 <= i < |NpmDependencySections| && name in SectionKeys(fields, NpmDependencySections[i])
  }

  predicate DeclaresIonic(fields: map<string, JsonSection>) {
    exists k :: 0 <= k < |IonicIndicators| && Declares(fields, IonicIndicators[k])
  }

  /**
   * What `_is_ionic_project` decides: a document that is not an object has no
   * `.get`; merging a null section into the dict fails; otherwise whether one
   * of the Ionic packages is declared in any section.
   */
  function IonicSpec(doc: JsonDoc): Result<bool, Error> {
    match doc
    case NotAnObject => Err(AttributeError)
    case JsonObject(fields) =>
      if HasNullSection(fields) then Err(TypeError) else Ok(DeclaresIonic(fields))
  }

  /** The names merged into `all_deps` by the first `n` updates. */
  function MergedKeys(fields: map<string, JsonSection>, n: nat): set<string>
    requires n <= |NpmDependencySections|
  {
    if n == 0 then {} else MergedKeys(fields, n - 1) + SectionKeys(fields, NpmDependencySections[n - 1])
  }

  lemma {:induction false} MergedKeysMeaning(fields: map<string, JsonSection>, n: nat, name: string)
    requires n <= |NpmDependencySections|
    ensures name in MergedKeys(fields, n) <==>
            exists i :: 0 <= i < n && name in SectionKeys(fields, NpmDependencySections[i])
  {
    if n > 0 {
      MergedKeysMeaning(fields, n - 1, name);
    }
  }

  /** `_is_ionic_project`: merge the sections into one dict, then look for an Ionic package. */
  method IsIonicProject(doc: JsonDoc) returns (r: Result<bool, Error>)
    ensures r == IonicSpec(doc)
  {
    if doc.NotAnObject? {
      return Err(AttributeError);
    }
    var fields := doc.fields;
    var allDeps: set<string> := {};
    var i := 0;
    while i < |NpmDependencySections|
      invariant 0 <= i <= |NpmDependencySections|
      invariant forall k :: 0 <= k < i ==> !IsNullSection(fields, NpmDependencySections[k])
      invariant allDeps == MergedKeys(fields, i)
    {
      var section := NpmDependencySections[i];
      if section in fields {
        match fields[section]
        case Null =>
          return Err(TypeError);
        case Members(pairs) =>
          allDeps := allDeps + set p | p in pairs :: p.0;
      }
      i := i + 1;
    }
    r := Ok(exists k :: 0 <= k < |IonicIndicators| && IonicIndicators[k] in allDeps);
    forall name {
      MergedKeysMeaning(fields, |NpmDependencySections|, name);
    }
  }

  /** The record made from one `name: version_spec` member. */
  function NodeRecord(path: string, section: string, eco: Ecosystem, item: (string, string)): Dependency {
    Dependency(eco, item.0, Some(item.1), path, Section(section))
  }

  /** The records of one section, member by member. */
  function SectionRecords(path: string, section: string, eco: Ecosystem, items: seq<(string, string)>): seq<Dependency> {
    if items == [] then []
    else SectionRecords(path, section, eco, items[..|items| - 1]) + [NodeRecord(path, section, eco, items[|items| - 1])]
  }

  /** The records of the first `n` sections. */
  function RecordsOf(path: string, fields: map<string, JsonSection>, eco: Ecosystem, n: nat): seq<Dependency>
    requires n <= |NpmDependencySections|
  {
    if n == 0 then []
    else
      var section := NpmDependencySections[n - 1];
      RecordsOf(path, fields, eco, n - 1) + SectionRecords(path, section, eco, SectionItems(fields, section))
  }

  /** The inner loop over one section's members: one record appended per member, in member order. */
  method AppendSection(deps: seq<Dependency>, path: string, section: string, eco: Ecosystem, items: seq<(string, string)>)
    returns (out: seq<Dependency>)
    ensures out == deps + SectionRecords(path, section, eco, items)
  {
    out := deps;
    for j := 0 to |items|
      invariant out == deps + SectionRecords(path, section, eco, items[..j])
    {
      assert items[..j + 1][..j] == items[..j];
      out := out + [NodeRecord(path, section, eco, items[j])];
    }
    assert items[..|items|] == items;
  }

  /** What `NodeJSParser.parse` returns or raises for a file in the given state. */
  function NodeJSSpec(path: Path, file: FileState): Result<seq<Dependency>, Error> {
    var p := PathString(path);
    match file
    case Missing => Err(FileNotFound(p))
    case NotUtf8(_) => Err(EncodingError(None))
    case Text(_, None, _) => Err(MalformedManifest(p))
    case Text(_, Some(doc), _) =>
      match IonicSpec(doc)
      case Err(e) => Err(e)
      case Ok(isIonic) => Ok(RecordsOf(p, doc.fields, if isIonic then Ionic else Npm, |NpmDependencySections|))
  }

  /** `NodeJSParser.parse`. */
  method ParseNodeJS(path: Path, file: FileState) returns (r: Result<seq<Dependency>, Error>)
    ensures r == NodeJSSpec(path, file)
  {
    var p := PathString(path);
    if file.Missing? {
      return Err(FileNotFound(p));
    } else if file.NotUtf8? {
      return Err(EncodingError(None));
    } else if file.json.None? {
      return Err(MalformedManifest(p));
    }
    var data := file.json.value;
    var isIonic := IsIonicProject(data);
    if isIonic.Err? {
      return Err(isIonic.error);
    }
    var eco := if isIonic.value then Ionic else Npm;
    var deps: seq<Dependency> := [];
    for i := 0 to |NpmDependencySections|
      invariant deps == RecordsOf(p, data.fields, eco, i)
    {
      var section := NpmDependencySections[i];
      deps := AppendSection(deps, p, section, eco, SectionItems(data.fields, section));
    }
    return Ok(deps);
  }

  /** Section records are the members of the section, one record each, in member order. */
  lemma {:induction false} SectionRecordsAt(path: string, section: string, eco: Ecosystem, items: seq<(string, string)>)
    ensures |SectionRecords(path, section, eco, items)| == |items|
    ensures forall k :: 0 <= k < |items| ==>
              SectionRecords(path, section, eco, items)[k] == NodeRecord(path, section, eco, items[k])
  {
    if items != [] {
      SectionRecordsAt(path, section, eco, items[..|items| - 1]);
    }
  }

  /** The position of a section in the reading order (4 for any other name). */
  function SectionRank(section: string): nat {
    if section == "dependencies" then 0
    else if section == "devDependencies" then 1
    else if section == "peerDependencies" then 2
    else if section == "optionalDependencies" then 3
    else 4
  }

  /** The number of members of the first `n` sections. */
  function ItemCount(fields: map<string, JsonSection>, n: nat): nat
    requires n <= |NpmDependencySections|
  {
    if n == 0 then 0 else ItemCount(fields, n - 1) + |SectionItems(fields, NpmDependencySections[n - 1])|
  }

  /**
   * Every record of the first `n` sections carries the file's path, the
   * file's ecosystem, and a member of its own section (name = key,
   * version = value); records come section by section in reading order;
   * there is one record per member.
   */
  lemma {:induction false} RecordsOfShape(path: string, fields: map<string, JsonSection>, eco: Ecosystem, n: nat)
    requires n <= |NpmDependencySections|
    ensures var rs := RecordsOf(path, fields, eco, n);
      && |rs| == ItemCount(fields, n)
      && (forall k :: 0 <= k < |rs| ==>
            && rs[k].ecosystem == eco
            && rs[k].declaredIn == path
            && rs[k].origin.Section?
            && SectionRank(rs[k].origin.section) < n
            && rs[k].versionSpec.Some?
            && (rs[k].name, rs[k].versionSpec.value) in SectionItems(fields, rs[k].origin.section))
      && (forall k, k' :: 0 <= k < k' < |rs| ==>
            SectionRank(rs[k].origin.section) <= SectionRank(rs[k'].origin.section))
  {
    if n > 0 {
      var section := NpmDependencySections[n - 1];
      var items := SectionItems(fields, section);
      var front := RecordsOf(path, fields, eco, n - 1);
      var back := SectionRecords(path, section, eco, items);
      var rs := RecordsOf(path, fields, eco, n);
      assert rs == front + back;
      RecordsOfShape(path, fields, eco, n - 1);
      SectionRecordsAt(path, section, eco, items);
      assert SectionRank(section) == n - 1 by {
        if n == 1 { assert section == "dependencies"; }
        else if n == 2 { assert section == "devDependencies"; }
        else if n == 3 { assert section == "peerDependencies"; }
        else { assert section == "optionalDependencies"; }
      }
      forall k | |front| <= k < |rs|
        ensures rs[k] == NodeRecord(path, section, eco, items[k - |front|])
      {
        assert rs[k] == back[k - |front|];
      }
    }
  }

  /**
   * A successful parse yields one record per member of the four sections, all
   * with the file's path and one ecosystem, `ionic` exactly when an Ionic
   * package is declared in some section and `npm` otherwise.
   */
  lemma NodeJSRecords(path: Path, file: FileState)
    requires NodeJSSpec(path, file).Ok?
    ensures file.Text? && file.json.Some? && file.json.value.JsonObject?
    ensures var fields := file.json.value.fields;
            var rs := NodeJSSpec(path, file).value;
      && !HasNullSection(fields)
      && |rs| == ItemCount(fields, 4)
      && forall k :: 0 <= k < |rs| ==>
           && rs[k].declaredIn == PathString(path)
           && (rs[k].ecosystem == Ionic <==> DeclaresIonic(fields))
           && (rs[k].ecosystem == Npm <==> !DeclaresIonic(fields))
  {
    var fields := file.json.value.fields;
    RecordsOfShape(PathString(path), fields, if DeclaresIonic(fields) then Ionic else Npm, 4);
  }

  /** Records come section by section (dependencies, devDependencies, peerDependencies, optionalDependencies). */
  lemma NodeJSSectionOrder(path: Path, file: FileState)
    requires NodeJSSpec(path, file).Ok?
    ensures var rs := NodeJSSpec(path, file).value;
      forall k, k' :: 0 <= k < k' < |rs| ==>
        rs[k].origin.Section? && rs[k'].origin.Section? &&
        SectionRank(rs[k].origin.section) <= SectionRank(rs[k'].origin.section)
  {
    var fields := file.json.value.fields;
    RecordsOfShape(PathString(path), fields, if DeclaresIonic(fields) then Ionic else Npm, 4);
  }

  /** Every record of a successful parse is declared in the parsed file and is npm or ionic. */
  lemma NodeJSRecordsKind(path: Path, file: FileState)
    requires NodeJSSpec(path, file).Ok?
    ensures forall d :: d in NodeJSSpec(path, file).value ==>
      d.declaredIn == PathString(path) && (d.ecosystem == Npm || d.ecosystem == Ionic)
  {
    NodeJSRecords(path, file);
  }

  /** A `null` section makes the whole parse fail, even though the record loop would skip it. */
  lemma NullSectionFails(path: Path, lines: seq<string>, fields: map<string, JsonSection>, xml: Option<Element>)
    requires HasNullSection(fields)
    ensures NodeJSSpec(path, Text(lines, Some(JsonObject(fields)), xml)) == Err(TypeError)
  {
  }
}
