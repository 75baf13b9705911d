/**
 * The values the pipeline passes around: dependency records, the errors it
 * raises, paths, and what reading a manifest gives (its lines, and the JSON or
 * XML document it decodes to).
 */
module Types {
  import opened Wrappers
  import Strings

  /** The ecosystems a parser can attach to a record. */
  datatype Ecosystem = Npm | Ionic | Pypi | Maven | Gradle

  /** The `"ecosystem"` string of a record. */
  function EcosystemName(e: Ecosystem): string {
    match e
    case Npm => "npm"
    case Ionic => "ionic"
    case Pypi => "pypi"
    case Maven => "maven"
    case Gradle => "gradle"
  }

  /** The format-specific fields of a record. */
  datatype Origin =
    | Section(section: string)                       // npm / ionic: "section"
    | MavenScope(mavenScope: Option<string>)          // maven: "scope" (the text of <scope>, which may be None)
    | GradleLine(lineNumber: nat, scope: string)     // gradle: "line_number" and "scope"
    | PypiLine(lineNumber: nat)                      // pypi: "line_number"

  /** One dependency dict: ecosystem, name, version_spec, declared_in and the format-specific fields. */
  datatype Dependency = Dependency(
    ecosystem: Ecosystem,
    name: string,
    versionSpec: Option<string>,
    declaredIn: string,
    origin: Origin)

  /** The `"ecosystem"` of each record, in order. */
  function EcosystemNames(deps: seq<Dependency>): (names: seq<string>)
    ensures |names| == |deps|
    ensures forall i :: 0 <= i < |deps| ==> names[i] == EcosystemName(deps[i].ecosystem)
  {
    if deps == [] then [] else EcosystemNames(deps[..|deps| - 1]) + [EcosystemName(deps[|deps| - 1].ecosystem)]
  }

  /** The `"declared_in"` of each record, in order. */
  function DeclaredIns(deps: seq<Dependency>): (files: seq<string>)
    ensures |files| == |deps|
    ensures forall i :: 0 <= i < |deps| ==> files[i] == deps[i].declaredIn
  {
    if deps == [] then [] else DeclaredIns(deps[..|deps| - 1]) + [deps[|deps| - 1].declaredIn]
  }

  /** Extending a list of records by one extends its ecosystems and its files by one. */
  lemma ProjectionsSnoc(deps: seq<Dependency>, i: nat)
    requires i < |deps|
    ensures EcosystemNames(deps[..i + 1]) == EcosystemNames(deps[..i]) + [EcosystemName(deps[i].ecosystem)]
    ensures DeclaredIns(deps[..i + 1]) == DeclaredIns(deps[..i]) + [deps[i].declaredIn]
  {
    assert deps[..i + 1][..i] == deps[..i];
  }

  /** A filesystem path as its components; `Name` is `path.name`, `PathString` is `str(path)`. */
  type Path = seq<string>

  function Name(p: Path): string {
    if p == [] then "" else p[|p| - 1]
  }

  function PathString(p: Path): string {
    Strings.Join(p, '/')
  }

  /** The exceptions the core raises, by Python class, with what their messages carry. */
  datatype Error =
    | FileNotFound(path: string)                              // FileNotFoundError
    | NotADirectory(path: string)                             // NotADirectoryError
    | PermissionDenied(path: string)                          // PermissionError
    | MalformedManifest(path: string)                         // JSONDecodeError / ET.ParseError, re-raised with the path
    | EncodingError(reraisedFor: Option<string>)                 // UnicodeDecodeError; the path when re-raised with it
    | UnsupportedFileType(name: string, supported: seq<string>) // ValueError of the parser registry
    | UnsupportedFile(name: string)                           // ValueError of a parser's own dispatch
    | TypeError                                               // e.g. dict.update(None)
    | AttributeError                                          // e.g. [].get(...)

  /**
   * A section value of a decoded package.json: `null`, or an object with its
   * members in order. A decoded dict never repeats a key; the pairs are not
   * required to be distinct, so this admits more than decoding can produce.
   */
  datatype JsonSection = Null | Members(pairs: seq<(string, string)>)

  /** A decoded JSON document: an object (absent keys are absent from `fields`) or any other value. */
  datatype JsonDoc = JsonObject(fields: map<string, JsonSection>) | NotAnObject

  /** A namespaced XML tag, `{namespace}local` in ElementTree. */
  datatype QName = QName(namespace: string, local: string)

  /** An ElementTree element: tag, `.text` (None when empty) and children in document order. */
  datatype Element = Element(tag: QName, text: Option<string>, children: seq<Element>)

  /**
   * What reading a manifest at parse time gives: the file is gone, its bytes
   * are not UTF-8, or it is text, with its `splitlines()` and the JSON and XML
   * documents it decodes to (None when it is not valid JSON or XML).
   * ElementTree reads the raw bytes in the encoding that the XML declaration
   * or a byte-order mark names, so a file that is not UTF-8 still carries the
   * XML document it decodes to (None when that fails too).
   */
  datatype FileState =
    | Missing
    | NotUtf8(xml: Option<Element>)
    | Text(lines: seq<string>, json: Option<JsonDoc>, xml: Option<Element>)
}
