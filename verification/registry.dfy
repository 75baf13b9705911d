/**
 * The parser registry of the `parsers` package: a file-name → parser table
 * filled by registering, in order, every file name each parser supports (a
 * later registration of a name replaces an earlier one), and the two lookups
 * built on it.
 */
module Registry {
  import opened Wrappers
  import opened Types
  import opened OrderedDict
  import Config
  import NodeJS
  import Java

  /** The parser classes of the package. */
  datatype ParserKind = NodeJSParser | JavaParser

  /** `parser.get_supported_files()`. */
  function SupportedFilesOf(p: ParserKind): seq<string> {
    match p
    case NodeJSParser => NodeJS.NodeSupportedFiles
    case JavaParser => Java.JavaSupportedFiles
  }

  /** `_PARSERS`: the parser instances, in registration order. */
  const Parsers: seq<ParserKind> := [NodeJSParser, JavaParser]

  /** The table after registering `p` under each of `names`, in order, on top of `reg`. */
  function Register(reg: Dict<ParserKind>, names: seq<string>, p: ParserKind): Dict<ParserKind> {
    if names == [] then reg else Put(Register(reg, names[..|names| - 1], p), names[|names| - 1], p)
  }

  /** The table after registering every parser of `ps`, in order, starting from `{}`. */
  function RegistryOf(ps: seq<ParserKind>): Dict<ParserKind> {
    if ps == [] then [] else Register(RegistryOf(ps[..|ps| - 1]), SupportedFilesOf(ps[|ps| - 1]), ps[|ps| - 1])
  }

  /** `_FILE_TO_PARSER`, the table the package builds at import time. */
  function FileToParser(): Dict<ParserKind> {
    RegistryOf(Parsers)
  }

  /** The inner loop of the module-level registration: `p` under each of `names`, in order. */
  method RegisterAll(reg: Dict<ParserKind>, names: seq<string>, p: ParserKind) returns (r: Dict<ParserKind>)
    ensures r == Register(reg, names, p)
  {
    r := reg;
    for j := 0 to |names|
      invariant r == Register(reg, names[..j], p)
    {
      assert names[..j + 1][..j] == names[..j];
      r := Put(r, names[j], p);
    }
    assert names[..|names|] == names;
  }

  /** The module-level loop that fills `_FILE_TO_PARSER`. */
  method BuildRegistry(ps: seq<ParserKind>) returns (reg: Dict<ParserKind>)
    ensures reg == RegistryOf(ps)
  {
    reg := [];
    for i := 0 to |ps|
      invariant reg == RegistryOf(ps[..i])
    {
      assert RegistryOf(ps[..i + 1]) == Register(RegistryOf(ps[..i]), SupportedFilesOf(ps[i]), ps[i]) by {
        assert ps[..i + 1][..i] == ps[..i];
      }
      reg := RegisterAll(reg, SupportedFilesOf(ps[i]), ps[i]);
    }
    assert ps[..|ps|] == ps;
  }

  /** The parser registered last for `name` among `ps`, if any: an independent reading of "last wins". */
  function LastClaimant(ps: seq<ParserKind>, name: string): Option<ParserKind> {
    if ps == [] then None
    else if name in SupportedFilesOf(ps[|ps| - 1]) then Some(ps[|ps| - 1])
    else LastClaimant(ps[..|ps| - 1], name)
  }

  /** Registering `p` under `names` binds each of them to `p` and leaves other names alone. */
  lemma {:induction false} RegisterGet(reg: Dict<ParserKind>, names: seq<string>, p: ParserKind, name: string)
    ensures Get(Register(reg, names, p), name) == if name in names then Some(p) else Get(reg, name)
  {
    if names != [] {
      var init, last := names[..|names| - 1], names[|names| - 1];
      RegisterGet(reg, init, p, name);
      assert Register(reg, names, p) == Put(Register(reg, init, p), last, p);
      InDropLast(names, name);
    }
  }

  /** Last registration wins: a name maps to the last parser of `ps` that supports it, and to nothing when none does. */
  lemma {:induction false} RegistryLastWins(ps: seq<ParserKind>, name: string)
    ensures Get(RegistryOf(ps), name) == LastClaimant(ps, name)
  {
    if ps != [] {
      RegistryLastWins(ps[..|ps| - 1], name);
      RegisterGet(RegistryOf(ps[..|ps| - 1]), SupportedFilesOf(ps[|ps| - 1]), ps[|ps| - 1], name);
    }
  }

  /** Some parser claims `name` exactly when one of `ps` lists it. */
  lemma {:induction false} LastClaimantSome(ps: seq<ParserKind>, name: string)
    ensures LastClaimant(ps, name).Some? <==> exists i :: 0 <= i < |ps| && name in SupportedFilesOf(ps[i])
    ensures LastClaimant(ps, name).Some? ==> LastClaimant(ps, name).value in ps
  {
    if ps != [] {
      var init := ps[..|ps| - 1];
      LastClaimantSome(init, name);
      assert ps == init + [ps[|ps| - 1]];
    }
  }

  /** The table's keys are the names some parser supports, each once. */
  lemma RegistryKeySet(ps: seq<ParserKind>, name: string)
    ensures name in Keys(RegistryOf(ps)) <==> exists i :: 0 <= i < |ps| && name in SupportedFilesOf(ps[i])
  {
    RegistryLastWins(ps, name);
    LastClaimantSome(ps, name);
  }

  /** Registering names that are new and distinct appends them to the keys, in order. */
  lemma {:induction false} RegisterFreshKeys(reg: Dict<ParserKind>, names: seq<string>, p: ParserKind)
    requires Distinct(names)
    requires forall i :: 0 <= i < |names| ==> names[i] !in Keys(reg)
    ensures Keys(Register(reg, names, p)) == Keys(reg) + names
  {
    if names != [] {
      var init, last := names[..|names| - 1], names[|names| - 1];
      DistinctDropLast(names);
      forall i | 0 <= i < |init|
        ensures init[i] !in Keys(reg)
      {
        assert init[i] == names[i];
      }
      RegisterFreshKeys(reg, init, p);
      assert last !in Keys(reg) + init;
      assert Register(reg, names, p) == Put(Register(reg, init, p), last, p);
      AppendDropLast(Keys(reg), names);
    }
  }

  /** The Java parser's names are distinct and none of them is the Node.js parser's. */
  lemma JavaNamesFresh()
    ensures Distinct(Java.JavaSupportedFiles)
    ensures forall i :: 0 <= i < |Java.JavaSupportedFiles| ==> Java.JavaSupportedFiles[i] !in NodeJS.NodeSupportedFiles
  {
  }

  /** The names of the two parsers, in registration order. */
  lemma LiveNames()
    ensures NodeJS.NodeSupportedFiles + Java.JavaSupportedFiles
         == ["package.json", "pom.xml", "build.gradle", "build.gradle.kts"]
  {
  }

  /** The live table lists package.json, pom.xml, build.gradle and build.gradle.kts, in that order. */
  lemma FileToParserKeys()
    ensures Keys(FileToParser()) == NodeJS.NodeSupportedFiles + Java.JavaSupportedFiles
    ensures Keys(FileToParser()) == ["package.json", "pom.xml", "build.gradle", "build.gradle.kts"]
  {
    var first: seq<ParserKind> := [NodeJSParser];
    var r1 := RegistryOf(first);
    assert r1 == Register([], NodeJS.NodeSupportedFiles, NodeJSParser) by {
      assert first[..0] == [];
    }
    assert Keys(r1) == NodeJS.NodeSupportedFiles by {
      RegisterFreshKeys([], NodeJS.NodeSupportedFiles, NodeJSParser);
    }
    assert FileToParser() == Register(r1, Java.JavaSupportedFiles, JavaParser) by {
      assert Parsers[..1] == first;
    }
    JavaNamesFresh();
    RegisterFreshKeys(r1, Java.JavaSupportedFiles, JavaParser);
    LiveNames();
  }

  /** `get_parser_for_file`: the registered parser, or ValueError listing the registered names. */
  function GetParserForFile(reg: Dict<ParserKind>, name: string): (r: Result<ParserKind, Error>)
    ensures r.Ok? <==> name in Keys(reg)
    ensures r.Ok? ==> Get(reg, name) == Some(r.value)
    ensures r.Err? ==> r.error == UnsupportedFileType(name, Keys(reg))
  {
    match Get(reg, name)
    case None => Err(UnsupportedFileType(name, Keys(reg)))
    case Some(p) => Ok(p)
  }

  /** `get_all_supported_files`: the registered names in insertion order. */
  function GetAllSupportedFiles(reg: Dict<ParserKind>): (names: seq<string>)
    ensures forall name :: name in names <==> GetParserForFile(reg, name).Ok?
  {
    Keys(reg)
  }

  /**
   * A lookup in a table built from `ps` gives the last parser that supports
   * the name, or fails with the list of every supported name when none does.
   */
  lemma LookupLastWins(ps: seq<ParserKind>, name: string)
    ensures var r := GetParserForFile(RegistryOf(ps), name);
      && (r.Ok? <==> exists i :: 0 <= i < |ps| && name in SupportedFilesOf(ps[i]))
      && (r.Ok? ==> Some(r.value) == LastClaimant(ps, name))
      && (r.Err? ==> r.error == UnsupportedFileType(name, GetAllSupportedFiles(RegistryOf(ps))))
  {
    RegistryLastWins(ps, name);
    LastClaimantSome(ps, name);
  }

  /** In the live table a Java build file goes to the Java parser, package.json to the Node.js parser, and nothing else is bound. */
  lemma LiveGet(name: string)
    ensures Get(FileToParser(), name)
         == if name in Java.JavaSupportedFiles then Some(JavaParser)
            else if name in NodeJS.NodeSupportedFiles then Some(NodeJSParser)
            else None
  {
    RegistryLastWins(Parsers, name);
    var first: seq<ParserKind> := [NodeJSParser];
    assert LastClaimant(first, name) == if name in NodeJS.NodeSupportedFiles then Some(NodeJSParser) else None by {
      assert first[..0] == [];
    }
    assert LastClaimant(Parsers, name)
        == if name in Java.JavaSupportedFiles then Some(JavaParser) else LastClaimant(first, name) by {
      assert Parsers[..1] == first;
    }
  }

  /**
   * In the live table package.json goes to the Node.js parser, the three
   * build files to the Java parser, and requirements.txt is refused.
   */
  lemma LiveLookups()
    ensures GetParserForFile(FileToParser(), "package.json") == Ok(NodeJSParser)
    ensures GetParserForFile(FileToParser(), "pom.xml") == Ok(JavaParser)
    ensures GetParserForFile(FileToParser(), "build.gradle") == Ok(JavaParser)
    ensures GetParserForFile(FileToParser(), "build.gradle.kts") == Ok(JavaParser)
    ensures GetParserForFile(FileToParser(), "requirements.txt")
         == Err(UnsupportedFileType("requirements.txt", ["package.json", "pom.xml", "build.gradle", "build.gradle.kts"]))
  {
    assert GetParserForFile(FileToParser(), "package.json") == Ok(NodeJSParser) by {
      LiveGet("package.json");
    }
    assert GetParserForFile(FileToParser(), "pom.xml") == Ok(JavaParser) by {
      LiveGet("pom.xml");
    }
    assert GetParserForFile(FileToParser(), "build.gradle") == Ok(JavaParser) by {
      LiveGet("build.gradle");
    }
    assert GetParserForFile(FileToParser(), "build.gradle.kts") == Ok(JavaParser) by {
      LiveGet("build.gradle.kts");
    }
    assert Get(FileToParser(), "requirements.txt") == None by {
      LiveGet("requirements.txt");
    }
    FileToParserKeys();
  }

  /** Every name the walker reports has a parser, so no discovered file is refused by the lookup. */
  lemma SupportedFilesResolve(name: string)
    requires name in Config.SupportedFiles
    ensures GetParserForFile(FileToParser(), name).Ok?
  {
    LiveLookups();
  }

  /** The live table's names are exactly the walker's `SUPPORTED_FILES`. */
  lemma LiveNamesAreSupportedFiles()
    ensures forall name :: name in GetAllSupportedFiles(FileToParser()) <==> name in Config.SupportedFiles
  {
    FileToParserKeys();
  }

  /** What calling `parser.parse(path)` returns or raises. */
  function ParserSpec(p: ParserKind, path: Path, file: FileState): Result<seq<Dependency>, Error> {
    match p
    case NodeJSParser => NodeJS.NodeJSSpec(path, file)
    case JavaParser => Java.JavaSpec(path, file)
  }

  /** `get_parser_for_file(path.name)(path)`: look the parser up by base name, then parse. */
  function LookupAndParse(reg: Dict<ParserKind>, path: Path, file: FileState): (r: Result<seq<Dependency>, Error>)
    ensures Name(path) !in Keys(reg) ==> r == Err(UnsupportedFileType(Name(path), GetAllSupportedFiles(reg)))
    ensures Name(path) in Keys(reg) ==> r == ParserSpec(Get(reg, Name(path)).value, path, file)
  {
    match GetParserForFile(reg, Name(path))
    case Err(e) => Err(e)
    case Ok(p) => ParserSpec(p, path, file)
  }

  /** `parser.parse(path)`. */
  method Parse(p: ParserKind, path: Path, file: FileState) returns (r: Result<seq<Dependency>, Error>)
    ensures r == ParserSpec(p, path, file)
  {
    match p
    case NodeJSParser => r := NodeJS.ParseNodeJS(path, file);
    case JavaParser => r := Java.ParseJava(path, file);
  }

  /** Every record a live parser returns names the parsed file and belongs to npm, ionic, maven or gradle. */
  lemma ParsedRecords(p: ParserKind, path: Path, file: FileState)
    requires ParserSpec(p, path, file).Ok?
    ensures forall d :: d in ParserSpec(p, path, file).value ==>
      d.declaredIn == PathString(path) && d.ecosystem != Pypi
  {
    match p
    case NodeJSParser =>
      NodeJS.NodeJSRecordsKind(path, file);
    case JavaParser =>
      Java.JavaRecordsKind(path, file);
  }
}
