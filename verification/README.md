# BasiliskScan manifest discovery and dependency extraction, in Dafny

BasiliskScan scans a project directory for dependency manifests:
`package.json`, `pom.xml`, `build.gradle` and `build.gradle.kts`. It skips
ignored directories (`node_modules`, `.git`, `venv`, …) and directories it may
not read. Each manifest it finds goes to the parser that a registry table
assigns by file name. The parsers turn the manifests into dependency records:
ecosystem, name, version spec, declaring file, plus a section, scope or line
number. A manifest that fails to parse is skipped and the scan continues. The
records are then counted per ecosystem (the scanner's statistics) and per
ecosystem and per file (the reporter's summary).

This project models that pipeline and proves what it promises:

- `Scanner`: the recursive walk, `find_dependency_files`, `collect_dependencies`
  and `get_project_statistics`. The directory tree is a datatype. What each
  file reads as at parse time is a map parameter.
- `Registry`: the parser table in `parsers/__init__.py`. It is built by
  registering each parser's supported files in order, so a later parser wins
  a name. It also covers the lookup and its `ValueError`.
- `NodeJS`: the `package.json` parser, including its Ionic detection.
- `Java`: the Maven and Gradle parsers, and the dispatch between them.
- `LegacyParsers`: the stand-alone `parsers.py` module, which has the
  `package.json` and `requirements.txt` parsers and its own lookup.
- `Reporter`: the dependency summary, and the counting fields of the report
  data.
- `Config`: the ignored directories and the supported file names.
- Helpers: `Types` holds the records, errors, paths and file readings. The
  dictionaries that keep insertion order are in `OrderedDict`, and counting
  into them is in `Counting`. `Strings` models Python's `strip`, `in`, `split`
  and `find`.

Every loop of the source is a Dafny `method` with a `while` or `for` loop. It
is proved equal to a specification function, and the properties are proved
as lemmas about that function. The list that `_walk_directory` appends to
through recursive calls is a class, `Scanner.Accumulator`.

## Model

| member | source | states |
|---|---|---|
| Config.SupportedFilesShape | src/basiliskscan/config.py:45-50 | there are exactly four supported manifest names, and `requirements.txt` is not one of them |
| Config.IgnoredAndSupportedDisjoint | src/basiliskscan/config.py:25-50 | no ignored directory name is also a supported manifest name |
| Scanner.Accumulator.Append | src/basiliskscan/scanner.py:45-48 | appending a found file extends the shared result list by exactly that path |
| Scanner.WalkDirectory | src/basiliskscan/scanner.py:25-48 | the recursive walk appends to the accumulator exactly the paths of the reference walk `Walk`, in its order |
| Scanner.WalkReports | src/basiliskscan/scanner.py:25-48 | a path is reported under a node iff it extends the parent path and leads down through readable, non-ignored directories to a file whose name is supported (both directions) |
| Scanner.SkippedDirectory | src/basiliskscan/scanner.py:33-44 | an ignored or unreadable directory contributes nothing: removing it from its siblings leaves the walk unchanged |
| Scanner.WalkAllAppend | src/basiliskscan/scanner.py:38-40 | walking a concatenation of siblings is the concatenation of their walks, so results follow `iterdir` order |
| Scanner.FindDependencyFiles | src/basiliskscan/scanner.py:50-78 | raises `FileNotFoundError` for a missing root, `NotADirectoryError` for a file and `PermissionError` for an unreadable root; otherwise returns the walk of the root's entries |
| Scanner.FoundUnderRoot | src/basiliskscan/scanner.py:50-78 | a path is found under the root iff it lies strictly under the root and some entry of the root reports it (both directions) |
| Scanner.FoundPathsShape | src/basiliskscan/scanner.py:25-78 | every found path lies under the root, has a supported file name, and passes through no ignored directory |
| Scanner.CollectFrom | src/basiliskscan/scanner.py:114-126 | the per-file loop gives the concatenation, in file order, of the records of every file whose lookup and parse succeed |
| Scanner.CollectDependencies | src/basiliskscan/scanner.py:80-131 | propagates the discovery error, returns no records when no file is found, else collects over the found files with the live parser table |
| Scanner.CollectAppend | src/basiliskscan/scanner.py:114-126 | collecting over two file lists one after the other is collecting over each and concatenating |
| Scanner.FailureIsolated | src/basiliskscan/scanner.py:124-126 | a file whose lookup or parse fails contributes nothing and does not disturb the records of the files before and after it |
| Scanner.CollectedRecords | src/basiliskscan/scanner.py:114-126 | when every parser declares its records in the file it read, every collected record is declared in one of the files passed and is never a pypi record |
| Scanner.OutcomeRecords | src/basiliskscan/scanner.py:118-120 | a successful lookup and parse with the live table gives records declared in that file, none of them pypi |
| Scanner.CollectedFromFound | src/basiliskscan/scanner.py:80-131 | every collected record is declared in a file that discovery found, and none is a pypi record |
| Scanner.GetProjectStatistics | src/basiliskscan/scanner.py:133-148 | the counting loop yields the tally of the records' ecosystems, keys in first-seen order |
| Scanner.StatisticsSpec | src/basiliskscan/scanner.py:133-148 | the statistics have distinct keys; each ecosystem maps to its number of records, is a key iff some record has it, and the counts sum to the number of records |
| Counting.TallySpec | src/basiliskscan/scanner.py:143-148 | the keys of a tally are its input's distinct values in first-seen order; each value's count is its multiplicity; a key is present iff it occurs |
| Counting.TallySum | src/basiliskscan/scanner.py:143-148 | the counts of a tally sum to the length of its input |
| Counting.DedupSpec | src/basiliskscan/reporter.py:147-155 | first-seen deduplication has no repeats and keeps exactly the input's values |
| Reporter.GenerateDependencySummary | src/basiliskscan/reporter.py:130-160 | the total is the number of records; the two breakdowns are the tallies of ecosystems and declaring files; the files analysed are the set of declaring files |
| Reporter.SummaryConsistent | src/basiliskscan/reporter.py:140-158 | each breakdown sums to the total and counts each key by its multiplicity; the files analysed are exactly the per-file keys, which are distinct |
| Reporter.GenerateReportData | src/basiliskscan/reporter.py:25-59 | `project_info` carries the target path, a dependency count equal to the length of the dependency list, and the given per-ecosystem counts; the list is the input unchanged; ReportCountsAgree ties the counts together |
| Reporter.ReportCountsAgree | src/basiliskscan/reporter.py:25-59 | with the scanner's statistics, the report's dependency count equals the sum of its per-ecosystem counts, and its dependency list is the input unchanged |
| Registry.RegisterAll | src/basiliskscan/parsers/__init__.py:18-21 | the inner registration loop maps each of a parser's supported names to that parser, overwriting earlier entries in place |
| Registry.BuildRegistry | src/basiliskscan/parsers/__init__.py:12-21 | the registration loop over the parser list builds exactly the table `RegistryOf` describes |
| Registry.RegisterGet | src/basiliskscan/parsers/__init__.py:18-21 | after registering a parser, a name it supports maps to it, and every other name keeps its earlier entry |
| Registry.RegistryLastWins | src/basiliskscan/parsers/__init__.py:12-21 | a name maps to the last parser in the list that supports it, and is absent when none does |
| Registry.RegistryKeySet | src/basiliskscan/parsers/__init__.py:12-21 | a name is a key of the table iff some parser supports it |
| Registry.RegisterFreshKeys | src/basiliskscan/parsers/__init__.py:18-21 | registering fresh, distinct names appends them to the table's keys in order |
| Registry.FileToParserKeys | src/basiliskscan/parsers/__init__.py:12-21 | the live table's keys are `package.json`, `pom.xml`, `build.gradle`, `build.gradle.kts`, in that order |
| Registry.GetParserForFile | src/basiliskscan/parsers/__init__.py:24-46 | the lookup succeeds iff the name is a key of the table, returning its entry, and otherwise raises ValueError with the name and the registered names; LookupLastWins ties it to the parser list |
| Registry.GetAllSupportedFiles | src/basiliskscan/parsers/__init__.py:49-56 | a name is listed iff the lookup of that name succeeds; LiveNamesAreSupportedFiles gives the live list |
| Registry.LookupAndParse | src/basiliskscan/scanner.py:118-120 | an unregistered base name fails with the registry's ValueError; a registered one is parsed by its parser; ParsedRecords and OutcomeRecords state what the records are |
| Registry.LookupLastWins | src/basiliskscan/parsers/__init__.py:24-46 | the lookup succeeds iff some parser supports the name, returns the last such parser, and otherwise fails with the name and the supported-file list |
| Registry.LiveGet | src/basiliskscan/parsers/__init__.py:12-46 | in the live table, Java names map to the Java parser, `package.json` maps to the Node.js parser, and every other name is absent |
| Registry.LiveLookups | src/basiliskscan/parsers/__init__.py:24-56 | each live manifest name resolves to its parser; `requirements.txt` fails with the four supported names |
| Registry.SupportedFilesResolve | src/basiliskscan/parsers/__init__.py:24-46 | every name the scanner looks for has a parser, so discovery and lookup agree |
| Registry.LiveNamesAreSupportedFiles | src/basiliskscan/parsers/__init__.py:49-56 | the names the registry reports as supported are exactly the scanner's supported files (both directions) |
| Registry.Parse | src/basiliskscan/parsers/__init__.py:24-46 | calling a registered parser's `parse` behaves as that parser's specification |
| Registry.ParsedRecords | src/basiliskscan/parsers/__init__.py:12-15 | every record any registered parser returns is declared in the file it parsed and is not a pypi record |
| NodeJS.MergedKeysMeaning | src/basiliskscan/parsers/nodejs.py:81-83 | the merged dependency dict holds a name iff one of the first n sections declares it |
| NodeJS.IsIonicProject | src/basiliskscan/parsers/nodejs.py:70-93 | raises AttributeError on a non-object and TypeError on a null section; otherwise says whether an Ionic indicator is declared in any section |
| NodeJS.AppendSection | src/basiliskscan/parsers/nodejs.py:57-66 | one section's loop appends one record per entry, in order, after the records already built |
| NodeJS.ParseNodeJS | src/basiliskscan/parsers/nodejs.py:26-68 | missing file, undecodable bytes and malformed JSON become their errors; otherwise the records of all four sections, tagged ionic or npm |
| NodeJS.SectionRecordsAt | src/basiliskscan/parsers/nodejs.py:57-66 | a section gives exactly one record per entry, the k-th from the k-th entry |
| NodeJS.RecordsOfShape | src/basiliskscan/parsers/nodejs.py:57-66 | the records count the entries of the sections read; each comes from an entry of its own section, carries the ecosystem and file, and the sections appear in the fixed section order |
| NodeJS.NodeJSRecords | src/basiliskscan/parsers/nodejs.py:26-68 | success implies a JSON object without null sections; there is one record per entry, all in the parsed file, and all ionic iff an indicator is declared, else all npm |
| NodeJS.NodeJSSectionOrder | src/basiliskscan/parsers/nodejs.py:57-66 | records are grouped by section in the order dependencies, devDependencies, peerDependencies, optionalDependencies |
| NodeJS.NodeJSRecordsKind | src/basiliskscan/parsers/nodejs.py:26-68 | every record of a successful parse is declared in the parsed `package.json` and is npm or ionic |
| NodeJS.NullSectionFails | src/basiliskscan/parsers/nodejs.py:81-83 | a section that is JSON `null` makes the whole parse fail with TypeError |
| Java.FirstWithTag | src/basiliskscan/parsers/java.py:59-62 | `find` returns the first child with the requested tag (every child before it has another tag), and returns None only when no child has it |
| Java.ParseMaven | src/basiliskscan/parsers/java.py:34-76 | a missing file gives FileNotFoundError and a document ElementTree cannot decode gives ParseError, whatever the bytes' encoding; otherwise one record per `dependency` element that has a groupId and an artifactId |
| Java.MavenEncodingIndependent | src/basiliskscan/parsers/java.py:44-50 | the POM is read from its raw bytes, so a file that is not UTF-8 parses exactly as a UTF-8 file decoding to the same document does: malformed if no document, else its records |
| Java.MavenRecordsShape | src/basiliskscan/parsers/java.py:58-74 | the record count is the number of dependency elements with coordinates, at most all of them; each record is maven, in the parsed file, and built from one such element |
| Java.Coordinated | src/basiliskscan/parsers/java.py:58-64 | the `dependency` elements the loop keeps all have a groupId and an artifactId, come from the document, and number exactly the elements with both |
| Java.MavenRecordsAt | src/basiliskscan/parsers/java.py:58-74 | record `k` is the one built from the `k`-th `dependency` element that has both coordinates, so elements without them are skipped and document order is kept |
| Java.MavenDefaults | src/basiliskscan/parsers/java.py:64-74 | without `version` and `scope` children a record has no version spec and scope `compile` |
| Java.WithTagMembers | src/basiliskscan/parsers/java.py:58 | filtering by tag keeps exactly the elements with that tag |
| Java.MavenNoDependencyElements | src/basiliskscan/parsers/java.py:55-76 | a POM without any `dependency` element parses to no records |
| Java.ReadGradleLine | src/basiliskscan/parsers/java.py:120-152 | reading one line inside a dependencies block gives the record the line-level reference defines, or none |
| Java.ParseGradle | src/basiliskscan/parsers/java.py:78-154 | missing or undecodable files become their errors; otherwise the line loop yields the records of the block-state machine `GradleRun` |
| Java.GradleRecordShape | src/basiliskscan/parsers/java.py:120-152 | a record comes only from a line containing a configuration keyword, is gradle, is in the parsed file, and carries that line's number |
| Java.GradleRunOrder | src/basiliskscan/parsers/java.py:104-152 | the records' line numbers lie within the lines read and strictly increase |
| Java.GradleRunFrom | src/basiliskscan/parsers/java.py:104-152 | every record is what the line it cites reads as |
| Java.GradleRunInBlock | src/basiliskscan/parsers/java.py:101-118 | every record was read while `in_dependencies_block` was set: the state after the lines before the record's own line is inside a block |
| Java.GradleSpecShape | src/basiliskscan/parsers/java.py:78-154 | a readable file always parses; each record is gradle, in the file, was read inside a `dependencies {` block, cites a line with a configuration keyword, and line numbers strictly increase |
| Java.GradleNeedsBlock | src/basiliskscan/parsers/java.py:104-116 | without a line opening a `dependencies {` block, nothing is collected and the block is never entered |
| Java.GroovyNotation | src/basiliskscan/parsers/java.py:126-152 | a line `keyword 'g:a:v'` reads as name `g:a`, version `v`, scope `implementation` |
| Java.KotlinNotation | src/basiliskscan/parsers/java.py:126-152 | a line `keyword("g:a:v")` reads as name `g:a`, version `v`, and the keyword as scope |
| Java.GradleRecordOfQuoted | src/basiliskscan/parsers/java.py:130-152 | a keyword line without a comment yields the first quoted string's first two colon parts as name, the third as version |
| Java.QuotedLineSplits | src/basiliskscan/parsers/java.py:130-134 | a line holding a quote always splits into at least two parts at the chosen quote, so the `len(parts) >= 2` test never fails |
| Java.ParseJava | src/basiliskscan/parsers/java.py:17-32 | `pom.xml` goes to the Maven parser, the two Gradle names to the Gradle parser, anything else fails with an unsupported-file error |
| Java.JavaRecordsKind | src/basiliskscan/parsers/java.py:17-32 | every record of a successful parse is declared in the parsed file; a `pom.xml` gives only maven records and a Gradle script only gradle ones |
| LegacyParsers.ParsePackageJson | src/basiliskscan/parsers.py:15-48 | a missing file gives FileNotFoundError and undecodable bytes a UnicodeDecodeError. Malformed JSON gives TypeError, because the re-raise calls `JSONDecodeError` with one argument. A non-object gives AttributeError. Otherwise the result is the npm records of all four sections |
| LegacyParsers.PackageJsonNeverFailsOnObjects | src/basiliskscan/parsers.py:37-46 | any JSON object parses, even with null sections, giving one npm record per section entry |
| LegacyParsers.PackageJsonAgreesWithNodeJS | src/basiliskscan/parsers.py:15-48 | without null sections or Ionic indicators both package.json parsers agree; with a null section only the registry's parser fails |
| LegacyParsers.AnyOpIffFirstOp | src/basiliskscan/parsers.py:94-106 | the any-operator test holds iff the priority search finds an operator, so the line is never silently dropped |
| LegacyParsers.ReadRequirementSome | src/basiliskscan/parsers.py:76-81 | a line yields a requirement iff it is not blank, a comment, or an option line |
| LegacyParsers.ReadLine | src/basiliskscan/parsers.py:74-115 | the per-line body reads a line as the line-level reference `ReadRequirement` |
| LegacyParsers.ParseRequirementsTxt | src/basiliskscan/parsers.py:51-117 | a missing file gives FileNotFoundError. Undecodable bytes give TypeError, because the re-raise calls `UnicodeDecodeError` with one argument. Otherwise the line loop yields the records of `RequirementsRun` |
| LegacyParsers.RequirementsRunReads | src/basiliskscan/parsers.py:72-115 | the line loop equals reading every line independently and numbering the kept ones |
| LegacyParsers.RecordsFrom | src/basiliskscan/parsers.py:72-115 | every record cites a line number within the lines read, and that line reads as the record's name and version spec |
| LegacyParsers.RequirementsShape | src/basiliskscan/parsers.py:51-117 | a readable file always parses; there is one pypi record per kept line, all in the file, with strictly increasing line numbers |
| LegacyParsers.RequirementsLine | src/basiliskscan/parsers.py:72-115 | each record's line is a kept line that reads as exactly that record |
| LegacyParsers.PinnedRoundTrip | src/basiliskscan/parsers.py:84-92 | `name==version` reads back as the name and the stripped version |
| LegacyParsers.OperatorRoundTrip | src/basiliskscan/parsers.py:94-106 | `name<op>version` reads back as the name and the operator glued to the stripped version, for each comparison operator |
| LegacyParsers.BareNameRoundTrip | src/basiliskscan/parsers.py:107-115 | a bare name reads back as that name with no version spec |
| LegacyParsers.OperatorPriority | src/basiliskscan/parsers.py:96-106 | the search tries `>=` before `<`, even when `<` comes first in the line |
| LegacyParsers.TripleEquals | src/basiliskscan/parsers.py:84-92 | `foo===1.0` splits at the first `==`, leaving version `=1.0` |
| LegacyParsers.LegacyGetParserForFile | src/basiliskscan/parsers.py:120-141 | only `package.json` and `requirements.txt` resolve, and any other name raises ValueError naming the file; LegacyLookup gives both directions |
| LegacyParsers.LegacyParse | src/basiliskscan/parsers.py:133-141 | calling the package.json entry of the table is `parse_package_json` and calling the requirements.txt entry is `parse_requirements_txt` |
| LegacyParsers.LegacyLookupAndParse | src/basiliskscan/parsers.py:120-141 | looking a name up and calling the result parses `package.json` as an npm manifest and `requirements.txt` as a pip one, and raises ValueError naming any other file |
| LegacyParsers.LegacyLookup | src/basiliskscan/parsers.py:120-141 | the lookup succeeds exactly for `package.json` and `requirements.txt`, maps them to different parsers, and otherwise fails with the name |

## Left out

- The filesystem is not read. The directory tree is a `Node` datatype, with a
  `readable` flag for `PermissionError`. What a manifest reads as at parse time
  is a `FileState` map parameter. Symbolic links and cycles are not modelled.
- JSON and XML decoding are not modelled. A UTF-8 file carries its lines and
  the JSON and XML documents it decodes to, or None for malformed input. A file
  that is not UTF-8 still carries the XML document that ElementTree decodes from
  its declared encoding or byte-order mark. `str.splitlines` is taken as given
  (the `lines` field).
- A decoded JSON object is a list of key-value pairs in order, and the model
  does not require the keys to be distinct. Python's `json` keeps only the last
  of duplicated keys, so the model admits inputs that decoding never yields.
- JSON section values other than an object or `null` are left out. So are
  entries whose values are not strings.
- Exception messages are reduced to the data they carry. Console output,
  progress bars and the `rich` styling of the scanner and reporter are left out.
- Reporter.GenerateReportData: `scan_metadata` is left out because its dates
  come from the clock. The HTML report, saving and display are left out. The
  command-line interface is not part of this model.
- Reporter.GenerateDependencySummary: `files_analyzed` is a set turned into a
  list in unspecified order, so it is modelled as the set.
- The `"unknown"` ecosystem and file fallbacks of `get_project_statistics`
  and `generate_dependency_summary` are left out. Every record carries an ecosystem
  and a file, so those branches never run.
- LegacyParsers: `parsers.py` imports `NPM_DEPENDENCY_SECTIONS` from
  `config.py`, which does not define it. The package `parsers/` shadows the
  module, so nothing imports it. It is modelled on its own with the same four
  sections, and is not wired into the scanner.
- Registry: the live table has no `requirements.txt` entry. Such a file is
  never discovered anyway, because `requirements.txt` is not a supported file.
- Java.ParseGradle: a `dependencies { ... }` block on a single line opens the
  block and skips the line, so it yields nothing. The model keeps this.
