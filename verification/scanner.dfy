/**
 * `DependencyScanner`: the depth-first walk that discovers manifests below a
 * project root, the loop that parses each of them through the live parser
 * table, and the per-ecosystem statistics of the records found.
 *
 * The filesystem is a tree: a directory has a name, a flag saying whether
 * listing it succeeds, and its entries in listing order. A discovered file is
 * reported as its path, the root's path followed by the names on the way down.
 */
module Scanner {
  import opened Wrappers
  import opened Types
  import opened OrderedDict
  import Config
  import Counting
  import Registry

  /** An entry of the tree: a non-directory, or a directory with its listing. */
  datatype Node = File(name: string) | Dir(name: string, readable: bool, children: seq<Node>)

  // ---------------------------------------------------------------- the walk

  /** The paths `_walk_directory(at, ...)` appends for the entry `n` found at path `at`. */
  function Walk(n: Node, at: Path): seq<Path>
    decreases n
  {
    match n
    case File(name) => if name in Config.SupportedFiles then [at] else []
    case Dir(name, readable, children) =>
      if name in Config.IgnoredDirs || !readable then [] else WalkAll(children, at)
  }

  /** The paths appended by walking the entries of the directory at `parent`, in listing order. */
  function WalkAll(children: seq<Node>, parent: Path): seq<Path>
    decreases children
  {
    if children == [] then []
    else
      var last := children[|children| - 1];
      WalkAll(children[..|children| - 1], parent) + Walk(last, parent + [last.name])
  }

  /** The list accumulator the walk appends to. */
  class Accumulator {
    var paths: seq<Path>

    constructor()
      ensures paths == []
    {
      paths := [];
    }

    /** `accumulator.append(p)`. */
    method Append(p: Path)
      modifies this
      ensures paths == old(paths) + [p]
    {
      paths := paths + [p];
    }
  }

  /** `DependencyScanner._walk_directory`. */
  method WalkDirectory(n: Node, at: Path, acc: Accumulator)
    modifies acc
    ensures acc.paths == old(acc.paths) + Walk(n, at)
    decreases n
  {
    match n
    case File(name) =>
      if name in Config.SupportedFiles {
        acc.Append(at);
      }
    case Dir(name, readable, children) =>
      if name in Config.IgnoredDirs {
        return;
      }
      if !readable {
        // The listing raises PermissionError; the walk warns and goes on.
        return;
      }
      for i := 0 to |children|
        invariant acc.paths == old(acc.paths) + WalkAll(children[..i], at)
      {
        assert children[..i + 1][..i] == children[..i];
        WalkDirectory(children[i], at + [children[i].name], acc);
      }
      assert children[..|children|] == children;
  }

  /**
   * What `find_dependency_files(root)` returns or raises, where `tree` is what
   * sits at `root`: a missing root, then a root that is not a directory, then
   * a root whose listing fails are errors; otherwise the root's entries are
   * walked, and the root's own name is never tested.
   */
  function FindSpec(root: Path, tree: Option<Node>): Result<seq<Path>, Error> {
    match tree
    case None => Err(FileNotFound(PathString(root)))
    case Some(File(_)) => Err(NotADirectory(PathString(root)))
    case Some(Dir(_, readable, children)) =>
      if !readable then Err(PermissionDenied(PathString(root))) else Ok(WalkAll(children, root))
  }

  /** `DependencyScanner.find_dependency_files`. */
  method FindDependencyFiles(root: Path, tree: Option<Node>) returns (r: Result<seq<Path>, Error>)
    ensures r == FindSpec(root, tree)
  {
    if tree.None? {
      return Err(FileNotFound(PathString(root)));
    }
    if tree.value.File? {
      return Err(NotADirectory(PathString(root)));
    }
    if !tree.value.readable {
      return Err(PermissionDenied(PathString(root)));
    }
    var children := tree.value.children;
    var candidates := new Accumulator();
    for i := 0 to |children|
      invariant candidates.paths == WalkAll(children[..i], root)
    {
      assert children[..i + 1][..i] == children[..i];
      WalkDirectory(children[i], root + [children[i].name], candidates);
    }
    assert children[..|children|] == children;
    return Ok(candidates.paths);
  }

  // ---------------------------------------------------------------- what the walk reports

  /**
   * An independent description of a reported path: `rel`, read from the
   * directory holding `n`, names `n` and then, through readable directories
   * whose names are not pruned, a non-directory with a manifest name.
   */
  predicate Reports(n: Node, rel: seq<string>)
    decreases |rel|
  {
    && rel != []
    && rel[0] == n.name
    && if |rel| == 1 then n.File? && n.name in Config.SupportedFiles
       else
         && n.Dir? && n.readable && n.name !in Config.IgnoredDirs
         && exists i :: 0 <= i < |n.children| && Reports(n.children[i], rel[1..])
  }

  /** A path is reported from a listing exactly when it is reported from one of its entries. */
  lemma {:induction false} WalkAllMembers(children: seq<Node>, parent: Path, p: Path)
    ensures p in WalkAll(children, parent) <==>
      exists i :: 0 <= i < |children| && p in Walk(children[i], parent + [children[i].name])
    decreases children
  {
    if children != [] {
      var init := children[..|children| - 1];
      WalkAllMembers(init, parent, p);
      assert forall i :: 0 <= i < |init| ==> init[i] == children[i];
    }
  }

  /**
   * The walk reports exactly the paths below `parent` that lead, through
   * readable unpruned directories, to a non-directory with a manifest name.
   */
  lemma {:induction false} WalkReports(n: Node, parent: Path, p: Path)
    ensures p in Walk(n, parent + [n.name]) <==>
      |parent| < |p| && p[..|parent|] == parent && Reports(n, p[|parent|..])
    decreases n
  {
    var at := parent + [n.name];
    match n
    case File(name) =>
      if p in Walk(n, at) {
        assert p == at && p[|parent|..] == [name];
      }
      if |parent| < |p| && p[..|parent|] == parent && Reports(n, p[|parent|..]) {
        assert p[|parent|..] == [name];
        assert p == p[..|parent|] + p[|parent|..] == at;
      }
    case Dir(name, readable, children) =>
      if name in Config.IgnoredDirs || !readable {
      } else {
        WalkAllMembers(children, at, p);
        forall i | 0 <= i < |children|
          ensures p in Walk(children[i], at + [children[i].name]) <==>
            |at| < |p| && p[..|at|] == at && Reports(children[i], p[|at|..])
        {
          WalkReports(children[i], at, p);
        }
        if |parent| < |p| && p[..|parent|] == parent {
          var rel := p[|parent|..];
          if |rel| >= 2 {
            assert rel[1..] == p[|at|..];
            assert p[..|at|] == at <==> rel[0] == name by {
              assert p[..|at|] == p[..|parent|] + [rel[0]];
            }
          }
        }
        if p in Walk(n, at) {
          var i :| 0 <= i < |children| && p in Walk(children[i], at + [children[i].name]);
          assert |at| < |p| && p[..|at|] == at;
          var rel := p[|parent|..];
          assert p[..|parent|] == at[..|parent|] == parent;
          assert rel[0] == p[|parent|] == at[|parent|] == name;
          assert rel[1..] == p[|at|..];
        }
      }
  }

  /** What the root's listing reports, read from the root. */
  lemma FoundUnderRoot(children: seq<Node>, root: Path, p: Path)
    ensures p in WalkAll(children, root) <==>
      |root| < |p| && p[..|root|] == root
      && exists i :: 0 <= i < |children| && Reports(children[i], p[|root|..])
  {
    WalkAllMembers(children, root, p);
    forall i | 0 <= i < |children|
      ensures p in Walk(children[i], root + [children[i].name]) <==>
        |root| < |p| && p[..|root|] == root && Reports(children[i], p[|root|..])
    {
      WalkReports(children[i], root, p);
    }
  }

  /**
   * A reported path ends with a manifest name, and no directory on the way
   * from the root's entries down to it is pruned.
   */
  lemma {:induction false} ReportsShape(n: Node, rel: seq<string>)
    requires Reports(n, rel)
    ensures rel[|rel| - 1] in Config.SupportedFiles
    ensures forall j :: 0 <= j < |rel| - 1 ==> rel[j] !in Config.IgnoredDirs
    decreases |rel|
  {
    if |rel| > 1 {
      var i :| 0 <= i < |n.children| && Reports(n.children[i], rel[1..]);
      ReportsShape(n.children[i], rel[1..]);
      assert forall j :: 1 <= j < |rel| - 1 ==> rel[j] == rel[1..][j - 1];
    }
  }

  /**
   * Every path `find_dependency_files` returns lies below the root, names a
   * manifest, and crosses no pruned directory below the root; the root's own
   * name is not looked at.
   */
  lemma FoundPathsShape(root: Path, tree: Option<Node>, p: Path)
    requires FindSpec(root, tree).Ok? && p in FindSpec(root, tree).value
    ensures |root| < |p| && p[..|root|] == root
    ensures Name(p) in Config.SupportedFiles
    ensures forall j :: |root| <= j < |p| - 1 ==> p[j] !in Config.IgnoredDirs
  {
    var children := tree.value.children;
    FoundUnderRoot(children, root, p);
    var i :| 0 <= i < |children| && Reports(children[i], p[|root|..]);
    var rel := p[|root|..];
    ReportsShape(children[i], rel);
    assert rel[|rel| - 1] == p[|p| - 1];
    assert forall j :: |root| <= j < |p| - 1 ==> p[j] == rel[j - |root|];
  }

  /** The listing's entries are walked one after the other: walking two listings is walking each in turn. */
  lemma {:induction false} WalkAllAppend(a: seq<Node>, b: seq<Node>, parent: Path)
    ensures WalkAll(a + b, parent) == WalkAll(a, parent) + WalkAll(b, parent)
    decreases |b|
  {
    if b == [] {
      assert a + b == a;
    } else {
      var init, last := b[..|b| - 1], b[|b| - 1];
      WalkAllAppend(a, init, parent);
      assert (a + b)[..|a + b| - 1] == a + init;
      assert (a + b)[|a + b| - 1] == last;
      assert WalkAll(a + b, parent) == WalkAll(a + init, parent) + Walk(last, parent + [last.name]);
      assert WalkAll(b, parent) == WalkAll(init, parent) + Walk(last, parent + [last.name]);
    }
  }

  /**
   * An entry that is a pruned directory or a directory that cannot be listed
   * contributes nothing, and the walk goes on with its siblings.
   */
  lemma SkippedDirectory(before: seq<Node>, d: Node, after: seq<Node>, parent: Path)
    requires d.Dir? && (d.name in Config.IgnoredDirs || !d.readable)
    ensures WalkAll(before + [d] + after, parent) == WalkAll(before, parent) + WalkAll(after, parent)
  {
    WalkAllAppend(before + [d], after, parent);
    WalkAllAppend(before, [d], parent);
    assert [d][..0] == [];
    assert WalkAll([d], parent) == WalkAll([], parent) + Walk(d, parent + [d.name]) == [];
  }

  // ---------------------------------------------------------------- parsing what was found

  /** The state of the file at `p` when it is parsed; a path not in `fs` is gone. */
  function FileAt(fs: map<Path, FileState>, p: Path): FileState {
    if p in fs then fs[p] else Missing
  }

  /** What `get_parser_for_file(f.name)(f)` returns or raises for the discovered file `f`. */
  function Outcome(reg: Dict<Registry.ParserKind>, fs: map<Path, FileState>, f: Path): Result<seq<Dependency>, Error> {
    Registry.LookupAndParse(reg, f, FileAt(fs, f))
  }

  /** The records of `files`, in discovery order, where `outcome` says what parsing each gives; a failure adds nothing. */
  function CollectSpec(outcome: Path -> Result<seq<Dependency>, Error>, files: seq<Path>): seq<Dependency> {
    if files == [] then []
    else
      CollectSpec(outcome, files[..|files| - 1])
      + match outcome(files[|files| - 1])
        case Ok(ds) => ds
        case Err(_) => []
  }

  /**
   * What `collect_dependencies(root)` returns or raises: the errors of the
   * walk, an empty list when nothing was found, and otherwise the records of
   * every file that parsed, in discovery order.
   */
  function CollectDependenciesSpec(root: Path, tree: Option<Node>, fs: map<Path, FileState>): Result<seq<Dependency>, Error> {
    match FindSpec(root, tree)
    case Err(e) => Err(e)
    case Ok(files) =>
      if files == [] then Ok([]) else Ok(CollectSpec(f => Outcome(Registry.FileToParser(), fs, f), files))
  }

  /** The loop of `collect_dependencies` over the discovered files, with the parser table it looks names up in. */
  method CollectFrom(reg: Dict<Registry.ParserKind>, fs: map<Path, FileState>, files: seq<Path>) returns (deps: seq<Dependency>)
    ensures deps == CollectSpec(f => Outcome(reg, fs, f), files)
  {
    ghost var outcome := f => Outcome(reg, fs, f);
    deps := [];
    for i := 0 to |files|
      invariant deps == CollectSpec(outcome, files[..i])
    {
      TakeOneMore(files, i);
      var f := files[i];
      var lookup := Registry.GetParserForFile(reg, Name(f));
      if lookup.Err? {
        continue;
      }
      var fileDeps := Registry.Parse(lookup.value, f, FileAt(fs, f));
      if fileDeps.Err? {
        continue;
      }
      deps := deps + fileDeps.value;
    }
    assert files[..|files|] == files;
  }

  /** `DependencyScanner.collect_dependencies`, without its console and progress output. */
  method CollectDependencies(root: Path, tree: Option<Node>, fs: map<Path, FileState>) returns (r: Result<seq<Dependency>, Error>)
    ensures r == CollectDependenciesSpec(root, tree, fs)
  {
    var found := FindDependencyFiles(root, tree);
    if found.Err? {
      return Err(found.error);
    }
    var files := found.value;
    var deps: seq<Dependency> := [];
    if files == [] {
      return Ok(deps);
    }
    deps := CollectFrom(Registry.FileToParser(), fs, files);
    return Ok(deps);
  }

  /** Collecting over two lists of files is collecting over each in turn. */
  lemma {:induction false} CollectAppend(outcome: Path -> Result<seq<Dependency>, Error>, a: seq<Path>, b: seq<Path>)
    ensures CollectSpec(outcome, a + b) == CollectSpec(outcome, a) + CollectSpec(outcome, b)
    decreases |b|
  {
    if b == [] {
      assert a + b == a;
    } else {
      var init := b[..|b| - 1];
      CollectAppend(outcome, a, init);
      assert (a + b)[..|a + b| - 1] == a + init;
      assert (a + b)[|a + b| - 1] == b[|b| - 1];
    }
  }

  /** A file whose lookup or parse fails adds nothing, and the files after it are still parsed. */
  lemma FailureIsolated(outcome: Path -> Result<seq<Dependency>, Error>, before: seq<Path>, f: Path, after: seq<Path>)
    requires outcome(f).Err?
    ensures CollectSpec(outcome, before + [f] + after) == CollectSpec(outcome, before) + CollectSpec(outcome, after)
  {
    assert CollectSpec(outcome, [f]) == [] by {
      assert [f][..0] == [];
    }
    CollectAppend(outcome, before, [f]);
    CollectAppend(outcome, before + [f], after);
  }

  /**
   * When every successful parse yields records that name the parsed file and
   * are not `pypi` records, so does the whole collection.
   */
  lemma {:induction false} CollectedRecords(outcome: Path -> Result<seq<Dependency>, Error>, files: seq<Path>)
    requires forall f :: outcome(f).Ok? ==>
      forall d :: d in outcome(f).value ==> d.ecosystem != Pypi && d.declaredIn == PathString(f)
    ensures forall d :: d in CollectSpec(outcome, files) ==>
      d.ecosystem != Pypi && exists i :: 0 <= i < |files| && d.declaredIn == PathString(files[i])
  {
    if files != [] {
      var init, f := files[..|files| - 1], files[|files| - 1];
      CollectedRecords(outcome, init);
      forall d | d in CollectSpec(outcome, files)
        ensures d.ecosystem != Pypi && exists i :: 0 <= i < |files| && d.declaredIn == PathString(files[i])
      {
        if d in CollectSpec(outcome, init) {
          var i :| 0 <= i < |init| && d.declaredIn == PathString(init[i]);
          assert files[i] == init[i];
        } else {
          assert d.declaredIn == PathString(files[|files| - 1]);
        }
      }
    }
  }

  /** The live parsers never yield a `pypi` record, and every record they yield names the parsed file. */
  lemma OutcomeRecords(fs: map<Path, FileState>, f: Path)
    requires Outcome(Registry.FileToParser(), fs, f).Ok?
    ensures forall d :: d in Outcome(Registry.FileToParser(), fs, f).value ==>
      d.ecosystem != Pypi && d.declaredIn == PathString(f)
  {
    var p := Registry.GetParserForFile(Registry.FileToParser(), Name(f)).value;
    Registry.ParsedRecords(p, f, FileAt(fs, f));
  }

  /**
   * A requirements.txt is never discovered nor parsed, so the pipeline never
   * yields a `pypi` record, and every record names a discovered file.
   */
  lemma CollectedFromFound(root: Path, tree: Option<Node>, fs: map<Path, FileState>)
    requires CollectDependenciesSpec(root, tree, fs).Ok?
    ensures forall d :: d in CollectDependenciesSpec(root, tree, fs).value ==>
      d.ecosystem != Pypi && exists f :: f in FindSpec(root, tree).value && d.declaredIn == PathString(f)
  {
    var outcome := f => Outcome(Registry.FileToParser(), fs, f);
    forall f | outcome(f).Ok?
      ensures forall d :: d in outcome(f).value ==> d.ecosystem != Pypi && d.declaredIn == PathString(f)
    {
      OutcomeRecords(fs, f);
    }
    var files := FindSpec(root, tree).value;
    CollectedRecords(outcome, files);
  }

  // ---------------------------------------------------------------- statistics

  /** `DependencyScanner.get_project_statistics`: the tally of the records' ecosystems. */
  method GetProjectStatistics(deps: seq<Dependency>) returns (stats: Dict<nat>)
    ensures stats == Counting.Tally(EcosystemNames(deps))
  {
    stats := [];
    for i := 0 to |deps|
      invariant stats == Counting.Tally(EcosystemNames(deps[..i]))
    {
      var eco := EcosystemName(deps[i].ecosystem);
      ProjectionsSnoc(deps, i);
      Counting.TallySnoc(EcosystemNames(deps[..i]), eco);
      stats := Counting.Bump(stats, eco);
    }
    assert deps[..|deps|] == deps;
  }

  /**
   * The statistics map each ecosystem, in order of first appearance, to the
   * number of records that carry it, and nothing else; the counts add up to
   * the number of records.
   */
  lemma StatisticsSpec(deps: seq<Dependency>)
    ensures var stats := Counting.Tally(EcosystemNames(deps));
      && Distinct(Keys(stats))
      && (forall k :: GetOr(stats, k, 0) == multiset(EcosystemNames(deps))[k])
      && (forall k :: Get(stats, k).Some? <==> k in EcosystemNames(deps))
      && SumValues(stats) == |deps|
  {
    var names := EcosystemNames(deps);
    Counting.TallySpec(names);
    Counting.TallyDistinct(names);
    Counting.TallySum(names);
  }
}
