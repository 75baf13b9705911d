/**
 * The counting parts of the reporter: `SummaryReporter.generate_dependency_summary`
 * (the total, the per-ecosystem and per-file counts, and the set of files
 * analysed) and the fields of `ReportGenerator.generate_report_data` that do
 * not come from the clock.
 */
module Reporter {
  import opened Types
  import opened OrderedDict
  import Counting

  /**
   * The summary dict. `files_analyzed` is a set turned into a list, in no
   * particular order, so it is kept as the set.
   */
  datatype Summary = Summary(
    totalDependencies: nat,
    byEcosystem: Dict<nat>,
    byFile: Dict<nat>,
    filesAnalyzed: set<string>)

  /** The distinct elements of `s`. */
  function Elements(s: seq<string>): set<string> {
    set x | x in s
  }

  /** `set.add`: one more element. */
  lemma ElementsSnoc(s: seq<string>, x: string)
    ensures Elements(s + [x]) == Elements(s) + {x}
  {
  }

  /** `SummaryReporter.generate_dependency_summary`. */
  method GenerateDependencySummary(deps: seq<Dependency>) returns (summary: Summary)
    ensures summary.totalDependencies == |deps|
    ensures summary.byEcosystem == Counting.Tally(EcosystemNames(deps))
    ensures summary.byFile == Counting.Tally(DeclaredIns(deps))
    ensures summary.filesAnalyzed == Elements(DeclaredIns(deps))
  {
    var byEcosystem: Dict<nat> := [];
    var byFile: Dict<nat> := [];
    var filesAnalyzed: set<string> := {};
    for i := 0 to |deps|
      invariant byEcosystem == Counting.Tally(EcosystemNames(deps[..i]))
      invariant byFile == Counting.Tally(DeclaredIns(deps[..i]))
      invariant filesAnalyzed == Elements(DeclaredIns(deps[..i]))
    {
      var eco := EcosystemName(deps[i].ecosystem);
      var filePath := deps[i].declaredIn;
      ProjectionsSnoc(deps, i);
      ElementsSnoc(DeclaredIns(deps[..i]), filePath);
      Counting.TallySnoc(EcosystemNames(deps[..i]), eco);
      Counting.TallySnoc(DeclaredIns(deps[..i]), filePath);
      byEcosystem := Counting.Bump(byEcosystem, eco);
      byFile := Counting.Bump(byFile, filePath);
      filesAnalyzed := filesAnalyzed + {filePath};
    }
    assert deps[..|deps|] == deps;
    summary := Summary(|deps|, byEcosystem, byFile, filesAnalyzed);
  }

  /**
   * Both breakdowns add up to the total, each counts every ecosystem or file
   * by its number of records, and the files analysed are exactly the files
   * of the per-file breakdown.
   */
  lemma SummaryConsistent(deps: seq<Dependency>)
    ensures var byEcosystem := Counting.Tally(EcosystemNames(deps));
            var byFile := Counting.Tally(DeclaredIns(deps));
      && SumValues(byEcosystem) == |deps| && SumValues(byFile) == |deps|
      && (forall k :: GetOr(byEcosystem, k, 0) == multiset(EcosystemNames(deps))[k])
      && (forall k :: GetOr(byFile, k, 0) == multiset(DeclaredIns(deps))[k])
      && (forall f :: f in Elements(DeclaredIns(deps)) <==> f in Keys(byFile))
      && Distinct(Keys(byFile))
  {
    Counting.TallySum(EcosystemNames(deps));
    Counting.TallySum(DeclaredIns(deps));
    Counting.TallySpec(EcosystemNames(deps));
    Counting.TallySpec(DeclaredIns(deps));
    Counting.DedupSpec(DeclaredIns(deps));
    Counting.TallyDistinct(DeclaredIns(deps));
  }

  /** `project_info` of the report. */
  datatype ProjectInfo = ProjectInfo(path: string, dependencyCount: nat, ecosystemsFound: Dict<nat>)

  /** The report dict without `scan_metadata`, whose dates come from the clock. */
  datatype ReportData = ReportData(projectInfo: ProjectInfo, dependencies: seq<Dependency>)

  /** `ReportGenerator.generate_report_data`, without `scan_metadata`. */
  function GenerateReportData(targetPath: Path, deps: seq<Dependency>, ecosystems: Dict<nat>): (report: ReportData)
    ensures report.projectInfo.dependencyCount == |report.dependencies|
    ensures report.dependencies == deps && report.projectInfo.ecosystemsFound == ecosystems
    ensures report.projectInfo.path == PathString(targetPath)
  {
    ReportData(ProjectInfo(PathString(targetPath), |deps|, ecosystems), deps)
  }

  /**
   * Given the scanner's statistics of the same records, the report's
   * dependency count is the summary's total and the sum of the per-ecosystem
   * counts it carries.
   */
  lemma ReportCountsAgree(targetPath: Path, deps: seq<Dependency>)
    ensures var ecosystems := Counting.Tally(EcosystemNames(deps));
            var report := GenerateReportData(targetPath, deps, ecosystems);
      && report.projectInfo.dependencyCount == SumValues(report.projectInfo.ecosystemsFound)
      && report.dependencies == deps
  {
    Counting.TallySum(EcosystemNames(deps));
  }
}
