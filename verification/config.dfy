/** The global constants of the scanner: pruned directory names and manifest file names. */
module Config {

  /** Directories the walk never enters. */
  const IgnoredDirs: set<string> := {
    "node_modules", ".git", ".venv", "venv", "__pycache__", "dist", "build", ".tox",
    ".mypy_cache", ".pytest_cache", "coverage", ".coverage", "htmlcov", ".env",
    "target", ".gradle"
  }

  /** The file names the walk reports. */
  const SupportedFiles: set<string> := {
    "package.json", "pom.xml", "build.gradle", "build.gradle.kts"
  }

  /** Four distinct manifest names are reported, and requirements.txt is not among them. */
  lemma SupportedFilesShape()
    ensures |SupportedFiles| == 4
    ensures "requirements.txt" !in SupportedFiles
  {
  }

  /** No name is both pruned as a directory and reported as a manifest. */
  lemma IgnoredAndSupportedDisjoint()
    ensures IgnoredDirs !! SupportedFiles
  {
  }
}
