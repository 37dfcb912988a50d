/**
 Classification of changed paths and selection of the expensive suites (src/omo/ci_changes.py).
 Everything that is not known to be harmless selects both suites.
 */
module CiSelection {
  import opened Common
  import opened ChangeSets

  datatype Suites = Suites(model: bool, container: bool)

  const FULL_VALIDATION := Suites(true, true)
  const NEITHER := Suites(false, false)

  const DOCUMENTATION_FILES := {
    "CHANGELOG.md", "CONTRIBUTING.md", "LICENSE", "NOTICE", "PROJECT_DEFINITION.md", "README.md", "SECURITY.md",
      "TODO.md"}
  const MODEL_PATHS := {
    "config/", "evaluation/", "models/", "scripts/download_model.py", "src/", "tests/test_real_model.py", "training/",
      "uv.lock"}
  const CONTAINER_PATHS := {
    ".dockerignore", "Dockerfile", "compose.yaml", "config/", "models/", "scripts/container_smoke.py", "src/",
      "uv.lock"}
  const DEPENDENCY_PATHS := {"build-constraints.txt", "pyproject.toml"}
  const MODEL_ONLY_FILES := {
    "config/training.yaml", "config/classification.yaml", "evaluation/build_dataset.py",
    "scripts/check_evaluation_contract.py", "scripts/check_training_dispatch.py",
    "scripts/check_classification_contract.py", "scripts/check_dataset_pipeline.py"}
  const CONTAINER_ONLY_FILES := {"scripts/check_security_report.py"}
  const CI_ONLY_FILES := {
    "config/publication.yaml", "scripts/check_publication_contract.py", "scripts/check_release_contract.py",
    "scripts/promote_release.py", "scripts/release_manifest.py",
    ".github/workflows/account-preflight.yml", ".github/workflows/claude-code-review.yml"}
  const RELEVANT_WORKFLOWS := {".github/workflows/ci.yml", ".github/workflows/release.yml"}

  predicate EndsWith(s: string, suffix: string) { |s| >= |suffix| && s[|s| - |suffix|..] == suffix }

  predicate Matches(path: string, patterns: set<string>) {
    exists pattern :: pattern in patterns && (path == pattern || (EndsWith(pattern, "/") && pattern <= path))
  }

  predicate Documentation(path: string) {
    "docs/" <= path || path in DOCUMENTATION_FILES || EndsWith(path, ".md")
  }

  /** The class of a normal path; `None` is unknown. */
  function Known(path: string): Option<Suites> {
    if path in MODEL_ONLY_FILES then Some(Suites(true, false))
    else if path in CONTAINER_ONLY_FILES then Some(Suites(false, true))
    else if path in CI_ONLY_FILES then Some(NEITHER)
    else if Matches(path, DEPENDENCY_PATHS) then Some(FULL_VALIDATION)
    else if Matches(path, MODEL_PATHS) && Matches(path, CONTAINER_PATHS) then Some(FULL_VALIDATION)
    else if Matches(path, MODEL_PATHS) then Some(Suites(true, false))
    else if Matches(path, CONTAINER_PATHS) then Some(Suites(false, true))
    else if path in RELEVANT_WORKFLOWS then Some(FULL_VALIDATION)
    else if ".github/workflows/" <= path then None
    else if Documentation(path) then Some(NEITHER)
    else None
  }

  datatype PathClass = Unsafe | Unknown | Classified(suites: Suites)

  function ClassOf(path: string): PathClass {
    var normal := Normalised(path);
    if normal.None? then Unsafe
    else if Known(normal.value).None? then Unknown
    else Classified(Known(normal.value).value)
  }

  datatype Outcome = Selected(suites: Suites) | Raised

  function Both(a: Suites, b: Suites): Suites { Suites(a.model || b.model, a.container || b.container) }

  /** The loop of `classify`, path by path, with the class of each path given by `classOf`. */
  function Gathered(classOf: string -> PathClass, paths: seq<string>, selected: Suites): Outcome {
    if paths == [] then Selected(selected)
    else match classOf(paths[0])
      case Unsafe => Raised
      case Unknown => Selected(FULL_VALIDATION)
      case Classified(suites) => Gathered(classOf, paths[1..], Both(selected, suites))
  }

  function Classification(classOf: string -> PathClass, paths: seq<string>): Outcome {
    if paths == [] then Selected(FULL_VALIDATION) else Gathered(classOf, paths, NEITHER)
  }

  method Classify(paths: seq<string>) returns (outcome: Outcome)
    ensures outcome == Classification(ClassOf, paths)
  {
    if paths == [] {
      return Selected(FULL_VALIDATION);
    }
    var selected := NEITHER;
    for i := 0 to |paths|
      invariant Gathered(ClassOf, paths, NEITHER) == Gathered(ClassOf, paths[i..], selected)
    {
      assert paths[i..][1..] == paths[i + 1..];
      var normal := NormalisePath(paths[i]);
      if normal.None? {
        return Raised;
      }
      var known := Known(normal.value);
      if known.None? {
        return Selected(FULL_VALIDATION);
      }
      selected := Both(selected, known.value);
    }
    return Selected(selected);
  }

  /** `classify` raises exactly when an unsafe path comes before every unknown one. */
  lemma {:induction false} RaisesExactly(classOf: string -> PathClass, paths: seq<string>, selected: Suites)
    ensures Gathered(classOf, paths, selected).Raised? <==>
      exists i :: 0 <= i < |paths| && classOf(paths[i]).Unsafe?
        && forall j | 0 <= j < i :: classOf(paths[j]).Classified?
  {
    if paths != [] && classOf(paths[0]).Classified? {
      var next := Both(selected, classOf(paths[0]).suites);
      RaisesExactly(classOf, paths[1..], next);
      if Gathered(classOf, paths, selected).Raised? {
        var i :| 0 <= i < |paths[1..]| && classOf(paths[1..][i]).Unsafe?
          && forall j | 0 <= j < i :: classOf(paths[1..][j]).Classified?;
        assert classOf(paths[i + 1]).Unsafe?;
        assert forall j | 0 < j < i + 1 :: paths[j] == paths[1..][j - 1];
      }
      forall i | 0 <= i < |paths| && classOf(paths[i]).Unsafe? && forall j | 0 <= j < i :: classOf(paths[j]).Classified?
        ensures Gathered(classOf, paths, selected).Raised?
      {
        assert classOf(paths[1..][i - 1]).Unsafe?;
      }
    }
  }

  /** The order of the paths decides whether `classify` answers or raises. */
  lemma ClassifyDependsOnOrder()
    ensures Classification(ClassOf, ["x", "/y"]) == Selected(FULL_VALIDATION)
    ensures Classification(ClassOf, ["/y", "x"]) == Raised
  {
    UnknownX();
    assert Slashed("/y") == "/y";
    assert ClassOf("/y").Unsafe?;
  }

  lemma UnknownX()
    ensures ClassOf("x") == Unknown
  {
    assert Slashed("x") == "x";
    assert Normalised("x") == Some("x");
    assert !("docs/" <= "x") && !(".github/workflows/" <= "x") && !EndsWith("x", ".md");
  }

  // ---- paths that select nothing ---------------------------------------------------------------

  const WATCHED_DIRECTORIES := {"config/", "evaluation/", "models/", "src/", "training/", ".github/workflows/"}

  predicate Watched(path: string) { exists directory :: directory in WATCHED_DIRECTORIES && directory <= path }

  /**
   The paths that select no suite: seven release and workflow files by name, and the documentation
   outside the watched directories.
   */
  lemma HarmlessExactly(path: string)
    ensures Known(path) == Some(NEITHER) <==> path in CI_ONLY_FILES || (Documentation(path) && !Watched(path))
  {
    if path in CI_ONLY_FILES {
      ExceptionsDisjoint(path);
    } else if Documentation(path) {
      DocumentationMatchesDirectories(path);
    }
  }

  const EXCEPTIONS := MODEL_ONLY_FILES + CONTAINER_ONLY_FILES + CI_ONLY_FILES

  /**
   The class of a path without the order of the tests: the named exceptions decide alone; any other
   path needs the suites whose pattern lists it matches, dependencies and the two main workflows
   belonging to both lists; a path in no list is unknown unless it is documentation.
   */
  lemma KnownExactly(path: string)
    ensures var known := Known(path);
      var model := Matches(path, MODEL_PATHS + DEPENDENCY_PATHS + RELEVANT_WORKFLOWS);
      var container := Matches(path, CONTAINER_PATHS + DEPENDENCY_PATHS + RELEVANT_WORKFLOWS);
      if path in EXCEPTIONS then known == Some(Suites(path in MODEL_ONLY_FILES, path in CONTAINER_ONLY_FILES))
      else if model || container then known == Some(Suites(model, container))
      else known == if Documentation(path) && !(".github/workflows/" <= path) then Some(NEITHER) else None
  {
    if path in EXCEPTIONS {
      ExceptionsDisjoint(path);
    } else {
      MatchesUnion(path, MODEL_PATHS, DEPENDENCY_PATHS);
      MatchesUnion(path, MODEL_PATHS + DEPENDENCY_PATHS, RELEVANT_WORKFLOWS);
      MatchesUnion(path, CONTAINER_PATHS, DEPENDENCY_PATHS);
      MatchesUnion(path, CONTAINER_PATHS + DEPENDENCY_PATHS, RELEVANT_WORKFLOWS);
      WorkflowsAreFiles(path);
      Listed(path, Matches(path, MODEL_PATHS), Matches(path, CONTAINER_PATHS), Matches(path, DEPENDENCY_PATHS));
    }
  }

  lemma Listed(path: string, model: bool, container: bool, dependency: bool)
    requires path !in EXCEPTIONS
    requires model == Matches(path, MODEL_PATHS) && container == Matches(path, CONTAINER_PATHS)
    requires dependency == Matches(path, DEPENDENCY_PATHS)
    ensures var both := dependency || path in RELEVANT_WORKFLOWS;
      Known(path) ==
        if model || container || both then Some(Suites(model || both, container || both))
        else if Documentation(path) && !(".github/workflows/" <= path) then Some(NEITHER) else None
  {
    if path in RELEVANT_WORKFLOWS {
      WorkflowsMatchNothing(path);
    }
  }

  lemma WorkflowsMatchNothing(path: string)
    requires path in RELEVANT_WORKFLOWS
    ensures !Matches(path, MODEL_PATHS) && !Matches(path, CONTAINER_PATHS)
  {
    InGithub(path);
    NotInGithub();
    NoMatch(path, MODEL_PATHS);
    NoMatch(path, CONTAINER_PATHS);
  }

  lemma NoMatch(path: string, patterns: set<string>)
    requires StartsDotG(path) && forall p | p in patterns :: |p| >= 2 && !StartsDotG(p)
    ensures !Matches(path, patterns)
  {
  }

  predicate StartsDotG(path: string) { |path| >= 2 && path[0] == '.' && path[1] == 'g' }

  lemma InGithub(path: string)
    requires path in RELEVANT_WORKFLOWS
    ensures StartsDotG(path)
  {
  }

  lemma NotInGithub()
    ensures forall p | p in MODEL_PATHS + CONTAINER_PATHS :: |p| >= 2 && !StartsDotG(p)
  {
    forall p | p in MODEL_PATHS + CONTAINER_PATHS ensures |p| >= 2 && !StartsDotG(p) {
      assert |p| >= 2;
    }
  }

  lemma MatchesUnion(path: string, p: set<string>, q: set<string>)
    ensures Matches(path, p + q) <==> Matches(path, p) || Matches(path, q)
  {
  }

  lemma WorkflowsAreFiles(path: string)
    ensures Matches(path, RELEVANT_WORKFLOWS) <==> path in RELEVANT_WORKFLOWS
  {
    assert forall p | p in RELEVANT_WORKFLOWS :: p[|p| - 1] == 'l';
    forall p | p in RELEVANT_WORKFLOWS ensures !EndsWith(p, "/") {
      assert p[|p| - 1..][0] == p[|p| - 1];
    }
  }

  lemma ExceptionsDisjoint(path: string)
    ensures !(path in MODEL_ONLY_FILES && path in CONTAINER_ONLY_FILES)
    ensures path in CI_ONLY_FILES ==> path !in MODEL_ONLY_FILES && path !in CONTAINER_ONLY_FILES
  {
  }

  /** The claim that only documentation can skip both suites fails on exactly those seven files. */
  lemma OnlyDocumentationSkips(path: string)
    ensures (Known(path) == Some(NEITHER) ==> Documentation(path)) <==> path !in CI_ONLY_FILES
  {
    HarmlessExactly(path);
    if path in CI_ONLY_FILES {
      assert path[|path| - 1] in {'y', 'l'} && path[0] in {'c', 's', '.'};
      PlainFile(path);
    }
  }

  predicate Plain(path: string) {
    path != "" && path[0] != 'd' && path[|path| - 1] != 'd' && path != "LICENSE" && path != "NOTICE"
  }

  lemma PlainFile(path: string)
    requires Plain(path)
    ensures !Documentation(path)
  {
    assert path !in DOCUMENTATION_FILES by {
      assert forall file | file in DOCUMENTATION_FILES ::
        file[|file| - 1] == 'd' || file == "LICENSE" || file == "NOTICE";
    }
    assert "docs/"[0] == 'd';
    assert |path| >= 3 ==> path[|path| - 3..][2] == path[|path| - 1];
  }

  /** Of the patterns, a documentation path can only match a directory. */
  lemma DocumentationMatchesDirectories(path: string)
    requires Documentation(path)
    ensures path !in MODEL_ONLY_FILES && path !in CONTAINER_ONLY_FILES && path !in RELEVANT_WORKFLOWS
    ensures !Matches(path, DEPENDENCY_PATHS)
    ensures Matches(path, MODEL_PATHS) || Matches(path, CONTAINER_PATHS) || ".github/workflows/" <= path
      <==> Watched(path)
  {
    PlainLists(path);
    DirectoryPatterns();
    forall directory | directory in WATCHED_DIRECTORIES && directory <= path
      ensures Matches(path, MODEL_PATHS) || Matches(path, CONTAINER_PATHS) || ".github/workflows/" <= path
    {
      if directory != ".github/workflows/" {
        assert directory in MODEL_PATHS && EndsWith(directory, "/");
      }
    }
    if ".github/workflows/" <= path {
      assert ".github/workflows/" in WATCHED_DIRECTORIES;
    }
  }

  /** Only directories end with a slash among the patterns. */
  lemma DirectoryPatterns()
    ensures forall p | p in DEPENDENCY_PATHS :: !EndsWith(p, "/")
    ensures forall p | p in MODEL_PATHS + CONTAINER_PATHS :: EndsWith(p, "/") <==> p in WATCHED_DIRECTORIES
    ensures forall p | p in WATCHED_DIRECTORIES && p != ".github/workflows/" :: p in MODEL_PATHS && EndsWith(p, "/")
  {
  }

  lemma PlainLists(path: string)
    requires Documentation(path)
    ensures path !in MODEL_ONLY_FILES && path !in CONTAINER_ONLY_FILES && path !in RELEVANT_WORKFLOWS
    ensures path !in DEPENDENCY_PATHS && (path in MODEL_PATHS + CONTAINER_PATHS ==> path in WATCHED_DIRECTORIES)
  {
    PlainNames();
    PlainPatterns();
    if Plain(path) {
      PlainFile(path);
    }
  }

  lemma PlainNames()
    ensures forall p | p in MODEL_ONLY_FILES + CONTAINER_ONLY_FILES + RELEVANT_WORKFLOWS + DEPENDENCY_PATHS :: Plain(p)
  {
    forall p | p in MODEL_ONLY_FILES + CONTAINER_ONLY_FILES + RELEVANT_WORKFLOWS + DEPENDENCY_PATHS ensures Plain(p) {
      assert |p| > 7;
    }
  }

  lemma PlainPatterns()
    ensures forall p | p in MODEL_PATHS + CONTAINER_PATHS && p !in WATCHED_DIRECTORIES :: Plain(p)
  {
  }

  // ---- the paths by what they select -----------------------------------------------------------

  predicate Under(path: string, directories: set<string>) {
    exists directory :: directory in directories && directory <= path
  }

  /** Patterns split into directories and files. */
  lemma MatchesSplit(path: string, directories: set<string>, files: set<string>)
    requires forall d | d in directories :: EndsWith(d, "/")
    requires forall f | f in files :: !EndsWith(f, "/")
    ensures Matches(path, directories + files) <==> Under(path, directories) || path in files
  {
  }

  lemma FileEnds(files: set<string>)
    requires forall f | f in files :: f != "" && f[|f| - 1] != '/'
    ensures forall f | f in files :: !EndsWith(f, "/")
  {
    forall f | f in files ensures !EndsWith(f, "/") {
      assert f[|f| - 1..][0] == f[|f| - 1];
    }
  }

  const BOTH_DIRECTORIES := {"config/", "models/", "src/"}
  const ONLY_MODEL_DIRECTORIES := {"evaluation/", "training/"}
  const LOCK := {"uv.lock"}
  const MODEL_FILES := {"scripts/download_model.py", "tests/test_real_model.py"}
  const CONTAINER_FILES := {".dockerignore", "Dockerfile", "compose.yaml", "scripts/container_smoke.py"}

  lemma ModelPathsSplit()
    ensures MODEL_PATHS == (BOTH_DIRECTORIES + ONLY_MODEL_DIRECTORIES) + (LOCK + MODEL_FILES)
  {
  }

  lemma ContainerPathsSplit()
    ensures CONTAINER_PATHS == BOTH_DIRECTORIES + (LOCK + CONTAINER_FILES)
  {
  }

  lemma DirectoriesEnd()
    ensures forall d | d in BOTH_DIRECTORIES + ONLY_MODEL_DIRECTORIES :: EndsWith(d, "/")
  {
  }

  lemma ModelFilesEnd()
    ensures forall f | f in LOCK + MODEL_FILES :: f != "" && f[|f| - 1] != '/'
  {
  }

  lemma ContainerFilesEnd()
    ensures forall f | f in LOCK + CONTAINER_FILES :: f != "" && f[|f| - 1] != '/'
  {
  }

  lemma DependencyFilesEnd()
    ensures forall f | f in DEPENDENCY_PATHS :: f != "" && f[|f| - 1] != '/'
  {
  }

  /** The lists by directory and by file. */
  lemma ModelMatches(path: string)
    ensures Matches(path, MODEL_PATHS) <==>
      Under(path, BOTH_DIRECTORIES + ONLY_MODEL_DIRECTORIES) || path in LOCK + MODEL_FILES
  {
    ModelPathsSplit();
    DirectoriesEnd();
    ModelFilesEnd();
    FileEnds(LOCK + MODEL_FILES);
    MatchesSplit(path, BOTH_DIRECTORIES + ONLY_MODEL_DIRECTORIES, LOCK + MODEL_FILES);
  }

  lemma ContainerMatches(path: string)
    ensures Matches(path, CONTAINER_PATHS) <==> Under(path, BOTH_DIRECTORIES) || path in LOCK + CONTAINER_FILES
  {
    ContainerPathsSplit();
    DirectoriesEnd();
    ContainerFilesEnd();
    FileEnds(LOCK + CONTAINER_FILES);
    MatchesSplit(path, BOTH_DIRECTORIES, LOCK + CONTAINER_FILES);
  }

  lemma DependencyMatches(path: string)
    ensures Matches(path, DEPENDENCY_PATHS) <==> path in DEPENDENCY_PATHS
  {
    DependencyFilesEnd();
    FileEnds(DEPENDENCY_PATHS);
  }

  lemma UnderEither(path: string, a: set<string>, b: set<string>)
    ensures Under(path, a + b) <==> Under(path, a) || Under(path, b)
  {
  }

  const BOTH_FILES := {
    "uv.lock", "build-constraints.txt", "pyproject.toml", ".github/workflows/ci.yml", ".github/workflows/release.yml"}
  const NARROWER_FILES := {"config/training.yaml", "config/classification.yaml", "config/publication.yaml"}
  const ONLY_MODEL_FILES := {
    "config/training.yaml", "config/classification.yaml", "scripts/check_evaluation_contract.py",
    "scripts/check_training_dispatch.py", "scripts/check_classification_contract.py",
    "scripts/check_dataset_pipeline.py", "scripts/download_model.py", "tests/test_real_model.py"}
  const ONLY_CONTAINER_FILES := {
    ".dockerignore", "Dockerfile", "compose.yaml", "scripts/container_smoke.py", "scripts/check_security_report.py"}

  // Lengths and characters that tell the files apart, from each other and from the directories.

  lemma BothFilesDiffer()
    ensures BOTH_FILES == LOCK + DEPENDENCY_PATHS + RELEVANT_WORKFLOWS
    ensures forall p | p in BOTH_FILES :: |p| in {7, 14, 21, 24, 29} && p[0] in {'u', 'b', 'p', '.'} && p[1] != 'd'
  {
  }

  lemma ModelFilesDiffer()
    ensures forall p | p in MODEL_FILES :: |p| in {24, 25} && p[0] in {'s', 't'} && p[1] in {'c', 'e'}
  {
  }

  lemma ContainerFilesDiffer()
    ensures forall p | p in CONTAINER_FILES ::
      |p| in {10, 12, 13, 26} && p[0] in {'.', 'D', 'c', 's'} && p[1] in {'d', 'o', 'c'} && p[2] != 'n'
      && (|p| == 26 ==> p[8] == 'c')
  {
  }

  lemma ExceptionsDiffer()
    ensures forall p | p in EXCEPTIONS ::
      |p| >= 20 && |p| !in {21, 24, 25, 29} && p[0] in {'c', 'e', 's', '.'} && (|p| == 26 ==> p[8] != 'c')
  {
  }

  lemma ExceptionsPlaced()
    ensures forall p | p in EXCEPTIONS :: p in NARROWER_FILES || p[0] in {'e', '.'} || (p[0] == 's' && p[1] == 'c')
  {
  }

  lemma EvaluationException()
    ensures forall p | p in EXCEPTIONS && p[0] == 'e' :: p in MODEL_ONLY_FILES
  {
  }

  lemma ModelOnlyPlaced()
    ensures forall p | p in MODEL_ONLY_FILES :: p in ONLY_MODEL_FILES || "evaluation/" <= p
  {
  }

  lemma ModelOnlyGathered()
    ensures ONLY_MODEL_FILES <= MODEL_ONLY_FILES + MODEL_FILES && MODEL_FILES <= ONLY_MODEL_FILES
  {
  }

  lemma ContainerOnlyGathered()
    ensures ONLY_CONTAINER_FILES == CONTAINER_ONLY_FILES + CONTAINER_FILES
  {
  }

  lemma NarrowerAreExceptions()
    ensures NARROWER_FILES <= EXCEPTIONS
  {
  }

  lemma UnderHeads(path: string)
    ensures Under(path, BOTH_DIRECTORIES) ==>
      |path| >= 3 && path[0] in {'c', 'm', 's'} && (path[0] == 's' ==> path[1] == 'r')
      && (path[0] == 'c' ==> path[2] == 'n')
    ensures Under(path, ONLY_MODEL_DIRECTORIES) ==> |path| >= 3 && path[0] in {'e', 't'} && path[1] in {'v', 'r'}
  {
  }

  /**
   What each path selects, by the suites selected: both, only the model's, only the container's. No
   other path selects just these, so a path in none of the three selects nothing or is unknown.
   */
  lemma SelectsExactly(path: string)
    ensures Known(path) == Some(Suites(true, true)) <==>
      path in BOTH_FILES || (Under(path, BOTH_DIRECTORIES) && path !in NARROWER_FILES)
    ensures Known(path) == Some(Suites(true, false)) <==>
      path in ONLY_MODEL_FILES || Under(path, ONLY_MODEL_DIRECTORIES)
    ensures Known(path) == Some(Suites(false, true)) <==> path in ONLY_CONTAINER_FILES
  {
    var files := OurFiles();
    KnownExactly(path);
    if path in EXCEPTIONS {
      ExceptionSelects(path, files);
      ExceptionsDisjoint(path);
    } else {
      ListsUnite(path);
      OtherSelects(path, files);
    }
  }

  /** The sets of files, so that what follows is checked for any that are told apart as above. */
  datatype Files = Files(
    both: set<string>, narrower: set<string>, onlyModel: set<string>, onlyContainer: set<string>,
    model: set<string>, container: set<string>, modelOnly: set<string>, containerOnly: set<string>,
    exceptions: set<string>)
  {
    predicate Differ() {
      && (forall p | p in both :: |p| in {7, 14, 21, 24, 29} && p[0] in {'u', 'b', 'p', '.'} && p[1] != 'd')
      && (forall p | p in model :: |p| in {24, 25} && p[0] in {'s', 't'} && p[1] in {'c', 'e'})
      && (forall p | p in container ::
            && |p| in {10, 12, 13, 26} && p[0] in {'.', 'D', 'c', 's'} && p[1] in {'d', 'o', 'c'} && p[2] != 'n'
            && (|p| == 26 ==> p[8] == 'c'))
      && (forall p | p in exceptions ::
            |p| >= 20 && |p| !in {21, 24, 25, 29} && p[0] in {'c', 'e', 's', '.'} && (|p| == 26 ==> p[8] != 'c'))
    }

    predicate Placed() {
      && (forall p | p in exceptions :: |p| >= 2 &&
            (p in narrower || p[0] in {'e', '.'} || (p[0] == 's' && p[1] == 'c')))
      && (forall p | p in exceptions && p[0] == 'e' :: p in modelOnly)
      && (forall p | p in modelOnly :: p in onlyModel || "evaluation/" <= p)
      && onlyModel <= modelOnly + model && model <= onlyModel
      && onlyContainer == containerOnly + container && narrower <= exceptions
      && modelOnly + containerOnly <= exceptions
    }
  }

  lemma OurFiles() returns (files: Files)
    ensures files == Files(
      BOTH_FILES, NARROWER_FILES, ONLY_MODEL_FILES, ONLY_CONTAINER_FILES, MODEL_FILES, CONTAINER_FILES,
      MODEL_ONLY_FILES, CONTAINER_ONLY_FILES, EXCEPTIONS)
    ensures files.Differ() && files.Placed()
  {
    files := Files(
      BOTH_FILES, NARROWER_FILES, ONLY_MODEL_FILES, ONLY_CONTAINER_FILES, MODEL_FILES, CONTAINER_FILES,
      MODEL_ONLY_FILES, CONTAINER_ONLY_FILES, EXCEPTIONS);
    assert files.Differ() by {
      BothFilesDiffer();
      ModelFilesDiffer();
      ContainerFilesDiffer();
      ExceptionsDiffer();
    }
    assert files.Placed() by {
      ExceptionsDiffer();
      ExceptionsPlaced();
      EvaluationException();
      ModelOnlyPlaced();
      ModelOnlyGathered();
      ContainerOnlyGathered();
      NarrowerAreExceptions();
    }
  }

  lemma ExceptionSelects(path: string, files: Files)
    requires files.Differ() && files.Placed() && path in files.exceptions
    ensures path !in files.both && (Under(path, BOTH_DIRECTORIES) ==> path in files.narrower)
    ensures path in files.modelOnly <==> path in files.onlyModel || Under(path, ONLY_MODEL_DIRECTORIES)
    ensures path in files.containerOnly <==> path in files.onlyContainer
  {
    UnderHeads(path);
    assert "evaluation/" in ONLY_MODEL_DIRECTORIES;
  }

  lemma OtherSelects(path: string, files: Files)
    requires files.Differ() && files.Placed() && path !in files.exceptions
    ensures var both, model := Under(path, BOTH_DIRECTORIES) || path in files.both,
        Under(path, ONLY_MODEL_DIRECTORIES) || path in files.model;
      && path !in files.narrower
      && !(both && (model || path in files.container)) && !(model && path in files.container)
      && (path in files.model <==> path in files.onlyModel)
      && (path in files.container <==> path in files.onlyContainer)
  {
    UnderHeads(path);
  }

  lemma ListsUnite(path: string)
    ensures Matches(path, MODEL_PATHS + DEPENDENCY_PATHS + RELEVANT_WORKFLOWS) <==>
      Under(path, BOTH_DIRECTORIES) || Under(path, ONLY_MODEL_DIRECTORIES) || path in MODEL_FILES || path in BOTH_FILES
    ensures Matches(path, CONTAINER_PATHS + DEPENDENCY_PATHS + RELEVANT_WORKFLOWS) <==>
      Under(path, BOTH_DIRECTORIES) || path in CONTAINER_FILES || path in BOTH_FILES
  {
    BothFilesDiffer();
    ModelMatches(path);
    ContainerMatches(path);
    DependencyMatches(path);
    WorkflowsAreFiles(path);
    UnderEither(path, BOTH_DIRECTORIES, ONLY_MODEL_DIRECTORIES);
    MatchesUnion(path, MODEL_PATHS, DEPENDENCY_PATHS);
    MatchesUnion(path, MODEL_PATHS + DEPENDENCY_PATHS, RELEVANT_WORKFLOWS);
    MatchesUnion(path, CONTAINER_PATHS, DEPENDENCY_PATHS);
    MatchesUnion(path, CONTAINER_PATHS + DEPENDENCY_PATHS, RELEVANT_WORKFLOWS);
  }

  // ---- selection ------------------------------------------------------------------------------

  /** No revision, an empty one, or only zeros. */
  predicate MissingRevision(revision: Option<string>) {
    revision.None? || forall i | 0 <= i < |revision.value| :: revision.value[i] == '0'
  }

  /** The end of the `git` subprocess: its output (`None` when it is not UTF-8), or an error. */
  datatype GitResult = Output(text: Option<string>) | Failed

  function ChangedPaths(git: GitResult): Option<seq<string>> {
    if git.Failed? then None else ParsedOutput(git.text)
  }

  method Select(base: Option<string>, head: Option<string>, forceFull: bool, git: GitResult) returns (suites: Suites)
    ensures suites == Selection(ClassOf, base, head, forceFull, git)
  {
    if forceFull || MissingRevision(base) || MissingRevision(head) || git.Failed? {
      return FULL_VALIDATION;
    }
    var paths := ParseNameStatus(git.text);
    if paths.None? {
      return FULL_VALIDATION;
    }
    var outcome := Classify(paths.value);
    return FailClosed(outcome);
  }

  /** A ValueError selects both suites. */
  function FailClosed(outcome: Outcome): Suites { if outcome.Raised? then FULL_VALIDATION else outcome.suites }

  function Selection(
    classOf: string -> PathClass, base: Option<string>, head: Option<string>, forceFull: bool, git: GitResult): Suites
  {
    if forceFull || MissingRevision(base) || MissingRevision(head) || ChangedPaths(git).None? then FULL_VALIDATION
    else FailClosed(Classification(classOf, ChangedPaths(git).value))
  }

  /** What one path asks for: both suites unless it is classified. */
  function Needs(c: PathClass): Suites { if c.Classified? then c.suites else FULL_VALIDATION }

  predicate NeedsModel(classOf: string -> PathClass, paths: seq<string>) {
    exists i :: 0 <= i < |paths| && Needs(classOf(paths[i])).model
  }

  predicate NeedsContainer(classOf: string -> PathClass, paths: seq<string>) {
    exists i :: 0 <= i < |paths| && Needs(classOf(paths[i])).container
  }

  lemma {:induction false} GatheredIsUnion(classOf: string -> PathClass, paths: seq<string>, selected: Suites)
    ensures FailClosed(Gathered(classOf, paths, selected)) ==
      Both(selected, Suites(NeedsModel(classOf, paths), NeedsContainer(classOf, paths)))
  {
    if paths != [] {
      var first, rest := classOf(paths[0]), paths[1..];
      FirstOrRest(classOf, paths);
      if first.Classified? {
        GatheredIsUnion(classOf, rest, Both(selected, first.suites));
      }
    }
  }

  lemma FirstOrRest(classOf: string -> PathClass, paths: seq<string>)
    requires paths != []
    ensures NeedsModel(classOf, paths) <==> Needs(classOf(paths[0])).model || NeedsModel(classOf, paths[1..])
    ensures NeedsContainer(classOf, paths)
      <==> Needs(classOf(paths[0])).container || NeedsContainer(classOf, paths[1..])
  {
    forall i | 0 <= i < |paths[1..]| ensures paths[1..][i] == paths[i + 1] {}
    forall i | 0 < i < |paths| ensures paths[i] == paths[1..][i - 1] {}
  }

  /** The selection is the union of what each path asks for on its own, and full for no path at all. */
  lemma SelectionIsUnion(classOf: string -> PathClass, paths: seq<string>)
    ensures FailClosed(Classification(classOf, paths)) == if paths == [] then FULL_VALIDATION
      else Suites(NeedsModel(classOf, paths), NeedsContainer(classOf, paths))
  {
    if paths != [] {
      GatheredIsUnion(classOf, paths, NEITHER);
    }
  }

  /** Reordering and repeating paths changes nothing. */
  lemma SelectionIgnoresOrder(classOf: string -> PathClass, p1: seq<string>, p2: seq<string>)
    requires forall p :: p in p1 <==> p in p2
    ensures FailClosed(Classification(classOf, p1)) == FailClosed(Classification(classOf, p2))
  {
    SelectionIsUnion(classOf, p1);
    SelectionIsUnion(classOf, p2);
    if p1 != [] {
      assert p1[0] in p2;
    }
    if p2 != [] {
      assert p2[0] in p1;
    }
    AskedTwice(classOf, p1, p2);
    AskedTwice(classOf, p2, p1);
  }

  lemma AskedTwice(classOf: string -> PathClass, p1: seq<string>, p2: seq<string>)
    requires forall p :: p in p1 ==> p in p2
    ensures NeedsModel(classOf, p1) ==> NeedsModel(classOf, p2)
    ensures NeedsContainer(classOf, p1) ==> NeedsContainer(classOf, p2)
  {
    forall i | 0 <= i < |p1| ensures exists j :: 0 <= j < |p2| && p2[j] == p1[i] {
      assert p1[i] in p2;
    }
  }

  /**
   More paths never deselect a suite, with one exception: the first path of an empty change set
   deselects what it does not need.
   */
  lemma MorePathsSelectMore(classOf: string -> PathClass, fewer: seq<string>, more: seq<string>)
    requires forall p :: p in fewer ==> p in more
    ensures var a, b := FailClosed(Classification(classOf, fewer)), FailClosed(Classification(classOf, more));
      ((a.model ==> b.model) && (a.container ==> b.container)) <==>
        (fewer != [] || more == [] || (NeedsModel(classOf, more) && NeedsContainer(classOf, more)))
  {
    SelectionIsUnion(classOf, fewer);
    SelectionIsUnion(classOf, more);
    AskedTwice(classOf, fewer, more);
    if fewer != [] {
      assert fewer[0] in more;
    }
  }

  /**
   A suite is skipped exactly when nothing forces validation, both revisions are usable, Git's
   output decomposes into records, there is at least one path, and every old and new path of them
   is classified as not needing the suite.
   */
  lemma ModelSkippedExactly(
    classOf: string -> PathClass, base: Option<string>, head: Option<string>, forceFull: bool, git: GitResult)
    ensures !Selection(classOf, base, head, forceFull, git).model <==>
      && !forceFull && !MissingRevision(base) && !MissingRevision(head) && git.Output? && git.text.Some?
      && exists items :: ValidItems(items) && Leaves(Split(git.text.value), items) && PathsOf(items) != []
           && forall i | 0 <= i < |PathsOf(items)| ::
                classOf(PathsOf(items)[i]).Classified? && !classOf(PathsOf(items)[i]).suites.model
  {
    if ChangedPaths(git).Some? {
      SelectionIsUnion(classOf, ChangedPaths(git).value);
      ParsedExactly(git.text.value, ChangedPaths(git).value);
    }
    SkippedByItems(git);
  }

  lemma ContainerSkippedExactly(
    classOf: string -> PathClass, base: Option<string>, head: Option<string>, forceFull: bool, git: GitResult)
    ensures !Selection(classOf, base, head, forceFull, git).container <==>
      && !forceFull && !MissingRevision(base) && !MissingRevision(head) && git.Output? && git.text.Some?
      && exists items :: ValidItems(items) && Leaves(Split(git.text.value), items) && PathsOf(items) != []
           && forall i | 0 <= i < |PathsOf(items)| ::
                classOf(PathsOf(items)[i]).Classified? && !classOf(PathsOf(items)[i]).suites.container
  {
    if ChangedPaths(git).Some? {
      SelectionIsUnion(classOf, ChangedPaths(git).value);
      ParsedExactly(git.text.value, ChangedPaths(git).value);
    }
    SkippedByItems(git);
  }

  /** Any decomposition of the output gives the paths that were read. */
  lemma SkippedByItems(git: GitResult)
    ensures git.Output? && git.text.Some? ==>
      forall items | ValidItems(items) && Leaves(Split(git.text.value), items) ::
        ChangedPaths(git) == Some(PathsOf(items))
  {
    if git.Output? && git.text.Some? {
      forall items | ValidItems(items) && Leaves(Split(git.text.value), items)
        ensures ChangedPaths(git) == Some(PathsOf(items))
      {
        ItemsParse(items, Split(git.text.value), []);
        assert [] + PathsOf(items) == PathsOf(items);
      }
    }
  }

  // ---- code review ---------------------------------------------------------------------------

  /** Raised: a ValueError; `RequiresReview` stops at the first path that is not documentation. */
  datatype Review = Required | NotRequired | ReviewRaised

  method RequiresReview(paths: seq<string>) returns (review: Review)
    ensures review.NotRequired? <==>
      paths != [] && forall i | 0 <= i < |paths| :: HarmlessText(paths[i])
    ensures review.ReviewRaised? <==>
      exists i :: 0 <= i < |paths| && Normalised(paths[i]).None? && forall j | 0 <= j < i :: HarmlessText(paths[j])
  {
    if paths == [] {
      return Required;
    }
    for i := 0 to |paths|
      invariant forall j | 0 <= j < i :: HarmlessText(paths[j])
    {
      var normal := NormalisePath(paths[i]);
      if normal.None? {
        return ReviewRaised;
      }
      if Documentation(normal.value) {
        continue;
      }
      return Required;
    }
    return NotRequired;
  }

  predicate HarmlessText(path: string) { Normalised(path).Some? && Documentation(Normalised(path).value) }

  /**
   A path may need a suite and no code review, or a review and no suite: the first kind is
   documentation under a watched directory, the second a named release file.
   */
  lemma ReviewVersusSuites(path: string)
    requires Normalised(path).Some?
    ensures var normal := Normalised(path).value;
      && (HarmlessText(path) && Needs(ClassOf(path)) != NEITHER <==> Documentation(normal) && Watched(normal))
      && (!HarmlessText(path) && Needs(ClassOf(path)) == NEITHER <==> normal in CI_ONLY_FILES)
  {
    HarmlessExactly(Normalised(path).value);
    OnlyDocumentationSkips(Normalised(path).value);
  }
}
