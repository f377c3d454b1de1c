/**
 The classification of a change into the lanes that must run: which changed paths select which
 lane, how an attested earlier run takes lanes away again, and the decision that is printed for
 the workflow and validated before it is handed over.
 */
module ChangeClassification {
  import opened DecisionRecords
  import Paths = PackageClosure

  datatype Surface = Rust | Msrv | Python | Studio | DependencyPolicy | CubeclExperiment | Site

  /** The lanes of the hosted checks; the site is classified with them. */
  const SURFACES := [Rust, Msrv, Python, Studio, DependencyPolicy, CubeclExperiment]
  const CLASSIFIED_SURFACES := SURFACES + [Site]

  // ---------------------------------------------------------------- path ownership

  predicate StartsWithAny(path: string, prefixes: set<string>)
  {
    exists prefix :: prefix in prefixes && Paths.StartsWith(path, prefix)
  }

  predicate IsRootRust(path: string)
  {
    || StartsWithAny(path, {"api/", "crates/", "tools/xtask/", "verify/"})
    || path in Paths.WORKSPACE_FILES || path == "rustfmt.toml"
  }

  predicate IsMsrv(path: string)
  {
    StartsWithAny(path, {"crates/", "tools/xtask/"}) || path in Paths.WORKSPACE_FILES
  }

  predicate IsPublicFacade(path: string)
  {
    StartsWithAny(path, {"api/", "crates/eqiora/"}) || path in Paths.WORKSPACE_FILES
  }

  predicate IsDependencyPolicy(path: string)
  {
    || path in Paths.WORKSPACE_FILES
    || (Paths.FileName(path) == "Cargo.toml" && StartsWithAny(path, {"crates/", "tools/xtask/"}))
    || path == "deny.toml"
    || Paths.StartsWith(path, ".cargo/")
    || path == ".github/dependabot.yml"
  }

  /** The grammar that the editor and the notebooks share. */
  const GRAMMAR_FILE := "editor/" + "eqiora/syntaxes/eqiora.tmLanguage.json"

  const JUPYTER_FILES := {
    GRAMMAR_FILE, "tools/editor/check_jupyter.py",
    "tools/editor/tests/test_jupyter_assets.py", "mise.toml", "mise.lock"}

  predicate IsJupyterInput(path: string)
  {
    Paths.StartsWith(path, "editor/jupyter/") || path in JUPYTER_FILES
  }

  const SITE_FILES := {
    ".cargo/config.toml", ".gitattributes", ".github/workflows/pages.yml", "CHANGELOG.md", "Cargo.lock",
    "Cargo.toml", "api/eqiora-facade-v1.json", "docs/capability-matrix.md", "docs/python/api.md",
    "docs/python/differentiation.md", "docs/python/execution-and-arrays.md", "docs/python/modeling.md",
    "docs/verification/gallery/README.md", "examples/decay.eqi", "examples/python/exact_cylinder_geometry.py",
    "examples/python/exact_cylinder_mesh.py", "examples/python/exact_cylinder_stokes.py",
    "examples/python/textbook_decay.py", "examples/steady-flow-past-cylinder.eqi",
    "examples/steady-flow-past-cylinder.geometry.json", "mise.lock", "mise.toml", "mkdocs.yml",
    "crates/eqiora-api/packages/Eqiora.Fluid/src/fluid.eqi", "pyproject.toml", "rust-toolchain.toml",
    "crates/eqiora-api/schemas/compile-v2.schema.json", "tools/release/python_candidate_common.py", "uv.lock"}

  const SITE_PREFIXES := {
    "bindings/python/python/eqiora/", "crates/", "docs/site/", "editor/", "tools/docs/", "tools/editor/",
    "tools/site/", "tools/xtask/", "verify/"}

  predicate IsSiteInput(path: string)
  {
    path in SITE_FILES || StartsWithAny(path, SITE_PREFIXES) || path == "tools/ci/classify_changes.py"
  }

  /** Changes to the checks themselves. */
  predicate IsProtected(path: string)
  {
    StartsWithAny(path, {".github/workflows/", "tools/ci/"})
  }

  predicate IsRecognized(path: string)
  {
    || Paths.IsDocumentation(path) || IsRootRust(path) || IsMsrv(path) || IsPublicFacade(path)
    || IsDependencyPolicy(path) || IsSiteInput(path) || IsProtected(path)
    || StartsWithAny(path, {"bindings/python/", "crates/eqiora-python/", "experiments/cubecl-local-action/", "studio/"})
  }

  /** Where pages show programs that the Python checks execute. */
  const LANGUAGE_PAGES := "docs/" + "site/src/content/docs/reference/language"
  const PACKAGE_PAGES := "docs/" + "site/src/content/docs/reference/standard-packages"

  predicate IsDisplayedProgram(path: string)
  {
    || path == "README.md"
    || (&& StartsWithAny(path, {LANGUAGE_PAGES + "/", PACKAGE_PAGES + "/"})
        && (Paths.EndsWith(path, ".mdx") || Paths.EndsWith(path, ".eqi")))
  }

  /** The lanes a path selects even if nothing but documentation changes. */
  predicate SelectsAlways(path: string, surface: Surface)
  {
    match surface
    case Site => IsSiteInput(path)
    case Python => IsDisplayedProgram(path)
    case _ => false
  }

  /** The lanes a path selects in a change that is more than documentation. */
  predicate SelectsInCode(path: string, surface: Surface)
  {
    match surface
    case Rust => IsRootRust(path)
    case Msrv => IsMsrv(path)
    case Python =>
      || StartsWithAny(path, {"bindings/python/", "crates/eqiora-python/"})
      || IsJupyterInput(path) || IsPublicFacade(path)
    case Studio => Paths.StartsWith(path, "studio/") || IsPublicFacade(path)
    case DependencyPolicy => IsDependencyPolicy(path)
    case CubeclExperiment =>
      path == "Cargo.toml" || StartsWithAny(path, {"experiments/cubecl-local-action/", "crates/"})
    case Site => false
  }

  // ---------------------------------------------------------------- ownership by directories and files

  /** The directories whose contents select a lane in a change that is more than documentation. */
  ghost function DirectoriesOf(surface: Surface): set<string>
  {
    match surface
    case Rust => {"api", "crates", "tools/xtask", "verify"}
    case Msrv => {"crates", "tools/xtask"}
    case Python => {"bindings/python", "crates/eqiora-python", "editor/jupyter", "api", "crates/eqiora"}
    case Studio => {"studio", "api", "crates/eqiora"}
    case DependencyPolicy => {".cargo"}
    case CubeclExperiment => {"experiments/cubecl-local-action", "crates"}
    case Site => {}
  }

  /** And the files. */
  ghost function FilesOf(surface: Surface): set<string>
  {
    match surface
    case Rust => {"Cargo.toml", "Cargo.lock", "rustfmt.toml"}
    case Msrv => {"Cargo.toml", "Cargo.lock"}
    case Python =>
      {"Cargo.toml", "Cargo.lock", "editor/" + "eqiora/syntaxes/eqiora.tmLanguage.json",
       "tools/editor/check_jupyter.py", "tools/editor/tests/test_jupyter_assets.py", "mise.toml", "mise.lock"}
    case Studio => {"Cargo.toml", "Cargo.lock"}
    case DependencyPolicy => {"Cargo.toml", "Cargo.lock", "deny.toml", ".github/dependabot.yml"}
    case CubeclExperiment => {"Cargo.toml"}
    case Site => {}
  }

  /** The path is inside one of the directories. */
  ghost predicate InsideAny(path: string, directories: set<string>)
  {
    exists directory :: directory in directories && Paths.Inside(path, directory)
  }

  lemma {:induction false} InsideAnyIsPrefix(path: string, directories: set<string>)
    ensures InsideAny(path, directories) <==> StartsWithAny(path, set d | d in directories :: d + "/")
  {
    forall d | d in directories
      ensures Paths.StartsWith(path, d + "/") <==> Paths.Inside(path, d)
    {
      Paths.InsideIsPrefix(path, d);
    }
    if InsideAny(path, directories) {
      var d :| d in directories && Paths.Inside(path, d);
      assert d + "/" in set e | e in directories :: e + "/";
    }
  }

  /** Prefixes are directories with a slash behind them. */
  lemma {:induction false} PrefixesAreDirectories(path: string, prefixes: set<string>, directories: set<string>)
    requires forall prefix :: prefix in prefixes ==> exists d :: d in directories && prefix == d + "/"
    requires forall d :: d in directories ==> d + "/" in prefixes
    ensures StartsWithAny(path, prefixes) <==> InsideAny(path, directories)
  {
    InsideAnyIsPrefix(path, directories);
    assert prefixes == set d | d in directories :: d + "/";
  }

  /** A manifest below one of the crate directories. */
  ghost predicate IsManifest(path: string)
  {
    var parts := Paths.Parts(path);
    parts[|parts| - 1] == "Cargo.toml" && InsideAny(path, {"crates", "tools/xtask"})
  }

  lemma {:induction false} SlashedDirectories()
    ensures "api" + "/" == "api/" && "crates" + "/" == "crates/" && "verify" + "/" == "verify/"
    ensures "tools/xtask" + "/" == "tools/xtask/" && "crates/eqiora" + "/" == "crates/eqiora/"
    ensures "bindings/python" + "/" == "bindings/python/" && "editor/jupyter" + "/" == "editor/jupyter/"
    ensures "crates/eqiora-python" + "/" == "crates/eqiora-python/" && "studio" + "/" == "studio/"
    ensures "experiments/cubecl-local-action" + "/" == "experiments/cubecl-local-action/"
    ensures ".cargo" + "/" == ".cargo/" && ".github/workflows" + "/" == ".github/workflows/"
    ensures "tools/ci" + "/" == "tools/ci/"
  {
  }

  lemma {:induction false} RustRules(path: string)
    ensures IsRootRust(path) <==> InsideAny(path, {"api", "crates", "tools/xtask", "verify"})
                                  || path in {"Cargo.toml", "Cargo.lock", "rustfmt.toml"}
    ensures IsMsrv(path) <==> InsideAny(path, {"crates", "tools/xtask"}) || path in {"Cargo.toml", "Cargo.lock"}
    ensures IsPublicFacade(path) <==> InsideAny(path, {"api", "crates/eqiora"}) || path in {"Cargo.toml", "Cargo.lock"}
  {
    RustDirectories(path);
    hide StartsWithAny, InsideAny;
  }

  lemma {:induction false} RustDirectories(path: string)
    ensures StartsWithAny(path, {"api/", "crates/", "tools/xtask/", "verify/"})
       <==> InsideAny(path, {"api", "crates", "tools/xtask", "verify"})
    ensures StartsWithAny(path, {"crates/", "tools/xtask/"}) <==> InsideAny(path, {"crates", "tools/xtask"})
    ensures StartsWithAny(path, {"api/", "crates/eqiora/"}) <==> InsideAny(path, {"api", "crates/eqiora"})
  {
    hide StartsWithAny, InsideAny;
    SlashedDirectories();
    PrefixesAreDirectories(path, {"api/", "crates/", "tools/xtask/", "verify/"},
                           {"api", "crates", "tools/xtask", "verify"});
    PrefixesAreDirectories(path, {"crates/", "tools/xtask/"}, {"crates", "tools/xtask"});
    PrefixesAreDirectories(path, {"api/", "crates/eqiora/"}, {"api", "crates/eqiora"});
  }

  /** In code, a path selects a lane exactly if it is in one of the lane's directories or is one of its files. */
  lemma {:induction false} RulesInCode(path: string, surface: Surface)
    ensures SelectsInCode(path, surface) <==>
            || InsideAny(path, DirectoriesOf(surface)) || path in FilesOf(surface)
            || (surface == DependencyPolicy && IsManifest(path))
  {
    SlashedDirectories();
    RustRules(path);
    hide StartsWithAny, IsRootRust, IsMsrv, IsPublicFacade, Paths.StartsWith, Paths.Inside, Paths.Parts;
    match surface
    case Rust =>
    case Msrv =>
    case Python =>
      PrefixesAreDirectories(path, {"bindings/python/", "crates/eqiora-python/"},
                             {"bindings/python", "crates/eqiora-python"});
      Paths.InsideIsPrefix(path, "editor/jupyter");
    case Studio =>
      Paths.InsideIsPrefix(path, "studio");
    case DependencyPolicy =>
      PrefixesAreDirectories(path, {"crates/", "tools/xtask/"}, {"crates", "tools/xtask"});
      Paths.InsideIsPrefix(path, ".cargo");
    case CubeclExperiment =>
      PrefixesAreDirectories(path, {"experiments/cubecl-local-action/", "crates/"},
                             {"experiments/cubecl-local-action", "crates"});
    case Site =>
  }

  lemma {:induction false} SiteDirectories(path: string)
    ensures StartsWithAny(path, SITE_PREFIXES) <==>
            InsideAny(path, {"bindings/python/python/eqiora", "crates", "docs/site", "editor", "tools/docs",
                             "tools/editor", "tools/site", "tools/xtask", "verify"})
  {
    hide StartsWithAny, InsideAny;
    assert "bindings/python/python/eqiora" + "/" == "bindings/python/python/eqiora/" && "crates" + "/" == "crates/";
    assert "docs/site" + "/" == "docs/site/" && "editor" + "/" == "editor/" && "tools/docs" + "/" == "tools/docs/";
    assert "tools/editor" + "/" == "tools/editor/" && "tools/site" + "/" == "tools/site/";
    assert "tools/xtask" + "/" == "tools/xtask/" && "verify" + "/" == "verify/";
    PrefixesAreDirectories(path, SITE_PREFIXES,
                           {"bindings/python/python/eqiora", "crates", "docs/site", "editor", "tools/docs",
                            "tools/editor", "tools/site", "tools/xtask", "verify"});
  }

  lemma {:induction false} ShorterPrefix(path: string, longer: string, prefix: string)
    requires Paths.StartsWith(path, longer) && prefix <= longer
    ensures Paths.StartsWith(path, prefix)
  {
    assert path[..|prefix|] == path[..|longer|][..|prefix|];
  }

  /** Whatever else changes, what the site is built from selects it, and pages with programs select Python. */
  lemma {:induction false} RulesAlways(path: string, surface: Surface)
    ensures SelectsAlways(path, surface) <==>
            match surface
            case Site =>
              || InsideAny(path, {"bindings/python/python/eqiora", "crates", "docs/site", "editor", "tools/docs",
                                  "tools/editor", "tools/site", "tools/xtask", "verify"})
              || path in SITE_FILES || path == "tools/ci/classify_changes.py"
            case Python =>
              || path == "README.md"
              || (&& InsideAny(path, {"docs/" + "site/src/content/docs/reference/language",
                                      "docs/" + "site/src/content/docs/reference/standard-packages"})
                  && (Paths.EndsWith(path, ".mdx") || Paths.EndsWith(path, ".eqi")))
            case _ => false
  {
    SiteDirectories(path);
    PrefixesAreDirectories(path, {LANGUAGE_PAGES + "/", PACKAGE_PAGES + "/"}, {LANGUAGE_PAGES, PACKAGE_PAGES});
    hide StartsWithAny, InsideAny, SITE_FILES, SITE_PREFIXES;
  }

  lemma {:induction false} ProtectedPaths(path: string)
    ensures IsProtected(path) <==> InsideAny(path, {".github/workflows", "tools/ci"})
  {
    SlashedDirectories();
    PrefixesAreDirectories(path, {".github/workflows/", "tools/ci/"}, {".github/workflows", "tools/ci"});
  }

  lemma {:induction false} JupyterIsSiteInput(path: string)
    requires IsJupyterInput(path)
    ensures IsSiteInput(path)
  {
    if Paths.StartsWith(path, "editor/jupyter/") {
      ShorterPrefix(path, "editor/jupyter/", "editor/");
      assert "editor/" in SITE_PREFIXES;
    } else if path == "mise.toml" || path == "mise.lock" {
      assert path in SITE_FILES;
    } else if path == GRAMMAR_FILE {
      assert "editor/" <= path;
      assert Paths.StartsWith(path, "editor/") && "editor/" in SITE_PREFIXES;
    } else {
      assert Paths.StartsWith(path, "tools/editor/") && "tools/editor/" in SITE_PREFIXES;
    }
  }

  lemma {:induction false} DisplayedIsRecognized(path: string)
    requires IsDisplayedProgram(path)
    ensures Paths.IsDocumentation(path)
  {
    if path == "README.md" {
      ReadmeIsDocumentation();
    } else {
      hide Paths.IsDocumentation;
      var prefix :| prefix in {LANGUAGE_PAGES + "/", PACKAGE_PAGES + "/"} && Paths.StartsWith(path, prefix);
      assert "docs/" <= prefix;
      ShorterPrefix(path, prefix, "docs/");
      DocsAreDocumentation(path);
    }
  }

  lemma {:induction false} ReadmeIsDocumentation()
    ensures Paths.IsDocumentation("README.md")
  {
    hide Paths.IsDocumentation;
    assert '/' !in "README.md" && "README.md" in Paths.DOCUMENT_NAMES;
    NameIsDocumentation("README.md");
  }

  lemma {:induction false} NameIsDocumentation(name: string)
    requires '/' !in name && name in Paths.DOCUMENT_NAMES
    ensures Paths.IsDocumentation(name)
  {
    hide Paths.StartsWith, Paths.DOCUMENT_NAMES;
    Paths.LastPart(name, "");
    assert "" + name == name;
  }

  lemma {:induction false} DocsAreDocumentation(path: string)
    requires Paths.StartsWith(path, "docs/")
    ensures Paths.IsDocumentation(path)
  {
    hide Paths.StartsWith;
  }

  /** A path is recognized exactly if it is documentation, protected, or selects some lane. */
  lemma {:induction false} RecognizedPaths(path: string)
    ensures IsRecognized(path) <==>
            || Paths.IsDocumentation(path) || IsProtected(path)
            || exists surface :: SelectsAlways(path, surface) || SelectsInCode(path, surface)
  {
    assert SelectsAlways(path, Site) <==> IsSiteInput(path);
    assert SelectsInCode(path, Rust) <==> IsRootRust(path);
    assert SelectsInCode(path, Msrv) <==> IsMsrv(path);
    assert IsPublicFacade(path) ==> SelectsInCode(path, Python);
    assert SelectsInCode(path, DependencyPolicy) <==> IsDependencyPolicy(path);
    if IsJupyterInput(path) {
      JupyterIsSiteInput(path);
    }
    if IsDisplayedProgram(path) {
      DisplayedIsRecognized(path);
    }
    OtherPrefixes(path);
    KnownPrefixes(path);
    hide StartsWithAny, Paths.IsDocumentation, IsProtected, IsRootRust, IsMsrv, IsPublicFacade, IsDependencyPolicy,
         IsSiteInput, IsJupyterInput, IsDisplayedProgram;
  }

  lemma {:induction false} OtherPrefixes(path: string)
    ensures StartsWithAny(
              path, {"bindings/python/", "crates/eqiora-python/", "experiments/cubecl-local-action/", "studio/"})
            ==> exists surface :: SelectsInCode(path, surface)
  {
    hide Paths.StartsWith, IsPublicFacade, IsJupyterInput;
    if StartsWithAny(path, {"bindings/python/", "crates/eqiora-python/"}) {
      assert SelectsInCode(path, Python);
    }
    if Paths.StartsWith(path, "experiments/cubecl-local-action/") {
      assert SelectsInCode(path, CubeclExperiment);
    }
    if Paths.StartsWith(path, "studio/") {
      assert SelectsInCode(path, Studio);
    }
  }

  lemma {:induction false} KnownPrefixes(path: string)
    ensures StartsWithAny(path, {"bindings/python/", "crates/eqiora-python/"})
            || StartsWithAny(path, {"experiments/cubecl-local-action/", "crates/"}) || Paths.StartsWith(path, "studio/")
            || path == "Cargo.toml"
            ==> StartsWithAny(
                  path, {"bindings/python/", "crates/eqiora-python/", "experiments/cubecl-local-action/", "studio/"})
                || IsRootRust(path)
  {
    hide Paths.StartsWith, IsPublicFacade, IsJupyterInput;
  }

  // ---------------------------------------------------------------- normalized paths

  function Slashed(path: string): string
  {
    seq(|path|, i requires 0 <= i < |path| => if path[i] == '\\' then '/' else path[i])
  }

  function Normalized(path: string): string
  {
    var slashed := Slashed(path);
    if Paths.StartsWith(slashed, "./") then slashed[2..] else slashed
  }

  /** Paths are read with slashes, and without a leading dot and slash. */
  lemma {:induction false} NormalizedPath(path: string)
    ensures '\\' !in path && !("./" <= path) ==> Normalized(path) == path
    ensures Normalized("./" + path) == Slashed(path)
    ensures |Slashed(path)| == |path|
    ensures forall i :: 0 <= i < |path| ==> Slashed(path)[i] == if path[i] == '\\' then '/' else path[i]
  {
    assert Slashed("./" + path) == "./" + Slashed(path);
    if '\\' !in path {
      assert forall i :: 0 <= i < |path| ==> path[i] != '\\';
      assert Slashed(path) == path;
    }
  }

  function NormalizedPaths(paths: seq<string>): set<string>
  {
    set i | 0 <= i < |paths| && Normalized(paths[i]) != "" :: Normalized(paths[i])
  }

  /** Every path that is not empty counts once. */
  lemma {:induction false} NormalizedNext(paths: seq<string>, path: string)
    ensures NormalizedPaths([]) == {}
    ensures NormalizedPaths(paths + [path])
         == NormalizedPaths(paths) + if Normalized(path) == "" then {} else {Normalized(path)}
  {
    hide Normalized;
    var longer := paths + [path];
    assert longer[|paths|] == path && forall i :: 0 <= i < |paths| ==> longer[i] == paths[i];
    forall p | p in NormalizedPaths(paths)
      ensures p in NormalizedPaths(longer)
    {
      var i :| 0 <= i < |paths| && p == Normalized(paths[i]);
      assert longer[i] == paths[i];
    }
    if Normalized(path) != "" {
      assert Normalized(longer[|paths|]) in NormalizedPaths(longer);
    }
  }

  // ---------------------------------------------------------------- what a change selects

  predicate OnlyDocumentation(paths: set<string>)
  {
    forall path :: path in paths ==> Paths.IsDocumentation(path)
  }

  predicate FailsClosed(path: string)
  {
    IsProtected(path) || !IsRecognized(path)
  }

  /** A changed path selects the lane, whatever else the change consists of. */
  predicate Selects(paths: set<string>, path: string, surface: Surface)
  {
    || SelectsAlways(path, surface)
    || (!OnlyDocumentation(paths) && (FailsClosed(path) || SelectsInCode(path, surface)))
  }

  predicate IsSelected(paths: set<string>, full: bool, unsafeMode: bool, surface: Surface)
  {
    || full
    || (unsafeMode && surface == Site)
    || exists path :: path in paths && Selects(paths, path, surface)
  }

  datatype Impact = Impact(selected: bool, reason: Line, inputs: set<string>)

  datatype Plan = Plan(full: bool, lanes: map<Surface, Impact>)

  const FULL_REASON: Line := "full compatibility run"
  const PROTECTED_REASON: Line := "protected CI input: full selection"
  const UNKNOWN_REASON: Line := "unrecognized input: full selection"
  const FULL_BUILD: Line := ": full build"
  const UNSAFE_REASON: Line := "file mode or type change" + FULL_BUILD
  const CHANGED_REASON: Line := "changed input closure"
  const UNCHANGED_REASON: Line := "unchanged input closure"

  function ProtectedIn(paths: set<string>): set<string>
  {
    set path | path in paths && IsProtected(path)
  }

  function UnknownIn(paths: set<string>): set<string>
  {
    set path | path in paths && !IsRecognized(path)
  }

  predicate MustFailClosed(paths: set<string>)
  {
    !OnlyDocumentation(paths) && (ProtectedIn(paths) != {} || UnknownIn(paths) != {})
  }

  function ReasonOf(paths: set<string>, full: bool, unsafeMode: bool, surface: Surface): Line
  {
    if full then FULL_REASON
    else if MustFailClosed(paths) then
      if ProtectedIn(paths) != {} then PROTECTED_REASON else UNKNOWN_REASON
    else if surface == Site && unsafeMode then UNSAFE_REASON
    else if IsSelected(paths, full, unsafeMode, surface) then CHANGED_REASON
    else UNCHANGED_REASON
  }

  /** The changed paths that a lane's decision rests on. */
  function InputsOf(paths: set<string>, full: bool, unsafeMode: bool, surface: Surface): set<string>
  {
    if full then paths
    else if MustFailClosed(paths) then
      if ProtectedIn(paths) != {} then ProtectedIn(paths) else UnknownIn(paths)
    else if surface == Site && unsafeMode then paths
    else set path | path in paths && Selects(paths, path, surface)
  }

  function PlanOf(paths: set<string>, full: bool, unsafeMode: bool): Plan
  {
    Plan(full, map surface | surface in CLASSIFIED_SURFACES :: ImpactOf(paths, full, unsafeMode, surface))
  }

  function ImpactOf(paths: set<string>, full: bool, unsafeMode: bool, surface: Surface): Impact
  {
    Impact(IsSelected(paths, full, unsafeMode, surface), ReasonOf(paths, full, unsafeMode, surface),
           InputsOf(paths, full, unsafeMode, surface))
  }

  lemma {:induction false} EverySurface(surface: Surface)
    ensures surface in CLASSIFIED_SURFACES
  {
    var i := match surface
      case Rust => 0 case Msrv => 1 case Python => 2 case Studio => 3
      case DependencyPolicy => 4 case CubeclExperiment => 5 case Site => 6;
    assert CLASSIFIED_SURFACES[i] == surface;
  }

  // ---------------------------------------------------------------- the pass over the paths

  type Inputs = map<Surface, set<string>>

  ghost predicate Total(inputs: Inputs)
  {
    forall surface :: surface in inputs
  }

  /** One loop over the paths: each is added to the inputs of the lanes it selects. */
  method Collect(paths: set<string>, inCode: bool, before: Inputs) returns (inputs: Inputs)
    requires Total(before)
    ensures Total(inputs)
    ensures forall surface ::
              inputs[surface] == before[surface] + set path | path in paths && Rule(inCode, path, surface)
  {
    hide Rule;
    inputs := before;
    var rest := paths;
    while rest != {}
      invariant rest <= paths && Total(inputs)
      invariant forall surface ::
                  inputs[surface] == before[surface] + set path | path in paths - rest && Rule(inCode, path, surface)
    {
      var path :| path in rest;
      inputs := map surface | surface in inputs ::
                  inputs[surface] + if Rule(inCode, path, surface) then {path} else {};
      rest := rest - {path};
    }
    assert paths - rest == paths;
  }

  predicate Rule(inCode: bool, path: string, surface: Surface)
  {
    if inCode then SelectsInCode(path, surface) else SelectsAlways(path, surface)
  }

  function FailClosedPlan(reason: Line, inputs: set<string>): Plan
  {
    Plan(false, map surface | surface in CLASSIFIED_SURFACES :: Impact(true, reason, inputs))
  }

  function PlanFromInputs(inputs: Inputs, unsafeMode: bool): Plan
    requires Total(inputs)
  {
    Plan(false, map surface | surface in CLASSIFIED_SURFACES ::
           ImpactFrom(inputs[surface], surface == Site && unsafeMode))
  }

  function ImpactFrom(inputs: set<string>, forced: bool): Impact
  {
    var selected := inputs != {} || forced;
    Impact(selected, if forced then UNSAFE_REASON else if selected then CHANGED_REASON else UNCHANGED_REASON, inputs)
  }

  /** What the inputs must be for the plan to come out right. */
  ghost predicate InputsAreRight(paths: set<string>, unsafeMode: bool, inputs: Inputs)
    requires Total(inputs)
  {
    forall surface :: inputs[surface] == InputsOf(paths, false, unsafeMode, surface)
  }

  lemma {:induction false} PlanFromRightInputs(paths: set<string>, unsafeMode: bool, inputs: Inputs)
    requires !MustFailClosed(paths) && Total(inputs) && InputsAreRight(paths, unsafeMode, inputs)
    ensures PlanFromInputs(inputs, unsafeMode) == PlanOf(paths, false, unsafeMode)
  {
    hide ImpactFrom, ImpactOf, InputsOf, MustFailClosed;
    forall surface
      ensures ImpactFrom(inputs[surface], surface == Site && unsafeMode) == ImpactOf(paths, false, unsafeMode, surface)
    {
      ImpactFromRightInputs(paths, unsafeMode, surface);
    }
  }

  lemma {:induction false} ImpactFromRightInputs(paths: set<string>, unsafeMode: bool, surface: Surface)
    requires !MustFailClosed(paths)
    ensures ImpactFrom(InputsOf(paths, false, unsafeMode, surface), surface == Site && unsafeMode)
         == ImpactOf(paths, false, unsafeMode, surface)
  {
    hide Selects, MustFailClosed;
    var inputs := InputsOf(paths, false, unsafeMode, surface);
    if !(surface == Site && unsafeMode) {
      assert inputs == set path | path in paths && Selects(paths, path, surface);
      if path :| path in paths && Selects(paths, path, surface) {
        assert path in inputs;
      }
    }
  }

  lemma {:induction false} FailClosedIsPlan(paths: set<string>, unsafeMode: bool)
    requires MustFailClosed(paths)
    ensures ProtectedIn(paths) != {} ==>
              FailClosedPlan(PROTECTED_REASON, ProtectedIn(paths)) == PlanOf(paths, false, unsafeMode)
    ensures ProtectedIn(paths) == {} ==>
              FailClosedPlan(UNKNOWN_REASON, UnknownIn(paths)) == PlanOf(paths, false, unsafeMode)
  {
    hide IsSelected, OnlyDocumentation;
    var path := SomeFailure(paths);
    forall surface: Surface
      ensures IsSelected(paths, false, unsafeMode, surface)
    {
      FailureSelectsAll(paths, path, unsafeMode, surface);
    }
  }

  lemma {:induction false} SomeFailure(paths: set<string>) returns (path: string)
    requires MustFailClosed(paths)
    ensures path in paths && FailsClosed(path)
  {
    hide IsProtected, IsRecognized, OnlyDocumentation;
    if ProtectedIn(paths) != {} {
      path :| path in ProtectedIn(paths);
    } else {
      path :| path in UnknownIn(paths);
    }
  }

  lemma {:induction false} FailureSelectsAll(paths: set<string>, path: string, unsafeMode: bool, surface: Surface)
    requires path in paths && FailsClosed(path) && !OnlyDocumentation(paths)
    ensures IsSelected(paths, false, unsafeMode, surface)
  {
    hide FailsClosed, SelectsAlways, SelectsInCode, OnlyDocumentation;
    assert Selects(paths, path, surface);
  }

  /** With documentation alone, the first pass finds all inputs. */
  lemma {:induction false} DocumentationInputs(paths: set<string>, unsafeMode: bool, inputs: Inputs)
    requires OnlyDocumentation(paths) && Total(inputs)
    requires forall surface ::
               inputs[surface] == (set path | path in paths && Rule(false, path, surface))
                                  + if surface == Site && unsafeMode then paths else {}
    ensures InputsAreRight(paths, unsafeMode, inputs)
  {
    hide SelectsAlways, OnlyDocumentation;
  }

  /** Otherwise both passes together do, if no path makes the plan fail closed. */
  lemma {:induction false} RightInputs(paths: set<string>, unsafeMode: bool, inputs: Inputs)
    requires (paths == {} || !OnlyDocumentation(paths)) && !MustFailClosed(paths) && Total(inputs)
    requires ProtectedIn(paths) == {} && UnknownIn(paths) == {}
    requires forall surface ::
               inputs[surface] == (set path | path in paths && Rule(false, path, surface))
                                  + (if surface == Site && unsafeMode then paths else {})
                                  + set path | path in paths && Rule(true, path, surface)
    ensures InputsAreRight(paths, unsafeMode, inputs)
  {
    hide SelectsAlways, SelectsInCode, OnlyDocumentation, FailsClosed, MustFailClosed;
    forall path | path in paths
      ensures !FailsClosed(path)
    {
      NeitherKind(paths, path);
    }
    forall surface
      ensures inputs[surface] == InputsOf(paths, false, unsafeMode, surface)
    {
      assert forall path :: path in paths ==>
                (Selects(paths, path, surface) <==> Rule(false, path, surface) || Rule(true, path, surface));
    }
  }

  lemma {:induction false} NeitherKind(paths: set<string>, path: string)
    requires path in paths && ProtectedIn(paths) == {} && UnknownIn(paths) == {}
    ensures !FailsClosed(path)
  {
    hide IsProtected, IsRecognized;
    assert path !in ProtectedIn(paths) && path !in UnknownIn(paths);
  }

  lemma {:induction false} NothingChanged()
    ensures ProtectedIn({}) == {} && UnknownIn({}) == {} && OnlyDocumentation({})
  {
  }

  lemma {:induction false} FullPlan(paths: set<string>, unsafeMode: bool)
    ensures PlanOf(paths, true, unsafeMode)
         == Plan(true, map surface | surface in CLASSIFIED_SURFACES :: Impact(true, FULL_REASON, paths))
  {
  }

  /**
   The plan for a change: one pass for the rules that always hold, an early return if nothing but
   documentation changes, full selection if a path is protected or unknown, and a second pass.
   */
  method ImpactPlan(rawPaths: seq<string>, full: bool, unsafeMode: bool) returns (plan: Plan)
    ensures plan == PlanOf(NormalizedPaths(rawPaths), full, unsafeMode)
  {
    hide Rule, IsProtected, IsRecognized, OnlyDocumentation, NormalizedPaths, PlanOf, PlanFromInputs,
         InputsAreRight, FailClosedPlan, ProtectedIn, UnknownIn;
    var paths := NormalizedPaths(rawPaths);
    if full {
      FullPlan(paths, unsafeMode);
      return Plan(true, map surface | surface in CLASSIFIED_SURFACES :: Impact(true, FULL_REASON, paths));
    }
    var inputs: Inputs := map surface | surface in CLASSIFIED_SURFACES :: {};
    forall surface
      ensures surface in inputs
    {
      EverySurface(surface);
    }
    inputs := Collect(paths, false, inputs);
    if unsafeMode {
      inputs := inputs[Site := inputs[Site] + paths];
    }
    if paths != {} && OnlyDocumentation(paths) {
      DocumentationInputs(paths, unsafeMode, inputs);
      PlanFromRightInputs(paths, unsafeMode, inputs);
      return PlanFromInputs(inputs, unsafeMode);
    }
    if paths == {} {
      NothingChanged();
    }
    var protectedInputs, unknownInputs := ProtectedIn(paths), UnknownIn(paths);
    if protectedInputs != {} {
      FailClosedIsPlan(paths, unsafeMode);
      return FailClosedPlan(PROTECTED_REASON, protectedInputs);
    }
    if unknownInputs != {} {
      FailClosedIsPlan(paths, unsafeMode);
      return FailClosedPlan(UNKNOWN_REASON, unknownInputs);
    }
    inputs := Collect(paths, true, inputs);
    RightInputs(paths, unsafeMode, inputs);
    PlanFromRightInputs(paths, unsafeMode, inputs);
    return PlanFromInputs(inputs, unsafeMode);
  }

  // ---------------------------------------------------------------- what a plan guarantees

  /** A larger change selects at least the same lanes. */
  lemma {:induction false} SelectionIsMonotone(
    paths: set<string>, more: set<string>, full: bool, full': bool, unsafeMode: bool, unsafeMode': bool,
    surface: Surface)
    requires paths <= more && (full ==> full') && (unsafeMode ==> unsafeMode')
    requires IsSelected(paths, full, unsafeMode, surface)
    ensures IsSelected(more, full', unsafeMode', surface)
  {
    hide SelectsAlways, SelectsInCode, FailsClosed, Paths.IsDocumentation;
    if !full && !(unsafeMode && surface == Site) {
      var path :| path in paths && Selects(paths, path, surface);
      assert Selects(more, path, surface);
    }
  }

  /** A documentation path that would select the lane, were the change more than documentation. */
  predicate IsDormant(paths: set<string>, surface: Surface)
  {
    OnlyDocumentation(paths) && exists path :: path in paths && (FailsClosed(path) || SelectsInCode(path, surface))
  }

  ghost function UnionOf(changes: seq<set<string>>): set<string>
  {
    set i, path | 0 <= i < |changes| && path in changes[i] :: path
  }

  lemma {:induction false} InUnion(changes: seq<set<string>>, i: nat, path: string)
    requires i < |changes| && path in changes[i]
    ensures path in UnionOf(changes)
  {
  }

  /**
   A series of changes none of which selects a lane can select it taken together: exactly if some
   change of documentation is dormant and some other change is more than documentation.
   */
  lemma {:induction false} SelectionOfSeries(changes: seq<set<string>>, surface: Surface)
    requires forall i :: 0 <= i < |changes| ==> !IsSelected(changes[i], false, false, surface)
    ensures IsSelected(UnionOf(changes), false, false, surface) <==>
              && (exists i :: 0 <= i < |changes| && IsDormant(changes[i], surface))
              && (exists j :: 0 <= j < |changes| && !OnlyDocumentation(changes[j]))
  {
    hide FailsClosed, SelectsAlways, SelectsInCode, Paths.IsDocumentation;
    var all := UnionOf(changes);
    if path :| path in all && Selects(all, path, surface) {
      var i: nat :| i < |changes| && path in changes[i];
      assert !Selects(changes[i], path, surface);
      assert IsDormant(changes[i], surface);
      var other :| other in all && !Paths.IsDocumentation(other);
      var j: nat :| j < |changes| && other in changes[j];
      assert !OnlyDocumentation(changes[j]);
    }
    if i: nat :| i < |changes| && IsDormant(changes[i], surface) {
      if j: nat :| j < |changes| && !OnlyDocumentation(changes[j]) {
        var path :| path in changes[i] && (FailsClosed(path) || SelectsInCode(path, surface));
        var other :| other in changes[j] && !Paths.IsDocumentation(other);
        InUnion(changes, i, path);
        InUnion(changes, j, other);
        assert Selects(all, path, surface);
      }
    }
  }

  const CRATE_NOTES := "crates/eqiora" + "/" + "README.md"
  const STUDIO_SOURCE := "studio" + "/" + "x.ts"

  lemma {:induction false} NotesAreDormant()
    ensures IsDormant({CRATE_NOTES}, Rust) && !SelectsAlways(CRATE_NOTES, Rust)
  {
    Paths.FileNameBehindSlash("crates/eqiora", "README.md");
    assert Paths.IsDocumentation(CRATE_NOTES);
    assert Paths.StartsWith(CRATE_NOTES, "crates/");
    assert SelectsInCode(CRATE_NOTES, Rust);
  }

  lemma {:induction false} StudioIsRecognized()
    ensures IsRecognized(STUDIO_SOURCE)
  {
    hide Paths.IsDocumentation, IsRootRust, IsMsrv, IsPublicFacade, IsDependencyPolicy, IsSiteInput, IsProtected;
    assert Paths.StartsWith(STUDIO_SOURCE, "studio/");
  }

  lemma {:induction false} StudioIsNoDocument()
    ensures !Paths.IsDocumentation(STUDIO_SOURCE)
  {
    Paths.FileNameBehindSlash("studio", "x.ts");
    assert STUDIO_SOURCE[0] == 's';
    assert forall name :: name in Paths.DOCUMENT_NAMES ==> |name| > |"x.ts"|;
    hide Paths.FileName;
  }

  lemma {:induction false} StudioIsNoRust()
    ensures !Paths.IsDocumentation(STUDIO_SOURCE) && !FailsClosed(STUDIO_SOURCE) && !SelectsInCode(STUDIO_SOURCE, Rust)
  {
    StudioIsRecognized();
    StudioIsNoDocument();
    hide Paths.IsDocumentation, IsRecognized;
    assert STUDIO_SOURCE[0] == 's';
  }

  /** Such a series: notes of a crate, then a source of Studio. Neither selects Rust, but both together do. */
  lemma {:induction false} TwoQuietChangesSelectRust()
    ensures !IsSelected({CRATE_NOTES}, false, false, Rust) && !IsSelected({STUDIO_SOURCE}, false, false, Rust)
    ensures IsSelected({CRATE_NOTES, STUDIO_SOURCE}, false, false, Rust)
  {
    NotesAreDormant();
    StudioIsNoRust();
    hide FailsClosed, SelectsInCode, Paths.IsDocumentation;
    var changes := [{CRATE_NOTES}, {STUDIO_SOURCE}];
    forall i | 0 <= i < 2
      ensures !IsSelected(changes[i], false, false, Rust)
    {
    }
    SelectionOfSeries(changes, Rust);
    assert IsDormant(changes[0], Rust) && !OnlyDocumentation(changes[1]);
    assert UnionOf(changes) == {CRATE_NOTES, STUDIO_SOURCE};
  }
}
