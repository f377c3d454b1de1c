/**
 What a decision selects and where its site comes from, in terms of the run's event and the
 attested earlier run, and what the printed records say of it.
 */
module DecisionContents {
  import opened Wrappers
  import opened DecisionRecords
  import opened ChangeClassification
  import opened ChangeDecision
  import Paths = PackageClosure

  // ---------------------------------------------------------------- what a decision selects

  /** The run cannot tell what its pull request changes, or must not use the attestation it is given. */
  ghost predicate FailsToClassify(event: Event, attestation: Attestation)
  {
    || event.UnreadablePullRequest?
    || (event.PullRequest? && (event.paths == [] || attestation.Refused?))
  }

  /** The run would run the lane if there were no earlier run. */
  ghost predicate Wants(event: Event, surface: Surface)
  {
    event.PullRequest? ==> IsSelected(NormalizedPaths(event.paths), false, event.unsafeMode, surface)
  }

  /** An earlier run is attested for the lane, and nothing that has changed since would select it. */
  ghost predicate IsCovered(event: Event, attestation: Attestation, surface: Surface)
  {
    && (event.PullRequest? || event.MainPages?) && attestation.Attested? && surface in attestation.lanes
    && !IsSelected(NormalizedPaths(attestation.paths), false, attestation.unsafeMode, surface)
  }

  lemma {:induction false} FirstPlanWants(event: Event, surface: Surface)
    ensures surface in FirstPlan(event).lanes
    ensures !event.UnreadablePullRequest? ==>
              (FirstPlan(event).lanes[surface].selected <==> Wants(event, surface))
              && (FirstPlan(event).full <==> !event.PullRequest?)
  {
    var paths := if event.PullRequest? then NormalizedPaths(event.paths) else {};
    hide PlanOf, IsSelected, NormalizedPaths;
    PlanHasEvery(paths, !event.PullRequest?, event.PullRequest? && event.unsafeMode, surface);
    assert IsSelected(paths, true, false, surface) by {
      EverythingSelected(paths, surface);
    }
  }

  lemma {:induction false} EverythingSelected(paths: set<string>, surface: Surface)
    ensures IsSelected(paths, true, false, surface)
  {
  }

  /** Reuse takes away the covered lanes, and a main site run is full no longer if its site is covered. */
  lemma {:induction false} FinalPlanSelects(event: Event, attestation: Attestation, surface: Surface)
    requires !event.UnreadablePullRequest? && !attestation.Refused?
    ensures var plan := FinalPlan(event, attestation);
            && surface in plan.lanes
            && (plan.lanes[surface].selected <==>
                  Wants(event, surface) && !IsCovered(event, attestation, surface))
            && (plan.full <==> !event.PullRequest? && !(event.MainPages? && IsCovered(event, attestation, Site)))
  {
    FirstPlanWants(event, surface);
    FirstPlanWants(event, Site);
    hide PlanOf, IsSelected, NormalizedPaths, FirstPlan, ReuseReason;
  }

  /**
   Which lanes a decision runs: all of them if the change cannot be classified; else those that
   the change wants and no earlier run covers. No decision is made only if the main site run
   refuses its attestation.
   */
  lemma {:induction false} DecisionSelects(target: Sha, event: Event, attestation: Attestation, surface: Surface)
    ensures Decide(target, event, attestation).None? <==> event.MainPages? && attestation.Refused?
    ensures Decide(target, event, attestation).Some? ==>
              var d := Decide(target, event, attestation).value;
              && d.target == target
              && (surface in d.selected <==>
                    || FailsToClassify(event, attestation)
                    || (Wants(event, surface) && !IsCovered(event, attestation, surface)))
              && (d.full <==>
                    || FailsToClassify(event, attestation)
                    || (!event.PullRequest? && !(event.MainPages? && IsCovered(event, attestation, Site))))
  {
    hide PlanDecision, FailClosedDecision, Wants, IsCovered;
    FailClosedIsCoherent(target);
    FailClosedTarget(target);
    if FailsToClassify(event, attestation) {
    } else if !attestation.Refused? {
      PlanDecisionSelects(target, event, attestation, surface);
    } else if !event.MainPages? {
      PlanDecisionSelects(target, event, NoAttestation, surface);
      NothingCovered(event, attestation, surface);
      NothingCovered(event, NoAttestation, surface);
    }
  }

  lemma {:induction false} NothingCovered(event: Event, attestation: Attestation, surface: Surface)
    requires !attestation.Attested?
    ensures !IsCovered(event, attestation, surface) && !IsCovered(event, attestation, Site)
  {
  }

  lemma {:induction false} FailClosedTarget(target: Sha)
    ensures FailClosedDecision(target).target == target == FailClosedDecision(target).siteSource
    ensures FailClosedDecision(target).assets
  {
  }

  lemma {:induction false} PlanDecisionSelects(target: Sha, event: Event, attestation: Attestation, surface: Surface)
    requires !event.UnreadablePullRequest? && !attestation.Refused?
    ensures var d := PlanDecision(target, event, attestation);
            && d.target == target
            && (surface in d.selected <==> Wants(event, surface) && !IsCovered(event, attestation, surface))
            && (d.full <==> !event.PullRequest? && !(event.MainPages? && IsCovered(event, attestation, Site)))
  {
    FinalPlanSelects(event, attestation, surface);
    hide FinalPlan, SiteOf, AssetsRequired, Reasons, Wants, IsCovered;
  }

  // ---------------------------------------------------------------- where the site comes from

  /**
   A site that is built is built from the target; a site that an earlier run covers is that run's,
   and one that the pull request leaves alone is its base's.
   */
  lemma {:induction false} DecisionSite(target: Sha, event: Event, attestation: Attestation)
    requires Decide(target, event, attestation).Some?
    ensures var d := Decide(target, event, attestation).value;
            if Site in d.selected then d.siteSource == target
            else if event.PullRequest? && !Wants(event, Site) then d.siteSource == event.base
            else attestation.Attested? && d.siteSource == attestation.previous
  {
    DecisionSelects(target, event, attestation, Site);
    FailClosedTarget(target);
    hide PlanDecision, FailClosedDecision, Wants, IsCovered;
    if !FailsToClassify(event, attestation) {
      var used := if attestation.Refused? then NoAttestation else attestation;
      PlanDecisionSite(target, event, used);
      PlanDecisionSelects(target, event, used, Site);
    }
  }

  /** The site's reason: that it is built whole, what cannot be judged in the change, or its lane's reason. */
  ghost predicate IsSiteReason(event: Event, attestation: Attestation, d: Decision)
    requires Site in d.reasons
  {
    d.siteReason ==
    if FailsToClassify(event, attestation) then "classification failure" + FULL_BUILD
    else if d.full then "non-pull-request full build"
    else if Site !in d.selected || !event.PullRequest? then d.reasons[Site]
    else if event.unsafeMode then "file mode or type change" + FULL_BUILD
    else if exists path :: path in event.paths && !IsRecognized(path) then "unrecognized input" + FULL_BUILD
    else d.reasons[Site]
  }

  lemma {:induction false} DecisionSiteReason(target: Sha, event: Event, attestation: Attestation)
    requires Decide(target, event, attestation).Some?
    ensures var d := Decide(target, event, attestation).value;
            Site in d.reasons && IsSiteReason(event, attestation, d)
  {
    FailClosedReason(target);
    hide PlanDecision, FailClosedDecision, IsRecognized, IsLine, IsSha;
    if !FailsToClassify(event, attestation) {
      PlanDecisionSiteReason(target, event, if attestation.Refused? then NoAttestation else attestation);
    }
  }

  lemma {:induction false} FailClosedReason(target: Sha)
    ensures var d := FailClosedDecision(target);
            Site in d.reasons && d.siteReason == "classification failure" + FULL_BUILD
  {
  }

  lemma {:induction false} ReasonOfSite(target: Sha, event: Event, attestation: Attestation, plan: Plan)
    requires Site in plan.lanes
    ensures SiteOf(target, event, attestation, plan).1 ==
            if plan.full then "non-pull-request full build"
            else if !plan.lanes[Site].selected || !event.PullRequest? then plan.lanes[Site].reason
            else if event.unsafeMode then "file mode or type change" + FULL_BUILD
            else if exists path :: path in event.paths && !IsRecognized(path) then "unrecognized input" + FULL_BUILD
            else plan.lanes[Site].reason
  {
    hide IsRecognized, IsLine, IsSha, REUSED, FULL_BUILD;
  }

  lemma {:induction false} PlanDecisionSiteReason(target: Sha, event: Event, attestation: Attestation)
    requires !FailsToClassify(event, attestation) && !attestation.Refused?
    ensures var d := PlanDecision(target, event, attestation);
            Site in d.reasons && IsSiteReason(event, attestation, d)
  {
    CompletePlans(event, attestation);
    ReasonOfSite(target, event, attestation, FinalPlan(event, attestation));
    hide FinalPlan, SiteOf, AssetsRequired, IsRecognized, IsLine, IsSha, FULL_BUILD;
  }

  lemma {:induction false} PlanDecisionSite(target: Sha, event: Event, attestation: Attestation)
    requires !event.UnreadablePullRequest? && !attestation.Refused?
    ensures var d := PlanDecision(target, event, attestation);
            if Site in d.selected then d.siteSource == target
            else if event.PullRequest? && !Wants(event, Site) then d.siteSource == event.base
            else attestation.Attested? && d.siteSource == attestation.previous
  {
    FinalPlanSelects(event, attestation, Site);
    SiteReasons(event, attestation);
    hide FinalPlan, AssetsRequired, Reasons, Wants, IsCovered, IsLine, IsSha, IsRecognized;
  }

  /** The reason of an unselected site tells whether it was taken away. */
  lemma {:induction false} SiteReasons(event: Event, attestation: Attestation)
    requires !event.UnreadablePullRequest? && !attestation.Refused?
    ensures var plan := FinalPlan(event, attestation);
            && Site in plan.lanes
            && (!plan.lanes[Site].selected ==>
                  (REUSED <= plan.lanes[Site].reason <==> Wants(event, Site)))
  {
    FinalPlanSelects(event, attestation, Site);
    FirstPlanWants(event, Site);
    hide PlanOf, NormalizedPaths, Wants, IsSelected;
    if attestation.Attested? {
      ReuseReasonIsReused(attestation, Site);
    }
    if event.PullRequest? {
      UnwantedReason(NormalizedPaths(event.paths), event.unsafeMode);
      PlanHasEvery(NormalizedPaths(event.paths), false, event.unsafeMode, Site);
    }
    hide ReuseReason, IsReusable, IsCovered, ImpactOf, IsLine;
  }

  lemma {:induction false} ReuseReasonIsReused(attestation: Attestation, surface: Surface)
    requires attestation.Attested?
    ensures REUSED <= ReuseReason(attestation, surface)
  {
    hide LaneName, IsLine;
  }

  lemma {:induction false} UnwantedReason(paths: set<string>, unsafeMode: bool)
    ensures var impact := ImpactOf(paths, false, unsafeMode, Site);
            !impact.selected ==> !(REUSED <= impact.reason)
  {
    ImpactReason(paths, false, unsafeMode, Site);
    assert REUSED[0] == 'r' && UNCHANGED_REASON[0] == 'u';
    if !ImpactOf(paths, false, unsafeMode, Site).selected {
      UnselectedIsUnchanged(paths, unsafeMode);
    }
  }

  lemma {:induction false} UnselectedIsUnchanged(paths: set<string>, unsafeMode: bool)
    requires !IsSelected(paths, false, unsafeMode, Site)
    ensures ReasonOf(paths, false, unsafeMode, Site) == UNCHANGED_REASON
  {
    if MustFailClosed(paths) {
      var path := SomeFailure(paths);
      FailureSelectsAll(paths, path, unsafeMode, Site);
    }
    hide IsSelected, MustFailClosed, IsLine;
  }

  // ---------------------------------------------------------------- when notebook assets are built

  /** The change goes beyond documentation and touches what the notebooks are built from, or fails closed. */
  ghost predicate ChangesNotebooks(paths: set<string>)
  {
    !OnlyDocumentation(paths) && exists path :: path in paths && (IsJupyterInput(path) || FailsClosed(path))
  }

  /** Of what selects Python, that is just what asks for the assets. */
  lemma {:induction false} NotebookInputs(paths: set<string>, unsafeMode: bool)
    ensures (exists path :: path in InputsOf(paths, false, unsafeMode, Python)
                            && (IsJupyterInput(path) || IsProtected(path) || !IsRecognized(path)))
            <==> ChangesNotebooks(paths)
  {
    hide IsJupyterInput, IsProtected, IsRecognized, Paths.IsDocumentation, SelectsAlways, SelectsInCode;
    if MustFailClosed(paths) {
      var path := SomeFailure(paths);
    } else {
      forall path | path in paths
        ensures !OnlyDocumentation(paths) ==> !FailsClosed(path)
      {
        if !OnlyDocumentation(paths) {
          NeitherKind(paths, path);
        }
      }
      forall path | path in paths
        ensures IsJupyterInput(path) ==> SelectsInCode(path, Python)
        ensures SelectsAlways(path, Python) && OnlyDocumentation(paths) ==>
                  !IsJupyterInput(path) && !IsProtected(path) && IsRecognized(path)
      {
        PythonRules(path);
      }
    }
  }

  lemma {:induction false} PythonRules(path: string)
    ensures IsJupyterInput(path) ==> SelectsInCode(path, Python)
    ensures SelectsAlways(path, Python) ==> !IsJupyterInput(path) && !IsProtected(path) && IsRecognized(path)
  {
    hide Paths.IsDocumentation, IsRootRust, IsMsrv, IsPublicFacade, IsDependencyPolicy, IsSiteInput;
    if SelectsAlways(path, Python) {
      DisplayedIsRecognized(path);
      DisplayedStart(path);
      NotNotebooks(path);
    }
  }

  lemma {:induction false} NotNotebooks(path: string)
    requires path != "" && path[0] in {'R', 'd'}
    ensures !IsJupyterInput(path) && !IsProtected(path)
  {
    assert GRAMMAR_FILE[0] == 'e';
    assert forall file :: file in JUPYTER_FILES ==> file[0] in {'e', 't', 'm'};
  }

  lemma {:induction false} DisplayedStart(path: string)
    requires IsDisplayedProgram(path)
    ensures path != "" && path[0] in {'R', 'd'}
  {
    if path != "README.md" {
      var prefix :| prefix in {LANGUAGE_PAGES + "/", PACKAGE_PAGES + "/"} && Paths.StartsWith(path, prefix);
      assert prefix[0] == 'd' && path[0] == path[..|prefix|][0];
    }
  }

  /** A decision that runs Python builds the assets exactly if it is a full one or the change asks for them. */
  lemma {:induction false} DecisionAssets(target: Sha, event: Event, attestation: Attestation)
    requires Decide(target, event, attestation).Some?
    ensures var d := Decide(target, event, attestation).value;
            Python in d.selected ==>
              (d.assets <==> d.full || (event.PullRequest? && ChangesNotebooks(NormalizedPaths(event.paths))))
  {
    FailClosedTarget(target);
    FailClosedIsCoherent(target);
    hide PlanDecision, FailClosedDecision, ChangesNotebooks, NormalizedPaths;
    if !FailsToClassify(event, attestation) {
      PlanDecisionAssets(target, event, if attestation.Refused? then NoAttestation else attestation);
    }
  }

  lemma {:induction false} PlanDecisionAssets(target: Sha, event: Event, attestation: Attestation)
    requires !event.UnreadablePullRequest? && !attestation.Refused?
    ensures var d := PlanDecision(target, event, attestation);
            Python in d.selected ==>
              (d.assets <==> d.full || (event.PullRequest? && ChangesNotebooks(NormalizedPaths(event.paths))))
  {
    FinalPlanSelects(event, attestation, Python);
    hide SiteOf, Reasons, NormalizedPaths, ChangesNotebooks, IsReusable, ReuseReason, PlanOf, InputsOf, IsSelected;
    hide IsJupyterInput, IsProtected, IsRecognized, FinalPlan, Wants, IsCovered;
    var plan := FinalPlan(event, attestation);
    var paths := if event.PullRequest? then NormalizedPaths(event.paths) else {};
    if plan.lanes[Python].selected {
      KeepsInputs(event, attestation);
      if event.PullRequest? {
        NotebookInputs(paths, event.unsafeMode);
      } else {
        FullInputs(paths);
      }
    }
  }

  /** A lane that is still selected has the inputs it was first selected for. */
  lemma {:induction false} KeepsInputs(event: Event, attestation: Attestation)
    requires !event.UnreadablePullRequest? && !attestation.Refused?
    ensures var plan := FinalPlan(event, attestation);
            && Python in plan.lanes
            && (plan.lanes[Python].selected ==>
                  plan.lanes[Python].inputs
                  == if event.PullRequest? then InputsOf(NormalizedPaths(event.paths), false, event.unsafeMode, Python)
                     else InputsOf({}, true, false, Python))
  {
    var paths := if event.PullRequest? then NormalizedPaths(event.paths) else {};
    hide PlanOf, InputsOf, IsReusable, ReuseReason, NormalizedPaths, IsSelected, ReasonOf;
    PlanHasEvery(paths, !event.PullRequest?, event.PullRequest? && event.unsafeMode, Python);
    CompletePlans(event, attestation);
  }

  lemma {:induction false} FullInputs(paths: set<string>)
    ensures InputsOf(paths, true, false, Python) == paths
  {
  }

  // ---------------------------------------------------------------- what is printed

  /** The fields of a printed decision, in their order. */
  datatype Fields = Fields(
    target: string, full: string,
    rust: string, msrv: string, python: string, studio: string, policy: string, cubecl: string, assets: string,
    rustReason: string, msrvReason: string, pythonReason: string, studioReason: string, policyReason: string,
    cubeclReason: string, site: string, siteSource: string, siteReason: string, versions: string)

  ghost function Listed(f: Fields): seq<Record>
  {
    [Record("target_sha", f.target), Record("full", f.full),
     Record("rust", f.rust), Record("msrv", f.msrv), Record("python", f.python), Record("studio", f.studio),
     Record("dependency_policy", f.policy), Record("cubecl_experiment", f.cubecl),
     Record("jupyter_assets", f.assets),
     Record("rust" + "_reason", f.rustReason), Record("msrv" + "_reason", f.msrvReason),
     Record("python" + "_reason", f.pythonReason), Record("studio" + "_reason", f.studioReason),
     Record("dependency_policy" + "_reason", f.policyReason),
     Record("cubecl_experiment" + "_reason", f.cubeclReason),
     Record("site", f.site), Record("site_source_sha", f.siteSource), Record("site_reason", f.siteReason),
     Record("python_versions", f.versions)]
  }

  ghost function Flag(b: bool): string
  {
    if b then "true" else "false"
  }

  /** The fields of a decision with a reason for its site. */
  ghost function FieldsOf(d: Decision): Fields
    requires forall surface :: surface in d.reasons
  {
    Fields(
      d.target, Flag(d.full),
      Flag(Rust in d.selected), Flag(Msrv in d.selected), Flag(Python in d.selected), Flag(Studio in d.selected),
      Flag(DependencyPolicy in d.selected), Flag(CubeclExperiment in d.selected),
      Flag(Python in d.selected && d.assets),
      d.reasons[Rust], d.reasons[Msrv], d.reasons[Python], d.reasons[Studio], d.reasons[DependencyPolicy],
      d.reasons[CubeclExperiment], Flag(Site in d.selected), d.siteSource, d.siteReason,
      if d.full then "[\"3.11\",\"3.12\",\"3.13\",\"3.14\"]" else "[\"3.11\",\"3.14\"]")
  }

  lemma {:induction false} Spelled<T>(s: seq<T>)
    requires |s| == 19
    ensures s == [s[0], s[1], s[2], s[3], s[4], s[5], s[6], s[7], s[8], s[9], s[10], s[11], s[12], s[13], s[14],
                  s[15], s[16], s[17], s[18]]
  {
  }

  lemma {:induction false} LaneNames()
    ensures LaneName(Rust) == "rust" && LaneName(Msrv) == "msrv" && LaneName(Python) == "python"
    ensures LaneName(Studio) == "studio" && LaneName(DependencyPolicy) == "dependency_policy"
    ensures LaneName(CubeclExperiment) == "cubecl_experiment" && LaneName(Site) == "site"
  {
  }

  lemma {:induction false} RecordAt(d: Decision, i: nat)
    requires (forall surface :: surface in d.reasons) && i < 19
    ensures KEYS[i] == KeyName(i) && Rendered(d)[i] == Record(KeyName(i), Value(d, i))
  {
    hide IsLine, IsSha, KeyName, Value;
  }

  lemma {:induction false} LaneRecords(d: Decision, k: nat)
    requires (forall surface :: surface in d.reasons) && k < 6
    ensures Rendered(d)[2 + k] == Record(LaneName(SURFACES[k]), Flag(SURFACES[k] in d.selected))
    ensures Rendered(d)[9 + k] == Record(LaneName(SURFACES[k]) + "_reason", d.reasons[SURFACES[k]])
  {
    hide IsLine, IsSha, LaneName, Rendered;
    RecordAt(d, 2 + k);
    RecordAt(d, 9 + k);
  }

  lemma {:induction false} OtherRecords(d: Decision)
    requires (forall surface :: surface in d.reasons) && d.siteReason != ""
    ensures var f, records := FieldsOf(d), Rendered(d);
            && records[0] == Record("target_sha", f.target) && records[1] == Record("full", f.full)
            && records[8] == Record("jupyter_assets", f.assets) && records[15] == Record("site", f.site)
            && records[16] == Record("site_source_sha", f.siteSource)
            && records[17] == Record("site_reason", f.siteReason)
            && records[18] == Record("python_versions", f.versions)
  {
    VersionTexts();
    LaneNames();
    hide IsLine, IsSha, FULL_VERSIONS, QUICK_VERSIONS, Rendered, LaneName;
    RecordAt(d, 0);
    RecordAt(d, 1);
    RecordAt(d, 8);
    RecordAt(d, 15);
    RecordAt(d, 16);
    RecordAt(d, 17);
    RecordAt(d, 18);
  }

  lemma {:induction false} VersionTexts()
    ensures FULL_VERSIONS == "[\"3.11\",\"3.12\",\"3.13\",\"3.14\"]" && QUICK_VERSIONS == "[\"3.11\",\"3.14\"]"
  {
  }

  /** A decision is printed as its fields. */
  lemma {:induction false} DecisionIsListed(d: Decision)
    requires forall surface :: surface in d.reasons
    requires d.siteReason != ""
    ensures Rendered(d) == Listed(FieldsOf(d))
  {
    hide IsLine, IsSha, Rendered, Value, KEYS;
    OtherRecords(d);
    LaneNames();
    hide LaneName;
    assert SURFACES == [Rust, Msrv, Python, Studio, DependencyPolicy, CubeclExperiment];
    var records := Rendered(d);
    Spelled(records);
    LaneRecords(d, 0);
    LaneRecords(d, 1);
    LaneRecords(d, 2);
    LaneRecords(d, 3);
    LaneRecords(d, 4);
    LaneRecords(d, 5);
  }

  /** Every decision that is made is printed as its fields. */
  lemma {:induction false} PrintedDecision(target: Sha, event: Event, attestation: Attestation)
    requires Decide(target, event, attestation).Some?
    ensures var d := Decide(target, event, attestation).value;
            && (forall surface :: surface in d.reasons)
            && Read(SplitLines(Printed(Rendered(d)))) == Some(Listed(FieldsOf(d)))
  {
    DecideIsCoherent(target, event, attestation);
    DecisionReadsBack(target, event, attestation);
    var d := Decide(target, event, attestation).value;
    hide Decide, Rendered, Listed, FieldsOf, Printed, IsLine;
    DecisionIsListed(d);
  }

  lemma {:induction false} InARow(a: string, b: string, c: string, d: string)
    ensures a + (b + c + d) == a + b + c + d
  {
  }

  /** The reason for reuse names the run, its commit, the lane and the run's address, in this order. */
  lemma {:induction false} ReuseReasonText(attestation: Attestation, surface: Surface)
    requires attestation.Attested?
    ensures ReuseReason(attestation, surface)
         == "reused successful heavy work from run"
            + ((" " + attestation.runId) + (" from " + attestation.previous))
            + (("; exact " + LaneName(surface)) + " input closure unchanged; ")
            + attestation.runUrl
  {
    ReasonTexts();
    hide IsLine, IsSha, LaneName, REUSED;
    InARow("reused successful heavy work from run", (" " + attestation.runId) + (" from " + attestation.previous),
           ("; exact " + LaneName(surface)) + " input closure unchanged; ", attestation.runUrl);
  }

  // ---------------------------------------------------------------- what the validation accepts

  ghost predicate IsCommit(s: string)
  {
    |s| == 40 && forall c :: c in s ==> c in "0123456789abcdef"
  }

  lemma {:induction false} ShaIsCommit(s: string)
    ensures IsSha(s) <==> IsCommit(s)
  {
    assert forall i :: 0 <= i < |s| ==> s[i] in s;
    forall c: char
      ensures c in "0123456789abcdef" <==> '0' <= c <= '9' || 'a' <= c <= 'f'
    {
      HexDigit(c);
    }
  }

  lemma {:induction false} HexDigit(c: char)
    ensures c in "0123456789abcdef" <==> '0' <= c <= '9' || 'a' <= c <= 'f'
  {
    var digits := "0123456789abcdef";
    if '0' <= c <= '9' {
      assert digits[c as int - '0' as int] == c;
    } else if 'a' <= c <= 'f' {
      assert digits[10 + c as int - 'a' as int] == c;
    }
  }

  ghost predicate IsFlag(s: string)
  {
    s == "true" || s == "false"
  }

  /** What the fields of a decision must say for it to be handed over. */
  ghost predicate IsAcceptable(f: Fields)
  {
    && IsCommit(f.target) && IsCommit(f.siteSource)
    && IsFlag(f.full) && IsFlag(f.rust) && IsFlag(f.msrv) && IsFlag(f.python) && IsFlag(f.studio)
    && IsFlag(f.policy) && IsFlag(f.cubecl) && IsFlag(f.assets) && IsFlag(f.site)
    && (f.assets == "true" ==> f.python == "true")
    && (f.full == "true" ==> f.assets == "true" && f.site == "true")
    && f.rustReason != "" && f.msrvReason != "" && f.pythonReason != "" && f.studioReason != ""
    && f.policyReason != "" && f.cubeclReason != "" && f.siteReason != ""
    && f.versions == (if f.full == "true" then "[\"3.11\",\"3.12\",\"3.13\",\"3.14\"]" else "[\"3.11\",\"3.14\"]")
    && (f.site == "false" ==>
          f.siteReason == "unchanged input closure" || "reused successful heavy work from run" <= f.siteReason)
  }

  ghost function FieldsIn(v: seq<string>): Fields
    requires |v| == 19
  {
    Fields(v[0], v[1], v[2], v[3], v[4], v[5], v[6], v[7], v[8], v[9], v[10], v[11], v[12], v[13], v[14],
           v[15], v[16], v[17], v[18])
  }

  ghost function ValuesOf(records: seq<Record>): seq<string>
  {
    seq(|records|, i requires 0 <= i < |records| => records[i].value)
  }

  /** The keys of a decision's records, in their order. */
  lemma {:induction false} KeysAreListed(f: Fields)
    ensures KeysOf(Listed(f)) == KEYS
  {
    LaneNames();
    Spelled(KEYS);
    Spelled(KeysOf(Listed(f)));
    hide IsLine, LaneName;
  }

  /** The checks on the values, one by one. */
  ghost predicate ChecksPass(v: seq<string>)
    requires |v| == 19
  {
    && IsSha(v[0]) && IsSha(v[16])
    && ChangeDecision.IsFlag(v[1]) && (forall i :: 2 <= i < 9 ==> ChangeDecision.IsFlag(v[i]))
    && ChangeDecision.IsFlag(v[15])
    && (v[8] == "true" ==> v[4] == "true") && (v[1] == "true" ==> v[8] == "true")
    && (forall i :: 9 <= i < 15 ==> v[i] != "")
    && v[18] == VersionsText(v[1] == "true")
    && (v[15] == "false" ==> v[1] == "false" && (v[17] == UNCHANGED_REASON || REUSED <= v[17]))
    && (v[1] == "true" ==> v[15] == "true")
    && v[17] != ""
  }

  lemma {:induction false} NoFaultPasses(records: seq<Record>)
    requires KeysOf(records) == KEYS
    ensures |records| == 19
    ensures RecordsFault(records).None? <==> ChecksPass(ValuesOf(records))
  {
    assert |KeysOf(records)| == 19;
    hide IsLine, IsSha, KEYS, KeysOf, ChangeDecision.IsFlag, VersionsText, REUSED;
    var v := seq(19, i requires 0 <= i < 19 => records[i].value);
    assert v == ValuesOf(records);
  }

  lemma {:induction false} ChecksAreAcceptable(v: seq<string>)
    requires |v| == 19
    ensures ChecksPass(v) <==> IsAcceptable(FieldsIn(v))
  {
    ShaIsCommit(v[0]);
    ShaIsCommit(v[16]);
    VersionTexts();
    ReasonTexts();
    hide IsLine, IsSha, IsCommit, FULL_VERSIONS, QUICK_VERSIONS, REUSED, UNCHANGED_REASON;
    assert (forall i :: 2 <= i < 9 ==> ChangeDecision.IsFlag(v[i])) <==>
           IsFlag(v[2]) && IsFlag(v[3]) && IsFlag(v[4]) && IsFlag(v[5]) && IsFlag(v[6]) && IsFlag(v[7]) && IsFlag(v[8]);
    assert (forall i :: 9 <= i < 15 ==> v[i] != "") <==>
           v[9] != "" && v[10] != "" && v[11] != "" && v[12] != "" && v[13] != "" && v[14] != "";
  }

  lemma {:induction false} ReasonTexts()
    ensures REUSED == "reused successful heavy work from run" && UNCHANGED_REASON == "unchanged input closure"
  {
  }

  /** Records pass the checks exactly if they have the keys of a decision and acceptable fields. */
  lemma {:induction false} AcceptedRecords(records: seq<Record>)
    ensures RecordsFault(records).None? <==>
            KeysOf(records) == KEYS && |records| == 19 && IsAcceptable(FieldsIn(ValuesOf(records)))
  {
    if KeysOf(records) == KEYS {
      NoFaultPasses(records);
      ChecksAreAcceptable(ValuesOf(records));
    } else {
      assert RecordsFault(records) == Some(WrongKeys);
    }
  }
}
