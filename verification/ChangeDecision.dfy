/**
 The decision a classification run prints: the plan for the change, less the lanes an attested
 earlier run covers, and the validation of the printed records before they are handed over.
 */
module ChangeDecision {
  import opened Wrappers
  import opened DecisionRecords
  import opened ChangeClassification

  // ---------------------------------------------------------------- reuse of an earlier run

  predicate IsSha(s: string)
  {
    |s| == 40 && forall k :: 0 <= k < 40 ==> '0' <= s[k] <= '9' || 'a' <= s[k] <= 'f'
  }

  /** One exact commit. */
  type Sha = s: string | IsSha(s)
    witness seq(40, _ => '0')

  /** The attestation of an earlier run, together with the changes made since. */
  datatype Attestation =
    | NoAttestation
    | Refused
    | Attested(previous: Sha, runId: Line, runUrl: Line, paths: seq<string>, unsafeMode: bool, lanes: set<Surface>)

  function Joined(a: Line, b: Line): Line
  {
    a + b
  }

  const REUSED: Line := Joined("reused successful", " heavy work from run")
  const CLOSURE_UNCHANGED: Line := " input closure unchanged; "

  function LaneName(surface: Surface): Line
  {
    match surface
    case Rust => "rust"
    case Msrv => "msrv"
    case Python => "python"
    case Studio => "studio"
    case DependencyPolicy => "dependency_policy"
    case CubeclExperiment => "cubecl_experiment"
    case Site => "site"
  }

  function ReuseReason(attestation: Attestation, surface: Surface): Line
    requires attestation.Attested?
  {
    var run := Joined(Joined(" ", attestation.runId), Joined(" from ", attestation.previous));
    var closure := Joined(Joined("; exact ", LaneName(surface)), CLOSURE_UNCHANGED);
    Joined(REUSED, Joined(Joined(run, closure), attestation.runUrl))
  }

  /** The lane succeeded in the attested run, and nothing changed since selects it. */
  predicate IsReusable(attestation: Attestation, surface: Surface)
    requires attestation.Attested?
  {
    && surface in attestation.lanes
    && !IsSelected(NormalizedPaths(attestation.paths), false, attestation.unsafeMode, surface)
  }

  ghost predicate IsTotal(plan: Plan)
  {
    forall surface :: surface in plan.lanes
  }

  /** What becomes of one lane's decision. */
  function Reconsidered(plan: Plan, attestation: Attestation, surface: Surface): Impact
    requires attestation.Attested? && surface in plan.lanes
  {
    if plan.lanes[surface].selected && IsReusable(attestation, surface) then
      Impact(false, ReuseReason(attestation, surface), {})
    else plan.lanes[surface]
  }

  /** A plan without the selected lanes that the attested run covers. */
  function WithReuse(plan: Plan, attestation: Attestation): (r: Plan)
    requires attestation.Attested?
  {
    plan.(lanes := map surface | surface in plan.lanes :: Reconsidered(plan, attestation, surface))
  }

  lemma {:induction false} DeltaDecides(attestation: Attestation, surface: Surface)
    requires attestation.Attested?
    ensures var delta := PlanOf(NormalizedPaths(attestation.paths), false, attestation.unsafeMode);
            && surface in delta.lanes
            && (IsReusable(attestation, surface) <==> surface in attestation.lanes && !delta.lanes[surface].selected)
  {
    PlanHasEvery(NormalizedPaths(attestation.paths), false, attestation.unsafeMode, surface);
    hide PlanOf, IsSelected, NormalizedPaths;
  }

  /** The loop over the lanes, against the plan for what changed since the attested run. */
  method ApplyReuse(plan: Plan, attestation: Attestation) returns (reused: Plan)
    requires attestation.Attested? && IsTotal(plan)
    ensures reused == WithReuse(plan, attestation)
  {
    hide ReuseReason, IsSelected, NormalizedPaths, PlanOf, IsReusable;
    var delta := ImpactPlan(attestation.paths, false, attestation.unsafeMode);
    var lanes: map<Surface, Impact> := map[];
    for k := 0 to |CLASSIFIED_SURFACES|
      invariant forall surface :: surface in lanes <==> surface in CLASSIFIED_SURFACES[..k]
      invariant forall surface :: surface in lanes ==> lanes[surface] == Reconsidered(plan, attestation, surface)
    {
      var lane := CLASSIFIED_SURFACES[k];
      DeltaDecides(attestation, lane);
      var decision := plan.lanes[lane];
      if decision.selected && !delta.lanes[lane].selected && lane in attestation.lanes {
        decision := Impact(false, ReuseReason(attestation, lane), {});
      }
      lanes := lanes[lane := decision];
    }
    forall surface
      ensures surface in lanes
    {
      EverySurface(surface);
    }
    return Plan(plan.full, lanes);
  }

  /**
   A lane that reuse takes away is selected by no part of what changed since the attested run;
   a lane that such a part selects keeps its decision.
   */
  lemma {:induction false} ReusedLaneIsUntouched(
    plan: Plan, attestation: Attestation, surface: Surface, part: set<string>)
    requires attestation.Attested? && surface in plan.lanes
    requires part <= NormalizedPaths(attestation.paths) && IsSelected(part, false, false, surface)
    ensures surface in WithReuse(plan, attestation).lanes
    ensures WithReuse(plan, attestation).lanes[surface] == plan.lanes[surface]
  {
    hide IsSelected, ReuseReason, NormalizedPaths;
    SelectionIsMonotone(part, NormalizedPaths(attestation.paths), false, false, false, attestation.unsafeMode, surface);
  }

  // ---------------------------------------------------------------- the decision

  datatype Event =
    | PullRequest(base: Sha, paths: seq<string>, unsafeMode: bool)
    | UnreadablePullRequest
    | MainPages
    | OtherRun

  datatype Decision = Decision(
    target: Sha, full: bool, selected: set<Surface>, assets: bool, siteSource: Sha, siteReason: Line,
    reasons: map<Surface, Line>)

  const FULL_SITE_REASON: Line := "non-pull-request full build"
  const UNKNOWN_SITE_REASON: Line := "unrecognized input" + FULL_BUILD
  const FAILURE_SITE_REASON: Line := "classification failure" + FULL_BUILD

  function Selections(plan: Plan): set<Surface>
  {
    set surface | surface in plan.lanes && plan.lanes[surface].selected
  }

  function Reasons(plan: Plan): map<Surface, Line>
  {
    map surface | surface in plan.lanes :: plan.lanes[surface].reason
  }

  /** Whether the notebook assets must be built: a projection of the Python lane. */
  predicate AssetsRequired(plan: Plan)
    requires Python in plan.lanes
  {
    && plan.lanes[Python].selected
    && (plan.full || exists path :: path in plan.lanes[Python].inputs
                                    && (IsJupyterInput(path) || IsProtected(path) || !IsRecognized(path)))
  }

  /** What is printed if the change of a pull request cannot be classified. */
  function FailClosedDecision(target: Sha): Decision
  {
    var plan := PlanOf({}, true, false);
    Decision(target, true, Selections(plan), true, target, FAILURE_SITE_REASON,
             map surface | surface in plan.lanes :: CHANGED_REASON)
  }

  /** The plan of a run, before reuse. */
  function FirstPlan(event: Event): Plan
  {
    if event.PullRequest? then PlanOf(NormalizedPaths(event.paths), false, event.unsafeMode)
    else PlanOf({}, true, false)
  }

  predicate CanReuse(event: Event, attestation: Attestation)
  {
    (event.PullRequest? || event.MainPages?) && !attestation.NoAttestation?
  }

  /** The plan after reuse; the main site run is not a full one once its site is reused. */
  function FinalPlan(event: Event, attestation: Attestation): Plan
    requires !attestation.Refused?
  {
    var plan := FirstPlan(event);
    if !CanReuse(event, attestation) then plan
    else
      var reused := WithReuse(plan, attestation);
      if event.MainPages? && Site in reused.lanes && !reused.lanes[Site].selected then reused.(full := false)
      else reused
  }

  /** The site's source and reason in a decision that is not a failure. */
  function SiteOf(target: Sha, event: Event, attestation: Attestation, plan: Plan): (Sha, Line)
    requires Site in plan.lanes
  {
    var site := plan.lanes[Site];
    if plan.full then (target, FULL_SITE_REASON)
    else if site.selected then
      (target,
       if event.PullRequest? && event.unsafeMode then UNSAFE_REASON
       else if event.PullRequest? && exists i :: 0 <= i < |event.paths| && !IsRecognized(event.paths[i]) then
         UNKNOWN_SITE_REASON
       else site.reason)
    else
      (if REUSED <= site.reason && attestation.Attested? then attestation.previous
       else if event.PullRequest? then event.base else target,
       site.reason)
  }

  /** The decision that a plan stands for. */
  function PlanDecision(target: Sha, event: Event, attestation: Attestation): Decision
    requires !attestation.Refused?
  {
    var plan := FinalPlan(event, attestation);
    CompletePlans(event, attestation);
    var (source, reason) := SiteOf(target, event, attestation, plan);
    Decision(target, plan.full, Selections(plan), AssetsRequired(plan), source, reason, Reasons(plan))
  }

  /** The decision of a run; none if it reports an error and prints nothing. */
  function Decide(target: Sha, event: Event, attestation: Attestation): Option<Decision>
  {
    if event.UnreadablePullRequest? || (event.PullRequest? && event.paths == []) then Some(FailClosedDecision(target))
    else if !attestation.Refused? then Some(PlanDecision(target, event, attestation))
    else if event.PullRequest? then Some(FailClosedDecision(target))
    else if event.MainPages? then None
    else Some(PlanDecision(target, event, NoAttestation))
  }

  lemma {:induction false} CompletePlans(event: Event, attestation: Attestation)
    requires !attestation.Refused?
    ensures forall surface :: surface in FinalPlan(event, attestation).lanes
    ensures FinalPlan(event, attestation).full ==> event.MainPages? || event.OtherRun? || event.UnreadablePullRequest?
  {
    hide PlanOf;
    forall surface
      ensures surface in FirstPlan(event).lanes
    {
      EverySurface(surface);
      assert event.PullRequest? ==> surface in FirstPlan(event).lanes by {
        if event.PullRequest? {
          PlanHasEvery(NormalizedPaths(event.paths), false, event.unsafeMode, surface);
        }
      }
      PlanHasEvery({}, true, false, surface);
    }
    assert event.PullRequest? ==> !FirstPlan(event).full by {
      if event.PullRequest? {
        PlanHasEvery(NormalizedPaths(event.paths), false, event.unsafeMode, Site);
      }
    }
  }

  lemma {:induction false} PlanHasEvery(paths: set<string>, full: bool, unsafeMode: bool, surface: Surface)
    ensures surface in PlanOf(paths, full, unsafeMode).lanes
    ensures PlanOf(paths, full, unsafeMode).full == full
    ensures PlanOf(paths, full, unsafeMode).lanes[surface] == ImpactOf(paths, full, unsafeMode, surface)
  {
    EverySurface(surface);
  }

  // ---------------------------------------------------------------- the printed records

  /** The key of the i-th record. */
  function KeyName(i: nat): string
    requires i < 19
  {
    if i == 0 then "target_sha"
    else if i == 1 then "full"
    else if i < 8 then LaneName(SURFACES[i - 2])
    else if i == 8 then "jupyter_assets"
    else if i < 15 then LaneName(SURFACES[i - 9]) + "_reason"
    else if i == 15 then LaneName(Site)
    else if i == 16 then "site_source_sha"
    else if i == 17 then "site_reason"
    else "python_versions"
  }

  const KEYS := seq(19, i requires 0 <= i < 19 => KeyName(i))

  const FULL_VERSIONS: Line := "[\"3.11\",\"3.12\",\"3.13\",\"3.14\"]"
  const QUICK_VERSIONS: Line := "[\"3.11\",\"3.14\"]"

  function Word(b: bool): Line
  {
    if b then "true" else "false"
  }

  function VersionsText(full: bool): Line
  {
    if full then FULL_VERSIONS else QUICK_VERSIONS
  }

  /** The value printed under the i-th key. */
  function Value(d: Decision, i: nat): Line
    requires forall surface :: surface in d.reasons
    requires i < 19
  {
    if i == 0 then d.target
    else if i == 1 then Word(d.full)
    else if i < 8 then Word(SURFACES[i - 2] in d.selected)
    else if i == 8 then Word(Python in d.selected && d.assets)
    else if i < 15 then d.reasons[SURFACES[i - 9]]
    else if i == 15 then Word(Site in d.selected)
    else if i == 16 then d.siteSource
    else if i == 17 then
      if d.siteReason != "" then d.siteReason else if Site in d.selected then CHANGED_REASON else UNCHANGED_REASON
    else VersionsText(d.full)
  }

  function Rendered(d: Decision): (records: seq<Record>)
    requires forall surface :: surface in d.reasons
    ensures |records| == 19
  {
    seq(19, i requires 0 <= i < 19 => Record(KEYS[i], Value(d, i)))
  }

  // ---------------------------------------------------------------- validation

  datatype Fault =
    | MalformedRecord | WrongKeys | InvalidIdentity | InvalidFlag | AssetsWithoutPython | FullWithoutAssets
    | NoReason | WrongVersions | InconsistentSite | FullWithoutSite | NoSiteReason

  predicate IsFlag(s: string)
  {
    s in {"true", "false"}
  }

  function KeysOf(records: seq<Record>): seq<string>
  {
    seq(|records|, i requires 0 <= i < |records| => records[i].key)
  }

  /** What the records contradict, in the order of the checks. */
  function RecordsFault(records: seq<Record>): Option<Fault>
  {
    if KeysOf(records) != KEYS then Some(WrongKeys)
    else
      var v := seq(19, i requires 0 <= i < 19 => assert |KeysOf(records)| == 19; records[i].value);
      if !IsSha(v[0]) || !IsSha(v[16]) then Some(InvalidIdentity)
      else if !(IsFlag(v[1]) && (forall i :: 2 <= i < 9 ==> IsFlag(v[i])) && IsFlag(v[15])) then Some(InvalidFlag)
      else if v[8] == "true" && v[4] != "true" then Some(AssetsWithoutPython)
      else if v[1] == "true" && v[8] != "true" then Some(FullWithoutAssets)
      else if exists i :: 9 <= i < 15 && v[i] == "" then Some(NoReason)
      else if v[18] != VersionsText(v[1] == "true") then Some(WrongVersions)
      else if v[15] == "false" && (v[1] != "false" || (v[17] != UNCHANGED_REASON && !(REUSED <= v[17]))) then
        Some(InconsistentSite)
      else if v[1] == "true" && v[15] != "true" then Some(FullWithoutSite)
      else if v[17] == "" then Some(NoSiteReason)
      else None
  }

  /** The validation of a printed decision. */
  function Validate(text: string): Option<Fault>
  {
    var records := Read(SplitLines(text));
    if records.None? then Some(MalformedRecord) else RecordsFault(records.value)
  }

  // ---------------------------------------------------------------- every decision reads back

  ghost predicate SoundReason(selected: bool, reason: Line)
  {
    reason != "" && (selected || reason == UNCHANGED_REASON || REUSED <= reason)
  }

  /** What the validation relies on. */
  ghost predicate Coherent(d: Decision)
  {
    && (forall surface :: surface in d.reasons && d.reasons[surface] != "")
    && SoundReason(Site in d.selected, d.siteReason)
    && (d.full ==> Site in d.selected && (Python in d.selected ==> d.assets))
  }

  lemma {:induction false} ReuseReasonIsSound(attestation: Attestation, surface: Surface)
    requires attestation.Attested?
    ensures SoundReason(false, ReuseReason(attestation, surface))
  {
    hide LaneName, IsLine;
  }

  lemma {:induction false} ImpactReason(paths: set<string>, full: bool, unsafeMode: bool, surface: Surface)
    ensures var impact := ImpactOf(paths, full, unsafeMode, surface); SoundReason(impact.selected, impact.reason)
  {
    if !full && MustFailClosed(paths) {
      var path := SomeFailure(paths);
      FailureSelectsAll(paths, path, unsafeMode, surface);
    }
    hide IsSelected, MustFailClosed, IsLine;
  }

  /** Every lane of the final plan has a sound reason, and a full plan selects its site. */
  lemma {:induction false} FinalPlanReasons(target: Sha, event: Event, attestation: Attestation, surface: Surface)
    requires !attestation.Refused?
    ensures var plan := FinalPlan(event, attestation);
            && surface in plan.lanes && SoundReason(plan.lanes[surface].selected, plan.lanes[surface].reason)
  {
    hide PlanOf, ImpactOf, IsReusable, ReuseReason, SoundReason;
    CompletePlans(event, attestation);
    var first := FirstPlan(event);
    var paths := if event.PullRequest? then NormalizedPaths(event.paths) else {};
    var unsafeMode := event.PullRequest? && event.unsafeMode;
    PlanHasEvery(paths, !event.PullRequest?, unsafeMode, surface);
    ImpactReason(paths, !event.PullRequest?, unsafeMode, surface);
    if attestation.Attested? {
      ReuseReasonIsSound(attestation, surface);
    }
  }

  lemma {:induction false} FirstPlanIsFull(event: Event, surface: Surface)
    requires !event.PullRequest?
    ensures FirstPlan(event).full && surface in FirstPlan(event).lanes && FirstPlan(event).lanes[surface].selected
  {
    PlanHasEvery({}, true, false, surface);
  }

  /** A plan that stays full keeps its site; it loses another lane exactly to reuse. */
  lemma {:induction false} FullPlanLanes(event: Event, attestation: Attestation, surface: Surface)
    requires !attestation.Refused? && FinalPlan(event, attestation).full
    ensures surface in FinalPlan(event, attestation).lanes && Site in FinalPlan(event, attestation).lanes
    ensures FinalPlan(event, attestation).lanes[Site].selected
    ensures !FinalPlan(event, attestation).lanes[surface].selected <==>
              event.MainPages? && attestation.Attested? && IsReusable(attestation, surface)
  {
    hide IsReusable, PlanOf, ReuseReason;
    CompletePlans(event, attestation);
    if !event.PullRequest? {
      FirstPlanIsFull(event, surface);
      FirstPlanIsFull(event, Site);
    }
  }

  lemma {:induction false} SiteIsSound(target: Sha, event: Event, attestation: Attestation, plan: Plan)
    requires Site in plan.lanes
    requires SoundReason(plan.lanes[Site].selected, plan.lanes[Site].reason)
    requires plan.full ==> plan.lanes[Site].selected
    ensures var (source, reason) := SiteOf(target, event, attestation, plan);
            SoundReason(plan.lanes[Site].selected, reason)
  {
    hide IsLine, IsSha, IsRecognized;
  }

  lemma {:induction false} FailClosedIsCoherent(target: Sha)
    ensures Coherent(FailClosedDecision(target)) && FailClosedDecision(target).full
    ensures forall surface :: surface in FailClosedDecision(target).selected
  {
    hide PlanOf, IsLine, IsSha;
    forall surface
      ensures surface in FailClosedDecision(target).selected && surface in FailClosedDecision(target).reasons
    {
      PlanHasEvery({}, true, false, surface);
    }
  }

  lemma {:induction false} PlanDecisionIsCoherent(target: Sha, event: Event, attestation: Attestation)
    requires !attestation.Refused?
    ensures Coherent(PlanDecision(target, event, attestation))
  {
    hide FinalPlan, SiteOf, SoundReason, AssetsRequired;
    var plan := FinalPlan(event, attestation);
    CompletePlans(event, attestation);
    forall surface
      ensures SoundReason(plan.lanes[surface].selected, plan.lanes[surface].reason)
    {
      FinalPlanReasons(target, event, attestation, surface);
    }
    if plan.full {
      FullPlanLanes(event, attestation, Site);
      FullNeedsAssets(plan);
    }
    SiteIsSound(target, event, attestation, plan);
    ReasonsAreSound(plan);
  }

  lemma {:induction false} FullNeedsAssets(plan: Plan)
    requires Python in plan.lanes && plan.full
    ensures AssetsRequired(plan) <==> plan.lanes[Python].selected
  {
  }

  lemma {:induction false} ReasonsAreSound(plan: Plan)
    requires forall surface ::
               surface in plan.lanes && SoundReason(plan.lanes[surface].selected, plan.lanes[surface].reason)
    ensures forall surface :: surface in Reasons(plan) && Reasons(plan)[surface] != ""
  {
    hide IsLine;
    forall surface
      ensures surface in Reasons(plan) && Reasons(plan)[surface] != ""
    {
      assert SoundReason(plan.lanes[surface].selected, plan.lanes[surface].reason);
    }
  }

  /** The keys are words, whose line ends nowhere and whose key ends at the equals sign. */
  lemma {:induction false} KeyIsKey(i: nat)
    requires i < 19
    ensures IsKey(KEYS[i])
  {
    if 2 <= i < 8 {
      LaneNameIsKey(SURFACES[i - 2]);
    } else if 9 <= i < 15 {
      LaneNameIsKey(SURFACES[i - 9]);
      assert IsKey("_reason");
    } else if i == 15 {
      LaneNameIsKey(Site);
    } else {
      OtherNamesAreKeys();
    }
    hide LaneName;
  }

  lemma {:induction false} LaneNameIsKey(surface: Surface)
    ensures IsKey(LaneName(surface))
  {
  }

  lemma {:induction false} OtherNamesAreKeys()
    ensures IsKey("target_sha") && IsKey("full") && IsKey("jupyter_assets") && IsKey("site_source_sha")
    ensures IsKey("site_reason") && IsKey("python_versions")
  {
  }

  /** The validation finds fault with a coherent decision in one case only: a full one without Python. */
  lemma {:induction false} CoherentValidates(d: Decision)
    requires Coherent(d)
    ensures RecordsFault(Rendered(d)) == if d.full && Python !in d.selected then Some(FullWithoutAssets) else None
  {
    hide IsSha, VersionsText, IsLine;
    var records := Rendered(d);
    assert KeysOf(records) == KEYS;
    forall i | 0 <= i < 19
      ensures records[i].value == Value(d, i)
    {
    }
  }

  /**
   Every decision a run can reach is printed so that it reads back unchanged, and its validation
   accepts it except if it is full without the Python lane.
   */
  lemma {:induction false} DecisionReadsBack(target: Sha, event: Event, attestation: Attestation)
    requires Decide(target, event, attestation).Some?
    ensures var d := Decide(target, event, attestation).value;
            && (forall surface :: surface in d.reasons)
            && Read(SplitLines(Printed(Rendered(d)))) == Some(Rendered(d))
            && Validate(Printed(Rendered(d)))
               == if d.full && Python !in d.selected then Some(FullWithoutAssets) else None
  {
    hide FailClosedDecision, PlanDecision;
    var d := Decide(target, event, attestation).value;
    DecideIsCoherent(target, event, attestation);
    CoherentReadsBack(d);
  }

  lemma {:induction false} CoherentReadsBack(d: Decision)
    requires Coherent(d)
    ensures Read(SplitLines(Printed(Rendered(d)))) == Some(Rendered(d))
    ensures Validate(Printed(Rendered(d))) == if d.full && Python !in d.selected then Some(FullWithoutAssets) else None
  {
    hide Value, IsKey, IsLine, RecordsFault;
    forall i | 0 <= i < 19
      ensures Readable(Rendered(d)[i])
    {
      KeyIsKey(i);
    }
    PrintedReadsBack(Rendered(d));
    CoherentValidates(d);
  }

  lemma {:induction false} DecideIsCoherent(target: Sha, event: Event, attestation: Attestation)
    requires Decide(target, event, attestation).Some?
    ensures Coherent(Decide(target, event, attestation).value)
  {
    hide FailClosedDecision, PlanDecision, Coherent;
    FailClosedIsCoherent(target);
    if !attestation.Refused? {
      PlanDecisionIsCoherent(target, event, attestation);
    } else {
      PlanDecisionIsCoherent(target, event, NoAttestation);
    }
  }

  /**
   When the validation refuses: on the main site run, an attested run that covers the Python lane
   but not the site leaves a full decision without Python.
   */
  lemma {:induction false} RefusedDecision(target: Sha, event: Event, attestation: Attestation)
    requires Decide(target, event, attestation).Some?
    ensures var d := Decide(target, event, attestation).value;
            && (forall surface :: surface in d.reasons)
            && (Validate(Printed(Rendered(d))).Some? <==>
                  && event.MainPages? && attestation.Attested?
                  && IsReusable(attestation, Python) && !IsReusable(attestation, Site))
  {
    DecisionReadsBack(target, event, attestation);
    hide IsReusable, Validate, Printed, Rendered;
    FailClosedIsCoherent(target);
    if event.UnreadablePullRequest? || (event.PullRequest? && (event.paths == [] || attestation.Refused?)) {
      return;
    }
    FullIffSiteStays(target, event, if attestation.Refused? then NoAttestation else attestation);
  }

  lemma {:induction false} FullIffSiteStays(target: Sha, event: Event, attestation: Attestation)
    requires !attestation.Refused? && !event.UnreadablePullRequest?
    ensures var d := PlanDecision(target, event, attestation);
            d.full && Python !in d.selected <==>
              && event.MainPages? && attestation.Attested?
              && IsReusable(attestation, Python) && !IsReusable(attestation, Site)
  {
    hide IsReusable, SiteOf, AssetsRequired, Reasons;
    var plan := FinalPlan(event, attestation);
    CompletePlans(event, attestation);
    if plan.full {
      FullPlanLanes(event, attestation, Python);
      FullPlanLanes(event, attestation, Site);
    } else {
      QuickMainRun(event, attestation);
    }
  }

  lemma {:induction false} QuickMainRun(event: Event, attestation: Attestation)
    requires !attestation.Refused? && !event.UnreadablePullRequest? && !FinalPlan(event, attestation).full
    ensures event.MainPages? && attestation.Attested? ==> IsReusable(attestation, Site)
  {
    hide IsReusable, PlanOf, ReuseReason;
    CompletePlans(event, attestation);
    if !event.PullRequest? {
      FirstPlanIsFull(event, Site);
    }
  }

  /** An attestation for the site alone, as the one for main site runs is, never leads there. */
  lemma {:induction false} SiteAttestationIsAccepted(target: Sha, event: Event, attestation: Attestation)
    requires Decide(target, event, attestation).Some?
    requires attestation.Attested? ==> event.PullRequest? || attestation.lanes <= {Site}
    ensures var d := Decide(target, event, attestation).value;
            (forall surface :: surface in d.reasons) && Validate(Printed(Rendered(d))).None?
  {
    RefusedDecision(target, event, attestation);
  }

  const SAMPLE_SHA: Sha := seq(40, _ => '0')
  const SAMPLE_URL: Line := Joined("https://github.com/", Joined("o/r", "/actions/runs/1"))
  const SAMPLE_ATTESTATION := Attested(SAMPLE_SHA, "1", SAMPLE_URL, [], false, {Python})

  /** Such a refusal does occur: nothing changed since a run that is attested for Python only. */
  lemma {:induction false} PythonAttestationIsRefused()
    ensures Decide(SAMPLE_SHA, MainPages, SAMPLE_ATTESTATION).Some?
    ensures var d := Decide(SAMPLE_SHA, MainPages, SAMPLE_ATTESTATION).value;
            (forall surface :: surface in d.reasons) && Validate(Printed(Rendered(d))).Some?
  {
    assert NormalizedPaths([]) == {};
    assert IsReusable(SAMPLE_ATTESTATION, Python) && !IsReusable(SAMPLE_ATTESTATION, Site);
    hide IsReusable, Validate, Printed, Rendered, PlanDecision;
    RefusedDecision(SAMPLE_SHA, MainPages, SAMPLE_ATTESTATION);
  }
}
