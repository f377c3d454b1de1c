# Verified models of the Eqiora tooling

These Dafny modules model the parts of the repository's tooling and of Eqiora Studio that carry
state or algorithms: scheduling, document rewriting, publication, revision history, ledger
checking and change classification. Each algorithm that works step by step is a method proved
against a specification, and what the tool is for is proved about that specification, for all
inputs and all runs.

| modules | what they model |
|---|---|
| `ResourceScheduler`, `CpuShares`, `VerificationScheduler`, `Sums` | the resource scheduler, the largest-remainder apportionment of CPU slots, and plans of lanes run on both |
| `ProfileReceipts` | the candidate profiles run by that scheduler, and the merge of their receipts |
| `HtmlDocument`, `LinkProjection`, `MovedLinks`, `StartTags`, `ToggleRules`, `ProjectionChecks`, `DocumentRules`, `ImplementationOrder` | the stack parser and printer of documents, the rewrite that moves links out of summaries, the start tags it prints, what it accepts and counts, the checks on its result, the canonical order of implementation lists |
| `PublicationOrder`, `PublishLoop` | the depth-first release order, and the resumable upload loop against a registry |
| `StudioState`, `PreviewBridge`, `StudioSession` | Studio's reducer with its bounded revision history, the bridge's retained documents, and the two in one session |
| `Ratchet` | the exact reconstruction of a ledger whose ceilings are lowered or retired |
| `PackageClosure`, `ChangeClassification`, `DecisionRecords`, `ChangeDecision`, `DecisionContents` | affected packages, lane selection, reuse of earlier runs, the decision that is printed and validated, and what is in it |
| `SiteAssembly`, `CssUrls`, `SourceSpan` | the collision-free site manifest and its copy, the `url()` scanner, offsets into source text |

`Wrappers` holds `Option` and `Result`. The command
`dafny verify --resource-limit 2000000 dfyconfig.toml` checks everything.

Six results show where the code does not do what one might expect. Each gives the exact condition,
which can be read off the input or asked beforehand, and an instance:

- A projected document is refused because its scripts changed exactly if a link in a toggle's own
  summary contains a script, which copying the link doubles; otherwise it is refused because a
  link stayed inside a summary exactly if one is in a summary that is no toggle's own
  (`ProjectionChecks.OutputChecks`; `LinkInSummarySurvives`, `ScriptInLinkIsDoubled`).
- The validation refuses a decision of the classifier's own exactly if the main site run reuses
  the Python lane but not the site (`ChangeDecision.RefusedDecision`; `PythonAttestationIsRefused`).
  The attestation written for that run names the site only
  (`tools/ci/authenticate_previous_run.py:297`), for which all decisions are accepted.
- Changes none of which selects a lane can select it taken together, exactly if one of them is
  documentation inside the lane's code and another is more than documentation
  (`ChangeClassification.SelectionOfSeries`; `TwoQuietChangesSelectRust`).
- A publication that is cut off between two calls of cargo and run again comes to what the
  uninterrupted one comes to, whatever happens later, exactly if the registry holds nothing of the
  version that was about to be published (`PublishLoop.RerunResumes`; `HiddenUploadDiffers`). One
  that ends because the query after a call of cargo raises comes to what it would have come to had
  that query seen what is stored, exactly if the version is stored or cargo failed and named a time
  to retry (`PublishLoop.RaisedQueryResumes`). Here the scans see all that is stored; where the
  first one missed something, the lemmas say what else must not be stored.
- An event keeps Studio's history and the bridge's in step exactly as `StudioSession.NextIsSane`
  says: a load or commit must be waited for, unless it brings what Studio has already, and a
  commit's digest must be fresh (`DistractedSessionLosesRedo` with `SampleEdits`;
  `PreviewBridge.EqualDigestBreaksBridge`). The reducer and the bridge's promises admit the session
  of `DistractedSessionLosesRedo`, which needs a bridge that answers later: the bridge as shipped
  never awaits in `commitValueEdit` (`studio/src/bridge.ts:334`), so that its answer is dispatched
  (`studio/src/App.tsx:215-229`) before a keystroke can fall in between.

## Model

| member | source | states |
|---|---|---|
| `ResourceScheduler.ValidateTasks` | tools/ci/resource_scheduler.py:71-88 | no error exactly if names are distinct and each request fits the budget; the error names the first task, and its first resource, that does not |
| `ResourceScheduler.EveryReachableStateIsSafe` | tools/ci/resource_scheduler.py:117-163 | in every state of every run, whatever completes when: free and held CPU, memory and GPU add up to the budget, nothing is negative, active lock sets are disjoint, the held locks are exactly their union |
| `ResourceScheduler.CompleteKeepsSafe` | tools/ci/resource_scheduler.py:152-159 | giving back a completed task's resources keeps that; the set difference on locks frees no other task's lock |
| `ResourceScheduler.EveryTaskRunsOnce` | tools/ci/resource_scheduler.py:125-163 | at every point of every run a task has been admitted exactly once if it left the pending list, and released exactly once if it is neither pending nor active |
| `ResourceScheduler.PassSaturates` | tools/ci/resource_scheduler.py:128-145 | an admission pass takes the pending tasks in order, each unless it must wait then: its CPU, memory or GPU with those of the active tasks is above the budget, or an active task shares a lock with it; afterwards every task still pending must wait |
| `ResourceScheduler.SaturatedPoolIsBusy` | tools/ci/resource_scheduler.py:147-148 | after validation a saturated pool with work left has an active task, so the no-progress error cannot be raised |
| `ResourceScheduler.Scheduler.AdmitPending` | tools/ci/resource_scheduler.py:128-145 | the in-place pass admits exactly the tasks that need not wait when it comes to them, leaves only tasks that must wait, and keeps the invariant |
| `ResourceScheduler.Scheduler.Release` | tools/ci/resource_scheduler.py:153-163 | takes one completed task out, gives back its resources and locks, stores its own outcome at its own place |
| `ResourceScheduler.RunTasks` | tools/ci/resource_scheduler.py:107-167 | runs exactly if validation passes; outcomes are those of the tasks in declaration order for every completion order; there are at most as many waits as tasks, each right after a pass that leaves only tasks that must wait, for the budget or for a lock of an active task |
| `CpuShares.SharesSpendTheBudget` | tools/ci/verification_scheduler.py:306-320 | requests below the budget are raised to shares that add up to the budget exactly |
| `CpuShares.SharesObeyQuota` | tools/ci/verification_scheduler.py:306-320 | each share is the exact share rounded down or up |
| `CpuShares.WinnersHaveRemainders` | tools/ci/verification_scheduler.py:314-319 | an extra slot goes only to a lane with a nonzero remainder |
| `CpuShares.SharesMonotone` | tools/ci/verification_scheduler.py:301-320 | a strictly larger request never gets fewer slots |
| `CpuShares.SharesCoverRequests` | tools/ci/verification_scheduler.py:301-320 | no lane gets fewer slots than it asks for |
| `CpuShares.SharesAreLargestRemainder` | tools/ci/verification_scheduler.py:306-320 | the sort-and-bump computation is a largest-remainder apportionment as defined without any sorting: a lane with an extra slot has a larger remainder than one without, or an equal one and comes first |
| `CpuShares.LargestRemainderIsUnique` | tools/ci/verification_scheduler.py:306-320 | there is only one such apportionment: ties are fully broken by lane order |
| `VerificationScheduler.ValidateLanes` | tools/ci/verification_scheduler.py:271-298 | groups the commands by lane in order of first use; fails exactly if two lanes share a name or a lane exceeds the budget |
| `VerificationScheduler.CpuAllocations` | tools/ci/verification_scheduler.py:301-320 | the dictionary filled and bumped in a loop holds the share of every lane and nothing else |
| `VerificationScheduler.RunningJobsFitBudget` | tools/ci/verification_scheduler.py:412-449 | in every reachable state the `CARGO_BUILD_JOBS` of the running lanes add up to at most the CPU budget |
| `VerificationScheduler.RunLane` | tools/ci/verification_scheduler.py:323-367 | runs a lane up to the first command that does not exit with 0 within the log limit, each command with the lane's job count |
| `VerificationScheduler.LaneReport` | tools/ci/verification_scheduler.py:323-367 | a lane reports at most one failure, that of the command that stops it: its caption, and its exit code exactly if it exited otherwise than with 0 within the log limit, else the incomplete log or the launch error; it raises exactly if that log cannot be used |
| `VerificationScheduler.LaneSkips` | tools/ci/verification_scheduler.py:358-367 | the skipped commands are exactly those of a lane after one that did not exit with 0 within the log limit |
| `VerificationScheduler.CollectResults` | tools/ci/verification_scheduler.py:450-472 | an exception of the first lane that raised wins; otherwise the failures are exactly those of the stopping commands, in plan order |
| `VerificationScheduler.RunPlan` | tools/ci/verification_scheduler.py:390-472 | accepted exactly for 1 to 32 commands with consistent lanes that fit; the job bound holds throughout; passes exactly if every command exits with 0 within the log limit, else reports each command that did not and is not skipped, or the error of the first lane that raised |
| `VerificationScheduler.ReportIsUnique` | tools/ci/verification_scheduler.py:450-472 | a plan has one such report, so it does not depend on which lane ends when |
| `ProfileReceipts.Merge` | tools/release/python_candidate_profiles.py:308-339 | succeeds exactly if there is one receipt per expected name and no dependency profile twice; then it is the merge in expected order, and else the error says what is wrong |
| `ProfileReceipts.MergeIgnoresOrder` | tools/release/python_candidate_profiles.py:308-339 | receipts in any other order have the same merge and no other |
| `ProfileReceipts.RunAndMerge` | tools/release/python_candidate.py:1096-1126 | fails for a profile exactly if one does not succeed; otherwise the merged receipts of a scheduled run are those of the tasks, whatever order they complete in |
| `HtmlDocument.DocumentParser.Handle` | tools/site/build_rust_reference.py:116-168 | one event changes the stack in place as one step of the token parser does, or reports the same mismatch |
| `HtmlDocument.ParseDocument` | tools/site/build_rust_reference.py:188-195 | the event loop computes the parse of the events' meanings |
| `HtmlDocument.ParseFlatten` | tools/site/build_rust_reference.py:116-204 | parsing the tokens of any well-formed document gives it back |
| `HtmlDocument.FlattenParse` | tools/site/build_rust_reference.py:116-204 | a parsed document has exactly the tokens that were read, and is well-formed: void tags hold nothing |
| `HtmlDocument.ParseAcceptsWellNested` | tools/site/build_rust_reference.py:126-168 | the parser accepts exactly the token sequences that some well-formed document has |
| `HtmlDocument.RenderParse` | tools/site/build_rust_reference.py:188-204 | printing what was parsed gives the source text of the events, character and entity references as they were written and end tags in their one spelling |
| `StartTags.CanonicalStartReads` | tools/site/build_rust_reference.py:311-320 | a reader of start tags, written without the printer, takes a printed start tag back to its tag and its attributes, names and values in order, whatever the values are |
| `LinkProjection.ProjectKeepsHrefs` | tools/site/build_rust_reference.py:342-416 | the rewrite keeps the document-order sequence of active link addresses |
| `LinkProjection.ProjectSummaryLinks` | tools/site/build_rust_reference.py:358-432 | a link is left inside a summary exactly if it was in one that is no toggle's own |
| `LinkProjection.ProjectCounts` | tools/site/build_rust_reference.py:369-448 | the marked spans and link groups in the output are as many as were counted |
| `MovedLinks.SpansCarryHrefs` | tools/site/build_rust_reference.py:323-382 | the marked spans carry, in document order, exactly the addresses of the links in the toggles' own summaries |
| `StartTags.ProjectionReadsAsItself` | tools/site/build_rust_reference.py:311-421 | if a reader that understands printed start tags reads every start tag of the document as the element it starts, it reads those of the projection so, with the spans, captions and groups it made |
| `ToggleRules.AcceptedToggles` | tools/site/build_rust_reference.py:360-416 | a toggle is accepted exactly if it is a signature, a description or a count, in terms of its elements, classes as words, and label; each is rewritten and counted as what it is |
| `ToggleRules.AnchorRules` | tools/site/build_rust_reference.py:323-331 | a link can be moved exactly if it repeats no attribute, has only the four it may have, has an address and holds no other; else the first of these is named |
| `ToggleRules.LabelIsTrimmed` | tools/site/build_rust_reference.py:401 | the label that is looked at is the text without the white space at its ends |
| `ToggleRules.TextIsOfTokens` | tools/site/build_rust_reference.py:401 | the text of an element is that of the text tokens it was read from, in order |
| `DocumentRules.InputRules` | tools/site/build_rust_reference.py:343-354 | the checks before the walk pass exactly if no element repeats an id, class or, on a link, address and none has a marker or a group's class; else the first fault that the walks over the elements find is named |
| `DocumentRules.LinkRules` | tools/site/build_rust_reference.py:323-382 | the links of a summary can be moved exactly if each link that is in no other can |
| `DocumentRules.ProjectRules` | tools/site/build_rust_reference.py:356-416 | the walk succeeds exactly if every toggle is acceptable when it is met, and has then counted all toggles of the document, each once as signature or hidden, and each hidden one once as description or count; else it names what is wrong with the first that is not |
| `ProjectionChecks.ProjectionReadsBack` | tools/site/build_rust_reference.py:419-449 | the printed projection parses again, to the projected tree with inserted text turned into elements and with the same print; its links are the document's, its marked spans carry the addresses of the links moved, and its start tags are read as the elements they start if those of the document are |
| `ProjectionChecks.ProjectScripts` | tools/site/build_rust_reference.py:358-421 | the scripts of a document are the same after projection, or more exactly if a link in a toggle's own summary contains one |
| `ProjectionChecks.OutputChecks` | tools/site/build_rust_reference.py:419-449 | of the checks on the output, those on link order, marker counts and markup can never fail; the one on scripts fails exactly if a moved link contains a script, the one on summaries exactly if none does and a link is inside a summary that no toggle owns; what is accepted prints a tree with the document's links, the moved addresses on its spans, and start tags that read as its elements |
| `ProjectionChecks.LinkInSummarySurvives` | tools/site/build_rust_reference.py:425-432 | a document refused for a link inside a summary |
| `ProjectionChecks.ScriptInLinkIsDoubled` | tools/site/build_rust_reference.py:425-426 | a document refused for its scripts |
| `ImplementationOrder.SortRun` | tools/site/build_rust_reference.py:290-308 | in place: sorts what stands at the places of one kind and writes it back to these places |
| `ImplementationOrder.Canonicalize` | tools/site/build_rust_reference.py:262-308 | leaves the list alone exactly if a check fails, naming what is wrong, and otherwise makes it canonical |
| `ImplementationOrder.CanonicalIsOrdered` | tools/site/build_rust_reference.py:287-308 | the canonical list is a permutation with text and kinds in their old places and both runs ascending |
| `ImplementationOrder.CanonicalFormIsUnique` | tools/site/build_rust_reference.py:252-308 | lists that differ only in the order within a run have one canonical form: compiler order leaves no trace |
| `ImplementationOrder.CanonicalStaysWellFormed` | tools/site/build_rust_reference.py:343-344 | the reordered list is one the parser could have built, so the results on projections apply to it |
| `PublicationOrder.Walk.Visit` | tools/release/rust_publish.py:30-46 | one visit: the package ends up visited with `active` restored, everything newly visited is reached from it and listed after its dependencies, or a true cause is reported; the recursion ends on every graph |
| `PublicationOrder.TopologicalIsAcyclic` | tools/release/rust_publish.py:30-46 | no package of an order depends on itself through others |
| `PublicationOrder.PublicationOrder` | tools/release/rust_publish.py:24-48 | succeeds exactly if everything the facade reaches is present, publishable and on no cycle; then the list has no duplicates, is exactly what the facade reaches, dependencies first |
| `PublishLoop.Release.Publish` | tools/release/rust_publish.py:105-165 | the loop over a mutable registry, with queries that see what is stored, miss it or raise, ends in the state and with the result that the run's definition gives |
| `PublishLoop.ScanFindsConflicts` | tools/release/rust_publish.py:105-132 | the scan fails exactly if a query raises or some version it sees is yanked or has a checksum other than its archive's |
| `PublishLoop.ConflictUploadsNothing` | tools/release/rust_publish.py:122-143 | a yanked version, or one with another checksum, visible at the start ends the run and leaves the registry as it was |
| `PublishLoop.RegistryStaysClosed` | tools/release/rust_publish.py:122-165 | wherever a run stops, and whatever its queries miss, every published package still has all its path dependencies published |
| `PublishLoop.RerunsStayClosed` | tools/release/rust_publish.py:122-165 | the same over any series of failed, limited and repeated runs |
| `PublishLoop.UploadsOnlyAdd` | tools/release/rust_publish.py:142-165 | no run changes or removes a published version |
| `PublishLoop.DoneIsFinal` | tools/release/rust_publish.py:122-165 | after a run that ends well the registry has for every package the record with its archive's checksum, not yanked; no later run changes the registry, and one whose scan sees what is stored ends well without calling cargo |
| `PublishLoop.RerunResumes` | tools/release/rust_publish.py:142-165 | a run cut off between two calls of cargo and run again, with a scan that sees what is stored, comes to what the uninterrupted run comes to, for all that may follow, exactly if the registry holds nothing of what was still to be published; if the first scan saw all that was stored, this is the next version only |
| `PublishLoop.RaisedQueryResumes` | tools/release/rust_publish.py:105-165 | a run ended by a raised query after a call of cargo and run again, with a scan that sees what is stored, comes to what it would have come to had the query seen what is stored, for all that may follow, exactly under a condition on the attempt and the registry; if the first scan saw all that was stored, this is: the version is stored, or cargo failed and named a time to retry |
| `PublishLoop.HiddenUploadDiffers` | tools/release/rust_publish.py:152-158 | a run where it holds an upload the query missed: rerunning succeeds where continuing fails |
| `StudioState.ReduceKeepsConsistent` | studio/src/state.ts:155-309 | every action keeps: the document is the lineage entry at the index, at most 24 entries, each based on the one before, a ready edit matches digest, selection and input |
| `StudioState.EveryRunIsConsistent` | studio/src/state.ts:155-309 | so does every sequence of actions from the initial state |
| `StudioState.PreviewIsAnswered` | studio/src/state.ts:232-258 | after a preview is begun and any actions that leave status, document, selection and input as they are, an answer to it about the shown digest, selected node and input makes the edit ready with exactly the plan it brings, or failed if it brings none; any other answer changes nothing |
| `StudioState.EditBecomesReady` | studio/src/state.ts:155-258 | a run from the initial state that ends ready, for every source, document with a node, input and plan |
| `StudioState.ShownState` | studio/src/state.ts:139-309 | a state that is newly shown: the edit is idle, the input is the selected node's value, the selection is kept if the document has the node and is its first node if not; a compilation starts a new history |
| `StudioState.NothingNewShown` | studio/src/state.ts:155-309 | every other action leaves document, history, index and compiled source as they are, and changes source, selection and input only as it says |
| `StudioState.CommitEnds` | studio/src/state.ts:252-309 | a commit is in flight until its own answer or a newly shown document; undo and redo change nothing meanwhile; a failed answer only ends it |
| `StudioState.ExtendedKeepsLatest` | studio/src/state.ts:276-288 | a commit cuts the history behind the index, adds the revision, and keeps the latest 24 |
| `StudioState.CommitHoldsDocument` | studio/src/state.ts:252-309 | over any actions during which some commit is in flight throughout, document, history and index stay as they are |
| `StudioState.UndoRedoRestores` | studio/src/state.ts:139-154 | any number of undos within the history shows that revision, and as many redos restore document, index and history |
| `PreviewBridge.Bridge.ResetPreviewLineage` | studio/src/bridge.ts:224-228 | clears map and array in place down to one document |
| `PreviewBridge.Bridge.RetainPreviewChild` | studio/src/bridge.ts:230-243 | in place: cuts after the base, adds the child, drops the oldest beyond 32; an unknown base changes nothing |
| `PreviewBridge.Bridge.CommitValueEdit` | studio/src/bridge.ts:334-358 | answers and state change of a commit, for each of its refusals and for success |
| `PreviewBridge.PlanIsOfNode` | studio/src/bridge.ts:254-281 | a plan is made exactly if the first node with the requested name is a parameter with a dimension and a value other than the requested one; it says what is replaced by what |
| `PreviewBridge.EditTakesEffect` | studio/src/bridge.ts:334-358 | the child of a plan has the next revision, and each name finds the node it found before, with the new value at the one that is edited; the same request on it makes no plan |
| `PreviewBridge.WithChildIsSound` | studio/src/bridge.ts:230-243 | map keys are exactly the lineage, without duplicates, afterwards exactly if the child's digest is not among the kept ones |
| `PreviewBridge.EqualDigestBreaksBridge` | studio/src/bridge.ts:230-243 | an instance where it is not: a child with its base's digest |
| `StudioSession.NextIsSane` | studio/src/state.ts:139-309 | a load, commit or local action keeps Studio's digests the tail of the bridge's, with all its documents retained, exactly if it is in step beforehand, despite both caps and branch cuts |
| `StudioSession.SessionIsSane` | studio/src/state.ts:139-309 | the two histories agree after every event of a session exactly if every event is in step when it happens |
| `StudioSession.EveryRevisionStaysEditable` | studio/src/bridge.ts:218-243 | after every session from the start whose events are in step the bridge retains the document of every revision that undo or redo can reach |
| `StudioSession.DroppedLoad` | studio/src/state.ts:165-170 | a load that Studio ignores resets the bridge; the histories still agree exactly if Studio has no revision or that document as its only one |
| `StudioSession.DroppedCommit` | studio/src/state.ts:267-304 | after a fresh commit that Studio ignores they still agree exactly if Studio has no revision or ends in that child, right behind the same base |
| `StudioSession.DroppedCommitLosesRedo` | studio/src/state.ts:267-304 | then the revision redo leads to is lost to the bridge unless it is that child |
| `StudioSession.DistractedSessionLosesRedo` | studio/src/state.ts:225-231 | such a session from the start, with a bridge that answers later: typing after a commit has begun, and the revision redo leads to is lost |
| `Ratchet.RatchetTable` | tools/ci/check_trust_boundary.py:607-660 | one table is accepted exactly by the stated conditions; edits and changes are those of the entries lowered or retired |
| `Ratchet.Splice` | tools/ci/check_trust_boundary.py:662-674 | copies the old bytes around the edits in text order |
| `Ratchet.SplicedIsReplaced` | tools/ci/check_trust_boundary.py:662-674 | splicing sorted edits is replacing all the disjoint ranges at once |
| `Ratchet.ReconstructExactRatchet` | tools/ci/check_trust_boundary.py:607-674 | succeeds exactly if the head is the base with ceilings lowered or sections retired, at least one, each new ceiling in its one decimal form, and no other byte changed; the changes returned are exactly those of the entries, in order |
| `Ratchet.HeadAddsNothing` | tools/ci/check_trust_boundary.py:607-674 | any two entries of an accepted head are entries of the base with the same metadata, no higher, in the same order |
| `Ratchet.RatchetLowersTotal` | tools/ci/check_trust_boundary.py:607-674 | every accepted ratchet lowers the sum of all ceilings |
| `Ratchet.ChainsAreFinite` | tools/ci/check_trust_boundary.py:607-674 | a succession of accepted ratchets is no longer than the first sum |
| `PackageClosure.OwnerIsLongest` | tools/ci/local_verify.py:120-137 | a path belongs to the first of the packages with the longest directory that contains it, and to none if no directory does |
| `PackageClosure.PathKinds` | tools/ci/classify_changes.py:90-107 | prose and documentation in terms of the parts of a path |
| `PackageClosure.ReverseDependencyClosure` | tools/ci/local_verify.py:140-153 | the loop ends with exactly the seeds and the packages that reach a seed |
| `PackageClosure.ClosureIsLeast` | tools/ci/local_verify.py:140-153 | every set with the seeds that is closed under dependents contains the result |
| `PackageClosure.AffectedUnion` | tools/ci/local_verify.py:120-153 | the packages affected by two changes together are those affected by either |
| `PackageClosure.PackageSelectors` | tools/ci/rust_quality.py:24-81 | the early returns give the whole workspace exactly if some rule widens, and else the closure of owners and consumers |
| `PackageClosure.CanonicalPaths` | tools/ci/rust_quality.py:36-46 | a path is canonical exactly if no part is empty or made of dots and no character is a control character or a backslash |
| `PackageClosure.PythonSources` | tools/ci/rust_quality.py:56-58 | which paths are Python sources, by directory and ending |
| `PackageClosure.SelectionCovers` | tools/ci/rust_quality.py:24-81 | a selection of packages is closed under dependents and has the owner of every changed Rust file outside prose, and the bindings' consumers |
| `ChangeClassification.ImpactPlan` | tools/ci/classify_changes.py:231-368 | two passes with early returns give, for each lane, the selection, reason and inputs that a declarative rule over the set of paths gives |
| `ChangeClassification.RulesInCode` | tools/ci/classify_changes.py:110-174 | which paths are in the code of a lane, by the directories and files of each lane |
| `ChangeClassification.RulesAlways` | tools/ci/classify_changes.py:176-195 | which paths select a lane even if they are documentation |
| `ChangeClassification.ProtectedPaths` | tools/ci/classify_changes.py:83 | which paths are protected |
| `ChangeClassification.RecognizedPaths` | tools/ci/classify_changes.py:197-217 | a path is recognized exactly if it is documentation, protected, or selects some lane |
| `ChangeClassification.NormalizedPath` | tools/ci/classify_changes.py:219-228 | a path is taken without a leading dot component and with slashes for backslashes |
| `ChangeClassification.NormalizedNext` | tools/ci/classify_changes.py:219-228 | the paths of a change are those of its parts, empty ones left out |
| `ChangeClassification.SelectionIsMonotone` | tools/ci/classify_changes.py:231-368 | more paths, a mode change or a full run never deselect a lane |
| `ChangeClassification.SelectionOfSeries` | tools/ci/classify_changes.py:281-332 | changes none of which selects a lane select it together exactly if some documentation among them is in the lane's code and some change is more than documentation |
| `ChangeClassification.TwoQuietChangesSelectRust` | tools/ci/classify_changes.py:281-332 | an instance: notes of a crate and a source of Studio |
| `ChangeDecision.ApplyReuse` | tools/ci/classify_changes.py:446-480 | the loop over the lanes takes away exactly those that are selected, attested, and not selected by the plan for what changed since |
| `ChangeDecision.ReusedLaneIsUntouched` | tools/ci/classify_changes.py:446-480 | a lane that any part of what changed since would select by itself keeps its decision |
| `DecisionContents.DecisionSelects` | tools/ci/classify_changes.py:635-760 | a decision selects a lane exactly if the event cannot be classified, or wants the lane and no attested run covers it; when it is full |
| `DecisionContents.DecisionSite` | tools/ci/classify_changes.py:635-760 | the commit the site is built from: the target, the base of a pull request that leaves the site alone, or the attested run's |
| `DecisionContents.DecisionSiteReason` | tools/ci/classify_changes.py:664-749 | the site's reason: a failed classification, a full run, a changed mode, an unrecognized path, or else that of its lane |
| `DecisionContents.DecisionAssets` | tools/ci/classify_changes.py:65-88 | when the notebook assets are needed |
| `DecisionContents.PrintedDecision` | tools/ci/classify_changes.py:517-572 | what is read from a printed decision is the list of its nineteen fields under their keys |
| `DecisionContents.KeysAreListed` | tools/ci/classify_changes.py:517-572 | the keys of the fields, in order, are those the validation asks for |
| `DecisionContents.ReuseReasonText` | tools/ci/classify_changes.py:467-472 | the reason of a reused lane names run, commit, lane and address |
| `DecisionContents.AcceptedRecords` | tools/ci/classify_changes.py:557-625 | the validation accepts exactly the nineteen keys in order with fields that fit each other |
| `ChangeDecision.DecisionReadsBack` | tools/ci/classify_changes.py:517-625 | every reachable decision prints to text that reads back to the same records, and is accepted unless it is full without Python |
| `ChangeDecision.RefusedDecision` | tools/ci/classify_changes.py:657-770 | the validation refuses exactly on the main site run, with an attested run that covers Python but not the site |
| `ChangeDecision.PythonAttestationIsRefused` | tools/ci/classify_changes.py:699-727 | an instance of such a refusal |
| `ChangeDecision.SiteAttestationIsAccepted` | tools/ci/authenticate_previous_run.py:288-298 | with an attestation for the site alone every decision of a main run is accepted |
| `DecisionRecords.PrintedReadsBack` | tools/ci/classify_changes.py:517-572 | splitting printed records into lines and at the first equals sign gives the records |
| `DecisionRecords.SplitsAtBreaks` | tools/ci/classify_changes.py:570 | a line ends at any one break, and at a carriage return with the line feed behind it |
| `SiteAssembly.Manifest` | tools/site/assemble_site.py:83-108 | accepted exactly if all folded destinations are distinct and none is a directory on the way to another |
| `SiteAssembly.CopyAll` | tools/site/assemble_site.py:175-181 | the exclusive-create loop completes exactly if that holds as the file system sees the paths; then there is one file per entry, the directories to them, and nothing else |
| `SiteAssembly.Assemble` | tools/site/assemble_site.py:75-181 | once the manifest is accepted no copy can fail, on a case-sensitive and on a folding file system, in the sorted order or any other |
| `CssUrls.CssUrlValues` | tools/site/check_site_references.py:76-127 | up to its stop, every call of `url(` lies in a reported reference; references are calls, in order, and the stop is the end, the first unterminated call, or one reference too many |
| `CssUrls.ScanIsUnique` | tools/site/check_site_references.py:76-127 | those conditions determine what is reported |
| `CssUrls.ContinuedLine` | tools/site/check_site_references.py:76-127 | in a quoted value a backslash before a line break, of one or two characters, goes with it; any other stays |
| `CssUrls.PrintedReadsBack` | tools/site/check_site_references.py:76-127 | scanning printed quoted values, whatever harmless text is between them, gives the values |
| `SourceSpan.Utf8ByteOffsetToUtf16Index` | studio/src/source-span.ts:16-31 | the loop over scalars computes the recursive conversion |
| `SourceSpan.IndexIsLongestPrefix` | studio/src/source-span.ts:16-31 | the boundaries up to the result are exactly those within the byte offset |
| `SourceSpan.BoundarySplitsNoPair` | studio/src/source-span.ts:8-14 | the scalar boundaries are exactly the places that separate no surrogate pair |
| `SourceSpan.ScalarIsWritten` | studio/src/source-span.ts:8-31 | the first scalar's code point in UTF-16 is its units and in UTF-8 as many bytes as its width |
| `SourceSpan.PairIsRead` | studio/src/source-span.ts:8-31 | a pair of surrogates is read as the code point it was written for |
| `SourceSpan.BoundaryOffsetIsExact` | studio/src/source-span.ts:16-31 | the byte offset of a boundary converts to that boundary |
| `SourceSpan.SourceSelection` | studio/src/source-span.ts:33-37 | a selection starts at the converted offset and lies in the text, in order, between scalars; only a reversed span becomes empty |
| `SourceSpan.LocationsAreInOrder` | studio/src/source-span.ts:39-46 | a later boundary is shown with a later line and column |
| `SourceSpan.LocationNext` | studio/src/source-span.ts:39-46 | a text starts at line 1, column 1; a line feed leads to the next line, any other scalar to the next column |

## Left out

- Threads of the scheduler: a task is a fixed value or error, and a completion is any step of the run; lock names, kept sorted and unique by the program, are a set.
- CpuAllocations: asks for lanes with distinct names, which its caller has established when it groups the commands.
- RunLane: the exit of each command and the size of its log are inputs; log text, the bounded raw log (`tools/ci/verification_scheduler.py:204-250`), environments, scratch directories, the two-slot claim (`tools/ci/verification_scheduler.py:161-194`) and clean-up are not modelled.
- RunAndMerge: the priority table that orders the profile tasks is an input, since the merge does not depend on it; replayed logs and the payload identity check are not modelled.
- DocumentParser: an open element is held in its frame and attached to its parent when it closes, so that sharing of an element between stack and tree is not captured; the tokenizer is not modelled, and printed text is taken to tokenize to the tokens it was printed from.
- ProjectionReadsAsItself: how the start tags of the document itself are read is a parameter, of which only the reading of printed start tags is known.
- Project: the tree is rewritten as a value, not in place; markup inserted as text is a list item of its own kind until it is read back.
- OutputChecks: the two conditions on scripts and summaries are for documents whose scripts hold only text, as an HTML tokenizer gives them.
- Canonicalize: is about one implementation list; the search for the three lists of a document and the check that their ids differ are not modelled, nor is the order of lists inside lists.
- Publish: versions are fixed, so a registry is a map by package name; a retry time that does not parse ends the run as a missing one does, and waiting for the rate limit takes no time.
- Reduce: layouts, diagnostics, the palette and display fields of Studio's state are not modelled; number formatting is a parameter.
- EveryRevisionStaysEditable: is about sessions whose events are in step; SessionIsSane shows that no other keeps the histories in agreement. Fingerprints are a parameter.
- ReconstructExactRatchet: the sections, tokens and entries that the TOML reader and the regular expressions find are inputs with their properties as preconditions; the head's own sections are not derived again. The coupled certification (`tools/ci/check_trust_boundary.py:697-806`) and the tree listing (`tools/ci/check_trust_boundary.py:423-476`) are not modelled.
- PackageSelectors: the selectors are a set of names, not an argument list.
- ImpactPlan: changed paths are in the form git reports, without empty or dot components, and the inputs of a lane are a set rather than a sorted tuple.
- DecisionReadsBack: commits and one-line texts are types of their own, as their checks on entry make them.
- Validate: takes the Python versions to be the compact text that is printed, rather than any JSON text with that value; the path of the output file is not checked.
- Decide: resolving commits, reading the diff and reading the attestation file are inputs, each with a failing case.
- Manifest: normalization and case folding of a path part are a parameter; folding part by part is folding the whole path, since a slash is neither folded nor composed.
- CopyAll: file contents are their sources; the digest check, modes and the final rename are not modelled.
- SourceSpan: offsets are integers; the label's text is not modelled, only its line and column.
- The CSS data-URL and SVG checks, site content and route checks, facade manifests, hashing, zip and tar handling, and user interface code: long lists of tests without a property that spans them.
