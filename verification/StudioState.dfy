/**
 The Studio reducer: the document being shown, its bounded revision lineage with undo and
 redo, and the life of one value edit from preview to commit.

 Layouts, diagnostics and the command palette do not touch any of this and are not modelled;
 neither are the parts of a document that only display it.
 */
module StudioState {
  import opened Wrappers

  datatype Node = Node(id: string, kind: string, dimension: Option<string>, value: Option<real>)

  datatype Document = Document(digest: string, revision: nat, nodes: seq<Node>)

  datatype Plan = Plan(
    key: string, baseDigest: string, baseRevision: nat, targetId: string,
    before: real, after: real, dimension: string, transactionDigest: string)

  datatype Evidence = Evidence(plan: Plan, resultDigest: string, resultRevision: nat)

  datatype EditResult = EditResult(document: Document, evidence: Evidence)

  datatype CompileStatus = CompileIdle | CompileReady | CompileFailed | Compiling(requestId: int)

  datatype EditStatus =
    | Idle
    | EditFailed
    | Previewing(requestId: int)
    | Ready(plan: Plan, input: string, digest: string, targetId: string)
    | Committing(requestId: int, plan: Plan)

  datatype Revision = Revision(document: Document, evidence: Option<Evidence>)

  const MAX_REVISION_LINEAGE := 24

  datatype State = State(
    source: string,
    compiledSource: Option<string>,
    sourceDigest: Option<string>,
    document: Option<Document>,
    compileStatus: CompileStatus,
    selected: Option<string>,
    editInput: string,
    editStatus: EditStatus,
    lineage: seq<Revision>,
    index: int)

  datatype Action =
    | SourceEdited(source: string)
    | CompileStarted(requestId: int)
    | CompileFinished(requestId: int, compiledSource: string, document: Option<Document>)
    | NodeSelected(nodeId: Option<string>)
    | InputEdited(value: string)
    | PreviewStarted(requestId: int)
    | PreviewFinished(requestId: int, digest: string, targetId: string, input: string, preview: Option<Plan>)
    | CommitStarted(requestId: int, plan: Plan)
    | CommitFinished(requestId: int, result: Option<EditResult>)
    | Undo
    | Redo
    | LayoutOrPalette

  /** How a number is shown in the input field. */
  type Format = real -> string

  function InitialState(source: string): State
  {
    State(source, None, None, None, CompileIdle, None, "", Idle, [], -1)
  }

  // ---------------------------------------------------------------- the reducer

  function FindNode(nodes: seq<Node>, id: Option<string>): (found: Option<Node>)
    ensures found.Some? ==> found.value in nodes && Some(found.value.id) == id
    ensures found.None? ==> forall i :: 0 <= i < |nodes| ==> Some(nodes[i].id) != id
  {
    if nodes == [] then None
    else if Some(nodes[0].id) == id then Some(nodes[0])
    else FindNode(nodes[1..], id)
  }

  function NodeInput(show: Format, document: Document, id: Option<string>): string
  {
    var node := FindNode(document.nodes, id);
    if node.None? || node.value.value.None? then "" else show(node.value.value.value)
  }

  function FirstNode(document: Document): Option<string>
  {
    if document.nodes == [] then None else Some(document.nodes[0].id)
  }

  /** The selection is kept if the document still has the node. */
  function KeptSelection(document: Document, selected: Option<string>): Option<string>
  {
    if FindNode(document.nodes, selected).Some? then selected else FirstNode(document)
  }

  function MoveToRevision(show: Format, s: State, index: int): State
  {
    if !(0 <= index < |s.lineage|) || s.editStatus.Committing? then s
    else
      var document := s.lineage[index].document;
      var selected := KeptSelection(document, s.selected);
      s.(document := Some(document), index := index, selected := selected,
         editInput := NodeInput(show, document, selected), editStatus := Idle)
  }

  /** The lineage after a commit: later revisions are dropped, then the oldest beyond the limit. */
  function Extended(lineage: seq<Revision>, index: int, revision: Revision): seq<Revision>
    requires -1 <= index < |lineage|
  {
    var longer := lineage[..index + 1] + [revision];
    if |longer| > MAX_REVISION_LINEAGE then longer[|longer| - MAX_REVISION_LINEAGE..] else longer
  }

  function Reduce(show: Format, s: State, action: Action): State
    requires -1 <= s.index < |s.lineage|
  {
    match action
    case SourceEdited(source) => s.(source := source)
    case CompileStarted(requestId) => s.(compileStatus := Compiling(requestId))
    case CompileFinished(requestId, compiledSource, document) =>
      if s.compileStatus != Compiling(requestId) then s
      else if document.None? then s.(compileStatus := CompileFailed)
      else
        var selected := FirstNode(document.value);
        s.(compiledSource := Some(compiledSource), sourceDigest := Some(document.value.digest),
           document := document, compileStatus := CompileReady, selected := selected,
           editInput := NodeInput(show, document.value, selected), editStatus := Idle,
           lineage := [Revision(document.value, None)], index := 0)
    case NodeSelected(nodeId) =>
      s.(selected := nodeId,
         editInput := if s.document.None? then "" else NodeInput(show, s.document.value, nodeId),
         editStatus := Idle)
    case InputEdited(value) => s.(editInput := value, editStatus := Idle)
    case PreviewStarted(requestId) => s.(editStatus := Previewing(requestId))
    case PreviewFinished(requestId, digest, targetId, input, preview) =>
      if || s.editStatus != Previewing(requestId)
         || s.document.None? || s.document.value.digest != digest
         || s.selected != Some(targetId)
         || s.editInput != input then s
      else s.(editStatus := if preview.None? then EditFailed else Ready(preview.value, input, digest, targetId))
    case CommitStarted(requestId, plan) => s.(editStatus := Committing(requestId, plan))
    case CommitFinished(requestId, result) =>
      if !s.editStatus.Committing? || s.editStatus.requestId != requestId then s
      else if result.None? then s.(editStatus := EditFailed)
      else if s.document.None? || s.document.value.digest != result.value.evidence.plan.baseDigest then s
      else
        var document := result.value.document;
        var lineage := Extended(s.lineage, s.index, Revision(document, Some(result.value.evidence)));
        var selected := KeptSelection(document, s.selected);
        s.(document := Some(document), selected := selected,
           editInput := NodeInput(show, document, selected), editStatus := Idle,
           lineage := lineage, index := |lineage| - 1)
    case Undo => MoveToRevision(show, s, s.index - 1)
    case Redo => MoveToRevision(show, s, s.index + 1)
    case LayoutOrPalette => s
  }

  // ---------------------------------------------------------------- what every action keeps

  /** Each revision after the first was edited from the one before it. */
  ghost predicate Chained(lineage: seq<Revision>)
  {
    forall k :: 1 <= k < |lineage| ==> DerivedFrom(lineage[k], lineage[k - 1])
  }

  ghost predicate DerivedFrom(revision: Revision, base: Revision)
  {
    revision.evidence.Some? && revision.evidence.value.plan.baseDigest == base.document.digest
  }

  ghost predicate Consistent(s: State)
  {
    && |s.lineage| <= MAX_REVISION_LINEAGE
    && (if s.lineage == [] then s.document == None && s.index == -1
        else 0 <= s.index < |s.lineage| && s.document == Some(s.lineage[s.index].document))
    && Chained(s.lineage)
    && (s.editStatus.Ready? ==>
          && s.document.Some? && s.document.value.digest == s.editStatus.digest
          && s.selected == Some(s.editStatus.targetId)
          && s.editInput == s.editStatus.input)
  }

  lemma {:induction false} InitiallyConsistent(source: string)
    ensures Consistent(InitialState(source))
  {
  }

  lemma {:induction false} ExtendedChains(lineage: seq<Revision>, index: int, revision: Revision)
    requires 0 <= index < |lineage| && Chained(lineage) && DerivedFrom(revision, lineage[index])
    ensures var longer := Extended(lineage, index, revision);
            Chained(longer) && 1 <= |longer| <= MAX_REVISION_LINEAGE && longer[|longer| - 1] == revision
  {
    var longer := lineage[..index + 1] + [revision];
    assert Chained(longer) by {
      forall k | 1 <= k < |longer|
        ensures DerivedFrom(longer[k], longer[k - 1])
      {
        assert k <= index ==> DerivedFrom(lineage[k], lineage[k - 1]);
      }
    }
    var cut := if |longer| > MAX_REVISION_LINEAGE then |longer| - MAX_REVISION_LINEAGE else 0;
    forall k | 1 <= k < |longer[cut..]|
      ensures DerivedFrom(longer[cut..][k], longer[cut..][k - 1])
    {
      assert DerivedFrom(longer[cut + k], longer[cut + k - 1]);
    }
    assert Extended(lineage, index, revision) == longer[cut..];
  }

  lemma {:induction false} ReduceKeepsConsistent(show: Format, s: State, action: Action)
    requires Consistent(s)
    ensures Consistent(Reduce(show, s, action))
  {
    if action.CommitFinished? && action.result.Some? && s.lineage != [] {
      var revision := Revision(action.result.value.document, Some(action.result.value.evidence));
      if DerivedFrom(revision, s.lineage[s.index]) {
        ExtendedChains(s.lineage, s.index, revision);
      }
    }
  }

  ghost function ReduceAll(show: Format, s: State, actions: seq<Action>): (r: State)
    requires Consistent(s)
    ensures Consistent(r)
  {
    if actions == [] then s
    else
      var before := ReduceAll(show, s, actions[..|actions| - 1]);
      ReduceKeepsConsistent(show, before, actions[|actions| - 1]);
      Reduce(show, before, actions[|actions| - 1])
  }

  /** Whatever is dispatched from the start on, the state stays consistent. */
  lemma {:induction false} EveryRunIsConsistent(show: Format, source: string, actions: seq<Action>)
    ensures Consistent(InitialState(source)) && Consistent(ReduceAll(show, InitialState(source), actions))
  {
    InitiallyConsistent(source);
  }

  lemma {:induction false} CommitStep(show: Format, s: State, action: Action)
    requires Consistent(s) && s.editStatus.Committing? && Reduce(show, s, action).editStatus.Committing?
    ensures var r := Reduce(show, s, action);
            r.document == s.document && r.lineage == s.lineage && r.index == s.index
  {
  }

  /** While commits are in flight without a break, the document and its history stay as they are. */
  lemma {:induction false} CommitHoldsDocument(show: Format, s: State, actions: seq<Action>)
    requires Consistent(s)
    requires forall k :: 0 <= k <= |actions| ==> ReduceAll(show, s, actions[..k]).editStatus.Committing?
    ensures var r := ReduceAll(show, s, actions);
            r.document == s.document && r.lineage == s.lineage && r.index == s.index
  {
    hide Reduce, Consistent;
    if actions == [] {
      assert ReduceAll(show, s, actions) == s;
    } else {
      var init := actions[..|actions| - 1];
      assert actions[..|actions|] == actions;
      forall k | 0 <= k <= |init|
        ensures ReduceAll(show, s, init[..k]).editStatus.Committing?
      {
        assert init[..k] == actions[..k];
      }
      CommitHoldsDocument(show, s, init);
      assert init[..|init|] == init == actions[..|init|];
      CommitStep(show, ReduceAll(show, s, init), actions[|init|]);
    }
  }

  /** The revisions up to the one shown and the new one, or the latest 24 of these. */
  lemma {:induction false} ExtendedKeepsLatest(lineage: seq<Revision>, index: int, revision: Revision)
    requires -1 <= index < |lineage|
    ensures var longer := lineage[..index + 1] + [revision];
            Extended(lineage, index, revision) == if index + 2 <= 24 then longer else longer[index + 2 - 24..]
  {
    var longer := lineage[..index + 1] + [revision];
    assert longer[0..] == longer;
  }

  // ---------------------------------------------------------------- what is shown

  /** Node `i` is the first of a document with the selected id. */
  ghost predicate IsSelectedNode(document: Document, selected: Option<string>, i: nat)
  {
    && i < |document.nodes| && selected == Some(document.nodes[i].id)
    && forall j :: 0 <= j < i ==> selected != Some(document.nodes[j].id)
  }

  /** The input field has the value of the selected node, as it is shown, or is empty if there is none. */
  ghost predicate InputShows(show: Format, s: State)
  {
    && (s.document.Some? ==>
          forall i: nat :: IsSelectedNode(s.document.value, s.selected, i) ==>
                        s.editInput == match s.document.value.nodes[i].value
                                       case Some(value) => show(value)
                                       case None => "")
    && ((s.document.None? || forall i: nat :: !IsSelectedNode(s.document.value, s.selected, i)) ==> s.editInput == "")
  }

  /** The selection is kept if the document has the node, and else is its first node. */
  ghost predicate SelectionKept(document: Document, before: Option<string>, after: Option<string>)
  {
    if exists i: nat :: IsSelectedNode(document, before, i) then after == before
    else if document.nodes == [] then after == None
    else after == Some(document.nodes[0].id)
  }

  lemma {:induction false} FindsSelected(nodes: seq<Node>, document: Document, selected: Option<string>, k: nat)
    requires k <= |document.nodes| && nodes == document.nodes[k..]
    requires forall j :: 0 <= j < k ==> selected != Some(document.nodes[j].id)
    ensures if exists i: nat :: IsSelectedNode(document, selected, i) then
              exists i: nat :: IsSelectedNode(document, selected, i)
                               && FindNode(nodes, selected) == Some(document.nodes[i])
            else FindNode(nodes, selected) == None
  {
    if nodes == [] {
    } else if selected == Some(nodes[0].id) {
      assert IsSelectedNode(document, selected, k);
    } else {
      FindsSelected(nodes[1..], document, selected, k + 1);
    }
  }

  lemma {:induction false} ShowsDocument(show: Format, s: State, document: Document, selected: Option<string>)
    requires s.document == Some(document)
    ensures s.editInput == NodeInput(show, document, s.selected) ==> InputShows(show, s)
    ensures SelectionKept(document, selected, KeptSelection(document, selected))
  {
    assert document.nodes[0..] == document.nodes;
    FindsSelected(document.nodes, document, s.selected, 0);
    FindsSelected(document.nodes, document, selected, 0);
  }

  /** The action shows another document, or the same one anew. */
  predicate Shows(s: State, action: Action)
  {
    match action
    case CompileFinished(requestId, _, document) => s.compileStatus == Compiling(requestId) && document.Some?
    case CommitFinished(requestId, result) =>
      && s.editStatus.Committing? && s.editStatus.requestId == requestId && result.Some?
      && s.document.Some? && s.document.value.digest == result.value.evidence.plan.baseDigest
    case Undo => s.index > 0 && !s.editStatus.Committing?
    case Redo => s.index + 1 < |s.lineage| && !s.editStatus.Committing?
    case _ => false
  }

  /**
   What a shown document does to the selection and the input: the first node of a compiled one is
   selected, another document keeps the selection, and the input has the selected node's value.
   */
  lemma {:induction false} ShownState(show: Format, s: State, action: Action)
    requires Consistent(s) && Shows(s, action)
    ensures var r := Reduce(show, s, action);
            && r.document.Some? && r.editStatus == Idle && InputShows(show, r)
            && if action.CompileFinished? then
                 && r.document == action.document && r.compiledSource == Some(action.compiledSource)
                 && r.sourceDigest == Some(action.document.value.digest)
                 && r.lineage == [Revision(action.document.value, None)] && r.index == 0
                 && SelectionKept(r.document.value, None, r.selected)
               else SelectionKept(r.document.value, s.selected, r.selected)
  {
    var r := Reduce(show, s, action);
    ShowsDocument(show, r, r.document.value, s.selected);
    hide Chained, Extended, InputShows, SelectionKept, KeptSelection;
    NoSelection(r);
  }

  /** Any other action leaves the document and its history; but for typing, the input has the selected value. */
  lemma {:induction false} NothingNewShown(show: Format, s: State, action: Action)
    requires Consistent(s) && !Shows(s, action)
    ensures var r := Reduce(show, s, action);
            && r.document == s.document && r.lineage == s.lineage && r.index == s.index
            && r.compiledSource == s.compiledSource && r.sourceDigest == s.sourceDigest
            && r.source == (if action.SourceEdited? then action.source else s.source)
            && match action
               case NodeSelected(nodeId) => r.selected == nodeId && InputShows(show, r)
               case InputEdited(value) => r.selected == s.selected && r.editInput == value
               case _ => r.selected == s.selected && r.editInput == s.editInput
  {
    var r := Reduce(show, s, action);
    if action.NodeSelected? {
      if s.document.Some? {
        ShowsDocument(show, r, s.document.value, s.selected);
      } else {
        EmptyInputShows(show, r);
      }
    }
    hide Chained, Extended, InputShows, KeptSelection;
  }

  lemma {:induction false} EmptyInputShows(show: Format, s: State)
    ensures s.document.None? && s.editInput == "" ==> InputShows(show, s)
  {
  }

  lemma {:induction false} NoSelection(s: State)
    ensures s.document.Some? && s.selected == FirstNode(s.document.value) ==>
              SelectionKept(s.document.value, None, s.selected)
  {
  }

  // ---------------------------------------------------------------- how a commit ends

  /** What ends a commit: its answer, unless that has another base, and what else changes the edit. */
  predicate EndsCommit(s: State, action: Action)
    requires s.editStatus.Committing?
  {
    match action
    case CompileFinished(requestId, _, document) => s.compileStatus == Compiling(requestId) && document.Some?
    case NodeSelected(_) => true
    case InputEdited(_) => true
    case PreviewStarted(_) => true
    case CommitFinished(requestId, result) =>
      && requestId == s.editStatus.requestId
      && (result.None? || (s.document.Some? && s.document.value.digest == result.value.evidence.plan.baseDigest))
    case _ => false
  }

  /** Nothing else ends it: undo and redo, for two, wait for the commit. */
  lemma {:induction false} CommitEnds(show: Format, s: State, action: Action)
    requires Consistent(s) && s.editStatus.Committing?
    ensures var r := Reduce(show, s, action);
            && (r.editStatus.Committing? <==> !EndsCommit(s, action))
            && (action.Undo? || action.Redo? ==> r == s)
            && (action.CommitFinished? && EndsCommit(s, action) ==>
                  if action.result.None? then r == s.(editStatus := EditFailed)
                  else r.editStatus == Idle && r.document == Some(action.result.value.document))
  {
  }

  // ---------------------------------------------------------------- from preview to ready

  /** Whether an answer is about the request, document, node and input that a waiting preview was asked for. */
  predicate Answers(s: State, id: int, action: Action)
  {
    && action.PreviewFinished? && action.requestId == id
    && s.document.Some? && action.digest == s.document.value.digest
    && s.selected == Some(action.targetId)
    && s.editInput == action.input
  }

  /** What ends the wait for a preview: another document, selection, input or request, a commit, or an answer. */
  predicate EndsWait(s: State, id: int, action: Action)
  {
    match action
    case CompileFinished(requestId, _, document) => s.compileStatus == Compiling(requestId) && document.Some?
    case NodeSelected(_) => true
    case InputEdited(_) => true
    case PreviewStarted(requestId) => requestId != id
    case PreviewFinished(_, _, _, _, _) => Answers(s, id, action)
    case CommitStarted(_, _) => true
    case Undo => s.index > 0
    case Redo => s.index + 1 < |s.lineage|
    case _ => false
  }

  /** Nothing else ends it, and while it lasts the document, the selection and the input stay. */
  lemma {:induction false} WaitStep(show: Format, s: State, id: int, action: Action)
    requires Consistent(s) && s.editStatus == Previewing(id)
    ensures var r := Reduce(show, s, action);
            && (r.editStatus == Previewing(id) <==> !EndsWait(s, id, action))
            && (!EndsWait(s, id, action) ==>
                  r.document == s.document && r.selected == s.selected && r.editInput == s.editInput)
  {
  }

  /** The wait for the preview lasts through the actions. */
  ghost predicate Waits(show: Format, s: State, id: int, actions: seq<Action>)
    requires Consistent(s)
  {
    forall k :: 0 <= k < |actions| ==> !EndsWait(ReduceAll(show, s, actions[..k]), id, actions[k])
  }

  lemma {:induction false} WaitLasts(show: Format, s: State, id: int, actions: seq<Action>)
    requires Consistent(s) && s.editStatus == Previewing(id) && Waits(show, s, id, actions)
    ensures var r := ReduceAll(show, s, actions);
            && r.editStatus == Previewing(id)
            && r.document == s.document && r.selected == s.selected && r.editInput == s.editInput
  {
    hide Reduce, Consistent, EndsWait;
    if actions == [] {
    } else {
      var init := actions[..|actions| - 1];
      forall k | 0 <= k < |init|
        ensures !EndsWait(ReduceAll(show, s, init[..k]), id, init[k])
      {
        assert init[..k] == actions[..k];
      }
      WaitLasts(show, s, id, init);
      WaitStep(show, ReduceAll(show, s, init), id, actions[|init|]);
    }
  }

  lemma {:induction false} ReduceAllNext(show: Format, s: State, actions: seq<Action>, action: Action)
    requires Consistent(s)
    ensures ReduceAll(show, s, actions + [action]) == Reduce(show, ReduceAll(show, s, actions), action)
  {
    hide Reduce, Consistent;
    assert (actions + [action])[..|actions|] == actions;
  }

  /**
   The answer to a preview: whatever is done while it is waited for, the edit becomes ready with
   exactly the plan an answer brings, or fails exactly if it brings none, if it is about the
   request, document, node and input the preview was asked for. Any other answer changes nothing.
   */
  lemma {:induction false} PreviewIsAnswered(
    show: Format, s: State, id: int, actions: seq<Action>, requestId: int, digest: string, targetId: string,
    input: string, preview: Option<Plan>)
    requires Consistent(s)
    ensures Consistent(Reduce(show, s, PreviewStarted(id)))
    ensures var started := Reduce(show, s, PreviewStarted(id));
            Waits(show, started, id, actions) ==>
              var waiting := ReduceAll(show, started, actions);
              var answer := PreviewFinished(requestId, digest, targetId, input, preview);
              ReduceAll(show, started, actions + [answer])
              == if && requestId == id && s.document.Some? && digest == s.document.value.digest
                    && s.selected == Some(targetId) && s.editInput == input
                 then waiting.(editStatus := match preview
                                             case Some(plan) => Ready(plan, input, digest, targetId)
                                             case None => EditFailed)
                 else waiting
  {
    ReduceKeepsConsistent(show, s, PreviewStarted(id));
    var started := Reduce(show, s, PreviewStarted(id));
    if Waits(show, started, id, actions) {
      WaitLasts(show, started, id, actions);
      ReduceAllNext(show, started, actions, PreviewFinished(requestId, digest, targetId, input, preview));
      hide ReduceAll, Waits, Consistent;
    }
  }

  /** A value edit from the start: load, select, type, preview, and its answer. */
  ghost function EditSession(source: string, document: Document, targetId: string, input: string, plan: Plan)
    : seq<Action>
  {
    [CompileStarted(1), CompileFinished(1, source, Some(document)), NodeSelected(Some(targetId)), InputEdited(input),
     PreviewStarted(2), PreviewFinished(2, document.digest, targetId, input, Some(plan))]
  }

  /** It ends ready, with the plan that the answer brought. */
  lemma {:induction false} EditBecomesReady(
    show: Format, source: string, document: Document, targetId: string, input: string, plan: Plan)
    ensures Consistent(InitialState(source))
    ensures var r := ReduceAll(show, InitialState(source), EditSession(source, document, targetId, input, plan));
            && r.editStatus == Ready(plan, input, document.digest, targetId)
            && r.document == Some(document) && r.selected == Some(targetId) && r.editInput == input
  {
    InitiallyConsistent(source);
    var a := EditSession(source, document, targetId, input, plan);
    var s := InitialState(source);
    assert a[..0] == [] && a[..1][..0] == a[..0] && a[..2][..1] == a[..1] && a[..3][..2] == a[..2];
    assert a[..4][..3] == a[..3] && a[..5][..4] == a[..4] && a[..5] == a[..|a| - 1];
    assert ReduceAll(show, s, a[..0]) == s;
    hide Consistent;
    assert ReduceAll(show, s, a[..1]) == Reduce(show, s, a[0]);
    assert ReduceAll(show, s, a[..2]) == Reduce(show, ReduceAll(show, s, a[..1]), a[1]);
    assert ReduceAll(show, s, a[..3]) == Reduce(show, ReduceAll(show, s, a[..2]), a[2]);
    assert ReduceAll(show, s, a[..4]) == Reduce(show, ReduceAll(show, s, a[..3]), a[3]);
    assert ReduceAll(show, s, a[..5]) == Reduce(show, ReduceAll(show, s, a[..4]), a[4]);
  }

  // ---------------------------------------------------------------- undo and redo

  ghost function Times(n: nat, action: Action): seq<Action>
  {
    seq(n, _ => action)
  }

  /** The state shows the revision at an index of an unchanged history, with no commit in flight. */
  ghost predicate ShowsRevision(s: State, lineage: seq<Revision>, index: int)
  {
    && s.lineage == lineage && s.index == index && 0 <= index < |lineage|
    && s.document == Some(lineage[index].document) && !s.editStatus.Committing?
  }

  lemma {:induction false} ShownNow(s: State)
    requires Consistent(s) && !s.editStatus.Committing? && 0 <= s.index
    ensures ShowsRevision(s, s.lineage, s.index)
  {
  }

  lemma {:induction false} SameShown(s: State, r: State, lineage: seq<Revision>, index: int)
    requires ShowsRevision(s, lineage, index) && ShowsRevision(r, lineage, index)
    ensures s.document == r.document && s.index == r.index == index && s.lineage == r.lineage == lineage
    ensures 0 <= index < |lineage|
  {
  }

  lemma {:induction false} MoveShowsRevision(show: Format, s: State)
    requires Consistent(s) && ShowsRevision(s, s.lineage, s.index)
    ensures s.index > 0 ==> ShowsRevision(Reduce(show, s, Undo), s.lineage, s.index - 1)
    ensures s.index + 1 < |s.lineage| ==> ShowsRevision(Reduce(show, s, Redo), s.lineage, s.index + 1)
  {
  }

  lemma {:induction false} TimesNext(n: nat, action: Action)
    requires n > 0
    ensures Times(n, action)[..n - 1] == Times(n - 1, action) && Times(n, action)[n - 1] == action
  {
  }

  lemma {:induction false} UndosShowRevision(show: Format, s: State, n: nat)
    requires Consistent(s) && ShowsRevision(s, s.lineage, s.index) && n <= s.index
    ensures ShowsRevision(ReduceAll(show, s, Times(n, Undo)), s.lineage, s.index - n)
  {
    hide Reduce, Consistent;
    if n == 0 {
      assert Times(n, Undo) == [];
    } else {
      UndosShowRevision(show, s, n - 1);
      TimesNext(n, Undo);
      MoveShowsRevision(show, ReduceAll(show, s, Times(n - 1, Undo)));
    }
  }

  lemma {:induction false} RedosShowRevision(show: Format, s: State, n: nat)
    requires Consistent(s) && ShowsRevision(s, s.lineage, s.index) && s.index + n < |s.lineage|
    ensures ShowsRevision(ReduceAll(show, s, Times(n, Redo)), s.lineage, s.index + n)
  {
    hide Reduce, Consistent;
    if n == 0 {
      assert Times(n, Redo) == [];
    } else {
      RedosShowRevision(show, s, n - 1);
      TimesNext(n, Redo);
      MoveShowsRevision(show, ReduceAll(show, s, Times(n - 1, Redo)));
    }
  }

  lemma {:induction false} ReduceAllInTurn(show: Format, s: State, a: seq<Action>, b: seq<Action>)
    requires Consistent(s)
    ensures ReduceAll(show, s, a + b) == ReduceAll(show, ReduceAll(show, s, a), b)
  {
    hide Reduce, Consistent;
    if b == [] {
      assert a + b == a;
    } else {
      ReduceAllInTurn(show, s, a, b[..|b| - 1]);
      assert (a + b)[..|a + b| - 1] == a + b[..|b| - 1];
    }
  }

  /**
   Any number of undos, up to the start of the history, shows that earlier revision, and as many
   redos lead back to the same document at the same place in an unchanged history.
   */
  lemma {:induction false} UndoRedoRestores(show: Format, s: State, n: nat)
    requires Consistent(s) && !s.editStatus.Committing? && n <= s.index
    ensures ShowsRevision(ReduceAll(show, s, Times(n, Undo)), s.lineage, s.index - n)
    ensures var restored := ReduceAll(show, s, Times(n, Undo) + Times(n, Redo));
            restored.document == s.document && restored.index == s.index && restored.lineage == s.lineage
  {
    hide *;
    ShownNow(s);
    UndosShowRevision(show, s, n);
    var undone := ReduceAll(show, s, Times(n, Undo));
    SameShown(undone, undone, s.lineage, s.index - n);
    RedosShowRevision(show, undone, n);
    ReduceAllInTurn(show, s, Times(n, Undo), Times(n, Redo));
    SameShown(s, ReduceAll(show, undone, Times(n, Redo)), s.lineage, s.index);
  }
}
