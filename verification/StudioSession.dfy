/**
 Studio and the preview bridge side by side: two bounded histories of one editing session. The
 bridge only learns of commits; undo and redo are Studio's own.
 */
module StudioSession {
  import opened Wrappers
  import opened StudioState
  import opened PreviewBridge

  datatype Session = Session(studio: State, bridge: Retained)

  /** What happens in a session: an action of Studio alone, or an answer of the bridge. */
  datatype Event =
    | Local(action: Action)
    | Loaded(requestId: int, source: string, document: Document)
    | Answered(requestId: int, request: Request, planKey: string)

  /** The action brings no document from the bridge. */
  predicate IsLocal(action: Action)
  {
    && (action.CompileFinished? ==> action.document.None?)
    && (action.CommitFinished? ==> action.result.None?)
  }

  function Digests(lineage: seq<Revision>): (digests: seq<string>)
    ensures |digests| == |lineage|
  {
    seq(|lineage|, i requires 0 <= i < |lineage| => lineage[i].document.digest)
  }

  function Result(answer: Answer<EditResult>): Option<EditResult>
  {
    if answer.Given? then Some(answer.value) else None
  }

  ghost function Next(show: Format, hashes: Fingerprints, s: Session, e: Event): Session
    requires Consistent(s.studio)
  {
    match e
    case Local(action) => s.(studio := Reduce(show, s.studio, action))
    case Loaded(requestId, source, document) =>
      Session(Reduce(show, s.studio, CompileFinished(requestId, source, Some(document))), Reset(document))
    case Answered(requestId, request, planKey) =>
      var (answer, bridge) := Committed(hashes, s.bridge, request, planKey);
      Session(Reduce(show, s.studio, CommitFinished(requestId, Result(answer))), bridge)
  }

  /** Only the bridge brings documents. */
  ghost predicate Proper(e: Event)
  {
    e.Local? ==> IsLocal(e.action)
  }

  /** Studio takes the commit's answer: it still waits for it, on the document the edit was of. */
  ghost predicate Takes(studio: State, requestId: int, request: Request)
  {
    && studio.editStatus.Committing? && studio.editStatus.requestId == requestId
    && studio.document.Some? && studio.document.value.digest == request.digest
  }

  /** Studio has no revision, or this document as its only one. */
  ghost predicate ShowsOnly(lineage: seq<Revision>, document: Document)
  {
    lineage == [] || (|lineage| == 1 && lineage[0].document == document)
  }

  /** Studio has no revision, or ends in this child, behind the base if there is one before it. */
  ghost predicate EndsIn(lineage: seq<Revision>, base: string, child: Document)
  {
    var n := |lineage|;
    n == 0 || (lineage[n - 1].document == child && (n == 1 || lineage[n - 2].document.digest == base))
  }

  /**
   The event keeps the two histories in step: a load is waited for or brings what Studio shows
   already; a commit's digest is fresh, and the commit is waited for or brings what Studio has
   behind that base already.
   */
  ghost predicate InStep(hashes: Fingerprints, s: Session, e: Event)
  {
    match e
    case Local(action) => true
    case Loaded(requestId, _, document) =>
      s.studio.compileStatus == Compiling(requestId) || ShowsOnly(s.studio.lineage, document)
    case Answered(requestId, request, planKey) =>
      var answer := Committed(hashes, s.bridge, request, planKey).0;
      answer.Given? && request.digest in s.bridge.lineage ==>
        && answer.value.document.digest !in Kept(s.bridge, request.digest)
        && (Takes(s.studio, requestId, request) || EndsIn(s.studio.lineage, request.digest, answer.value.document))
  }

  // ---------------------------------------------------------------- the simulation

  /** Studio's digests are the last ones of the bridge's lineage. */
  ghost predicate IsTail(digests: seq<string>, lineage: seq<string>)
  {
    |digests| <= |lineage| && digests == lineage[|lineage| - |digests|..]
  }

  ghost predicate Retains(bridge: Retained, document: Document)
  {
    document.digest in bridge.documents && bridge.documents[document.digest] == document
  }

  ghost predicate RetainsAll(bridge: Retained, revisions: seq<Revision>)
  {
    forall k :: 0 <= k < |revisions| ==> Retains(bridge, revisions[k].document)
  }

  ghost predicate Mirrors(s: Session)
  {
    IsTail(Digests(s.studio.lineage), s.bridge.lineage) && RetainsAll(s.bridge, s.studio.lineage)
  }

  ghost predicate Sane(s: Session)
  {
    Consistent(s.studio) && Sound(s.bridge) && Mirrors(s)
  }

  lemma {:induction false} StartIsSane(source: string, document: Document)
    ensures Sane(Session(InitialState(source), Reset(document)))
  {
  }

  lemma {:induction false} LocalKeepsSane(show: Format, s: Session, action: Action)
    requires Sane(s) && IsLocal(action)
    ensures Sane(s.(studio := Reduce(show, s.studio, action)))
    ensures Reduce(show, s.studio, action).lineage == s.studio.lineage
  {
    ReduceKeepsConsistent(show, s.studio, action);
  }

  /** In a distinct lineage the base stands where Studio's index says. */
  lemma {:induction false} BasePosition(b: Retained, digests: seq<string>, index: nat)
    requires Sound(b) && IsTail(digests, b.lineage) && index < |digests|
    ensures digests[index] in b.lineage
    ensures Kept(b, digests[index]) == b.lineage[..|b.lineage| - |digests| + index + 1]
  {
    var at := |b.lineage| - |digests| + index;
    assert b.lineage[at] == digests[index];
    var i := IndexOf(b.lineage, digests[index]);
    DistinctPosition(b.lineage, i, at);
  }

  lemma {:induction false} DistinctPosition(digests: seq<string>, i: nat, j: nat)
    requires Distinct(digests) && i < |digests| && j < |digests| && digests[i] == digests[j]
    ensures i == j
  {
  }

  /** `kept` is the bridge's lineage up to Studio's revision `index`. */
  ghost predicate KeepsUpTo(lineage: seq<string>, kept: seq<string>, revisions: seq<Revision>, index: nat)
  {
    && IsTail(Digests(revisions), lineage) && index < |revisions|
    && kept == lineage[..|lineage| - |revisions| + index + 1]
  }

  /** Cutting both lineages after the base, adding the child and trimming keeps one a tail of the other. */
  lemma {:induction false} TailExtends(
    lineage: seq<string>, kept: seq<string>, revisions: seq<Revision>, index: nat, revision: Revision)
    requires KeepsUpTo(lineage, kept, revisions, index) && |revisions| <= MAX_REVISION_LINEAGE
    requires |lineage| <= MAX_PREVIEW_DOCUMENTS
    ensures IsTail(Digests(Extended(revisions, index, revision)), (kept + [revision.document.digest])[Cut(kept)..])
  {
    var longer := kept + [revision.document.digest];
    var extended := revisions[..index + 1] + [revision];
    assert Digests(extended) == longer[|longer| - |extended|..];
    var cut := if |extended| > MAX_REVISION_LINEAGE then |extended| - MAX_REVISION_LINEAGE else 0;
    assert Extended(revisions, index, revision) == extended[cut..];
    assert Digests(extended[cut..]) == longer[|longer| - |extended[cut..]|..];
    assert longer[Cut(kept)..][|longer[Cut(kept)..]| - |extended[cut..]|..] == longer[|longer| - |extended[cut..]|..];
  }

  /** The base of an edit of the current document, which the bridge still has. */
  ghost function BaseDigest(s: Session): string
    requires Sane(s) && s.studio.lineage != []
  {
    s.studio.lineage[s.studio.index].document.digest
  }

  ghost function ChildBridge(s: Session, child: Document): Retained
    requires Sane(s) && s.studio.lineage != [] && BaseDigest(s) in s.bridge.lineage
  {
    WithChild(s.bridge, BaseDigest(s), child)
  }

  lemma {:induction false} BaseIsKept(s: Session)
    requires Sane(s) && s.studio.lineage != []
    ensures BaseDigest(s) in s.bridge.lineage
    ensures KeepsUpTo(s.bridge.lineage, Kept(s.bridge, BaseDigest(s)), s.studio.lineage, s.studio.index)
  {
    BasePosition(s.bridge, Digests(s.studio.lineage), s.studio.index);
  }

  lemma {:induction false} ChildKeepsTail(s: Session, revision: Revision)
    requires Sane(s) && s.studio.lineage != [] && BaseDigest(s) in s.bridge.lineage
    requires revision.document.digest !in Kept(s.bridge, BaseDigest(s))
    ensures IsTail(Digests(Extended(s.studio.lineage, s.studio.index, revision)),
              ChildBridge(s, revision.document).lineage)
  {
    BaseIsKept(s);
    FreshChild(s.bridge, BaseDigest(s), revision.document);
    hide Extended, WithChild, IsTail, KeepsUpTo, Kept, Chained, Mirrors, Distinct;
    TailExtends(s.bridge.lineage, Kept(s.bridge, BaseDigest(s)), s.studio.lineage, s.studio.index, revision);
  }

  /** A fresh child of the current document extends both histories alike. */
  lemma {:induction false} ChildKeepsMirror(s: Session, revision: Revision)
    requires Sane(s) && s.studio.lineage != [] && BaseDigest(s) in s.bridge.lineage
    requires revision.document.digest !in Kept(s.bridge, BaseDigest(s))
    ensures Sound(ChildBridge(s, revision.document))
    ensures Mirrors(Session(s.studio.(lineage := Extended(s.studio.lineage, s.studio.index, revision)),
                            ChildBridge(s, revision.document)))
  {
    FreshChild(s.bridge, BaseDigest(s), revision.document);
    ChildKeepsTail(s, revision);
    BaseIsKept(s);
    hide Kept, WithChild, Extended, Sound, IsTail, Chained, KeepsUpTo;
    FreshInTail(s.bridge.lineage, Kept(s.bridge, BaseDigest(s)), s.studio.lineage, s.studio.index,
              revision.document.digest);
    ExtendedRetained(s, ChildBridge(s, revision.document), s.studio.index, revision);
  }

  /** A digest that the bridge takes as fresh is fresh among Studio's kept revisions too. */
  lemma {:induction false} FreshInTail(
    lineage: seq<string>, kept: seq<string>, revisions: seq<Revision>, index: nat, digest: string)
    requires KeepsUpTo(lineage, kept, revisions, index) && digest !in kept
    ensures forall k :: 0 <= k <= index ==> revisions[k].document.digest != digest
  {
    forall k | 0 <= k <= index
      ensures revisions[k].document.digest != digest
    {
      assert Digests(revisions)[k] == kept[|kept| - (index + 1) + k];
    }
  }

  /** What a commit that is given comes to: its base is retained, and so is its child afterwards. */
  lemma {:induction false} GivenAnswer(hashes: Fingerprints, b: Retained, request: Request, planKey: string)
    requires Sound(b)
    ensures var (answer, b') := Committed(hashes, b, request, planKey);
            if answer.Given? then
              && request.digest in b.lineage && answer.value.evidence.plan.baseDigest == request.digest
              && b' == WithChild(b, request.digest, answer.value.document)
            else b' == b
  {
    hide WithChild;
  }

  /** What a taken, fresh commit leaves. */
  lemma {:induction false} TakenKeepsSane(
    show: Format, hashes: Fingerprints, s: Session, requestId: int, request: Request, planKey: string)
    requires Sane(s) && Takes(s.studio, requestId, request)
    requires var answer := Committed(hashes, s.bridge, request, planKey).0;
             answer.Given? && request.digest in s.bridge.lineage ==>
               answer.value.document.digest !in Kept(s.bridge, request.digest)
    ensures Sane(Next(show, hashes, s, Answered(requestId, request, planKey)))
  {
    var (answer, bridge) := Committed(hashes, s.bridge, request, planKey);
    GivenAnswer(hashes, s.bridge, request, planKey);
    var action := CommitFinished(requestId, Result(answer));
    ReduceKeepsConsistent(show, s.studio, action);
    if answer.Given? {
      var revision := Revision(answer.value.document, Some(answer.value.evidence));
      ChildKeepsMirror(s, revision);
      hide Mirrors, Sound, Consistent, WithChild, Kept, Committed;
      assert bridge == WithChild(s.bridge, request.digest, revision.document);
      var studio := s.studio.(lineage := Extended(s.studio.lineage, s.studio.index, revision));
      assert Reduce(show, s.studio, action).lineage == studio.lineage;
      SameLineageMirrors(Session(studio, bridge), Reduce(show, s.studio, action));
    }
  }

  lemma {:induction false} SameLineageMirrors(s: Session, studio: State)
    requires Mirrors(s) && studio.lineage == s.studio.lineage
    ensures Mirrors(s.(studio := studio))
  {
  }

  lemma {:induction false} ExtendedRetained(s: Session, bridge: Retained, index: nat, revision: Revision)
    requires Mirrors(s) && index < |s.studio.lineage|
    requires Retains(bridge, revision.document)
    requires IsTail(Digests(Extended(s.studio.lineage, index, revision)), bridge.lineage)
    requires forall d :: d in bridge.lineage && d != revision.document.digest ==>
                           d in s.bridge.documents && d in bridge.documents
                           && bridge.documents[d] == s.bridge.documents[d]
    requires forall k :: 0 <= k <= index ==> s.studio.lineage[k].document.digest != revision.document.digest
    ensures Mirrors(Session(s.studio.(lineage := Extended(s.studio.lineage, index, revision)), bridge))
  {
    var extended := Extended(s.studio.lineage, index, revision);
    var longer := s.studio.lineage[..index + 1] + [revision];
    var cut := |longer| - |extended|;
    assert extended == longer[cut..];
    forall k | 0 <= k < |extended|
      ensures Retains(bridge, extended[k].document)
    {
      assert Digests(extended)[k] in bridge.lineage;
      assert extended[k] == longer[cut + k];
      if cut + k <= index {
        assert Retains(s.bridge, s.studio.lineage[cut + k].document);
      }
    }
  }

  // ---------------------------------------------------------------- loads

  lemma {:induction false} TakenLoadKeepsSane(
    show: Format, hashes: Fingerprints, s: Session, requestId: int, source: string, document: Document)
    requires Sane(s) && s.studio.compileStatus == Compiling(requestId)
    ensures Sane(Next(show, hashes, s, Loaded(requestId, source, document)))
  {
    ReduceKeepsConsistent(show, s.studio, CompileFinished(requestId, source, Some(document)));
    ResetIsSound(document);
    var studio := Reduce(show, s.studio, CompileFinished(requestId, source, Some(document)));
    assert studio.lineage == [Revision(document, None)];
    hide Reduce, Consistent, Sound;
    assert Digests(studio.lineage) == [document.digest] == Reset(document).lineage;
    assert Reset(document).lineage[0..] == Reset(document).lineage;
  }

  /** A bridge with one document mirrors Studio exactly if Studio shows no more than that. */
  lemma {:induction false} ResetMirrors(studio: State, document: Document)
    ensures Mirrors(Session(studio, Reset(document))) <==> ShowsOnly(studio.lineage, document)
  {
    var digests, lineage := Digests(studio.lineage), Reset(document).lineage;
    if Mirrors(Session(studio, Reset(document))) && studio.lineage != [] {
      assert Retains(Reset(document), studio.lineage[0].document);
    }
    if ShowsOnly(studio.lineage, document) {
      assert digests == lineage[|lineage| - |digests|..];
    }
  }

  /** A load that Studio no longer waits for resets the bridge alone. */
  lemma {:induction false} DroppedLoad(
    show: Format, hashes: Fingerprints, s: Session, requestId: int, source: string, document: Document)
    requires Sane(s) && s.studio.compileStatus != Compiling(requestId)
    ensures Sane(Next(show, hashes, s, Loaded(requestId, source, document))) <==> ShowsOnly(s.studio.lineage, document)
  {
    ResetIsSound(document);
    ResetMirrors(s.studio, document);
    hide Mirrors, Sound, Consistent, Reset;
  }

  // ---------------------------------------------------------------- commits nobody waits for

  /** What makes a tail of the lineage one of the base's lineage with the new digest behind it. */
  ghost predicate EndsBehind(digests: seq<string>, base: string, digest: string)
  {
    var n := |digests|;
    n > 0 && digests[n - 1] == digest && (n == 1 || digests[n - 2] == base)
  }

  lemma {:induction false} TailEndsBehind(kept: seq<string>, digests: seq<string>, digest: string)
    requires digests != [] && kept != [] && IsTail(digests, (kept + [digest])[Cut(kept)..])
    ensures EndsBehind(digests, kept[|kept| - 1], digest)
  {
    var n, next := |digests|, (kept + [digest])[Cut(kept)..];
    assert digests[n - 1] == next[|next| - 1] == digest;
    assert n > 1 ==> digests[n - 2] == next[|next| - 2] == kept[|kept| - 1];
  }

  lemma {:induction false} EndsBehindIsTail(
    lineage: seq<string>, kept: seq<string>, digests: seq<string>, digest: string)
    requires IsTail(digests, lineage) && Distinct(lineage)
    requires kept != [] && kept <= lineage
    requires |digests| <= MAX_REVISION_LINEAGE && |lineage| <= MAX_PREVIEW_DOCUMENTS
    requires EndsBehind(digests, kept[|kept| - 1], digest)
    ensures IsTail(digests, (kept + [digest])[Cut(kept)..])
  {
    var n, next := |digests|, (kept + [digest])[Cut(kept)..];
    if n == 1 {
      assert digests == next[|next| - 1..];
    } else {
      assert digests[n - 2] == lineage[|lineage| - 2];
      DistinctPosition(lineage, |lineage| - 2, |kept| - 1);
      assert Cut(kept) == 0 && next == kept + [digest];
      assert digests == digests[..n - 1] + [digest];
      assert digests[..n - 1] == kept[|kept| - (n - 1)..];
      assert digests == next[|next| - n..];
    }
  }

  lemma {:induction false} KeptEndsInBase(b: Retained, base: string)
    requires base in b.lineage
    ensures var kept := Kept(b, base); kept != [] && kept <= b.lineage && kept[|kept| - 1] == base
  {
  }

  /** The documents of a tail that ends in the child are retained as before, if the last is the child. */
  lemma {:induction false} UntakenRetains(
    b: Retained, kept: seq<string>, child: Document, b': Retained, revisions: seq<Revision>)
    requires Joins(b, kept, child, b') && revisions != [] && IsTail(Digests(revisions), b'.lineage)
    requires RetainsAll(b, revisions)
    requires revisions[|revisions| - 1].document.digest == child.digest && child.digest !in kept
    ensures RetainsAll(b', revisions) <==> revisions[|revisions| - 1].document == child
  {
    hide Sound;
    var n, digests := |revisions|, Digests(revisions);
    if RetainsAll(b', revisions) {
      assert Retains(b', revisions[n - 1].document);
    }
    if revisions[n - 1].document == child {
      forall k | 0 <= k < n
        ensures Retains(b', revisions[k].document)
      {
        if k < n - 1 {
          assert Retains(b, revisions[k].document);
          assert digests[k] == b'.lineage[|b'.lineage| - n + k] == (kept + [child.digest])[|kept| + 1 - n + k];
          assert digests[k] in kept && digests[k] in b'.lineage;
        }
      }
    }
  }

  /**
   When Studio does not take a fresh commit, the bridge moves on alone. It still mirrors Studio
   exactly if Studio has that child as its last revision, right behind the same base.
   */
  lemma {:induction false} DroppedCommit(s: Session, base: string, child: Document)
    requires Sane(s) && base in s.bridge.lineage && child.digest !in Kept(s.bridge, base)
    ensures Sane(Session(s.studio, WithChild(s.bridge, base, child))) <==> EndsIn(s.studio.lineage, base, child)
  {
    var kept, b' := Kept(s.bridge, base), WithChild(s.bridge, base, child);
    FreshChild(s.bridge, base, child);
    KeptEndsInBase(s.bridge, base);
    SoundLineage(s.bridge);
    hide Kept, WithChild, Sound, Joins, Consistent, EndsIn, Mirrors, Distinct;
    JoinsSoundly(s.bridge, kept, child, b');
    DroppedMirrors(s, kept, base, child, b');
  }

  lemma {:induction false} JoinsSoundly(b: Retained, kept: seq<string>, child: Document, b': Retained)
    requires Joins(b, kept, child, b')
    ensures Sound(b') && b'.lineage == (kept + [child.digest])[Cut(kept)..]
  {
  }

  lemma {:induction false} DroppedMirrors(s: Session, kept: seq<string>, base: string, child: Document, b': Retained)
    requires Mirrors(s) && |s.studio.lineage| <= MAX_REVISION_LINEAGE && Joins(s.bridge, kept, child, b')
    requires Distinct(s.bridge.lineage) && |s.bridge.lineage| <= MAX_PREVIEW_DOCUMENTS
    requires kept != [] && kept <= s.bridge.lineage && kept[|kept| - 1] == base && child.digest !in kept
    ensures Mirrors(Session(s.studio, b')) <==> EndsIn(s.studio.lineage, base, child)
  {
    JoinsSoundly(s.bridge, kept, child, b');
    var revisions := s.studio.lineage;
    if revisions == [] {
      assert Digests(revisions) == b'.lineage[|b'.lineage|..];
    } else {
      NamesEnd(revisions, base, child);
      hide Joins, Sound, RetainsAll, Distinct, Cut, IsTail, EndsBehind, EndsIn, Digests;
      TailIsEnd(s.bridge.lineage, kept, Digests(revisions), child.digest);
      if EndsBehind(Digests(revisions), base, child.digest) {
        UntakenRetains(s.bridge, kept, child, b', revisions);
      }
    }
  }

  lemma {:induction false} TailIsEnd(lineage: seq<string>, kept: seq<string>, digests: seq<string>, digest: string)
    requires IsTail(digests, lineage) && Distinct(lineage) && digests != []
    requires kept != [] && kept <= lineage
    requires |digests| <= MAX_REVISION_LINEAGE && |lineage| <= MAX_PREVIEW_DOCUMENTS
    ensures IsTail(digests, (kept + [digest])[Cut(kept)..]) <==> EndsBehind(digests, kept[|kept| - 1], digest)
  {
    hide IsTail, EndsBehind, Distinct;
    if IsTail(digests, (kept + [digest])[Cut(kept)..]) {
      TailEndsBehind(kept, digests, digest);
    }
    if EndsBehind(digests, kept[|kept| - 1], digest) {
      EndsBehindIsTail(lineage, kept, digests, digest);
    }
  }

  /** Ending in a child is ending in its digest, with the child itself as the last document. */
  lemma {:induction false} NamesEnd(lineage: seq<Revision>, base: string, child: Document)
    requires lineage != []
    ensures EndsBehind(Digests(lineage), base, child.digest) ==> lineage[|lineage| - 1].document.digest == child.digest
    ensures EndsIn(lineage, base, child) <==>
              EndsBehind(Digests(lineage), base, child.digest) && lineage[|lineage| - 1].document == child
  {
  }

  /** A commit that is not taken leaves Studio's history as it is. */
  lemma {:induction false} UntakenAnswer(
    show: Format, studio: State, requestId: int, request: Request, answer: Answer<EditResult>)
    requires Consistent(studio) && !Takes(studio, requestId, request)
    requires answer.Given? ==> answer.value.evidence.plan.baseDigest == request.digest
    ensures Reduce(show, studio, CommitFinished(requestId, Result(answer))).lineage == studio.lineage
  {
  }

  lemma {:induction false} AnswerIsSane(
    show: Format, hashes: Fingerprints, s: Session, requestId: int, request: Request, planKey: string)
    requires Sane(s)
    ensures Sane(Next(show, hashes, s, Answered(requestId, request, planKey))) <==>
            InStep(hashes, s, Answered(requestId, request, planKey))
  {
    var (answer, bridge) := Committed(hashes, s.bridge, request, planKey);
    GivenAnswer(hashes, s.bridge, request, planKey);
    var studio := Reduce(show, s.studio, CommitFinished(requestId, Result(answer)));
    ReduceKeepsConsistent(show, s.studio, CommitFinished(requestId, Result(answer)));
    if Takes(s.studio, requestId, request) {
      if answer.Given? && answer.value.document.digest in Kept(s.bridge, request.digest) {
        WithChildIsSound(s.bridge, request.digest, answer.value.document);
      } else {
        TakenKeepsSane(show, hashes, s, requestId, request, planKey);
      }
    } else {
      UntakenAnswer(show, s.studio, requestId, request, answer);
      SameLineage(Session(s.studio, bridge), studio);
      if answer.Given? {
        WithChildIsSound(s.bridge, request.digest, answer.value.document);
        if answer.value.document.digest !in Kept(s.bridge, request.digest) {
          DroppedCommit(s, request.digest, answer.value.document);
        }
      }
    }
    hide Committed, Reduce, Consistent, Mirrors, Sound, Kept, WithChild, EndsIn, Takes;
  }

  lemma {:induction false} SameLineage(s: Session, studio: State)
    requires Consistent(s.studio) && Consistent(studio) && studio.lineage == s.studio.lineage
    ensures Sane(s.(studio := studio)) <==> Sane(s)
  {
    hide Consistent, Sound;
  }

  /** An event keeps Studio and the bridge in step exactly if `InStep` says so beforehand. */
  lemma {:induction false} NextIsSane(show: Format, hashes: Fingerprints, s: Session, e: Event)
    requires Sane(s) && Proper(e)
    ensures Sane(Next(show, hashes, s, e)) <==> InStep(hashes, s, e)
  {
    match e
    case Local(action) => LocalKeepsSane(show, s, action);
    case Loaded(requestId, source, document) =>
      if s.studio.compileStatus == Compiling(requestId) {
        TakenLoadKeepsSane(show, hashes, s, requestId, source, document);
      } else {
        DroppedLoad(show, hashes, s, requestId, source, document);
      }
    case Answered(requestId, request, planKey) => AnswerIsSane(show, hashes, s, requestId, request, planKey);
  }

  // ---------------------------------------------------------------- whole sessions

  lemma {:induction false} NextKeepsConsistent(show: Format, hashes: Fingerprints, s: Session, e: Event)
    requires Consistent(s.studio)
    ensures Consistent(Next(show, hashes, s, e).studio)
  {
    hide Reduce, Consistent, Committed;
    match e
    case Local(action) => ReduceKeepsConsistent(show, s.studio, action);
    case Loaded(requestId, source, document) =>
      ReduceKeepsConsistent(show, s.studio, CompileFinished(requestId, source, Some(document)));
    case Answered(requestId, request, planKey) =>
      ReduceKeepsConsistent(show, s.studio,
                CommitFinished(requestId, Result(Committed(hashes, s.bridge, request, planKey).0)));
  }

  ghost function NextAll(show: Format, hashes: Fingerprints, s: Session, events: seq<Event>): (end: Session)
    requires Consistent(s.studio)
    ensures Consistent(end.studio)
  {
    if events == [] then s
    else
      var before := NextAll(show, hashes, s, events[..|events| - 1]);
      NextKeepsConsistent(show, hashes, before, events[|events| - 1]);
      Next(show, hashes, before, events[|events| - 1])
  }

  /** Every event of the session is in step when it happens. */
  ghost predicate StaysInStep(show: Format, hashes: Fingerprints, s: Session, events: seq<Event>)
    requires Consistent(s.studio)
  {
    events == [] ||
    var init := events[..|events| - 1];
    StaysInStep(show, hashes, s, init) && InStep(hashes, NextAll(show, hashes, s, init), events[|events| - 1])
  }

  /** The histories agree after every event of the session. */
  ghost predicate AlwaysSane(show: Format, hashes: Fingerprints, s: Session, events: seq<Event>)
    requires Consistent(s.studio)
  {
    && Sane(NextAll(show, hashes, s, events))
    && (events == [] || AlwaysSane(show, hashes, s, events[..|events| - 1]))
  }

  /** The histories agree throughout a session exactly if all its events are in step. */
  lemma {:induction false} SessionIsSane(show: Format, hashes: Fingerprints, s: Session, events: seq<Event>)
    requires Sane(s) && forall e :: e in events ==> Proper(e)
    ensures AlwaysSane(show, hashes, s, events) <==> StaysInStep(show, hashes, s, events)
  {
    assert Consistent(s.studio);
    hide Sane, Next, InStep, Proper, Consistent;
    if events == [] {
      assert NextAll(show, hashes, s, events) == s;
    } else {
      var init, last := events[..|events| - 1], events[|events| - 1];
      SessionIsSane(show, hashes, s, init);
      if AlwaysSane(show, hashes, s, init) {
        NextIsSane(show, hashes, NextAll(show, hashes, s, init), last);
      }
    }
  }

  /**
   After every session from the start whose events are in step, Studio's lineage is the tail of the
   bridge's, and the bridge retains the document of every revision that undo or redo can reach.
   */
  lemma {:induction false} EveryRevisionStaysEditable(
    show: Format, hashes: Fingerprints, source: string, example: Document, events: seq<Event>)
    requires forall e :: e in events ==> Proper(e)
    requires StaysInStep(show, hashes, Session(InitialState(source), Reset(example)), events)
    ensures var end := NextAll(show, hashes, Session(InitialState(source), Reset(example)), events);
            && Sound(end.bridge)
            && IsTail(Digests(end.studio.lineage), end.bridge.lineage)
            && RetainsAll(end.bridge, end.studio.lineage)
  {
    var start := Session(InitialState(source), Reset(example));
    StartIsSane(source, example);
    SessionIsSane(show, hashes, start, events);
    hide NextAll, StaysInStep, Proper, Consistent, Sound, IsTail;
  }

  // ---------------------------------------------------------------- what a dropped commit loses

  /** The revision that redo leads to is lost by a dropped commit, unless it is that very child. */
  lemma {:induction false} DroppedCommitLosesRedo(s: Session, child: Document)
    requires Sane(s) && s.studio.lineage != [] && BaseDigest(s) in s.bridge.lineage
    requires child.digest !in Kept(s.bridge, BaseDigest(s))
    requires s.studio.index + 1 < |s.studio.lineage|
    ensures var redo := s.studio.lineage[s.studio.index + 1].document.digest;
            redo in ChildBridge(s, child).documents <==> redo == child.digest
  {
    hide Kept, KeepsUpTo, WithChild, Mirrors, IsTail, Retains, Sound, Distinct, Chained;
    var base := BaseDigest(s);
    BaseIsKept(s);
    SoundLineage(s.bridge);
    RedoNotKept(s.bridge.lineage, Kept(s.bridge, base), s.studio.lineage, s.studio.index);
    OnlyChildJoins(s.bridge, base, child, s.studio.lineage[s.studio.index + 1].document.digest);
  }

  lemma {:induction false} RedoNotKept(lineage: seq<string>, kept: seq<string>, revisions: seq<Revision>, index: nat)
    requires KeepsUpTo(lineage, kept, revisions, index) && Distinct(lineage) && index + 1 < |revisions|
    ensures revisions[index + 1].document.digest !in kept
  {
    var at := |lineage| - |revisions| + index + 1;
    assert Digests(revisions)[index + 1] == lineage[at];
    assert forall k :: 0 <= k < |kept| ==> kept[k] == lineage[k] != lineage[at];
  }

  // ---------------------------------------------------------------- such a session

  /** Two edits of one document that lead to two new documents. */
  ghost predicate TwoEdits(hashes: Fingerprints, document: Document, a: Request, b: Request)
  {
    && a.digest == b.digest == document.digest
    && PreviewPlan(hashes, document, a).Some? && PreviewPlan(hashes, document, b).Some?
    && var (first, second) := (ChildOf(hashes, document, a), ChildOf(hashes, document, b));
    && document.digest !in {first.digest, second.digest} && first.digest != second.digest
  }

  function PlanFor(hashes: Fingerprints, document: Document, request: Request): Plan
    requires PreviewPlan(hashes, document, request).Some?
  {
    PreviewPlan(hashes, document, request).value
  }

  function ChildOf(hashes: Fingerprints, document: Document, request: Request): Document
    requires PreviewPlan(hashes, document, request).Some?
  {
    var plan := PlanFor(hashes, document, request);
    Child(document, plan, hashes.child(plan.key))
  }

  /** A document is loaded; its first edit is committed and undone. */
  ghost function Edited(source: string, document: Document, first: Plan, a: Request): seq<Event>
  {
    [] + [Local(CompileStarted(0))] + [Loaded(0, source, document)] + [Local(CommitStarted(1, first))]
    + [Answered(1, a, first.key)] + [Local(Undo)]
  }

  /** The second edit is committed, but typing stops the wait for it. */
  ghost function Distracted(source: string, document: Document, first: Plan, a: Request, second: Plan): seq<Event>
  {
    Edited(source, document, first, a) + [Local(CommitStarted(2, second))] + [Local(InputEdited(""))]
  }

  lemma {:induction false} OneMore(show: Format, hashes: Fingerprints, s: Session, events: seq<Event>, e: Event)
    requires Consistent(s.studio)
    ensures NextAll(show, hashes, s, events + [e]) == Next(show, hashes, NextAll(show, hashes, s, events), e)
    ensures StaysInStep(show, hashes, s, events + [e]) <==>
              StaysInStep(show, hashes, s, events) && InStep(hashes, NextAll(show, hashes, s, events), e)
  {
    assert (events + [e])[..|events|] == events;
    hide Next, InStep, Consistent;
  }

  lemma {:induction false} NoEvents(show: Format, hashes: Fingerprints, s: Session)
    requires Consistent(s.studio)
    ensures NextAll(show, hashes, s, []) == s && StaysInStep(show, hashes, s, [])
  {
  }

  /** A commit of an edit of the document that is shown, on a bridge that has it. */
  lemma {:induction false} CommitOf(hashes: Fingerprints, b: Retained, document: Document, request: Request)
    requires request.digest == document.digest && Retains(b, document) && document.digest in b.lineage
    requires PreviewPlan(hashes, document, request).Some?
    ensures var plan, child := PlanFor(hashes, document, request), ChildOf(hashes, document, request);
            Committed(hashes, b, request, plan.key)
            == (Given(EditResult(child, Evidence(plan, child.digest, child.revision))),
                      WithChild(b, document.digest, child))
  {
    hide WithChild;
  }

  lemma {:induction false} FirstChild(document: Document, child: Document)
    requires child.digest != document.digest
    ensures WithChild(Reset(document), document.digest, child)
         == Retained(map[document.digest := document, child.digest := child], [document.digest, child.digest])
    ensures Kept(Reset(document), document.digest) == [document.digest]
  {
    var b := Reset(document);
    assert Kept(b, document.digest) == [document.digest];
    assert b.lineage[1..] == [] && Members([]) == {};
  }

  /** Studio shows a document just loaded. */
  ghost predicate Shown(s: Session, document: Document)
  {
    && s.studio.lineage == [Revision(document, None)] && s.studio.index == 0
    && s.studio.document == Some(document) && s.bridge == Reset(document)
  }

  /** Studio has the document and a child of it; it shows the one at the index. */
  ghost predicate Branched(s: Session, document: Document, child: Document, index: int)
  {
    && |s.studio.lineage| == 2 && s.studio.index == index
    && s.studio.lineage[0].document == document && s.studio.lineage[1].document == child
    && s.studio.document == Some(if index == 0 then document else child)
    && s.bridge == Retained(map[document.digest := document, child.digest := child], [document.digest, child.digest])
  }

  lemma {:induction false} CommitBranches(
    show: Format, hashes: Fingerprints, s: Session, document: Document, a: Request)
    requires a.digest == document.digest && PreviewPlan(hashes, document, a).Some?
    requires ChildOf(hashes, document, a).digest != document.digest
    requires Shown(s, document) && s.studio.editStatus == Committing(1, PlanFor(hashes, document, a))
    ensures Consistent(s.studio) ==>
              var answer := Answered(1, a, PlanFor(hashes, document, a).key);
              && InStep(hashes, s, answer)
              && Branched(Next(show, hashes, s, answer), document, ChildOf(hashes, document, a), 1)
              && !Next(show, hashes, s, answer).studio.editStatus.Committing?
  {
    CommitOf(hashes, Reset(document), document, a);
    FirstChild(document, ChildOf(hashes, document, a));
    hide PreviewPlan, Child, ChildOf, PlanFor, WithChild, Kept, Committed, Consistent;
    assert s.studio.lineage[..1] == [Revision(document, None)];
  }

  lemma {:induction false} UndoBranch(
    show: Format, hashes: Fingerprints, s: Session, document: Document, child: Document)
    requires Branched(s, document, child, 1) && !s.studio.editStatus.Committing? && Consistent(s.studio)
    ensures var s' := Next(show, hashes, s, Local(Undo));
            Branched(s', document, child, 0) && InStep(hashes, s, Local(Undo))
  {
    hide Consistent, KeptSelection, NodeInput;
  }

  lemma {:induction false} LoadAndEdit(
    show: Format, hashes: Fingerprints, s: Session, source: string, document: Document, plan: Plan)
    requires Consistent(s.studio)
    ensures var s1 := Next(show, hashes, s, Local(CompileStarted(0)));
            && Consistent(s1.studio)
            && InStep(hashes, s1, Loaded(0, source, document))
            && var s2 := Next(show, hashes, s1, Loaded(0, source, document));
            && Consistent(s2.studio)
            && var s3 := Next(show, hashes, s2, Local(CommitStarted(1, plan)));
            Shown(s3, document) && s3.studio.editStatus == Committing(1, plan)
  {
    ReduceKeepsConsistent(show, s.studio, CompileStarted(0));
    var s1 := Next(show, hashes, s, Local(CompileStarted(0)));
    ReduceKeepsConsistent(show, s1.studio, CompileFinished(0, source, Some(document)));
    hide Consistent, NodeInput;
  }

  /** The first half of the session: a load, a commit and its undo. */
  lemma {:induction false} FirstHalf(
    show: Format, hashes: Fingerprints, start: Session, source: string, document: Document, a: Request)
    requires Consistent(start.studio) && a.digest == document.digest && PreviewPlan(hashes, document, a).Some?
    requires ChildOf(hashes, document, a).digest != document.digest
    ensures var events := Edited(source, document, PlanFor(hashes, document, a), a);
            && StaysInStep(show, hashes, start, events)
            && Branched(NextAll(show, hashes, start, events), document, ChildOf(hashes, document, a), 0)
  {
    var first := PlanFor(hashes, document, a);
    NoEvents(show, hashes, start);
    assert forall s, action :: InStep(hashes, s, Local(action));
    hide NextAll, StaysInStep, PreviewPlan, Child, ChildOf, PlanFor, Next, InStep, Consistent, Shown, Branched;
    var events := [] + [Local(CompileStarted(0))];
    OneMore(show, hashes, start, [], Local(CompileStarted(0)));
    OneMore(show, hashes, start, events, Loaded(0, source, document));
    events := events + [Loaded(0, source, document)];
    OneMore(show, hashes, start, events, Local(CommitStarted(1, first)));
    events := events + [Local(CommitStarted(1, first))];
    LoadAndEdit(show, hashes, start, source, document, first);
    CommitBranches(show, hashes, NextAll(show, hashes, start, events), document, a);
    OneMore(show, hashes, start, events, Answered(1, a, first.key));
    events := events + [Answered(1, a, first.key)];
    UndoBranch(show, hashes, NextAll(show, hashes, start, events), document, ChildOf(hashes, document, a));
    OneMore(show, hashes, start, events, Local(Undo));
  }

  lemma {:induction false} DistractedCommit(
    show: Format, hashes: Fingerprints, s: Session, document: Document, child: Document, b: Request)
    requires Branched(s, document, child, 0) && Consistent(s.studio) && document.digest != child.digest
    requires b.digest == document.digest && PreviewPlan(hashes, document, b).Some?
    requires ChildOf(hashes, document, b).digest !in {document.digest, child.digest}
    ensures var plan := PlanFor(hashes, document, b);
            var s1 := Next(show, hashes, s, Local(CommitStarted(2, plan)));
            && Consistent(s1.studio)
            && var s2 := Next(show, hashes, s1, Local(InputEdited("")));
            && Consistent(s2.studio) && !InStep(hashes, s2, Answered(2, b, plan.key))
            && var s3 := Next(show, hashes, s2, Answered(2, b, plan.key));
            && s3.studio.lineage == s.studio.lineage && s3.studio.index == 0
            && child.digest !in s3.bridge.documents
  {
    var plan, late := PlanFor(hashes, document, b), ChildOf(hashes, document, b);
    ReduceKeepsConsistent(show, s.studio, CommitStarted(2, plan));
    var s1 := Next(show, hashes, s, Local(CommitStarted(2, plan)));
    ReduceKeepsConsistent(show, s1.studio, InputEdited(""));
    CommitOf(hashes, s.bridge, document, b);
    SecondChild(s.bridge, document, child, late);
    hide PreviewPlan, Child, ChildOf, PlanFor, WithChild, Kept, Committed, Consistent;
  }

  lemma {:induction false} SecondChild(b: Retained, document: Document, child: Document, late: Document)
    requires b == Retained(map[document.digest := document, child.digest := child], [document.digest, child.digest])
    requires document.digest != child.digest && late.digest !in {document.digest, child.digest}
    ensures Kept(b, document.digest) == [document.digest]
    ensures WithChild(b, document.digest, late).documents == map[document.digest := document, late.digest := late]
  {
    assert IndexOf(b.lineage, document.digest) == 0;
    assert b.lineage[..1] == [document.digest] && b.lineage[1..] == [child.digest];
    assert Members([child.digest]) == {child.digest};
  }

  /**
   A whole session in which the wait for a commit is given up: all events are in step but the last,
   and after it the revision that redo leads to is no longer retained.
   */
  lemma {:induction false} DistractedSessionLosesRedo(
    show: Format, hashes: Fingerprints, source: string, example: Document, document: Document, a: Request, b: Request)
    requires TwoEdits(hashes, document, a, b)
    ensures var start := Session(InitialState(source), Reset(example));
            var first, second := PlanFor(hashes, document, a), PlanFor(hashes, document, b);
            var events := Distracted(source, document, first, a, second);
            && Consistent(start.studio)
            && StaysInStep(show, hashes, start, events)
            && !StaysInStep(show, hashes, start, events + [Answered(2, b, second.key)])
            && var end := NextAll(show, hashes, start, events + [Answered(2, b, second.key)]);
            && end.studio.index == 0 && |end.studio.lineage| == 2
            && end.studio.lineage[1].document.digest !in end.bridge.documents
  {
    var start := Session(InitialState(source), Reset(example));
    var first, second := PlanFor(hashes, document, a), PlanFor(hashes, document, b);
    var events := Edited(source, document, first, a);
    InitiallyConsistent(source);
    FirstHalf(show, hashes, start, source, document, a);
    BranchedLineage(NextAll(show, hashes, start, events), document, ChildOf(hashes, document, a));
    DistractedCommit(show, hashes, NextAll(show, hashes, start, events), document, ChildOf(hashes, document, a), b);
    assert forall s, action :: InStep(hashes, s, Local(action));
    hide NextAll, StaysInStep, PreviewPlan, Child, ChildOf, PlanFor, Next, InStep, Consistent, Branched;
    hide InitialState, Reset, Edited;
    OneMore(show, hashes, start, events, Local(CommitStarted(2, second)));
    events := events + [Local(CommitStarted(2, second))];
    OneMore(show, hashes, start, events, Local(InputEdited("")));
    events := events + [Local(InputEdited(""))];
    OneMore(show, hashes, start, events, Answered(2, b, second.key));
  }

  lemma {:induction false} BranchedLineage(s: Session, document: Document, child: Document)
    requires Branched(s, document, child, 0)
    ensures |s.studio.lineage| == 2 && s.studio.lineage[1].document == child
  {
  }

  const SAMPLE := Document("base", 0, [Node("width", "parameter", Some("m"), Some(1.0))])
  const SAMPLE_HASHES := Fingerprints((edit: Request) => if edit.value == 2.0 then "a" else "b", (key: string) => key)

  /** Two such edits: a width of one set to two, and to three. */
  lemma {:induction false} SampleEdits()
    ensures TwoEdits(SAMPLE_HASHES, SAMPLE, Request("base", "width", 2.0), Request("base", "width", 3.0))
  {
    var a, b := Request("base", "width", 2.0), Request("base", "width", 3.0);
    assert FindNode(SAMPLE.nodes, Some("width")) == Some(SAMPLE.nodes[0]);
    var first, second := ChildOf(SAMPLE_HASHES, SAMPLE, a).digest, ChildOf(SAMPLE_HASHES, SAMPLE, b).digest;
    assert first[|first| - 1] == 'a' && second[|second| - 1] == 'b' && "base"[|"base"| - 1] == 'e';
  }
}
