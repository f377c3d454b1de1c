/**
 The browser preview bridge: the documents it can still edit, kept in a bounded lineage that a
 new edit cuts off after its base. Fingerprints are abstract.
 */
module PreviewBridge {
  import opened Wrappers
  import opened StudioState

  const MAX_PREVIEW_DOCUMENTS := 32

  /** The retained documents by digest, and their digests, oldest first. */
  datatype Retained = Retained(documents: map<string, Document>, lineage: seq<string>)

  datatype Request = Request(digest: string, targetId: string, value: real)

  datatype Answer<+T> = Given(value: T) | Refused(reason: string)

  /** The fingerprint of an edit, and the digest of the document that a plan key leads to. */
  datatype Fingerprints = Fingerprints(edit: Request -> string, child: string -> string)

  function IndexOf(lineage: seq<string>, digest: string): (i: int)
    ensures i == -1 ==> digest !in lineage
    ensures i != -1 ==> 0 <= i < |lineage| && lineage[i] == digest && digest !in lineage[..i]
  {
    if lineage == [] then -1
    else if lineage[0] == digest then 0
    else
      var i := IndexOf(lineage[1..], digest);
      if i == -1 then -1 else i + 1
  }

  ghost function Reset(document: Document): Retained
  {
    Retained(map[document.digest := document], [document.digest])
  }

  /** Drops the oldest documents beyond the limit. */
  ghost function Trimmed(b: Retained): Retained
    decreases |b.lineage|
  {
    if |b.lineage| <= MAX_PREVIEW_DOCUMENTS then b
    else Trimmed(Retained(b.documents - {b.lineage[0]}, b.lineage[1..]))
  }

  /** The lineage up to and including the base of an edit. */
  ghost function Kept(b: Retained, base: string): seq<string>
    requires base in b.lineage
  {
    b.lineage[..IndexOf(b.lineage, base) + 1]
  }

  ghost function Members(digests: seq<string>): set<string>
  {
    set d | d in digests
  }

  /** The child joins behind its base; everything after the base is abandoned. */
  ghost function WithChild(b: Retained, base: string, child: Document): Retained
    requires base in b.lineage
  {
    var abandoned := b.lineage[IndexOf(b.lineage, base) + 1..];
    Trimmed(Retained((b.documents - Members(abandoned))[child.digest := child], Kept(b, base) + [child.digest]))
  }

  function PreviewPlan(hashes: Fingerprints, document: Document, request: Request): Option<Plan>
  {
    var node := FindNode(document.nodes, Some(request.targetId));
    if || node.None? || node.value.kind != "parameter"
       || node.value.value.None? || node.value.dimension.None?
       || node.value.value.value == request.value then None
    else
      var digest := hashes.edit(request);
      Some(Plan("eqiora.preview-value-edit-plan/v1:" + digest, request.digest, document.revision, request.targetId,
                node.value.value.value, request.value, node.value.dimension.value, digest))
  }

  /** The nodes with every node of the id given the value. */
  function WithValue(nodes: seq<Node>, id: string, value: real): seq<Node>
  {
    seq(|nodes|, i requires 0 <= i < |nodes| =>
      if nodes[i].id == id then nodes[i].(value := Some(value)) else nodes[i])
  }

  function Child(document: Document, plan: Plan, digest: string): Document
  {
    Document(digest, document.revision + 1, WithValue(document.nodes, plan.targetId, plan.after))
  }

  // ---------------------------------------------------------------- what a plan and a child are

  /** Node `i` is the one a request is about, and a parameter with a dimension and another value. */
  ghost predicate EditsNode(document: Document, request: Request, i: nat)
  {
    && i < |document.nodes|
    && document.nodes[i].id == request.targetId
    && (forall j :: 0 <= j < i ==> document.nodes[j].id != request.targetId)
    && document.nodes[i].kind == "parameter" && document.nodes[i].dimension.Some?
    && document.nodes[i].value.Some? && document.nodes[i].value.value != request.value
  }

  lemma {:induction false} FindsFirst(nodes: seq<Node>, id: string)
    ensures FindNode(nodes, Some(id)).Some? ==>
              exists i :: 0 <= i < |nodes| && FindNode(nodes, Some(id)) == Some(nodes[i]) && nodes[i].id == id
                          && forall j :: 0 <= j < i ==> nodes[j].id != id
  {
    if nodes != [] && nodes[0].id != id {
      FindsFirst(nodes[1..], id);
      if i :| && 0 <= i < |nodes[1..]| && nodes[1..][i].id == id
              && FindNode(nodes[1..], Some(id)) == Some(nodes[1..][i])
              && forall j :: 0 <= j < i ==> nodes[1..][j].id != id {
        assert nodes[i + 1] == nodes[1..][i];
        assert forall j :: 1 <= j < i + 1 ==> nodes[j] == nodes[1..][j - 1];
      }
    }
  }

  lemma {:induction false} FindsNode(nodes: seq<Node>, id: string, i: nat)
    requires i < |nodes| && nodes[i].id == id && forall j :: 0 <= j < i ==> nodes[j].id != id
    ensures FindNode(nodes, Some(id)) == Some(nodes[i])
  {
    if i > 0 {
      assert nodes[0].id != id;
      FindsNode(nodes[1..], id, i - 1);
    }
  }

  /** There is a plan exactly if there is such a node, and it says what the edit does to it. */
  lemma {:induction false} PlanIsOfNode(hashes: Fingerprints, document: Document, request: Request)
    ensures PreviewPlan(hashes, document, request).Some? <==> exists i: nat :: EditsNode(document, request, i)
    ensures forall i: nat :: EditsNode(document, request, i) ==>
                          var digest := hashes.edit(request);
                          PreviewPlan(hashes, document, request)
                          == Some(Plan("eqiora.preview-value-edit-plan/v1:" + digest, request.digest,
                                       document.revision, request.targetId, document.nodes[i].value.value,
                                       request.value, document.nodes[i].dimension.value, digest))
  {
    FindsFirst(document.nodes, request.targetId);
    forall i: nat | EditsNode(document, request, i)
      ensures FindNode(document.nodes, Some(request.targetId)) == Some(document.nodes[i])
    {
      FindsNode(document.nodes, request.targetId, i);
    }
    if PreviewPlan(hashes, document, request).Some? {
      var i :| 0 <= i < |document.nodes| && document.nodes[i].id == request.targetId
               && FindNode(document.nodes, Some(request.targetId)) == Some(document.nodes[i])
               && forall j :: 0 <= j < i ==> document.nodes[j].id != request.targetId;
      assert EditsNode(document, request, i);
    }
  }

  lemma {:induction false} FindWithValue(nodes: seq<Node>, id: string, value: real, other: string)
    ensures var found := FindNode(nodes, Some(other));
            FindNode(WithValue(nodes, id, value), Some(other))
            == if found.Some? && other == id then Some(found.value.(value := Some(value))) else found
  {
    if nodes == [] {
    } else {
      FindWithValue(nodes[1..], id, value, other);
      assert WithValue(nodes, id, value)[1..] == WithValue(nodes[1..], id, value);
    }
  }

  /**
   A planned edit takes effect: the child is the next revision, its target has the requested value,
   every other node is as before, and the same request has nothing left to do.
   */
  lemma {:induction false} EditTakesEffect(
    hashes: Fingerprints, document: Document, request: Request, digest: string, other: string)
    requires PreviewPlan(hashes, document, request).Some?
    ensures var child := Child(document, PreviewPlan(hashes, document, request).value, digest);
            var found := FindNode(document.nodes, Some(other));
            && child.digest == digest && child.revision == document.revision + 1
            && |child.nodes| == |document.nodes|
            && FindNode(child.nodes, Some(other))
               == (if other == request.targetId && found.Some? then Some(found.value.(value := Some(request.value)))
                   else found)
            && PreviewPlan(hashes, child, request).None?
  {
    FindWithValue(document.nodes, request.targetId, request.value, other);
    FindWithValue(document.nodes, request.targetId, request.value, request.targetId);
  }

  // ---------------------------------------------------------------- committing an edit

  /** What committing an edit answers and leaves retained. */
  ghost function Committed(
    hashes: Fingerprints, b: Retained, request: Request, planKey: string): (Answer<EditResult>, Retained)
  {
    if request.digest !in b.documents then (Refused("base not available"), b)
    else
      var document := b.documents[request.digest];
      var plan := PreviewPlan(hashes, document, request);
      if plan.None? || plan.value.key != planKey then (Refused("plan does not match"), b)
      else if document.digest !in b.lineage then (Refused("base left the lineage"), b)
      else
        var child := Child(document, plan.value, hashes.child(planKey));
        (Given(EditResult(child, Evidence(plan.value, child.digest, child.revision))),
         WithChild(b, document.digest, child))
  }

  /** The module state of the bridge. */
  class Bridge {
    const hashes: Fingerprints
    var documents: map<string, Document>
    var lineage: seq<string>

    ghost function Snapshot(): Retained
      reads this
    {
      Retained(documents, lineage)
    }

    constructor (hashes: Fingerprints, document: Document)
      ensures this.hashes == hashes && Snapshot() == Reset(document)
    {
      this.hashes := hashes;
      documents := map[document.digest := document];
      lineage := [document.digest];
    }

    method ResetPreviewLineage(document: Document)
      modifies this
      ensures Snapshot() == Reset(document)
    {
      documents := map[];
      documents := documents[document.digest := document];
      lineage := [document.digest];
    }

    method RetainPreviewChild(base: string, child: Document) returns (retained: bool)
      modifies this
      ensures retained <==> base in old(lineage)
      ensures Snapshot() == if retained then WithChild(old(Snapshot()), base, child) else old(Snapshot())
    {
      var baseIndex := IndexOf(lineage, base);
      if baseIndex < 0 {
        return false;
      }
      var abandoned := lineage[baseIndex + 1..];
      lineage := lineage[..baseIndex + 1];
      for k := 0 to |abandoned|
        invariant lineage == Kept(old(Snapshot()), base)
        invariant documents == old(documents) - Members(abandoned[..k])
      {
        assert Members(abandoned[..k + 1]) == Members(abandoned[..k]) + {abandoned[k]};
        documents := documents - {abandoned[k]};
      }
      assert abandoned[..|abandoned|] == abandoned;
      lineage := lineage + [child.digest];
      documents := documents[child.digest := child];
      while |lineage| > MAX_PREVIEW_DOCUMENTS
        invariant Trimmed(Snapshot()) == WithChild(old(Snapshot()), base, child)
        decreases |lineage|
      {
        var oldest := lineage[0];
        lineage := lineage[1..];
        documents := documents - {oldest};
      }
      return true;
    }

    method CommitValueEdit(request: Request, planKey: string) returns (answer: Answer<EditResult>)
      modifies this
      ensures (answer, Snapshot()) == Committed(hashes, old(Snapshot()), request, planKey)
    {
      if request.digest !in documents {
        return Refused("base not available");
      }
      var document := documents[request.digest];
      var plan := PreviewPlan(hashes, document, request);
      if plan.None? || plan.value.key != planKey {
        return Refused("plan does not match");
      }
      var child := Child(document, plan.value, hashes.child(planKey));
      var retained := RetainPreviewChild(document.digest, child);
      if !retained {
        return Refused("base left the lineage");
      }
      return Given(EditResult(child, Evidence(plan.value, child.digest, child.revision)));
    }
  }

  // ---------------------------------------------------------------- what the bridge keeps

  ghost predicate Distinct(digests: seq<string>)
  {
    forall i, j :: 0 <= i < j < |digests| ==> digests[i] != digests[j]
  }

  /** The retained documents are exactly those of the lineage, each once and under its own digest. */
  ghost predicate Sound(b: Retained)
  {
    && 1 <= |b.lineage| <= MAX_PREVIEW_DOCUMENTS
    && Distinct(b.lineage)
    && (forall d :: d in b.documents <==> d in b.lineage)
    && forall d :: d in b.documents ==> b.documents[d].digest == d
  }

  lemma {:induction false} ResetIsSound(document: Document)
    ensures Sound(Reset(document))
  {
  }

  ghost predicate SoundUpTo(b: Retained, limit: nat)
  {
    && 1 <= |b.lineage| <= limit
    && Distinct(b.lineage)
    && (forall d :: d in b.documents <==> d in b.lineage)
    && forall d :: d in b.documents ==> b.documents[d].digest == d
  }

  lemma {:induction false} TrimmedOnce(b: Retained)
    requires SoundUpTo(b, MAX_PREVIEW_DOCUMENTS + 1)
    ensures Sound(Trimmed(b))
    ensures Trimmed(b).lineage == b.lineage[if |b.lineage| > MAX_PREVIEW_DOCUMENTS then 1 else 0..]
    ensures forall d :: d in Trimmed(b).documents ==> d in b.documents && Trimmed(b).documents[d] == b.documents[d]
  {
    if |b.lineage| > MAX_PREVIEW_DOCUMENTS {
      var rest := Retained(b.documents - {b.lineage[0]}, b.lineage[1..]);
      assert Trimmed(b) == Trimmed(rest) == rest;
      forall d
        ensures d in rest.documents <==> d in rest.lineage
      {
        assert d in b.lineage <==> d == b.lineage[0] || d in b.lineage[1..];
      }
    }
  }

  /** The retained state with the child appended and nothing dropped yet from the front. */
  ghost function Longer(b: Retained, base: string, child: Document): Retained
    requires base in b.lineage
  {
    Retained((b.documents - Members(b.lineage[|Kept(b, base)|..]))[child.digest := child],
             Kept(b, base) + [child.digest])
  }

  lemma {:induction false} TrimLonger(b: Retained, base: string, child: Document)
    requires Sound(b) && base in b.lineage
    ensures var longer := Longer(b, base, child);
            WithChild(b, base, child) ==
            if |longer.lineage| <= MAX_PREVIEW_DOCUMENTS then longer
            else Retained(longer.documents - {longer.lineage[0]}, longer.lineage[1..])
  {
    var longer := Longer(b, base, child);
    assert WithChild(b, base, child) == Trimmed(longer);
    if |longer.lineage| > MAX_PREVIEW_DOCUMENTS {
      var rest := Retained(longer.documents - {longer.lineage[0]}, longer.lineage[1..]);
      assert Trimmed(longer) == Trimmed(rest);
    }
  }

  lemma {:induction false} SplitDistinct(kept: seq<string>, abandoned: seq<string>)
    requires Distinct(kept + abandoned)
    ensures Distinct(kept)
    ensures forall d :: d in kept ==> d !in abandoned
  {
    var all := kept + abandoned;
    assert forall i :: 0 <= i < |kept| ==> all[i] == kept[i];
    forall d | d in kept
      ensures d !in abandoned
    {
      var i :| 0 <= i < |kept| && kept[i] == d;
      assert forall j :: 0 <= j < |abandoned| ==> all[i] != all[|kept| + j] == abandoned[j];
    }
  }

  lemma {:induction false} SplitIsSound(
    documents: map<string, Document>, kept: seq<string>, abandoned: seq<string>, child: Document)
    requires Sound(Retained(documents, kept + abandoned)) && child.digest !in kept
    ensures SoundUpTo(Retained((documents - Members(abandoned))[child.digest := child], kept + [child.digest]),
                      MAX_PREVIEW_DOCUMENTS + 1)
  {
    SplitDistinct(kept, abandoned);
    var longer := kept + [child.digest];
    assert Distinct(longer);
    forall d
      ensures d in (documents - Members(abandoned))[child.digest := child] <==> d in longer
    {
      assert d in kept + abandoned <==> d in kept || d in abandoned;
    }
  }

  lemma {:induction false} LongerIsSound(b: Retained, base: string, child: Document)
    requires Sound(b) && base in b.lineage && child.digest !in Kept(b, base)
    ensures var longer := Longer(b, base, child);
            && SoundUpTo(longer, MAX_PREVIEW_DOCUMENTS + 1)
            && child.digest in longer.documents && longer.documents[child.digest] == child
            && forall d :: d in longer.documents && d != child.digest ==>
                             d in b.documents && longer.documents[d] == b.documents[d]
  {
    var kept := Kept(b, base);
    var abandoned := b.lineage[|kept|..];
    assert b.lineage == kept + abandoned;
    hide Kept, Sound, SoundUpTo, Distinct;
    SplitIsSound(b.documents, kept, abandoned, child);
  }

  /** Where a lineage that is one too long is cut. */
  ghost function Cut(kept: seq<string>): nat
  {
    if |kept| == MAX_PREVIEW_DOCUMENTS then 1 else 0
  }

  /** What a fresh child's joining comes to. */
  ghost predicate Joins(b: Retained, kept: seq<string>, child: Document, b': Retained)
  {
    && Sound(b')
    && b'.lineage == (kept + [child.digest])[Cut(kept)..]
    && child.digest in b'.documents && b'.documents[child.digest] == child
    && forall d :: d in b'.lineage && d != child.digest ==>
                     d in b.documents && d in b'.documents && b'.documents[d] == b.documents[d]
  }

  /** Trimming the longer state keeps what it holds. */
  lemma {:induction false} TrimmedJoins(b: Retained, kept: seq<string>, child: Document, longer: Retained)
    requires SoundUpTo(longer, MAX_PREVIEW_DOCUMENTS + 1) && longer.lineage == kept + [child.digest]
    requires child.digest in longer.documents && longer.documents[child.digest] == child
    requires forall d :: d in longer.documents && d != child.digest ==>
                           d in b.documents && longer.documents[d] == b.documents[d]
    ensures Joins(b, kept, child, Trimmed(longer))
  {
    TrimmedOnce(longer);
    hide Trimmed, Distinct;
    var b' := Trimmed(longer);
    assert b'.lineage[|b'.lineage| - 1] == child.digest;
    forall d | d in b'.lineage && d != child.digest
      ensures d in b.documents && d in b'.documents && b'.documents[d] == b.documents[d]
    {
      assert d in b'.documents && d in longer.documents;
    }
  }

  /** A fresh child joins a sound lineage soundly, and the documents before it stay as they are. */
  lemma {:induction false} FreshChild(b: Retained, base: string, child: Document)
    requires Sound(b) && base in b.lineage && child.digest !in Kept(b, base)
    ensures Joins(b, Kept(b, base), child, WithChild(b, base, child))
  {
    assert WithChild(b, base, child) == Trimmed(Longer(b, base, child));
    LongerIsSound(b, base, child);
    assert Longer(b, base, child).lineage == Kept(b, base) + [child.digest];
    hide Sound, SoundUpTo, Kept, WithChild, Trimmed, Longer, Joins;
    TrimmedJoins(b, Kept(b, base), child, Longer(b, base, child));
  }

  lemma {:induction false} SoundLineage(b: Retained)
    requires Sound(b)
    ensures Distinct(b.lineage) && |b.lineage| <= MAX_PREVIEW_DOCUMENTS
    ensures forall d :: d in b.documents <==> d in b.lineage
  {
  }

  lemma {:induction false} ChildLineage(b: Retained, base: string, child: Document)
    requires Sound(b) && base in b.lineage && child.digest !in Kept(b, base)
    ensures WithChild(b, base, child).lineage == (Kept(b, base) + [child.digest])[Cut(Kept(b, base))..]
    ensures Sound(WithChild(b, base, child)) && child.digest in WithChild(b, base, child).documents
  {
    FreshChild(b, base, child);
    hide Sound, Kept, WithChild;
  }

  /** Of the digests not kept, only the child's is retained. */
  lemma {:induction false} OnlyChildJoins(b: Retained, base: string, child: Document, digest: string)
    requires Sound(b) && base in b.lineage && child.digest !in Kept(b, base) && digest !in Kept(b, base)
    ensures digest in WithChild(b, base, child).documents <==> digest == child.digest
  {
    ChildLineage(b, base, child);
    SoundLineage(WithChild(b, base, child));
    hide *;
    var b', kept := WithChild(b, base, child), Kept(b, base);
    if digest in b'.lineage {
      var k :| 0 <= k < |b'.lineage| && b'.lineage[k] == digest;
      assert (kept + [child.digest])[k + Cut(kept)] == digest;
    }
  }

  /** A child whose digest is not fresh breaks the lineage. */
  lemma {:induction false} StaleChild(b: Retained, base: string, child: Document)
    requires Sound(b) && base in b.lineage && child.digest in Kept(b, base)
    ensures !Sound(WithChild(b, base, child))
  {
    var kept, b' := Kept(b, base), WithChild(b, base, child);
    TrimLonger(b, base, child);
    hide Kept, WithChild;
    var k :| 0 <= k < |kept| && kept[k] == child.digest;
    if |kept| < MAX_PREVIEW_DOCUMENTS {
      assert b'.lineage[k] == b'.lineage[|kept|];
    } else if k == 0 {
      assert child.digest !in b'.documents && b'.lineage[|kept| - 1] == child.digest;
    } else {
      assert b'.lineage[k - 1] == b'.lineage[|kept| - 1];
    }
  }

  /**
   Retaining a child keeps the bridge sound exactly when its digest is fresh: not one of those
   up to the base.
   */
  lemma {:induction false} WithChildIsSound(b: Retained, base: string, child: Document)
    requires Sound(b) && base in b.lineage
    ensures Sound(WithChild(b, base, child)) <==> child.digest !in Kept(b, base)
  {
    if child.digest in Kept(b, base) {
      StaleChild(b, base, child);
    } else {
      FreshChild(b, base, child);
    }
  }

  /** A child with its base's own digest, for one, is not fresh. */
  lemma {:induction false} EqualDigestBreaksBridge(document: Document, child: Document)
    requires child.digest == document.digest
    ensures Sound(Reset(document)) && !Sound(WithChild(Reset(document), document.digest, child))
  {
    ResetIsSound(document);
    assert Kept(Reset(document), document.digest) == [document.digest];
    StaleChild(Reset(document), document.digest, child);
  }
}
