/** What each operation, once it has run to its end, leaves in the store. */
module OperationEffects {
  import opened Wrappers
  import opened Slugs
  import DocumentControl
  import opened WorkProducts
  import opened ArtifactStore
  import opened ReviewWorkflow
  import opened StoreInvariant
  import opened StoreRuns

  /** The record `a` gave way to `b`, and no other record came, went or changed. */
  ghost predicate Replaced(fs: FileSystem, fs': FileSystem, a: Metadata, b: Metadata) {
    && Stored(fs, a) && a.artifactId == b.artifactId && a.version == b.version && SameHome(a, b) && a.title == b.title
    && forall u :: Stored(fs', u) <==> u == b || (Stored(fs, u) && u != a)
  }

  /** The update of a record that runs to its end. */
  lemma Updates(fs: FileSystem, op: Op)
    requires Inv(fs) && !op.Generate? && !op.Revise? && Enabled(fs, op)
    ensures |Writes(op)| == 1 && Inv(After(fs, op, 1)) && Replaced(fs, After(fs, op, 1), op.target, UpdatedMetadata(op))
  {
    hide ReviewWorkflow.Writes, ReviewWorkflow.Enabled, ReviewWorkflow.UpdatedMetadata, StoreRuns.After, StoreInvariant.Inv,
      StoreInvariant.Extends, StoreInvariant.Stored;
    WritesCounted(fs, op);
    TargetIsLatest(fs, op);
    UpdateEvolves(op);
    ReviewSteps(fs, op);
  }

  /**
   Approving makes the latest version approved and locked, with the date, the notes and the reviewer
   given, or else the one it had; the approval is the last entry of its history.
   */
  lemma ApprovalApproves(fs: FileSystem, op: Op) returns (m: Metadata)
    requires Inv(fs) && op.Approve? && Enabled(fs, op)
    ensures |Writes(op)| == 1 && Replaced(fs, After(fs, op, 1), op.target, m)
    ensures m.status == Approved && m.locked && m.approvedAt == op.approvedAt && m.reviewNotes == op.notes
    ensures m.reviewer == if op.newReviewer != "" then op.newReviewer else op.target.reviewer
    ensures m.statusHistory == op.target.statusHistory + [StatusEntry(Approved, op.now, "approved")] && m.updatedAt == op.now
    ensures m.author == op.target.author && m.changeRequests == op.target.changeRequests && m.upstreamRefs == op.target.upstreamRefs
  {
    hide ReviewWorkflow.Writes, ReviewWorkflow.Enabled, StoreRuns.After, StoreInvariant.Inv, Replaced;
    Updates(fs, op);
    m := UpdatedMetadata(op);
  }

  /** Requesting a review puts the latest version in review, with the reviewer given or else the one it had. */
  lemma ReviewIsRequested(fs: FileSystem, op: Op) returns (m: Metadata)
    requires Inv(fs) && op.RequestReview? && Enabled(fs, op)
    ensures |Writes(op)| == 1 && Replaced(fs, After(fs, op, 1), op.target, m)
    ensures m.status == InReview && m.reviewer == if op.newReviewer != "" then op.newReviewer else op.target.reviewer
    ensures m.statusHistory == op.target.statusHistory + [StatusEntry(InReview, op.now, "review requested")] && m.updatedAt == op.now
    ensures m.locked == op.target.locked && m.approvedAt == op.target.approvedAt && m.reviewNotes == op.target.reviewNotes
    ensures m.author == op.target.author && m.changeRequests == op.target.changeRequests && m.upstreamRefs == op.target.upstreamRefs
  {
    hide ReviewWorkflow.Writes, ReviewWorkflow.Enabled, StoreRuns.After, StoreInvariant.Inv, Replaced;
    Updates(fs, op);
    m := UpdatedMetadata(op);
  }

  /** Requesting changes makes the latest version a draft again, with these change requests. */
  lemma ChangesAreRequested(fs: FileSystem, op: Op) returns (m: Metadata)
    requires Inv(fs) && op.RequestChanges? && Enabled(fs, op)
    ensures |Writes(op)| == 1 && Replaced(fs, After(fs, op, 1), op.target, m)
    ensures m.status == Draft && m.changeRequests == op.changes
    ensures m.statusHistory == op.target.statusHistory + [StatusEntry(Draft, op.now, "changes requested")] && m.updatedAt == op.now
    ensures m.locked == op.target.locked && m.approvedAt == op.target.approvedAt && m.reviewNotes == op.target.reviewNotes
    ensures m.author == op.target.author && m.reviewer == op.target.reviewer && m.upstreamRefs == op.target.upstreamRefs
  {
    hide ReviewWorkflow.Writes, ReviewWorkflow.Enabled, StoreRuns.After, StoreInvariant.Inv, Replaced;
    Updates(fs, op);
    m := UpdatedMetadata(op);
  }

  /** A new version: a draft that nobody has looked at yet. */
  ghost predicate NewDraft(m: Metadata, now: Time) {
    && m.status == Draft && m.statusHistory == [StatusEntry(Draft, now, "created")]
    && m.createdAt == now && m.updatedAt == now && !m.locked && m.approvedAt == "" && m.reviewNotes == ""
    && m.supersededBy == None
  }

  /** What the store holds once a generator has run to its end. */
  lemma Generates(fs: FileSystem, op: Op)
    requires Inv(fs) && op.Generate? && Enabled(fs, op)
    ensures |Writes(op)| == 2
    ensures var fs', m := After(fs, op, 2), SavedBy(op);
            && Inv(fs') && (forall u :: Stored(fs', u) <==> u == m || Stored(fs, u))
            && DocumentPath(m) in fs' && fs'[DocumentPath(m)] == Markdown(op.content)
  {
    hide ReviewWorkflow.Enabled, StoreRuns.After, StoreInvariant.Inv, StoreInvariant.Stored, StoreInvariant.Extends;
    PicksCounted(fs, op);
    WritesCounted(fs, op);
    GenerateSteps(fs, op);
    AfterSaving(fs, op);
    PathsApart(SavedBy(op), SavedBy(op));
  }

  /**
   Generating stores version 1 under the new id: a draft in the project of the given name with the
   author and the reviewer given, the document beside it, and, when nothing was missing, a reference
   to the approved version found for each required work product, in order.
   */
  lemma GenerationSaves(fs: FileSystem, op: Op) returns (m: Metadata)
    requires Inv(fs) && op.Generate? && Enabled(fs, op)
    ensures |Writes(op)| == 2
    ensures var fs' := After(fs, op, 2);
            && (forall u :: Stored(fs', u) <==> u == m || Stored(fs, u))
            && DocumentPath(m) in fs' && fs'[DocumentPath(m)] == Markdown(op.content)
    ensures NewDraft(m, op.now) && m.artifactId == op.artifactId && m.version == 1 && m.supersedes == None
    ensures m.projectSlug == NormalizeProjectSlug(op.project) && m.phase == Phase(op.wp) && m.wpId == WpId(op.wp) && m.title == Title(op.wp)
    ensures m.author == op.author && m.reviewer == op.reviewer && m.changeRequests == []
    ensures Missing(Upstream(op.wp), op.picks) != [] ==> m.upstreamRefs == []
    ensures Missing(Upstream(op.wp), op.picks) == [] ==>
              && |m.upstreamRefs| == |op.picks|
              && forall i | 0 <= i < |op.picks| :: op.picks[i].Some? &&
                   var u := op.picks[i].value;
                   m.upstreamRefs[i] == UpstreamRef(u.artifactId, WpId(Upstream(op.wp)[i]), u.title, u.version, Approved)
  {
    hide *;
    PicksCounted(fs, op);
    m := SavedBy(op);
    Generates(fs, op);
    SavedFields(op);
    SavedRefs(fs, op);
  }

  /**
   What a request makes of a generator: the author and the reviewer given, and a document with the
   control block of the new version, the body, the request's lists and the traces, each in its section.
   */
  lemma RequestIsFollowed(wp: WorkProduct, project: string, request: Request, artifactId: string, now: Time, picks: seq<Option<Metadata>>)
    requires |picks| == |Upstream(wp)| && "author" in request.fields
    ensures var op := GenerateOp(wp, project, request, artifactId, now, picks);
            var m := SavedBy(op);
            && op.Generate? && op.wp == wp && op.project == project && op.artifactId == artifactId && op.picks == picks && op.now == now
            && op.author == request.fields["author"] && op.reviewer == request.reviewer && op.allowMissing == request.allowMissing
            && var a, q, c := "## Assumptions\n" + DocumentControl.FormatBullets(request.assumptions),
                              "## Open Questions\n" + DocumentControl.FormatBullets(request.openQuestions),
                              "## Review Checklist\n" + DocumentControl.FormatBullets(request.checklist);
               var sections := a + ("\n\n" + (q + ("\n\n" + (BuildTraceabilitySection(m.upstreamRefs) + ("\n\n" + c)))));
               op.content == "# " + Title(wp) + ("\n\n" + (DocumentControl.RenderDocumentControl(ControlFieldsOf(m)) + ("\n\n" +
                             (if request.body == "" then sections else request.body + ("\n\n" + sections)))))
  {
    var op := GenerateOp(wp, project, request, artifactId, now, picks);
    var m := SavedBy(op);
    ContentOf(op, request);
    hide GeneratedContent, DocumentControl.RenderDocumentControl, WorkProducts.BuildTraceabilitySection, DocumentControl.FormatBullets,
      ArtifactStore.Missing, ArtifactStore.Found, Slugs.NormalizeProjectSlug, WorkProducts.Title, WorkProducts.Upstream;
    NonEmptyParts(m);
    DocumentControl.DocumentSpelled(Title(wp), DocumentControl.RenderDocumentControl(ControlFieldsOf(m)), request.body, request.assumptions,
                                    request.openQuestions, BuildTraceabilitySection(m.upstreamRefs), request.checklist);
  }

  lemma ContentOf(op: Op, request: Request)
    requires op.Generate? && |op.picks| == |Upstream(op.wp)|
    ensures var m := SavedBy(op);
            GeneratedContent(GeneratedMetadata(op.(content := "")), request) ==
            DocumentControl.RenderDocument(Title(op.wp), DocumentControl.RenderDocumentControl(ControlFieldsOf(m)), request.body,
                                           request.assumptions, request.openQuestions, BuildTraceabilitySection(m.upstreamRefs), request.checklist)
  {
    hide DocumentControl.RenderDocument, DocumentControl.RenderDocumentControl, WorkProducts.BuildTraceabilitySection,
      WorkProducts.SummarizeUpstream, ArtifactStore.Missing, ArtifactStore.Found, Slugs.NormalizeProjectSlug, WorkProducts.Title,
      WorkProducts.Upstream, WorkProducts.Phase, WorkProducts.WpId;
    var g, m := GeneratedMetadata(op.(content := "")), SavedBy(op);
    assert g == GeneratedMetadata(op);
    assert ControlFieldsOf(g) == ControlFieldsOf(m);
  }

  lemma NonEmptyParts(m: Metadata)
    ensures DocumentControl.RenderDocumentControl(ControlFieldsOf(m)) != "" && BuildTraceabilitySection(m.upstreamRefs) != ""
  {
    DocumentControl.RenderedBlock(ControlFieldsOf(m));
    hide DocumentControl.RenderDocumentControl, SummarizeUpstream;
    var refs := m.upstreamRefs;
    if refs != [] {
      var n := |refs| - 1;
      assert refs == refs[..n] + [refs[n]];
      TraceabilityLines(refs[..n], refs[n]);
    } else {
      TraceabilityLines([], UpstreamRef("", "", "", 0, Draft));
    }
  }

  lemma SavedFields(op: Op)
    requires op.Generate? && |op.picks| == |Upstream(op.wp)|
    ensures var m := SavedBy(op);
            && NewDraft(m, op.now) && m.artifactId == op.artifactId && m.version == 1 && m.supersedes == None
            && m.projectSlug == NormalizeProjectSlug(op.project) && m.phase == Phase(op.wp) && m.wpId == WpId(op.wp)
            && m.title == Title(op.wp) && m.author == op.author && m.reviewer == op.reviewer && m.changeRequests == []
  {
    hide Slugs.NormalizeProjectSlug, ArtifactStore.Missing, ArtifactStore.Found, WorkProducts.Upstream;
    NormalizeIdempotent(op.project);
  }

  lemma SavedRefs(fs: FileSystem, op: Op)
    requires Inv(fs) && op.Generate? && Enabled(fs, op)
    ensures Missing(Upstream(op.wp), op.picks) != [] ==> SavedBy(op).upstreamRefs == []
    ensures Missing(Upstream(op.wp), op.picks) == [] ==>
              && |SavedBy(op).upstreamRefs| == |op.picks|
              && forall i | 0 <= i < |op.picks| :: op.picks[i].Some? &&
                   var u := op.picks[i].value;
                   SavedBy(op).upstreamRefs[i] == UpstreamRef(u.artifactId, WpId(Upstream(op.wp)[i]), u.title, u.version, Approved)
  {
    hide StoreInvariant.Inv, StoreInvariant.Stored, ArtifactStore.LatestApproved, ArtifactStore.Found, ArtifactStore.Missing,
      Slugs.NormalizeProjectSlug, WorkProducts.Upstream, WorkProducts.WpId;
    NormalizeIdempotent(op.project);
    if Missing(Upstream(op.wp), op.picks) == [] {
      AllFound(Upstream(op.wp), op.picks);
      forall i | 0 <= i < |op.picks|
        ensures var u := op.picks[i].value; u.wpId == WpId(Upstream(op.wp)[i]) && u.status == Approved
      {
        PickIsApproved(fs, NormalizeProjectSlug(op.project), Upstream(op.wp)[i], op.picks[i].value);
      }
    }
  }

  lemma PickIsApproved(fs: FileSystem, project: string, wp: WorkProduct, u: Metadata)
    requires Inv(fs) && project != "" && LatestApproved(fs, project, wp, Some(u))
    ensures Stored(fs, u) && u.wpId == WpId(wp) && u.status == Approved
  {
    hide StoreInvariant.Inv, StoreInvariant.Stored, ArtifactStore.Listed, ArtifactStore.Scope;
    ListedForWorkProduct(fs, project, wp, u);
  }

  /**
   Revising stores the next version: a draft by the author given, or else the old one, with these
   change requests, everything else about the work product kept; its document is the given text with
   the control block of the new version; and the version before it is superseded by it.
   */
  lemma RevisionSaves(fs: FileSystem, op: Op) returns (m: Metadata, previous: Metadata)
    requires Inv(fs) && op.Revise? && Enabled(fs, op)
    ensures |Writes(op)| == 3
    ensures var fs' := After(fs, op, 3);
            && (forall u :: Stored(fs', u) <==> u == previous || u == m || (Stored(fs, u) && u != op.target))
            && DocumentPath(m) in fs'
            && fs'[DocumentPath(m)] == Markdown(DocumentControl.ReplaceDocumentControl(op.text, DocumentControl.RenderDocumentControl(ControlFieldsOf(m))))
    ensures NewDraft(m, op.createdAt) && m.artifactId == op.target.artifactId && m.version == op.target.version + 1
    ensures m.supersedes == Some(VersionRef(op.target.artifactId, op.target.version))
    ensures SameHome(m, op.target) && m.title == op.target.title && m.upstreamRefs == op.target.upstreamRefs
    ensures m.author == (if op.newAuthor != "" then op.newAuthor else op.target.author)
    ensures m.reviewer == op.target.reviewer && m.changeRequests == op.changes
    ensures previous == op.target.(status := Superseded, updatedAt := op.now, supersededBy := Some(VersionRef(m.artifactId, m.version)),
                                   statusHistory := previous.statusHistory)
    ensures previous.statusHistory ==
            op.target.statusHistory + [StatusEntry(Superseded, op.now, "superseded by v" + FileNames.FormatVersion(m.version))]
  {
    m, previous := SavedBy(op), UpdatedMetadata(op);
    RevisionRecords(fs, op);
    RevisionDocument(fs, op);
    hide ReviewWorkflow.Writes, StoreRuns.After, StoreInvariant.Inv, StoreInvariant.Stored, ReviewWorkflow.Enabled,
      ReviewWorkflow.RevisedContent, DocumentControl.ReplaceDocumentControl, DocumentControl.RenderDocumentControl;
  }

  lemma RevisionRecords(fs: FileSystem, op: Op)
    requires Inv(fs) && op.Revise? && Enabled(fs, op)
    ensures |Writes(op)| == 3 && SameHome(SavedBy(op), op.target)
    ensures forall u :: Stored(After(fs, op, 3), u) <==>
              u == UpdatedMetadata(op) || u == SavedBy(op) || (Stored(fs, u) && u != op.target)
  {
    hide ReviewWorkflow.Writes, ReviewWorkflow.Enabled, ReviewWorkflow.UpdatedMetadata, ReviewWorkflow.RevisedMetadata, StoreRuns.After,
      StoreInvariant.Inv, StoreInvariant.Stored, StoreInvariant.RecordOk, StoreInvariant.Extends;
    WritesCounted(fs, op);
    TargetIsLatest(fs, op);
    StoredIsOk(fs, op.target);
    RevisedRecordOk(op);
    ReviseSteps(fs, op);
  }

  /** The document a revision leaves behind. */
  lemma RevisionDocument(fs: FileSystem, op: Op)
    requires Inv(fs) && op.Revise? && Enabled(fs, op)
    ensures |Writes(op)| == 3 && DocumentPath(SavedBy(op)) in After(fs, op, 3)
    ensures After(fs, op, 3)[DocumentPath(SavedBy(op))] ==
            Markdown(DocumentControl.ReplaceDocumentControl(op.text, DocumentControl.RenderDocumentControl(ControlFieldsOf(SavedBy(op)))))
  {
    hide ReviewWorkflow.Writes, ReviewWorkflow.UpdatedMetadata, ReviewWorkflow.RevisedContent, ReviewWorkflow.RevisedMetadata,
      ReviewWorkflow.Enabled, StoreRuns.After, StoreRuns.Addable, StoreInvariant.Inv, StoreInvariant.Stored, StoreInvariant.RecordOk,
      StoreInvariant.HoldsVersion, StoreInvariant.Evolves, ArtifactStore.UpdateWrite, ArtifactStore.DocumentPath,
      ArtifactStore.MetadataPath, StoreRuns.SavedBy, DocumentControl.ReplaceDocumentControl, DocumentControl.RenderDocumentControl,
      WorkProducts.ControlFieldsOf;
    LastWrite(op);
    SavedIsAddable(fs, op);
    AfterNext(fs, op, 2);
    TargetIsLatest(fs, op);
    StoredIsOk(fs, op.target);
    UpdateIsSound(op);
    PathsApart(SavedBy(op), UpdatedMetadata(op));
    PathsApart(SavedBy(op), SavedBy(op));
    SameFields(op);
  }

  /** Where a record is kept is not part of its control block. */
  lemma SameFields(op: Op)
    requires op.Revise?
    ensures RevisedContent(op) == DocumentControl.ReplaceDocumentControl(op.text, DocumentControl.RenderDocumentControl(ControlFieldsOf(SavedBy(op))))
  {
    hide DocumentControl.ReplaceDocumentControl, DocumentControl.RenderDocumentControl, WorkProducts.SummarizeUpstream;
    assert ControlFieldsOf(SavedBy(op)) == ControlFieldsOf(RevisedMetadata(op));
  }
}
