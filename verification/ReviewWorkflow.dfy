/**
 The five operations on the store: generate, request review, request changes, approve, revise.
 Each is a method on a store, and each is described by an `Op`: the choices it made (which
 record it found, the time stamps, the new artifact id) and the file writes these lead to.
 */
module ReviewWorkflow {
  import opened Wrappers
  import Collections
  import opened Slugs
  import opened DocumentControl
  import opened WorkProducts
  import opened ArtifactStore

  datatype Op =
    | Generate(wp: WorkProduct, project: string, artifactId: string, author: string, reviewer: string,
               allowMissing: bool, picks: seq<Option<Metadata>>, now: Time, content: string)
    | RequestReview(target: Metadata, newReviewer: string, now: Time)
    | RequestChanges(target: Metadata, changes: seq<string>, now: Time)
    | Approve(target: Metadata, newReviewer: string, notes: string, approvedAt: Time, now: Time)
    | Revise(target: Metadata, text: string, changes: seq<string>, newAuthor: string, createdAt: Time, now: Time)

  /** No stored record bears this id: how new artifact ids are assumed to come out. */
  ghost predicate FreshId(fs: FileSystem, artifactId: string) {
    LatestById(fs, artifactId, None)
  }

  /** The operation gets past its checks on this file system, and the choices are ones it could make. */
  ghost predicate Enabled(fs: FileSystem, op: Op) {
    match op
    case Generate(wp, project, artifactId, _, _, allowMissing, picks, _, _) =>
      && |picks| == |Upstream(wp)|
      && (forall i | 0 <= i < |picks| :: LatestApproved(fs, NormalizeProjectSlug(project), Upstream(wp)[i], picks[i]))
      && (Missing(Upstream(wp), picks) != [] ==> allowMissing)
      && FreshId(fs, artifactId)
    case _ => LatestById(fs, op.target.artifactId, Some(op.target))
  }

  function GeneratedMetadata(op: Op): Metadata
    requires op.Generate? && |op.picks| == |Upstream(op.wp)|
  {
    var upstream := if Missing(Upstream(op.wp), op.picks) == [] then Found(op.picks) else [];
    BuildMetadata(NormalizeProjectSlug(op.project), Phase(op.wp), WpId(op.wp), Title(op.wp), op.author, op.reviewer,
                  UpstreamRefs(upstream), op.artifactId, 1, None, [], op.now)
  }

  function WithReviewer(m: Metadata, reviewer: string): Metadata {
    if reviewer == "" then m else m.(reviewer := reviewer)
  }

  function RevisedMetadata(op: Op): Metadata
    requires op.Revise?
  {
    var m := op.target;
    BuildMetadata(m.projectSlug, m.phase, m.wpId, m.title, if op.newAuthor == "" then m.author else op.newAuthor,
                  m.reviewer, m.upstreamRefs, m.artifactId, m.version + 1,
                  Some(VersionRef(m.artifactId, m.version)), op.changes, op.createdAt)
  }

  function RevisedContent(op: Op): string
    requires op.Revise?
  {
    ReplaceDocumentControl(op.text, RenderDocumentControl(ControlFieldsOf(RevisedMetadata(op))))
  }

  /** The metadata written back to the file of the record the operation found. */
  function UpdatedMetadata(op: Op): Metadata
    requires !op.Generate?
  {
    match op
    case RequestReview(m, reviewer, now) =>
      RecordStatusChange(WithReviewer(m, reviewer), InReview, "review requested", now)
    case RequestChanges(m, changes, now) =>
      RecordStatusChange(m.(changeRequests := changes), Draft, "changes requested", now)
    case Approve(m, reviewer, notes, approvedAt, now) =>
      RecordStatusChange(WithReviewer(m, reviewer).(reviewNotes := notes, approvedAt := approvedAt, locked := true),
                         Approved, "approved", now)
    case Revise(m, _, _, _, _, now) =>
      RecordStatusChange(m, Superseded, "superseded by v" + FileNames.FormatVersion(m.version + 1), now)
      .(supersededBy := Some(VersionRef(m.artifactId, m.version + 1)))
  }

  /** The file writes of an operation, in order. */
  function Writes(op: Op): seq<Write>
    requires op.Generate? ==> |op.picks| == |Upstream(op.wp)|
  {
    match op
    case Generate(_, _, _, _, _, _, _, _, content) => SaveWrites(GeneratedMetadata(op), content)
    case Revise(_, _, _, _, _, _) =>
      SaveWrites(RevisedMetadata(op), RevisedContent(op)) + [UpdateWrite(UpdatedMetadata(op))]
    case _ => [UpdateWrite(UpdatedMetadata(op))]
  }

  lemma ApplyThen(fs: FileSystem, writes: seq<Write>, write: Write)
    ensures Apply(Apply(fs, writes), [write]) == Apply(fs, writes + [write])
  {
    ApplySnoc(Apply(fs, writes), [], write);
    assert [] + [write] == [write];
    ApplySnoc(fs, writes, write);
  }

  datatype Reply = NotFound | Done(metadata: Metadata)

  method RunRequestReview(store: Store, artifactId: string, reviewer: string, now: Time)
    returns (reply: Reply, ghost target: Option<Metadata>)
    modifies store
    ensures LatestById(old(store.files), artifactId, target)
    ensures target.None? ==> reply.NotFound? && store.files == old(store.files)
    ensures target.Some? ==> var op := RequestReview(target.value, reviewer, now);
              reply == Done(UpdatedMetadata(op)) && store.files == Apply(old(store.files), Writes(op))
  {
    var found := store.GetLatestById(artifactId);
    target := found;
    if found.None? {
      return NotFound, target;
    }
    var metadata := found.value;
    if reviewer != "" {
      metadata := metadata.(reviewer := reviewer);
    }
    metadata := RecordStatusChange(metadata, InReview, "review requested", now);
    store.UpdateMetadata(metadata);
    reply := Done(metadata);
  }

  method RunRequestChanges(store: Store, artifactId: string, changes: seq<string>, now: Time)
    returns (reply: Reply, ghost target: Option<Metadata>)
    modifies store
    ensures LatestById(old(store.files), artifactId, target)
    ensures target.None? ==> reply.NotFound? && store.files == old(store.files)
    ensures target.Some? ==> var op := RequestChanges(target.value, changes, now);
              reply == Done(UpdatedMetadata(op)) && store.files == Apply(old(store.files), Writes(op))
  {
    var found := store.GetLatestById(artifactId);
    target := found;
    if found.None? {
      return NotFound, target;
    }
    var metadata := found.value;
    metadata := metadata.(changeRequests := changes);
    metadata := RecordStatusChange(metadata, Draft, "changes requested", now);
    store.UpdateMetadata(metadata);
    reply := Done(metadata);
  }

  method RunApprove(store: Store, artifactId: string, reviewer: string, notes: string, approvedAt: Time, now: Time)
    returns (reply: Reply, ghost target: Option<Metadata>)
    modifies store
    ensures LatestById(old(store.files), artifactId, target)
    ensures target.None? ==> reply.NotFound? && store.files == old(store.files)
    ensures target.Some? ==> var op := Approve(target.value, reviewer, notes, approvedAt, now);
              reply == Done(UpdatedMetadata(op)) && store.files == Apply(old(store.files), Writes(op))
  {
    var found := store.GetLatestById(artifactId);
    target := found;
    if found.None? {
      return NotFound, target;
    }
    var metadata := found.value;
    if reviewer != "" {
      metadata := metadata.(reviewer := reviewer);
    }
    metadata := metadata.(reviewNotes := notes);
    metadata := metadata.(approvedAt := approvedAt);
    metadata := metadata.(locked := true);
    metadata := RecordStatusChange(metadata, Approved, "approved", now);
    store.UpdateMetadata(metadata);
    reply := Done(metadata);
  }

  method RunRevise(store: Store, artifactId: string, text: string, changes: seq<string>, author: string,
                   createdAt: Time, now: Time)
    returns (reply: Reply, ghost target: Option<Metadata>)
    modifies store
    ensures LatestById(old(store.files), artifactId, target)
    ensures target.None? ==> reply.NotFound? && store.files == old(store.files)
    ensures target.Some? ==> var op := Revise(target.value, text, changes, author, createdAt, now);
              reply == Done(Located(RevisedMetadata(op))) && store.files == Apply(old(store.files), Writes(op))
  {
    var found := store.GetLatestById(artifactId);
    target := found;
    if found.None? {
      return NotFound, target;
    }
    hide DocumentControl.ReplaceDocumentControl, DocumentControl.RenderDocumentControl, WorkProducts.ControlFieldsOf, ArtifactStore.IsLatest, FileNames.FormatVersion,
      ArtifactStore.Apply, ArtifactStore.SaveWrites, ArtifactStore.UpdateWrite;
    var previous := found.value;
    ghost var op := Revise(previous, text, changes, author, createdAt, now);
    var newVersion := previous.version + 1;
    var newMeta := BuildMetadata(previous.projectSlug, previous.phase, previous.wpId, previous.title,
                                 if author == "" then previous.author else author, previous.reviewer,
                                 previous.upstreamRefs, previous.artifactId, newVersion,
                                 Some(VersionRef(previous.artifactId, previous.version)), changes, createdAt);
    assert newMeta == RevisedMetadata(op);
    var block := RenderDocumentControl(ControlFieldsOf(newMeta));
    var updatedContent := ReplaceDocumentControl(text, block);
    assert updatedContent == RevisedContent(op);
    var saved := store.SaveArtifact(newMeta, updatedContent);
    previous := RecordStatusChange(previous, Superseded, "superseded by v" + FileNames.FormatVersion(newVersion), now);
    previous := previous.(supersededBy := Some(VersionRef(newMeta.artifactId, newVersion)));
    assert previous == UpdatedMetadata(op);
    store.UpdateMetadata(previous);
    hide RevisedMetadata, RevisedContent, UpdatedMetadata, WorkProducts.BuildMetadata, WorkProducts.RecordStatusChange;
    ApplyThen(old(store.files), SaveWrites(newMeta, updatedContent), UpdateWrite(previous));
    reply := Done(saved);
  }

  /** What a phase plugin's generator is given besides the project. */
  datatype Request = Request(
    fields: map<string, string>, reviewer: string, allowMissing: bool, haraPlugin: bool, haraTable: bool,
    body: string, assumptions: seq<string>, openQuestions: seq<string>, checklist: seq<string>)

  datatype GenerateReply =
    | MissingInputs(fields: seq<string>)
    | NoHaraPlugin
    | NoHaraTable
    | MissingUpstream(wps: seq<WorkProduct>)
    | Created(metadata: Metadata)

  predicate Lacks(fields: map<string, string>, name: string) {
    name !in fields || fields[name] == ""
  }

  function LackingOf(fields: map<string, string>, names: seq<string>): seq<string> {
    if names == [] then []
    else LackingOf(fields, names[..|names| - 1]) + (if Lacks(fields, names[|names| - 1]) then [names[|names| - 1]] else [])
  }

  /** The lacking fields come in the order of the names. */
  lemma {:induction false} LackingInOrder(fields: map<string, string>, a: seq<string>, b: seq<string>)
    ensures LackingOf(fields, a + b) == LackingOf(fields, a) + LackingOf(fields, b)
    decreases |b|
  {
    hide Lacks;
    if b == [] {
      assert a + b == a;
    } else {
      var n := |b| - 1;
      LackingInOrder(fields, a, b[..n]);
      assert (a + b)[..|a| + n] == a + b[..n];
      Collections.ConcatIsAssociative(LackingOf(fields, a), LackingOf(fields, b[..n]), if Lacks(fields, b[n]) then [b[n]] else []);
    }
  }

  lemma LackingOne(fields: map<string, string>, name: string)
    ensures LackingOf(fields, [name]) == if name in fields && fields[name] != "" then [] else [name]
  {
    assert [name][..0] == [];
  }

  function GeneratedContent(metadata: Metadata, request: Request): string {
    RenderDocument(metadata.title, RenderDocumentControl(ControlFieldsOf(metadata)), request.body, request.assumptions,
                   request.openQuestions, BuildTraceabilitySection(metadata.upstreamRefs), request.checklist)
  }

  method CheckFields(fields: map<string, string>, names: seq<string>) returns (missing: seq<string>)
    ensures missing == LackingOf(fields, names)
    ensures missing == [] <==> forall n | n in names :: !Lacks(fields, n)
  {
    missing := [];
    for i := 0 to |names|
      invariant missing == LackingOf(fields, names[..i])
      invariant missing == [] <==> forall n | n in names[..i] :: !Lacks(fields, n)
    {
      if Lacks(fields, names[i]) {
        missing := missing + [names[i]];
      }
      assert names[..i + 1][..i] == names[..i];
      assert names[..i + 1] == names[..i] + [names[i]];
    }
    assert names[..|names|] == names;
  }

  lemma AuthorRequired(wp: WorkProduct)
    ensures "author" in RequiredFields(wp)
  {
    assert RequiredFields(wp)[if wp == SafetyPlan then 2 else 1] == "author";
  }

  /** The operation a generator carries out once it has its inputs and has resolved its upstream. */
  function GenerateOp(wp: WorkProduct, project: string, request: Request, artifactId: string, now: Time,
                      picks: seq<Option<Metadata>>): Op
    requires |picks| == |Upstream(wp)| && "author" in request.fields
  {
    var op := Generate(wp, project, artifactId, request.fields["author"], request.reviewer, request.allowMissing, picks, now, "");
    op.(content := GeneratedContent(GeneratedMetadata(op), request))
  }

  lemma GenerateEnabled(fs: FileSystem, wp: WorkProduct, project: string, request: Request, artifactId: string, now: Time,
                        picks: seq<Option<Metadata>>)
    requires |picks| == |Upstream(wp)| && "author" in request.fields && FreshId(fs, artifactId)
    requires forall i | 0 <= i < |picks| :: LatestApproved(fs, NormalizeProjectSlug(project), Upstream(wp)[i], picks[i])
    requires Missing(Upstream(wp), picks) != [] ==> request.allowMissing
    ensures Enabled(fs, GenerateOp(wp, project, request, artifactId, now, picks))
  {
    hide ArtifactStore.IsLatest, ArtifactStore.Missing, GeneratedMetadata, GeneratedContent, Slugs.NormalizeProjectSlug, WorkProducts.Upstream;
  }

  /** The second half of a generator: build the metadata, render the document, save both. */
  method SaveDraft(store: Store, wp: WorkProduct, project: string, request: Request, artifactId: string, now: Time,
                   upstream: seq<Metadata>, ghost picks: seq<Option<Metadata>>)
    returns (saved: Metadata)
    requires |picks| == |Upstream(wp)| && "author" in request.fields
    requires upstream == if Missing(Upstream(wp), picks) == [] then Found(picks) else []
    modifies store
    ensures var op := GenerateOp(wp, project, request, artifactId, now, picks);
            && saved == Located(GeneratedMetadata(op))
            && store.files == Apply(old(store.files), Writes(op))
  {
    hide ArtifactStore.Apply, ArtifactStore.Found, ArtifactStore.Missing, GeneratedContent, Slugs.NormalizeProjectSlug,
      WorkProducts.Upstream, WorkProducts.Phase, WorkProducts.WpId, WorkProducts.Title, WorkProducts.UpstreamRefs;
    var refs := MakeUpstreamRefs(upstream);
    var metadata := BuildMetadata(NormalizeProjectSlug(project), Phase(wp), WpId(wp), Title(wp), request.fields["author"],
                                  request.reviewer, refs, artifactId, 1, None, [], now);
    var content := GeneratedContent(metadata, request);
    saved := store.SaveArtifact(metadata, content);
  }

  /**
   A generator of one of the phase plugins. The one for the HARA names both its fields when one is
   missing, and needs the HARA plugin and a table made by it.
   */
  method RunGenerate(store: Store, wp: WorkProduct, project: string, request: Request, artifactId: string, now: Time)
    returns (reply: GenerateReply, ghost picks: seq<Option<Metadata>>)
    requires FreshId(store.files, artifactId)
    modifies store
    ensures !reply.Created? ==> store.files == old(store.files)
    ensures reply.MissingInputs? <==> LackingOf(request.fields, RequiredFields(wp)) != []
    ensures reply.MissingInputs? ==>
              reply.fields == if wp == Hara then RequiredFields(wp) else LackingOf(request.fields, RequiredFields(wp))
    ensures reply.NoHaraPlugin? <==> !reply.MissingInputs? && wp == Hara && !request.haraPlugin
    ensures reply.NoHaraTable? <==> !reply.MissingInputs? && !reply.NoHaraPlugin? && wp == Hara && !request.haraTable
    ensures reply.MissingUpstream? <==>
            (&& !reply.MissingInputs? && !reply.NoHaraPlugin? && !reply.NoHaraTable? && !request.allowMissing
             && exists u | u in Upstream(wp) :: LatestApproved(old(store.files), NormalizeProjectSlug(project), u, None))
    ensures reply.MissingUpstream? ==> forall u :: u in reply.wps <==>
              u in Upstream(wp) && LatestApproved(old(store.files), NormalizeProjectSlug(project), u, None)
    ensures reply.Created? ==>
              && |picks| == |Upstream(wp)| && "author" in request.fields
              && var op := GenerateOp(wp, project, request, artifactId, now, picks);
              && Enabled(old(store.files), op)
              && reply.metadata == Located(GeneratedMetadata(op))
              && store.files == Apply(old(store.files), Writes(op))
  {
    hide GenerateOp, GeneratedMetadata, Writes, ArtifactStore.LatestApproved, WorkProducts.RequiredFields, WorkProducts.Upstream;
    picks := [];
    var missingFields := CheckFields(request.fields, RequiredFields(wp));
    if missingFields != [] {
      return MissingInputs(if wp == Hara then RequiredFields(wp) else missingFields), picks;
    }
    AuthorRequired(wp);
    assert !Lacks(request.fields, "author");
    if wp == Hara && !request.haraPlugin {
      return NoHaraPlugin, picks;
    }
    if wp == Hara && !request.haraTable {
      return NoHaraTable, picks;
    }
    var slug := NormalizeProjectSlug(project);
    var upstream, missing;
    upstream, missing, picks := store.ResolveUpstream(slug, Upstream(wp));
    assert missing != [] ==> missing[0] in missing;
    if missing != [] && !request.allowMissing {
      return MissingUpstream(missing), picks;
    }
    if missing != [] {
      upstream := [];
    }
    GenerateEnabled(store.files, wp, project, request, artifactId, now, picks);
    var saved := SaveDraft(store, wp, project, request, artifactId, now, upstream, picks);
    reply := Created(saved);
  }

  /** The text a phase plugin revises: a document it was given, the model's answer, or the current text. */
  method ChooseRevisionText(store: Store, previous: Metadata, revisedDocument: string, changes: seq<string>, answer: Option<string>)
    returns (text: string)
    ensures revisedDocument != "" ==> text == revisedDocument
    ensures revisedDocument == "" && changes != [] && answer.Some? ==> text == Strip(answer.value, IsSpace)
    ensures revisedDocument == "" && (changes == [] || answer.None?) ==>
              var path := if previous.artifactPath.Some? then previous.artifactPath.value else DocumentPath(previous);
              text == if path in store.files && store.files[path].Markdown? then store.files[path].text else ""
  {
    if revisedDocument != "" {
      text := revisedDocument;
    } else {
      text := store.ReadArtifactContent(previous);
      if changes != [] {
        if answer.Some? {
          text := Strip(answer.value, IsSpace);
        }
      }
    }
  }
}
