/**
 The versioned store: a document file and a metadata file per version, in a directory per
 project, phase and work product.
 */
module ArtifactStore {
  import opened Wrappers
  import Collections
  import opened Slugs
  import opened FileNames
  import opened WorkProducts

  datatype File = Markdown(text: string) | Json(metadata: Metadata)

  type FileSystem = map<Path, File>

  datatype Write = Write(path: Path, file: File)

  function Apply(fs: FileSystem, writes: seq<Write>): FileSystem {
    if writes == [] then fs
    else
      var last := writes[|writes| - 1];
      Apply(fs, writes[..|writes| - 1])[last.path := last.file]
  }

  /** One more write at the end. */
  lemma ApplySnoc(fs: FileSystem, writes: seq<Write>, w: Write)
    ensures Apply(fs, writes + [w]) == Apply(fs, writes)[w.path := w.file]
  {
    assert (writes + [w])[..|writes|] == writes;
  }

  function DocumentPath(m: Metadata): Path {
    Path(NormalizeProjectSlug(m.projectSlug), m.phase, m.wpId, DocumentName(m.artifactId, m.version))
  }

  function MetadataPath(m: Metadata): Path {
    Path(NormalizeProjectSlug(m.projectSlug), m.phase, m.wpId, MetadataName(m.artifactId, m.version))
  }

  function Located(m: Metadata): Metadata {
    m.(artifactPath := Some(DocumentPath(m)), metadataPath := Some(MetadataPath(m)))
  }

  function SaveWrites(m: Metadata, content: string): seq<Write> {
    [Write(DocumentPath(m), Markdown(content)), Write(MetadataPath(m), Json(Located(m)))]
  }

  function UpdateWrite(m: Metadata): Write {
    if m.metadataPath.Some? then Write(m.metadataPath.value, Json(m)) else Write(MetadataPath(m), Json(Located(m)))
  }

  // ---------- Listing ----------

  /** The directory that listing starts from; an empty argument narrows nothing. */
  function Scope(project: string, phase: string, wpId: string): seq<string> {
    (if project == "" then [] else [NormalizeProjectSlug(project)])
    + (if phase == "" then [] else [phase])
    + (if wpId == "" then [] else [wpId])
  }

  predicate Under(scope: seq<string>, p: Path) {
    scope <= [p.project, p.phase, p.wpId]
  }

  /** The metadata file at `p` is found by listing `scope`, and holds `m`. */
  predicate ListedAt(fs: FileSystem, scope: seq<string>, p: Path, m: Metadata) {
    p in fs && Under(scope, p) && IsMetadataName(p.name) && fs[p] == Json(m)
  }

  ghost predicate Listed(fs: FileSystem, scope: seq<string>, m: Metadata) {
    exists p :: ListedAt(fs, scope, p, m)
  }

  /** What a search for the highest version among the listed metadata may answer. */
  ghost predicate IsLatest(fs: FileSystem, scope: seq<string>, matches: Metadata -> bool, answer: Option<Metadata>) {
    match answer
    case None => forall m | Listed(fs, scope, m) :: !matches(m)
    case Some(latest) =>
      && Listed(fs, scope, latest) && matches(latest)
      && forall m | Listed(fs, scope, m) && matches(m) :: m.version <= latest.version
  }

  function HasId(artifactId: string): Metadata -> bool {
    (m: Metadata) => m.artifactId == artifactId
  }

  function HasStatus(status: Option<Status>): Metadata -> bool {
    (m: Metadata) => status.Some? ==> m.status == status.value
  }

  ghost predicate LatestById(fs: FileSystem, artifactId: string, answer: Option<Metadata>) {
    IsLatest(fs, [], HasId(artifactId), answer)
  }

  ghost predicate LatestApproved(fs: FileSystem, project: string, wp: WorkProduct, answer: Option<Metadata>) {
    IsLatest(fs, Scope(project, Phase(wp), WpId(wp)), HasStatus(Some(Approved)), answer)
  }

  /** The work products found, and those missing, in request order. */
  function Found(picks: seq<Option<Metadata>>): seq<Metadata> {
    if picks == [] then []
    else Found(picks[..|picks| - 1]) + (if picks[|picks| - 1].Some? then [picks[|picks| - 1].value] else [])
  }

  function Missing(wps: seq<WorkProduct>, picks: seq<Option<Metadata>>): seq<WorkProduct>
    requires |wps| == |picks|
  {
    if picks == [] then []
    else
      var n := |picks| - 1;
      Missing(wps[..n], picks[..n]) + (if picks[n].None? then [wps[n]] else [])
  }

  lemma NothingPicked(wps: seq<WorkProduct>)
    ensures Found([]) == [] && Missing(wps[..0], []) == []
  {
  }

  lemma OneMorePick(wps: seq<WorkProduct>, picks: seq<Option<Metadata>>, i: nat, pick: Option<Metadata>)
    requires i < |wps| && |picks| == i
    ensures Found(picks + [pick]) == Found(picks) + (if pick.Some? then [pick.value] else [])
    ensures Missing(wps[..i + 1], picks + [pick]) == Missing(wps[..i], picks) + (if pick.None? then [wps[i]] else [])
  {
    assert (picks + [pick])[..i] == picks && wps[..i + 1][..i] == wps[..i];
  }

  lemma NoneIsFinal(fs: FileSystem, project: string, wp: WorkProduct, answer: Option<Metadata>)
    requires LatestApproved(fs, project, wp, answer) && LatestApproved(fs, project, wp, None)
    ensures answer.None?
  {
  }

  ghost predicate Answered(fs: FileSystem, project: string, wps: seq<WorkProduct>, picks: seq<Option<Metadata>>) {
    |wps| == |picks| && forall i | 0 <= i < |wps| :: LatestApproved(fs, project, wps[i], picks[i])
  }

  /** Every requirement is found or missing. */
  lemma {:induction false} FoundOrMissing(wps: seq<WorkProduct>, picks: seq<Option<Metadata>>)
    requires |wps| == |picks|
    ensures |Found(picks)| + |Missing(wps, picks)| == |wps|
  {
    if picks != [] {
      FoundOrMissing(wps[..|wps| - 1], picks[..|picks| - 1]);
    }
  }

  /** Found and missing come in the order of the requirements. */
  lemma {:induction false} ResolvedInOrder(wps: seq<WorkProduct>, picks: seq<Option<Metadata>>, more: seq<WorkProduct>, others: seq<Option<Metadata>>)
    requires |wps| == |picks| && |more| == |others|
    ensures Found(picks + others) == Found(picks) + Found(others)
    ensures Missing(wps + more, picks + others) == Missing(wps, picks) + Missing(more, others)
    decreases |others|
  {
    if others == [] {
      assert picks + others == picks && wps + more == wps;
    } else {
      var n := |others| - 1;
      ResolvedInOrder(wps, picks, more[..n], others[..n]);
      var found := if others[n].Some? then [others[n].value] else [];
      var missing := if others[n].None? then [more[n]] else [];
      Collections.ConcatIsAssociative(Found(picks), Found(others[..n]), found);
      Collections.ConcatIsAssociative(Missing(wps, picks), Missing(more[..n], others[..n]), missing);
      assert (picks + others)[..|picks| + n] == picks + others[..n] && (wps + more)[..|wps| + n] == wps + more[..n];
    }
  }

  /** What was found is the latest approved version of a requirement. */
  lemma {:induction false} FoundAreApproved(fs: FileSystem, project: string, wps: seq<WorkProduct>, picks: seq<Option<Metadata>>)
    requires Answered(fs, project, wps, picks)
    ensures forall m | m in Found(picks) :: exists wp | wp in wps :: LatestApproved(fs, project, wp, Some(m))
    decreases |wps|
  {
    hide LatestApproved;
    if picks != [] {
      var n := |picks| - 1;
      FoundAreApproved(fs, project, wps[..n], picks[..n]);
      assert LatestApproved(fs, project, wps[n], picks[n]) && wps[n] in wps;
      assert forall wp | wp in wps[..n] :: wp in wps;
    }
  }

  /** What is missing has no approved version at all, and everything required without one is missing. */
  lemma {:induction false} MissingHaveNone(fs: FileSystem, project: string, wps: seq<WorkProduct>, picks: seq<Option<Metadata>>)
    requires Answered(fs, project, wps, picks)
    ensures forall wp :: wp in Missing(wps, picks) <==> wp in wps && LatestApproved(fs, project, wp, None)
    decreases |wps|
  {
    hide LatestApproved;
    if picks != [] {
      var n := |picks| - 1;
      MissingHaveNone(fs, project, wps[..n], picks[..n]);
      assert LatestApproved(fs, project, wps[n], picks[n]);
      if LatestApproved(fs, project, wps[n], None) {
        NoneIsFinal(fs, project, wps[n], picks[n]);
      }
      assert wps == wps[..n] + [wps[n]];
    }
  }

  class Store {
    var files: FileSystem

    constructor ()
      ensures files == map[]
    {
      files := map[];
    }

    method SaveArtifact(metadata: Metadata, content: string) returns (saved: Metadata)
      modifies this
      ensures saved == Located(metadata)
      ensures files == Apply(old(files), SaveWrites(metadata, content))
    {
      var documentPath, metadataPath := DocumentPath(metadata), MetadataPath(metadata);
      saved := metadata.(artifactPath := Some(documentPath));
      saved := saved.(metadataPath := Some(metadataPath));
      files := files[documentPath := Markdown(content)];
      files := files[metadataPath := Json(saved)];
      var writes := SaveWrites(metadata, content);
      ApplySnoc(old(files), [], writes[0]);
      ApplySnoc(old(files), [writes[0]], writes[1]);
      assert [] + [writes[0]] == [writes[0]] && [writes[0]] + [writes[1]] == writes;
    }

    method ListMetadata(project: string, phase: string, wpId: string) returns (metas: seq<Metadata>)
      ensures forall m :: m in metas <==> Listed(files, Scope(project, phase, wpId), m)
    {
      var scope := Scope(project, phase, wpId);
      metas := [];
      var todo := files.Keys;
      while todo != {}
        invariant todo <= files.Keys
        invariant forall m | m in metas :: Listed(files, scope, m)
        invariant forall p, m | ListedAt(files, scope, p, m) :: p in todo || m in metas
        decreases todo
      {
        var p :| p in todo;
        todo := todo - {p};
        if Under(scope, p) && IsMetadataName(p.name) && files[p].Json? {
          assert ListedAt(files, scope, p, files[p].metadata);
          metas := metas + [files[p].metadata];
        }
      }
    }

    /** The first of the highest versions among the listed metadata that match. */
    method LatestOf(metas: seq<Metadata>, matches: Metadata -> bool, ghost scope: seq<string>)
      returns (latest: Option<Metadata>)
      requires forall m :: m in metas <==> Listed(files, scope, m)
      ensures IsLatest(files, scope, matches, latest)
    {
      latest := None;
      for i := 0 to |metas|
        invariant latest.None? ==> forall m | m in metas[..i] :: !matches(m)
        invariant latest.Some? ==> latest.value in metas && matches(latest.value)
        invariant latest.Some? ==> forall m | m in metas[..i] && matches(m) :: m.version <= latest.value.version
      {
        if matches(metas[i]) && (latest.None? || metas[i].version > latest.value.version) {
          latest := Some(metas[i]);
        }
      }
      assert metas[..|metas|] == metas;
    }

    method GetLatestById(artifactId: string) returns (latest: Option<Metadata>)
      ensures LatestById(files, artifactId, latest)
    {
      var metas := ListMetadata("", "", "");
      assert Scope("", "", "") == [];
      latest := LatestOf(metas, HasId(artifactId), []);
    }

    method GetLatestByWp(project: string, phase: string, wpId: string, status: Option<Status>)
      returns (latest: Option<Metadata>)
      ensures IsLatest(files, Scope(project, phase, wpId), HasStatus(status), latest)
    {
      var metas := ListMetadata(project, phase, wpId);
      latest := LatestOf(metas, HasStatus(status), Scope(project, phase, wpId));
    }

    method LatestApprovedOf(project: string, wp: WorkProduct) returns (latest: Option<Metadata>)
      ensures LatestApproved(files, project, wp, latest)
    {
      latest := GetLatestByWp(project, Phase(wp), WpId(wp), Some(Approved));
    }

    method ResolveUpstream(project: string, wps: seq<WorkProduct>)
      returns (upstream: seq<Metadata>, missing: seq<WorkProduct>, ghost picks: seq<Option<Metadata>>)
      ensures |picks| == |wps| && forall i | 0 <= i < |wps| :: LatestApproved(files, project, wps[i], picks[i])
      ensures upstream == Found(picks) && missing == Missing(wps, picks)
      ensures |upstream| + |missing| == |wps|
      ensures forall m | m in upstream :: exists wp | wp in wps :: LatestApproved(files, project, wp, Some(m))
      ensures forall wp :: wp in missing <==> wp in wps && LatestApproved(files, project, wp, None)
    {
      hide Found, Missing, IsLatest, LatestApproved, Scope, HasStatus, WorkProducts.Phase, WorkProducts.WpId;
      upstream, missing, picks := [], [], [];
      NothingPicked(wps);
      for i := 0 to |wps|
        invariant |picks| == i && forall j | 0 <= j < i :: LatestApproved(files, project, wps[j], picks[j])
        invariant upstream == Found(picks) && missing == Missing(wps[..i], picks)
      {
        var latest := LatestApprovedOf(project, wps[i]);
        if latest.Some? {
          upstream := upstream + [latest.value];
        } else {
          missing := missing + [wps[i]];
        }
        OneMorePick(wps, picks, i, latest);
        picks := picks + [latest];
      }
      assert wps[..|wps|] == wps;
      FoundOrMissing(wps, picks);
      FoundAreApproved(files, project, wps, picks);
      MissingHaveNone(files, project, wps, picks);
    }

    method UpdateMetadata(metadata: Metadata)
      modifies this
      ensures files == Apply(old(files), [UpdateWrite(metadata)])
    {
      var path := metadata.metadataPath;
      var updated := metadata;
      if path.None? {
        path := Some(MetadataPath(metadata));
        updated := Located(metadata);
      }
      files := files[path.value := Json(updated)];
      ApplySnoc(old(files), [], UpdateWrite(metadata));
      assert [] + [UpdateWrite(metadata)] == [UpdateWrite(metadata)];
    }

    method ReadArtifactContent(metadata: Metadata) returns (content: string)
      ensures var path := if metadata.artifactPath.Some? then metadata.artifactPath.value else DocumentPath(metadata);
              content == if path in files && files[path].Markdown? then files[path].text else ""
    {
      var path := metadata.artifactPath;
      if path.None? {
        path := Some(DocumentPath(metadata));
      }
      content := "";
      if path.value in files && files[path.value].Markdown? {
        content := files[path.value].text;
      }
    }
  }
}
