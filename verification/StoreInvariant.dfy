/**
 What every file write of every operation keeps true of the store, also when the operation
 stops before its next write.
 */
module StoreInvariant {
  import opened Wrappers
  import opened Slugs
  import opened FileNames
  import opened WorkProducts
  import opened ArtifactStore

  /** The record `m` is in its metadata file. */
  ghost predicate Stored(fs: FileSystem, m: Metadata) {
    MetadataPath(m) in fs && fs[MetadataPath(m)] == Json(m)
  }

  ghost predicate EverApproved(history: seq<StatusEntry>) {
    exists e | e in history :: e.status == Approved
  }

  /** The history starts as a draft and ends in the current status; the lock says it was approved once. */
  ghost predicate HistoryOk(m: Metadata) {
    && m.statusHistory != []
    && m.statusHistory[0].status == Draft
    && m.statusHistory[|m.statusHistory| - 1].status == m.status
    && (m.locked <==> m.approvedAt != "")
    && (m.locked <==> EverApproved(m.statusHistory))
  }

  /** The links of a version to its neighbours. */
  predicate LinksOk(m: Metadata) {
    && m.supersedes == (if m.version == 1 then None else Some(VersionRef(m.artifactId, m.version - 1)))
    && m.supersededBy == (if m.status == Superseded then Some(VersionRef(m.artifactId, m.version + 1)) else None)
  }

  predicate KnownWorkProduct(m: Metadata) {
    && WithId(m.wpId).Some?
    && m.phase == Phase(WithId(m.wpId).value)
    && m.title == Title(WithId(m.wpId).value)
  }

  function WorkProductOf(m: Metadata): WorkProduct
    requires KnownWorkProduct(m)
  {
    WithId(m.wpId).value
  }

  /** The references are to exactly the required work products, in order. */
  predicate RefsComplete(m: Metadata)
    requires KnownWorkProduct(m)
  {
    var upstream := Upstream(WorkProductOf(m));
    |m.upstreamRefs| == |upstream| && forall i | 0 <= i < |upstream| :: m.upstreamRefs[i].wpId == WpId(upstream[i])
  }

  ghost predicate RecordOk(m: Metadata) {
    && NormalizeProjectSlug(m.projectSlug) == m.projectSlug
    && m.version >= 1
    && m == Located(m)
    && KnownWorkProduct(m)
    && HistoryOk(m)
    && LinksOk(m)
    && (m.upstreamRefs == [] || RefsComplete(m))
  }

  predicate SameHome(a: Metadata, b: Metadata) {
    a.projectSlug == b.projectSlug && a.phase == b.phase && a.wpId == b.wpId
  }

  /** There is metadata for version `v` of the artifact of `m`. */
  predicate HoldsVersion(fs: FileSystem, m: Metadata, v: int) {
    var p := MetadataPath(m.(version := v));
    p in fs && fs[p].Json?
  }

  /** The path a reference leads to. */
  function RefPath(project: string, ref: UpstreamRef): Path
    requires WithId(ref.wpId).Some?
  {
    Path(project, Phase(WithId(ref.wpId).value), ref.wpId, MetadataName(ref.artifactId, ref.version))
  }

  /** The reference leads to a stored version of the same project that was approved at some time. */
  ghost predicate RefResolves(fs: FileSystem, m: Metadata, ref: UpstreamRef) {
    && WithId(ref.wpId).Some?
    && var p := RefPath(m.projectSlug, ref);
    && p in fs && fs[p].Json?
    && fs[p].metadata.title == ref.title
    && EverApproved(fs[p].metadata.statusHistory)
  }

  ghost predicate FilesOk(fs: FileSystem) {
    forall p | p in fs && fs[p].Json? :: MetadataPath(fs[p].metadata) == p
  }

  ghost predicate RecordsOk(fs: FileSystem) {
    forall m | Stored(fs, m) :: RecordOk(m) && DocumentPath(m) in fs && fs[DocumentPath(m)].Markdown?
  }

  ghost predicate IdsOk(fs: FileSystem) {
    forall a, b | Stored(fs, a) && Stored(fs, b) && a.artifactId == b.artifactId :: SameHome(a, b)
  }

  ghost predicate VersionsOk(fs: FileSystem) {
    forall m, v | Stored(fs, m) && 1 <= v <= m.version :: HoldsVersion(fs, m, v)
  }

  ghost predicate LatestOpen(fs: FileSystem) {
    forall m | Stored(fs, m) && m.status == Superseded :: HoldsVersion(fs, m, m.version + 1)
  }

  ghost predicate RefsOk(fs: FileSystem) {
    forall m, ref | Stored(fs, m) && ref in m.upstreamRefs :: RefResolves(fs, m, ref)
  }

  /** The invariant, also between two writes of an operation. */
  ghost predicate Inv(fs: FileSystem) {
    FilesOk(fs) && RecordsOk(fs) && IdsOk(fs) && VersionsOk(fs) && LatestOpen(fs) && RefsOk(fs)
  }

  /** Every version of the artifact but the last is superseded. */
  ghost predicate Linked(fs: FileSystem, artifactId: string) {
    forall a, b | Stored(fs, a) && Stored(fs, b) && a.artifactId == b.artifactId == artifactId && a.version < b.version ::
      a.status == Superseded
  }

  /** The record refers to all the work products it requires. */
  predicate TracedRecord(m: Metadata) {
    KnownWorkProduct(m) && RefsComplete(m)
  }

  /** So does every record of the project. */
  ghost predicate Traced(fs: FileSystem, project: string) {
    forall m | Stored(fs, m) && m.projectSlug == project :: TracedRecord(m)
  }

  /** What may become of a record: its history grows, the rest of its identity stays. */
  predicate Evolves(a: Metadata, b: Metadata) {
    && a.artifactId == b.artifactId && a.version == b.version && SameHome(a, b) && a.title == b.title
    && a.createdAt == b.createdAt && a.author == b.author && a.supersedes == b.supersedes
    && a.upstreamRefs == b.upstreamRefs && a.artifactPath == b.artifactPath && a.metadataPath == b.metadataPath
    && a.statusHistory <= b.statusHistory
    && (a.status == Superseded ==> b == a)
  }

  /** Nothing stored is lost or rewritten: records evolve, documents stay as they are. */
  ghost predicate Extends(fs: FileSystem, fs': FileSystem) {
    forall m | Stored(fs, m) :: KeptIn(fs, fs', m)
  }

  ghost predicate KeptIn(fs: FileSystem, fs': FileSystem, m: Metadata) {
    && MetadataPath(m) in fs' && fs'[MetadataPath(m)].Json?
    && Evolves(m, fs'[MetadataPath(m)].metadata)
    && DocumentPath(m) in fs && DocumentPath(m) in fs' && fs'[DocumentPath(m)] == fs[DocumentPath(m)]
  }

  // ---------- Reading the invariant ----------

  /** Paths of records: the name fixes id and version. */
  lemma PathsApart(a: Metadata, b: Metadata)
    ensures DocumentPath(a) != MetadataPath(b)
    ensures MetadataPath(a) == MetadataPath(b) ==> a.artifactId == b.artifactId && a.version == b.version
    ensures DocumentPath(a) == DocumentPath(b) ==> a.artifactId == b.artifactId && a.version == b.version
  {
    NamesDistinct(a.artifactId, a.version, b.artifactId, b.version);
  }

  /** The record of a version that is there. */
  lemma HeldRecord(fs: FileSystem, m: Metadata, v: int) returns (u: Metadata)
    requires Inv(fs) && HoldsVersion(fs, m, v)
    ensures Stored(fs, u) && u.artifactId == m.artifactId && u.version == v
  {
    var p := MetadataPath(m.(version := v));
    u := fs[p].metadata;
    PathsApart(u, m.(version := v));
  }

  /** At most one record per artifact and version. */
  lemma OneRecordPerVersion(fs: FileSystem, a: Metadata, b: Metadata)
    requires IdsOk(fs) && Stored(fs, a) && Stored(fs, b) && a.artifactId == b.artifactId && a.version == b.version
    ensures a == b
  {
    assert MetadataPath(a) == MetadataPath(b);
  }

  /** Listing everything lists exactly the stored records. */
  lemma ListedIsStored(fs: FileSystem, m: Metadata)
    requires FilesOk(fs)
    ensures Listed(fs, [], m) <==> Stored(fs, m)
  {
    if Listed(fs, [], m) {
      var p :| ListedAt(fs, [], p, m);
    }
    if Stored(fs, m) {
      MetadataListed(m.artifactId, m.version);
      assert ListedAt(fs, [], MetadataPath(m), m);
    }
  }

  /** Listing a project lists exactly the records saved under a name with the same slug. */
  lemma ListedInProject(fs: FileSystem, project: string, m: Metadata)
    requires Inv(fs) && project != ""
    ensures Listed(fs, Scope(project, "", ""), m) <==> Stored(fs, m) && m.projectSlug == NormalizeProjectSlug(project)
  {
    var scope := Scope(project, "", "");
    assert scope == [NormalizeProjectSlug(project)];
    if Listed(fs, scope, m) {
      var p :| ListedAt(fs, scope, p, m);
      assert [p.project, p.phase, p.wpId][0] == scope[0];
    }
    if Stored(fs, m) && m.projectSlug == NormalizeProjectSlug(project) {
      MetadataListed(m.artifactId, m.version);
      assert ListedAt(fs, scope, MetadataPath(m), m);
    }
  }

  /** What resolving one required work product can find. */
  lemma ListedForWorkProduct(fs: FileSystem, project: string, wp: WorkProduct, m: Metadata)
    requires Inv(fs) && project != ""
    ensures Listed(fs, Scope(project, Phase(wp), WpId(wp)), m) <==>
            Stored(fs, m) && m.projectSlug == NormalizeProjectSlug(project) && m.phase == Phase(wp) && m.wpId == WpId(wp)
  {
    var scope := Scope(project, Phase(wp), WpId(wp));
    assert Phase(wp) != "" && WpId(wp) != "" by {
      IdsByLength(wp);
      PhaseNonEmpty(wp);
    }
    assert scope == [NormalizeProjectSlug(project), Phase(wp), WpId(wp)];
    if Listed(fs, scope, m) {
      var p :| ListedAt(fs, scope, p, m);
      assert [p.project, p.phase, p.wpId] == scope;
    }
    if Stored(fs, m) && m.projectSlug == NormalizeProjectSlug(project) && m.phase == Phase(wp) && m.wpId == WpId(wp) {
      MetadataListed(m.artifactId, m.version);
      assert ListedAt(fs, scope, MetadataPath(m), m);
    }
  }

  lemma PhaseNonEmpty(wp: WorkProduct)
    ensures |Phase(wp)| > 0
  {
  }

  // ---------- The three kinds of writes ----------

  ghost predicate NewVersion(fs: FileSystem, m: Metadata) {
    forall u | Stored(fs, u) && u.artifactId == m.artifactId :: u.version != m.version
  }

  predicate IsJson(fs: FileSystem, p: Path) {
    p in fs && fs[p].Json?
  }

  /** The same metadata files, and the documents of stored records untouched. */
  ghost predicate SameRecords(fs: FileSystem, fs': FileSystem) {
    && (forall p :: IsJson(fs', p) <==> IsJson(fs, p))
    && (forall p | IsJson(fs, p) :: fs'[p] == fs[p])
    && (forall m | Stored(fs, m) :: DocumentPath(m) in fs && DocumentPath(m) in fs' && fs'[DocumentPath(m)] == fs[DocumentPath(m)])
  }

  lemma SameRecordsKeep(fs: FileSystem, fs': FileSystem)
    requires Inv(fs) && SameRecords(fs, fs')
    ensures Inv(fs') && Extends(fs, fs')
    ensures forall m :: Stored(fs', m) <==> Stored(fs, m)
    ensures forall m, v :: HoldsVersion(fs', m, v) <==> HoldsVersion(fs, m, v)
  {
    forall m
      ensures Stored(fs', m) <==> Stored(fs, m)
    {
      assert IsJson(fs', MetadataPath(m)) <==> IsJson(fs, MetadataPath(m));
    }
    forall m, v
      ensures HoldsVersion(fs', m, v) <==> HoldsVersion(fs, m, v)
    {
      assert IsJson(fs', MetadataPath(m.(version := v))) <==> IsJson(fs, MetadataPath(m.(version := v)));
    }
    assert FilesOk(fs') by {
      forall p | p in fs' && fs'[p].Json?
        ensures MetadataPath(fs'[p].metadata) == p
      {
        assert IsJson(fs', p) && IsJson(fs, p);
      }
    }
    assert RefsOk(fs') by {
      forall m, ref | Stored(fs', m) && ref in m.upstreamRefs
        ensures RefResolves(fs', m, ref)
      {
        assert RefResolves(fs, m, ref);
        assert IsJson(fs, RefPath(m.projectSlug, ref));
      }
    }
    assert Extends(fs, fs') by {
      forall m | Stored(fs, m)
        ensures KeptIn(fs, fs', m)
      {
        assert IsJson(fs, MetadataPath(m));
      }
    }
  }

  /** Writing the document of a version that has no metadata yet. */
  lemma DocumentWritten(fs: FileSystem, m: Metadata, content: string)
    requires Inv(fs) && NewVersion(fs, m)
    ensures SameRecords(fs, fs[DocumentPath(m) := Markdown(content)])
  {
    var fs' := fs[DocumentPath(m) := Markdown(content)];
    forall p
      ensures IsJson(fs', p) <==> IsJson(fs, p)
      ensures IsJson(fs, p) ==> fs'[p] == fs[p]
    {
      if IsJson(fs, p) {
        PathsApart(m, fs[p].metadata);
      }
    }
    forall u | Stored(fs, u)
      ensures DocumentPath(u) in fs && DocumentPath(u) in fs' && fs'[DocumentPath(u)] == fs[DocumentPath(u)]
    {
      PathsApart(m, u);
    }
  }

  function Put(fs: FileSystem, m: Metadata): FileSystem {
    fs[MetadataPath(m) := Json(m)]
  }

  /** What is stored after writing one metadata file. */
  lemma PutRecord(fs: FileSystem, m: Metadata)
    requires FilesOk(fs)
    ensures FilesOk(Put(fs, m))
    ensures forall u :: Stored(Put(fs, m), u) <==> u == m || (Stored(fs, u) && MetadataPath(u) != MetadataPath(m))
    ensures forall u, v :: HoldsVersion(Put(fs, m), u, v) <==> HoldsVersion(fs, u, v) || MetadataPath(u.(version := v)) == MetadataPath(m)
    ensures forall u :: DocumentPath(u) in fs ==> DocumentPath(u) in Put(fs, m) && Put(fs, m)[DocumentPath(u)] == fs[DocumentPath(u)]
  {
    forall u
      ensures DocumentPath(u) != MetadataPath(m)
    {
      PathsApart(u, m);
    }
  }

  /** A reference that resolves goes on resolving when nothing stored is lost. */
  lemma RefsKeep(fs: FileSystem, fs': FileSystem, m: Metadata, ref: UpstreamRef)
    requires FilesOk(fs) && Extends(fs, fs') && RefResolves(fs, m, ref)
    ensures RefResolves(fs', m, ref)
  {
    var u := fs[RefPath(m.projectSlug, ref)].metadata;
    assert Stored(fs, u) && KeptIn(fs, fs', u);
    ApprovalKept(u.statusHistory, fs'[MetadataPath(u)].metadata.statusHistory);
  }

  lemma ApprovalKept(before: seq<StatusEntry>, after: seq<StatusEntry>)
    requires before <= after && EverApproved(before)
    ensures EverApproved(after)
  {
    var e :| e in before && e.status == Approved;
    var i :| 0 <= i < |before| && before[i] == e;
    assert after[i] == e;
  }

  lemma EvolvesReflexive(m: Metadata)
    ensures Evolves(m, m)
  {
  }

  /** Writing the metadata of a version not stored yet. */
  lemma RecordAdded(fs: FileSystem, m: Metadata)
    requires Inv(fs) && NewVersion(fs, m) && RecordOk(m) && m.status == Draft
    requires DocumentPath(m) in fs && fs[DocumentPath(m)].Markdown?
    requires forall u | Stored(fs, u) && u.artifactId == m.artifactId :: SameHome(u, m)
    requires forall v | 1 <= v < m.version :: HoldsVersion(fs, m, v)
    requires forall ref | ref in m.upstreamRefs :: RefResolves(fs, m, ref)
    ensures Inv(Put(fs, m)) && Extends(fs, Put(fs, m))
    ensures forall u :: Stored(Put(fs, m), u) <==> u == m || Stored(fs, u)
  {
    var fs' := Put(fs, m);
    PutRecord(fs, m);
    forall u | Stored(fs, u)
      ensures MetadataPath(u) != MetadataPath(m) && KeptIn(fs, fs', u)
    {
      PathsApart(u, m);
      EvolvesReflexive(u);
    }
    assert Extends(fs, fs');
    forall u, ref | Stored(fs', u) && ref in u.upstreamRefs
      ensures RefResolves(fs', u, ref)
    {
      RefsKeep(fs, fs', u, ref);
    }
    assert VersionsOk(fs') by {
      forall u, v | Stored(fs', u) && 1 <= v <= u.version
        ensures HoldsVersion(fs', u, v)
      {
        if u == m && v == m.version {
          assert m.(version := v) == m;
        }
      }
    }
  }

  /** What is stored after writing a record back. */
  lemma PutBack(fs: FileSystem, a: Metadata, b: Metadata)
    requires Inv(fs) && Stored(fs, a) && a.status != Superseded && Evolves(a, b)
    ensures MetadataPath(a) == MetadataPath(b) && DocumentPath(a) == DocumentPath(b)
    ensures FilesOk(Put(fs, b)) && Extends(fs, Put(fs, b))
    ensures forall u :: Stored(Put(fs, b), u) <==> u == b || (Stored(fs, u) && u != a)
    ensures forall u, v :: HoldsVersion(Put(fs, b), u, v) <==> HoldsVersion(fs, u, v)
  {
    var fs' := Put(fs, b);
    PutRecord(fs, b);
    forall u | Stored(fs, u)
      ensures KeptIn(fs, fs', u)
    {
      EvolvesReflexive(u);
    }
  }

  /** The versions of an artifact are counted alike from each of its records. */
  lemma HoldsAlike(fs: FileSystem, a: Metadata, b: Metadata, v: int)
    requires SameHome(a, b) && a.artifactId == b.artifactId
    ensures HoldsVersion(fs, a, v) <==> HoldsVersion(fs, b, v)
  {
    assert MetadataPath(a.(version := v)) == MetadataPath(b.(version := v));
  }

  lemma PutBackKeepsRefs(fs: FileSystem, a: Metadata, b: Metadata)
    requires Inv(fs) && Stored(fs, a) && a.status != Superseded && Evolves(a, b)
    ensures RefsOk(Put(fs, b))
  {
    var fs' := Put(fs, b);
    PutBack(fs, a, b);
    forall u, ref | Stored(fs', u) && ref in u.upstreamRefs
      ensures RefResolves(fs', u, ref)
    {
      assert RefResolves(fs, if u == b then a else u, ref);
      RefsKeep(fs, fs', u, ref);
    }
  }

  lemma PutBackKeepsRecords(fs: FileSystem, a: Metadata, b: Metadata)
    requires Inv(fs) && Stored(fs, a) && a.status != Superseded && Evolves(a, b) && RecordOk(b)
    ensures RecordsOk(Put(fs, b))
  {
    PutBack(fs, a, b);
    forall u | Stored(Put(fs, b), u)
      ensures RecordOk(u) && DocumentPath(u) in Put(fs, b) && Put(fs, b)[DocumentPath(u)].Markdown?
    {
      var before := if u == b then a else u;
      assert Stored(fs, before) && DocumentPath(u) == DocumentPath(before);
      PathsApart(before, b);
    }
  }

  lemma PutBackKeepsIds(fs: FileSystem, a: Metadata, b: Metadata)
    requires Inv(fs) && Stored(fs, a) && a.status != Superseded && Evolves(a, b)
    ensures IdsOk(Put(fs, b))
  {
    PutBack(fs, a, b);
    forall x, y | Stored(Put(fs, b), x) && Stored(Put(fs, b), y) && x.artifactId == y.artifactId
      ensures SameHome(x, y)
    {
      assert SameHome(if x == b then a else x, if y == b then a else y);
    }
  }

  lemma PutBackKeepsVersions(fs: FileSystem, a: Metadata, b: Metadata)
    requires Inv(fs) && Stored(fs, a) && a.status != Superseded && Evolves(a, b)
    requires b.status == Superseded ==> HoldsVersion(fs, a, a.version + 1)
    ensures VersionsOk(Put(fs, b)) && LatestOpen(Put(fs, b))
  {
    PutBack(fs, a, b);
    forall v
      ensures HoldsVersion(fs, a, v) <==> HoldsVersion(fs, b, v)
    {
      HoldsAlike(fs, a, b, v);
    }
  }

  /** Writing a record back, one step further on. */
  lemma RecordUpdated(fs: FileSystem, a: Metadata, b: Metadata)
    requires Inv(fs) && Stored(fs, a) && a.status != Superseded
    requires Evolves(a, b) && RecordOk(b)
    requires b.status == Superseded ==> HoldsVersion(fs, a, a.version + 1)
    ensures Inv(Put(fs, b)) && Extends(fs, Put(fs, b))
    ensures forall u :: Stored(Put(fs, b), u) <==> u == b || (Stored(fs, u) && u != a)
    ensures forall u, v :: HoldsVersion(Put(fs, b), u, v) <==> HoldsVersion(fs, u, v)
  {
    PutBackKeepsRefs(fs, a, b);
    PutBackKeepsRecords(fs, a, b);
    PutBackKeepsIds(fs, a, b);
    PutBackKeepsVersions(fs, a, b);
    PutBack(fs, a, b);
  }

  /** Extending is reflexive and transitive. */
  lemma ExtendsReflexive(fs: FileSystem)
    requires Inv(fs)
    ensures Extends(fs, fs)
  {
    forall m | Stored(fs, m)
      ensures KeptIn(fs, fs, m)
    {
      EvolvesReflexive(m);
    }
  }

  lemma ExtendsTransitive(fs0: FileSystem, fs1: FileSystem, fs2: FileSystem)
    requires Inv(fs1) && Extends(fs0, fs1) && Extends(fs1, fs2)
    ensures Extends(fs0, fs2)
  {
    forall m | Stored(fs0, m)
      ensures KeptIn(fs0, fs2, m)
    {
      assert KeptIn(fs0, fs1, m);
      var m1 := fs1[MetadataPath(m)].metadata;
      assert MetadataPath(m1) == MetadataPath(m) && DocumentPath(m1) == DocumentPath(m);
      assert Stored(fs1, m1) && KeptIn(fs1, fs2, m1);
    }
  }
}
