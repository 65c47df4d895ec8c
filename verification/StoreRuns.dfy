/** Every run of the store's operations, with stops between file writes allowed. */
module StoreRuns {
  import opened Wrappers
  import opened Slugs
  import opened WorkProducts
  import opened ArtifactStore
  import opened ReviewWorkflow
  import opened StoreInvariant

  // ---------- What the operations write ----------

  /** The record found last by its id is the open, latest version of its artifact. */
  lemma LatestIsOpen(fs: FileSystem, m: Metadata)
    requires Inv(fs) && LatestById(fs, m.artifactId, Some(m))
    ensures Stored(fs, m) && m.status != Superseded
    ensures forall u | Stored(fs, u) && u.artifactId == m.artifactId :: u.version <= m.version
    ensures !HoldsVersion(fs, m, m.version + 1)
  {
    hide RecordOk, RecordsOk, IdsOk, VersionsOk, RefsOk, ArtifactStore.Listed, HoldsVersion;
    ListedIsStored(fs, m);
    forall u | Stored(fs, u) && u.artifactId == m.artifactId
      ensures u.version <= m.version
    {
      ListedIsStored(fs, u);
    }
    if HoldsVersion(fs, m, m.version + 1) {
      var u := HeldRecord(fs, m, m.version + 1);
    }
  }

  /** So is the record an operation found. */
  lemma TargetIsLatest(fs: FileSystem, op: Op)
    requires Inv(fs) && !op.Generate? && Enabled(fs, op)
    ensures Stored(fs, op.target) && op.target.status != Superseded
    ensures forall u | Stored(fs, u) && u.artifactId == op.target.artifactId :: u.version <= op.target.version
    ensures !HoldsVersion(fs, op.target, op.target.version + 1)
  {
    hide StoreInvariant.Inv, StoreInvariant.HoldsVersion, ArtifactStore.IsLatest;
    LatestIsOpen(fs, op.target);
  }

  lemma ApprovedAfter(history: seq<StatusEntry>, e: StatusEntry)
    ensures EverApproved(history + [e]) <==> EverApproved(history) || e.status == Approved
  {
    if EverApproved(history) {
      ApprovalKept(history, history + [e]);
    }
    assert e in history + [e];
  }

  lemma UpdateEvolves(op: Op)
    requires !op.Generate? && op.target.status != Superseded
    ensures Evolves(op.target, UpdatedMetadata(op))
    ensures UpdatedMetadata(op).status == Superseded <==> op.Revise?
  {
  }

  lemma UpdateHistory(op: Op)
    requires !op.Generate? && HistoryOk(op.target)
    ensures HistoryOk(UpdatedMetadata(op))
  {
    var before, after := op.target.statusHistory, UpdatedMetadata(op).statusHistory;
    assert after == before + [after[|before|]];
    ApprovedAfter(before, after[|before|]);
  }

  lemma UpdateLinks(op: Op)
    requires !op.Generate? && LinksOk(op.target) && op.target.status != Superseded
    ensures LinksOk(UpdatedMetadata(op))
  {
  }

  /** What a record keeps of its identity it shares with every record it evolves to. */
  lemma SameIdentity(a: Metadata, b: Metadata)
    requires RecordOk(a) && Evolves(a, b) && HistoryOk(b) && LinksOk(b)
    ensures RecordOk(b) && MetadataPath(a) == MetadataPath(b)
  {
    assert KnownWorkProduct(b) && WorkProductOf(a) == WorkProductOf(b);
    assert Located(b) == b;
  }

  /** The record written back is sound and a step further in its history. */
  lemma UpdateIsSound(op: Op)
    requires !op.Generate? && RecordOk(op.target) && op.target.status != Superseded
    ensures RecordOk(UpdatedMetadata(op)) && Evolves(op.target, UpdatedMetadata(op))
    ensures UpdateWrite(UpdatedMetadata(op)) == Write(MetadataPath(UpdatedMetadata(op)), Json(UpdatedMetadata(op)))
    ensures UpdatedMetadata(op).status == Superseded <==> op.Revise?
  {
    UpdateEvolves(op);
    UpdateHistory(op);
    UpdateLinks(op);
    SameIdentity(op.target, UpdatedMetadata(op));
  }

  lemma {:induction false} AllFound(wps: seq<WorkProduct>, picks: seq<Option<Metadata>>)
    requires |wps| == |picks| && Missing(wps, picks) == []
    ensures |Found(picks)| == |picks|
    ensures forall i | 0 <= i < |picks| :: picks[i].Some? && Found(picks)[i] == picks[i].value
    decreases |picks|
  {
    if picks != [] {
      var n := |picks| - 1;
      AllFound(wps[..n], picks[..n]);
    }
  }

  /** A work product found approved is one a reference can be kept to. */
  lemma PickResolves(fs: FileSystem, m: Metadata, wp: WorkProduct, u: Metadata, ref: UpstreamRef)
    requires Inv(fs) && m.projectSlug != "" && NormalizeProjectSlug(m.projectSlug) == m.projectSlug
    requires LatestApproved(fs, m.projectSlug, wp, Some(u))
    requires ref == UpstreamRef(u.artifactId, u.wpId, u.title, u.version, u.status)
    ensures RefResolves(fs, m, ref) && ref.wpId == WpId(wp) && Stored(fs, u) && u.status == Approved
  {
    ListedForWorkProduct(fs, m.projectSlug, wp, u);
    WithIdInverse(wp);
    assert u.statusHistory[|u.statusHistory| - 1] in u.statusHistory;
    assert RefPath(m.projectSlug, ref) == MetadataPath(u);
  }

  /** A record that may be added to the store. */
  ghost predicate Addable(fs: FileSystem, m: Metadata) {
    && NewVersion(fs, m) && RecordOk(m) && m.status == Draft
    && (forall u | Stored(fs, u) && u.artifactId == m.artifactId :: SameHome(u, m))
    && (forall v | 1 <= v < m.version :: HoldsVersion(fs, m, v))
    && (forall ref | ref in m.upstreamRefs :: RefResolves(fs, m, ref))
  }

  lemma GeneratedRefs(fs: FileSystem, op: Op)
    requires Inv(fs) && op.Generate? && Enabled(fs, op)
    ensures var m := GeneratedMetadata(op);
            && m.projectSlug == NormalizeProjectSlug(op.project)
            && (forall ref | ref in m.upstreamRefs :: RefResolves(fs, m, ref))
            && KnownWorkProduct(m) && WorkProductOf(m) == op.wp
            && (if Missing(Upstream(op.wp), op.picks) == [] then RefsComplete(m) else m.upstreamRefs == [])
  {
    var m := GeneratedMetadata(op);
    NormalizeIdempotent(op.project);
    WithIdInverse(op.wp);
    if Missing(Upstream(op.wp), op.picks) == [] {
      AllFound(Upstream(op.wp), op.picks);
      forall i | 0 <= i < |op.picks|
        ensures RefResolves(fs, m, m.upstreamRefs[i]) && m.upstreamRefs[i].wpId == WpId(Upstream(op.wp)[i])
      {
        PickResolves(fs, m, Upstream(op.wp)[i], op.picks[i].value, m.upstreamRefs[i]);
      }
    }
  }

  lemma GeneratedRecordOk(op: Op)
    requires op.Generate? && |op.picks| == |Upstream(op.wp)|
    requires var m := GeneratedMetadata(op); KnownWorkProduct(m) && (m.upstreamRefs == [] || RefsComplete(m))
    ensures RecordOk(Located(GeneratedMetadata(op)))
  {
    var m := Located(GeneratedMetadata(op));
    NormalizeIdempotent(op.project);
    hide Slugs.NormalizeProjectSlug;
    assert !EverApproved(m.statusHistory);
    assert HistoryOk(m) && LinksOk(m);
    SameRefs(GeneratedMetadata(op), m);
  }

  lemma FreshIsNew(fs: FileSystem, artifactId: string)
    requires Inv(fs) && FreshId(fs, artifactId)
    ensures forall u | Stored(fs, u) :: u.artifactId != artifactId
  {
    forall u | Stored(fs, u)
      ensures u.artifactId != artifactId
    {
      ListedIsStored(fs, u);
    }
  }

  lemma GeneratedIsAddable(fs: FileSystem, op: Op)
    requires Inv(fs) && op.Generate? && Enabled(fs, op)
    ensures Addable(fs, Located(GeneratedMetadata(op)))
  {
    GeneratedRefs(fs, op);
    GeneratedRecordOk(op);
    FreshIsNew(fs, op.artifactId);
    hide Inv, RecordOk, ReviewWorkflow.Enabled;
    var m := Located(GeneratedMetadata(op));
    forall ref | ref in m.upstreamRefs
      ensures RefResolves(fs, m, ref)
    {
      RefsAlike(fs, GeneratedMetadata(op), m, ref);
    }
  }

  lemma RevisedRecordOk(op: Op)
    requires op.Revise? && RecordOk(op.target)
    ensures var m := Located(RevisedMetadata(op));
            && RecordOk(m) && m.status == Draft && SameHome(op.target, m)
            && m.artifactId == op.target.artifactId && m.version == op.target.version + 1
            && m.upstreamRefs == op.target.upstreamRefs
  {
    var m := Located(RevisedMetadata(op));
    assert !EverApproved(m.statusHistory);
    assert HistoryOk(m) && LinksOk(m);
    assert KnownWorkProduct(m) && WorkProductOf(m) == WorkProductOf(op.target);
  }

  /** The next version of the latest version may be added. */
  lemma NextVersionIsAddable(fs: FileSystem, previous: Metadata, m: Metadata)
    requires Inv(fs) && Stored(fs, previous)
    requires forall u | Stored(fs, u) && u.artifactId == previous.artifactId :: u.version <= previous.version
    requires RecordOk(m) && m.status == Draft && SameHome(previous, m)
    requires m.artifactId == previous.artifactId && m.version == previous.version + 1
    requires m.upstreamRefs == previous.upstreamRefs
    ensures Addable(fs, m)
  {
    assert forall u | Stored(fs, u) && u.artifactId == m.artifactId :: SameHome(u, m) by {
      forall u | Stored(fs, u) && u.artifactId == m.artifactId
        ensures SameHome(u, m)
      {
        assert SameHome(u, previous);
      }
    }
    forall v | 1 <= v < m.version
      ensures HoldsVersion(fs, m, v)
    {
      assert HoldsVersion(fs, previous, v);
      HoldsAlike(fs, previous, m, v);
    }
    forall ref | ref in m.upstreamRefs
      ensures RefResolves(fs, m, ref)
    {
      RefsAlike(fs, previous, m, ref);
    }
  }

  lemma RefsAlike(fs: FileSystem, a: Metadata, b: Metadata, ref: UpstreamRef)
    requires a.projectSlug == b.projectSlug && RefResolves(fs, a, ref)
    ensures RefResolves(fs, b, ref)
  {
  }

  lemma RevisedIsAddable(fs: FileSystem, op: Op)
    requires Inv(fs) && op.Revise? && Enabled(fs, op)
    ensures Addable(fs, Located(RevisedMetadata(op)))
  {
    TargetIsLatest(fs, op);
    RevisedRecordOk(op);
    NextVersionIsAddable(fs, op.target, Located(RevisedMetadata(op)));
  }

  // ---------- Stopping after some of the writes ----------

  /** The file system after the first `done` writes of an operation. */
  function After(fs: FileSystem, op: Op, done: nat): FileSystem
    requires op.Generate? ==> |op.picks| == |Upstream(op.wp)|
    requires done <= |Writes(op)|
  {
    Apply(fs, Writes(op)[..done])
  }

  lemma AfterNext(fs: FileSystem, op: Op, done: nat)
    requires op.Generate? ==> |op.picks| == |Upstream(op.wp)|
    requires done < |Writes(op)|
    ensures After(fs, op, 0) == fs
    ensures After(fs, op, done + 1) == After(fs, op, done)[Writes(op)[done].path := Writes(op)[done].file]
  {
    hide ReviewWorkflow.Writes;
    assert Writes(op)[..done + 1] == Writes(op)[..done] + [Writes(op)[done]];
    ApplySnoc(fs, Writes(op)[..done], Writes(op)[done]);
  }

  /** The record a generate or revise operation saves. */
  function SavedBy(op: Op): Metadata
    requires op.Revise? || (op.Generate? && |op.picks| == |Upstream(op.wp)|)
  {
    Located(if op.Generate? then GeneratedMetadata(op) else RevisedMetadata(op))
  }

  lemma SavedIsAddable(fs: FileSystem, op: Op)
    requires Inv(fs) && (op.Generate? || op.Revise?) && Enabled(fs, op)
    ensures Addable(fs, SavedBy(op))
    ensures After(fs, op, 1) == fs[DocumentPath(SavedBy(op)) := Writes(op)[0].file] && Writes(op)[0].file.Markdown?
    ensures After(fs, op, 2) == Put(After(fs, op, 1), SavedBy(op))
  {
    hide *;
    PicksCounted(fs, op);
    AddableSave(fs, op);
    AfterSaving(fs, op);
  }

  lemma AddableSave(fs: FileSystem, op: Op)
    requires Inv(fs) && (op.Generate? || op.Revise?) && Enabled(fs, op)
    ensures Addable(fs, SavedBy(op))
  {
    hide Inv, Addable, ReviewWorkflow.GeneratedMetadata, ReviewWorkflow.RevisedMetadata;
    if op.Generate? {
      GeneratedIsAddable(fs, op);
    } else {
      RevisedIsAddable(fs, op);
    }
  }

  lemma AfterSaving(fs: FileSystem, op: Op)
    requires op.Revise? || (op.Generate? && |op.picks| == |Upstream(op.wp)|)
    ensures |Writes(op)| >= 2 && Writes(op)[0].file.Markdown?
    ensures After(fs, op, 1) == fs[DocumentPath(SavedBy(op)) := Writes(op)[0].file]
    ensures After(fs, op, 2) == Put(After(fs, op, 1), SavedBy(op))
  {
    hide After, ReviewWorkflow.Writes, SavedBy;
    FirstWrites(op);
    AfterNext(fs, op, 0);
    AfterNext(fs, op, 1);
  }

  lemma FirstWrites(op: Op)
    requires op.Revise? || (op.Generate? && |op.picks| == |Upstream(op.wp)|)
    ensures |Writes(op)| >= 2
    ensures Writes(op)[0].path == DocumentPath(SavedBy(op)) && Writes(op)[0].file.Markdown?
    ensures Writes(op)[1] == Write(MetadataPath(SavedBy(op)), Json(SavedBy(op)))
  {
  }

  /** Saving a new version keeps the invariant after each of its two writes. */
  lemma SaveKeeps(fs: FileSystem, fs1: FileSystem, m: Metadata, content: string)
    requires Inv(fs) && Addable(fs, m) && fs1 == fs[DocumentPath(m) := Markdown(content)]
    ensures Inv(fs1) && Extends(fs, fs1) && Inv(Put(fs1, m)) && Extends(fs, Put(fs1, m))
    ensures forall u :: Stored(fs1, u) <==> Stored(fs, u)
    ensures forall u :: Stored(Put(fs1, m), u) <==> u == m || Stored(fs, u)
    ensures HoldsVersion(Put(fs1, m), m, m.version)
  {
    DocumentWritten(fs, m, content);
    SameRecordsKeep(fs, fs1);
    forall ref | ref in m.upstreamRefs
      ensures RefResolves(fs1, m, ref)
    {
      RefsKeep(fs, fs1, m, ref);
    }
    RecordAdded(fs1, m);
    ExtendsTransitive(fs, fs1, Put(fs1, m));
    assert m.(version := m.version) == m;
  }

  /** The invariant holds, and nothing stored before is lost or rewritten. */
  ghost predicate Kept(fs: FileSystem, fs': FileSystem) {
    Inv(fs') && Extends(fs, fs')
  }

  /** The last write of a revision, and the only write of the review operations. */
  lemma UpdateKeeps(fs: FileSystem, op: Op)
    requires Inv(fs) && !op.Generate? && Stored(fs, op.target) && op.target.status != Superseded
    requires op.Revise? ==> HoldsVersion(fs, op.target, op.target.version + 1)
    ensures var fs' := Put(fs, UpdatedMetadata(op));
            && Inv(fs') && Extends(fs, fs')
            && forall u :: Stored(fs', u) <==> u == UpdatedMetadata(op) || (Stored(fs, u) && u != op.target)
    ensures UpdateWrite(UpdatedMetadata(op)) == Write(MetadataPath(UpdatedMetadata(op)), Json(UpdatedMetadata(op)))
  {
    hide ReviewWorkflow.UpdatedMetadata, Inv, Extends, Evolves, ArtifactStore.UpdateWrite;
    StoredIsOk(fs, op.target);
    UpdateIsSound(op);
    assert op.Revise? ==> HoldsVersion(fs, op.target, op.target.version + 1);
    RecordUpdated(fs, op.target, UpdatedMetadata(op));
  }

  lemma WritesCounted(fs: FileSystem, op: Op)
    requires op.Generate? ==> |op.picks| == |Upstream(op.wp)|
    ensures |Writes(op)| == if op.Generate? then 2 else if op.Revise? then 3 else 1
    ensures After(fs, op, 0) == fs
  {
    assert Writes(op)[..0] == [];
  }

  lemma StoredIsOk(fs: FileSystem, m: Metadata)
    requires Inv(fs) && Stored(fs, m)
    ensures RecordOk(m)
  {
  }

  lemma LastWrite(op: Op)
    requires !op.Generate?
    ensures |Writes(op)| == (if op.Revise? then 3 else 1) && Writes(op)[|Writes(op)| - 1] == UpdateWrite(UpdatedMetadata(op))
    ensures op.Revise? ==> Writes(op)[0] == Write(DocumentPath(SavedBy(op)), Markdown(RevisedContent(op)))
  {
  }

  /** The records after each write of a revision. */
  lemma ReviseSteps(fs: FileSystem, op: Op)
    requires Inv(fs) && op.Revise? && Enabled(fs, op)
    ensures Kept(fs, After(fs, op, 1))
    ensures Kept(fs, After(fs, op, 2))
    ensures Kept(fs, After(fs, op, 3))
    ensures forall u :: Stored(After(fs, op, 1), u) <==> Stored(fs, u)
    ensures forall u :: Stored(After(fs, op, 2), u) <==> u == SavedBy(op) || Stored(fs, u)
    ensures forall u :: Stored(After(fs, op, 3), u) <==>
              u == UpdatedMetadata(op) || ((u == SavedBy(op) || Stored(fs, u)) && u != op.target)
  {
    hide ReviewWorkflow.Writes, ReviewWorkflow.Enabled, ReviewWorkflow.UpdatedMetadata, After, StoreInvariant.Inv, StoreInvariant.Extends, Addable;
    WritesCounted(fs, op);
    LastWrite(op);
    var m, previous := SavedBy(op), op.target;
    SavedIsAddable(fs, op);
    var fs1, fs2, fs3 := After(fs, op, 1), After(fs, op, 2), After(fs, op, 3);
    SaveKeeps(fs, fs1, m, Writes(op)[0].file.text);
    TargetIsLatest(fs, op);
    StoredIsOk(fs, previous);
    RevisedRecordOk(op);
    HoldsAlike(fs2, m, previous, m.version);
    AfterNext(fs, op, 2);
    UpdateKeeps(fs2, op);
    ExtendsTransitive(fs, fs2, fs3);
  }

  lemma GenerateSteps(fs: FileSystem, op: Op)
    requires Inv(fs) && op.Generate? && Enabled(fs, op)
    ensures Kept(fs, After(fs, op, 1))
    ensures Kept(fs, After(fs, op, 2))
    ensures forall u :: Stored(After(fs, op, 1), u) <==> Stored(fs, u)
    ensures forall u :: Stored(After(fs, op, 2), u) <==> u == SavedBy(op) || Stored(fs, u)
  {
    SavedIsAddable(fs, op);
    SaveKeeps(fs, After(fs, op, 1), SavedBy(op), Writes(op)[0].file.text);
  }

  lemma ReviewSteps(fs: FileSystem, op: Op)
    requires Inv(fs) && !op.Generate? && !op.Revise? && Enabled(fs, op)
    ensures Kept(fs, After(fs, op, 1))
    ensures forall u :: Stored(After(fs, op, 1), u) <==> u == UpdatedMetadata(op) || (Stored(fs, u) && u != op.target)
  {
    hide ReviewWorkflow.Writes, ReviewWorkflow.Enabled, ReviewWorkflow.UpdatedMetadata, After, StoreInvariant.Inv, StoreInvariant.Extends;
    TargetIsLatest(fs, op);
    LastWrite(op);
    AfterNext(fs, op, 0);
    UpdateKeeps(fs, op);
  }

  /**
   Whichever operation runs, and after however many of its file writes it stops, the invariant
   holds and nothing stored before is lost or rewritten.
   */
  lemma StepKeeps(fs: FileSystem, op: Op, done: nat)
    requires Inv(fs) && Enabled(fs, op) && done <= |Writes(op)|
    ensures Kept(fs, After(fs, op, done))
  {
    hide ReviewWorkflow.Writes, ReviewWorkflow.Enabled, After, Inv, Extends;
    PicksCounted(fs, op);
    WritesCounted(fs, op);
    if done == 0 {
      ExtendsReflexive(fs);
    } else if op.Generate? {
      GenerateStepKeeps(fs, op, done);
    } else if op.Revise? {
      ReviseStepKeeps(fs, op, done);
    } else {
      ReviewSteps(fs, op);
    }
  }

  lemma GenerateStepKeeps(fs: FileSystem, op: Op, done: nat)
    requires Inv(fs) && op.Generate? && Enabled(fs, op) && 0 < done <= |Writes(op)|
    ensures Kept(fs, After(fs, op, done))
  {
    WritesCounted(fs, op);
    GenerateSteps(fs, op);
    assert done == 1 || done == 2;
  }

  lemma ReviseStepKeeps(fs: FileSystem, op: Op, done: nat)
    requires Inv(fs) && op.Revise? && Enabled(fs, op) && 0 < done <= |Writes(op)|
    ensures Kept(fs, After(fs, op, done))
  {
    WritesCounted(fs, op);
    ReviseSteps(fs, op);
    assert done == 1 || done == 2 || done == 3;
  }

  // ---------- Keeping the chain of an artifact linked ----------

  /** Whatever does not touch the records of an artifact leaves its chain as it is. */
  lemma LinkedAlike(fs: FileSystem, fs': FileSystem, artifactId: string)
    requires Linked(fs, artifactId)
    requires forall u | Stored(fs', u) && u.artifactId == artifactId :: Stored(fs, u)
    ensures Linked(fs', artifactId)
  {
  }

  lemma GenerateLinks(fs: FileSystem, op: Op, done: nat, artifactId: string)
    requires Inv(fs) && Linked(fs, artifactId) && op.Generate? && Enabled(fs, op) && 0 < done <= 2
    ensures |Writes(op)| == 2 && Linked(After(fs, op, done), artifactId)
  {
    WritesCounted(fs, op);
    GenerateSteps(fs, op);
    if done == 2 && op.artifactId == artifactId {
      FreshIsNew(fs, op.artifactId);
      hide Inv, ReviewWorkflow.Enabled, ReviewWorkflow.Writes, After;
      assert forall u | Stored(After(fs, op, 2), u) && u.artifactId == artifactId :: u == SavedBy(op);
    } else {
      LinkedAlike(fs, After(fs, op, done), artifactId);
    }
  }

  lemma ReviseLinks(fs: FileSystem, op: Op, done: nat, artifactId: string)
    requires Inv(fs) && Linked(fs, artifactId) && op.Revise? && Enabled(fs, op) && 0 < done <= 3
    requires !(done == 2 && op.target.artifactId == artifactId)
    ensures |Writes(op)| == 3 && Linked(After(fs, op, done), artifactId)
  {
    hide ReviewWorkflow.Enabled, ReviewWorkflow.Writes, ReviewWorkflow.UpdatedMetadata, ReviewWorkflow.RevisedMetadata,
      After, Inv, Stored, Kept, RecordOk, HoldsVersion, Linked, ArtifactStore.Located;
    WritesCounted(fs, op);
    TargetIsLatest(fs, op);
    StoredIsOk(fs, op.target);
    UpdateIsSound(op);
    ReviseSteps(fs, op);
    RevisedRecordOk(op);
    var fs' := After(fs, op, done);
    if done == 3 && op.target.artifactId == artifactId {
      OneLatest(fs, op.target);
      RevisionLinks(fs, fs', op.target, UpdatedMetadata(op), SavedBy(op));
    } else {
      LinkedAlike(fs, fs', artifactId);
    }
  }

  /** The latest version is the only one of its number. */
  lemma OneLatest(fs: FileSystem, m: Metadata)
    requires Inv(fs) && Stored(fs, m)
    ensures forall u | Stored(fs, u) && u.artifactId == m.artifactId && u.version == m.version :: u == m
  {
    forall u | Stored(fs, u) && u.artifactId == m.artifactId && u.version == m.version
      ensures u == m
    {
      OneRecordPerVersion(fs, u, m);
    }
  }

  lemma ReviewLinks(fs: FileSystem, op: Op, artifactId: string)
    requires Inv(fs) && Linked(fs, artifactId) && !op.Generate? && !op.Revise? && Enabled(fs, op)
    ensures |Writes(op)| == 1 && Linked(After(fs, op, 1), artifactId)
  {
    hide ReviewWorkflow.Enabled, ReviewWorkflow.Writes, ReviewWorkflow.UpdatedMetadata, After;
    WritesCounted(fs, op);
    TargetIsLatest(fs, op);
    UpdateIsSound(op);
    ReviewSteps(fs, op);
    hide Inv;
    UpdateKeepsLinks(fs, After(fs, op, 1), op.target, UpdatedMetadata(op), artifactId);
  }

  lemma UpdateKeepsLinks(fs: FileSystem, fs': FileSystem, a: Metadata, b: Metadata, artifactId: string)
    requires Linked(fs, artifactId) && Stored(fs, a) && Evolves(a, b)
    requires forall u | Stored(fs, u) && u.artifactId == a.artifactId :: u.version <= a.version
    requires forall u :: Stored(fs', u) <==> u == b || (Stored(fs, u) && u != a)
    ensures Linked(fs', artifactId)
  {
    forall x, y | Stored(fs', x) && Stored(fs', y) && x.artifactId == y.artifactId == artifactId && x.version < y.version
      ensures x.status == Superseded
    {
      var x0, y0 := if x == b then a else x, if y == b then a else y;
      assert Stored(fs, x0) && Stored(fs, y0);
    }
  }

  lemma RevisionLinks(fs: FileSystem, fs': FileSystem, a: Metadata, b: Metadata, m: Metadata)
    requires Linked(fs, a.artifactId) && Stored(fs, a) && Evolves(a, b) && b.status == Superseded
    requires forall u | Stored(fs, u) && u.artifactId == a.artifactId :: u.version <= a.version
    requires forall u | Stored(fs, u) && u.artifactId == a.artifactId && u.version == a.version :: u == a
    requires m.artifactId == a.artifactId && m.version == a.version + 1
    requires forall u :: Stored(fs', u) <==> u == b || ((u == m || Stored(fs, u)) && u != a)
    ensures Linked(fs', a.artifactId)
  {
    forall x, y | Stored(fs', x) && Stored(fs', y) && x.artifactId == y.artifactId == a.artifactId && x.version < y.version
      ensures x.status == Superseded
    {
      if x != b && x != m {
        assert Stored(fs, x);
      }
    }
  }

  /**
   Whatever operation runs, and wherever it stops, the chain of an artifact stays linked, unless it is
   a revision of this artifact that stops between its second and its third write.
   */
  lemma StepLinks(fs: FileSystem, e: Event, fs': FileSystem, artifactId: string)
    requires Inv(fs) && Linked(fs, artifactId) && Step(fs, e, fs') && !CutsRevision(e, artifactId)
    ensures Linked(fs', artifactId)
  {
    hide ReviewWorkflow.Enabled, ReviewWorkflow.Writes, After, Inv, Linked;
    var op, done := e.op, e.done;
    PicksCounted(fs, op);
    WritesCounted(fs, op);
    if done > 0 {
      if op.Generate? {
        GenerateLinks(fs, op, done, artifactId);
      } else if op.Revise? {
        ReviseLinks(fs, op, done, artifactId);
      } else {
        ReviewLinks(fs, op, artifactId);
      }
    }
  }

  /** Such a revision leaves two versions, the older of which is open. */
  lemma CutUnlinks(fs: FileSystem, e: Event, fs': FileSystem)
    requires Inv(fs) && Step(fs, e, fs') && e.op.Revise? && e.done == 2
    ensures var m, newer := e.op.target, SavedBy(e.op);
            && Stored(fs', m) && Stored(fs', newer) && m.status != Superseded
            && newer.artifactId == m.artifactId && newer.version == m.version + 1
  {
    hide ReviewWorkflow.Enabled, ReviewWorkflow.Writes, ReviewWorkflow.UpdatedMetadata, After;
    TargetIsLatest(fs, e.op);
    ReviseSteps(fs, e.op);
    RevisedRecordOk(e.op);
  }

  lemma PicksCounted(fs: FileSystem, op: Op)
    requires Enabled(fs, op)
    ensures op.Generate? ==> |op.picks| == |Upstream(op.wp)|
  {
  }

  /** Where the records stored after a step come from. */
  lemma StepRecords(fs: FileSystem, op: Op, done: nat, u: Metadata)
    requires Inv(fs) && Enabled(fs, op) && done <= |Writes(op)| && Stored(After(fs, op, done), u)
    ensures op.Generate? ==> |op.picks| == |Upstream(op.wp)| && (Stored(fs, u) || (done == 2 && u == SavedBy(op)))
    ensures !op.Generate? ==> Stored(fs, op.target)
    ensures op.Revise? ==> Stored(fs, u) || u == SavedBy(op) || u == UpdatedMetadata(op)
    ensures !op.Generate? && !op.Revise? ==> Stored(fs, u) || u == UpdatedMetadata(op)
  {
    hide *;
    PicksCounted(fs, op);
    WritesCounted(fs, op);
    if !op.Generate? {
      TargetIsLatest(fs, op);
    }
    if done > 0 {
      if op.Generate? {
        GenerateSteps(fs, op);
      } else if op.Revise? {
        ReviseSteps(fs, op);
      } else {
        ReviewSteps(fs, op);
      }
    }
  }

  // ---------- Keeping the records of a project traced ----------

  /** What a generator saves refers to all it requires exactly when nothing it requires was missing. */
  lemma SavedTraced(fs: FileSystem, op: Op)
    requires Inv(fs) && op.Generate? && Enabled(fs, op)
    ensures TracedRecord(SavedBy(op)) <==> Missing(Upstream(op.wp), op.picks) == []
    ensures SavedBy(op).projectSlug == NormalizeProjectSlug(op.project)
  {
    GeneratedRefs(fs, op);
    hide Inv, ReviewWorkflow.Enabled;
    var m := GeneratedMetadata(op);
    SameRefs(m, SavedBy(op));
    if Missing(Upstream(op.wp), op.picks) != [] {
      FoundOrMissing(Upstream(op.wp), op.picks);
      assert !RefsComplete(m);
    }
  }

  lemma TargetTraced(fs: FileSystem, op: Op)
    requires Inv(fs) && !op.Generate? && Enabled(fs, op) && Traced(fs, op.target.projectSlug)
    ensures TracedRecord(op.target) && TracedRecord(UpdatedMetadata(op))
    ensures op.Revise? ==> TracedRecord(SavedBy(op))
  {
    hide ReviewWorkflow.Enabled, ArtifactStore.LatestById;
    TargetIsLatest(fs, op);
    StoredIsOk(fs, op.target);
    hide Inv;
    UpdateEvolves(op);
    SameRefs(op.target, UpdatedMetadata(op));
    if op.Revise? {
      SameRefs(op.target, SavedBy(op));
    }
  }

  lemma SameRefs(a: Metadata, b: Metadata)
    requires SameHome(a, b) && a.title == b.title && a.upstreamRefs == b.upstreamRefs
    ensures TracedRecord(a) <==> TracedRecord(b)
  {
  }

  /** Where the updated and the revised record live. */
  lemma TargetHome(fs: FileSystem, op: Op)
    requires Inv(fs) && !op.Generate? && Enabled(fs, op)
    ensures UpdatedMetadata(op).projectSlug == op.target.projectSlug
    ensures op.Revise? ==> SavedBy(op).projectSlug == op.target.projectSlug
  {
    hide ReviewWorkflow.Enabled, ArtifactStore.LatestById;
    TargetIsLatest(fs, op);
    StoredIsOk(fs, op.target);
    hide Inv;
    UpdateEvolves(op);
    if op.Revise? {
      RevisedRecordOk(op);
    }
  }

  /** Every step keeps the records of a project traced, unless it saves one on missing work products. */
  lemma StepTraces(fs: FileSystem, e: Event, fs': FileSystem, project: string)
    requires Inv(fs) && Traced(fs, project) && Step(fs, e, fs') && !SkipsUpstream(e, project)
    ensures Traced(fs', project)
  {
    hide ReviewWorkflow.Enabled, ReviewWorkflow.Writes, ReviewWorkflow.UpdatedMetadata, After, Inv, Stored, TracedRecord, SavedBy;
    var op := e.op;
    PicksCounted(fs, op);
    forall u | Stored(fs', u) && u.projectSlug == project
      ensures TracedRecord(u)
    {
      StepRecords(fs, op, e.done, u);
      if op.Generate? {
        SavedTraced(fs, op);
      } else {
        TargetHome(fs, op);
        if op.target.projectSlug == project {
          TargetTraced(fs, op);
        }
      }
    }
  }

  /** A generator that goes on without work products it requires saves a record that lacks them. */
  lemma SkipUntraces(fs: FileSystem, e: Event, fs': FileSystem, project: string)
    requires Inv(fs) && Step(fs, e, fs') && SkipsUpstream(e, project)
    ensures var m := SavedBy(e.op); Stored(fs', m) && m.projectSlug == project && !TracedRecord(m)
  {
    hide ReviewWorkflow.Enabled, ReviewWorkflow.Writes, After, Inv, Stored, TracedRecord, SavedBy;
    GenerateSteps(fs, e.op);
    SavedTraced(fs, e.op);
  }

  // ---------- Runs ----------

  /** An operation of a run, and how many of its file writes took place. */
  datatype Event = Event(op: Op, done: nat)

  ghost predicate Step(fs: FileSystem, e: Event, fs': FileSystem) {
    Enabled(fs, e.op) && e.done <= |Writes(e.op)| && fs' == After(fs, e.op, e.done)
  }

  /** A run from the empty workspace. */
  ghost predicate Run(trace: seq<FileSystem>, events: seq<Event>) {
    && |trace| == |events| + 1
    && trace[0] == map[]
    && forall i | 0 <= i < |events| :: Step(trace[i], events[i], trace[i + 1])
  }

  /** A revision of the artifact that stopped after saving the new version. */
  predicate CutsRevision(e: Event, artifactId: string) {
    e.op.Revise? && e.done == 2 && e.op.target.artifactId == artifactId
  }

  /** A generator that saved a work product of the project although required ones were missing. */
  predicate SkipsUpstream(e: Event, project: string) {
    && e.op.Generate? && e.done == 2 && NormalizeProjectSlug(e.op.project) == project
    && |e.op.picks| == |Upstream(e.op.wp)| && Missing(Upstream(e.op.wp), e.op.picks) != []
  }

  lemma EmptyOk()
    ensures Inv(map[])
    ensures forall id :: Linked(map[], id)
    ensures forall project :: Traced(map[], project)
  {
  }

  lemma StepOfRun(trace: seq<FileSystem>, events: seq<Event>, i: nat)
    requires Run(trace, events) && i + 1 < |trace|
    ensures i < |events| && Step(trace[i], events[i], trace[i + 1]) && events[i] in events
  {
    hide Step;
  }

  /** The invariant holds all along every run, interrupted operations included. */
  lemma {:induction false} RunKeepsInv(trace: seq<FileSystem>, events: seq<Event>, i: nat)
    requires Run(trace, events) && i < |trace|
    ensures Inv(trace[i])
  {
    hide ReviewWorkflow.Writes, ReviewWorkflow.Enabled, After, Inv, Extends, Linked, Traced;
    if i == 0 {
      EmptyOk();
    } else {
      hide Run;
      RunKeepsInv(trace, events, i - 1);
      StepOfRun(trace, events, i - 1);
      StepKeeps(trace[i - 1], events[i - 1].op, events[i - 1].done);
    }
  }

  /** Nothing stored is lost or rewritten between two points of a run. */
  lemma {:induction false} RunExtends(trace: seq<FileSystem>, events: seq<Event>, i: nat, j: nat)
    requires Run(trace, events) && i <= j < |trace|
    ensures Extends(trace[i], trace[j])
    decreases j
  {
    hide ReviewWorkflow.Writes, ReviewWorkflow.Enabled, After, Inv, Extends;
    RunKeepsInv(trace, events, i);
    if i == j {
      ExtendsReflexive(trace[i]);
    } else {
      hide Run;
      RunExtends(trace, events, i, j - 1);
      RunKeepsInv(trace, events, j - 1);
      StepOfRun(trace, events, j - 1);
      StepKeeps(trace[j - 1], events[j - 1].op, events[j - 1].done);
      ExtendsTransitive(trace[i], trace[j - 1], trace[j]);
    }
  }

  lemma {:induction false} RunLinks(trace: seq<FileSystem>, events: seq<Event>, i: nat, artifactId: string)
    requires Run(trace, events) && i < |trace| && forall k | 0 <= k < i :: !CutsRevision(events[k], artifactId)
    ensures Linked(trace[i], artifactId)
  {
    hide Step, Inv, Linked, CutsRevision;
    if i == 0 {
      EmptyOk();
    } else {
      RunLinks(trace, events, i - 1, artifactId);
      RunKeepsInv(trace, events, i - 1);
      StepOfRun(trace, events, i - 1);
      StepLinks(trace[i - 1], events[i - 1], trace[i], artifactId);
    }
  }

  lemma {:induction false} RunTraces(trace: seq<FileSystem>, events: seq<Event>, i: nat, project: string)
    requires Run(trace, events) && i < |trace| && forall k | 0 <= k < i :: !SkipsUpstream(events[k], project)
    ensures Traced(trace[i], project)
  {
    hide Step, Inv, Traced, SkipsUpstream;
    if i == 0 {
      EmptyOk();
    } else {
      RunTraces(trace, events, i - 1, project);
      RunKeepsInv(trace, events, i - 1);
      StepOfRun(trace, events, i - 1);
      StepTraces(trace[i - 1], events[i - 1], trace[i], project);
    }
  }
}
