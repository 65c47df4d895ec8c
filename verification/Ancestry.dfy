/**
 What the store promises over whole runs: unbroken version chains, documents and histories that
 are never rewritten, and the approved ancestry of every work product.
 */
module Ancestry {
  import opened Wrappers
  import opened Slugs
  import Strings
  import DocumentControl
  import opened WorkProducts
  import opened ArtifactStore
  import opened ReviewWorkflow
  import opened StoreInvariant
  import opened StoreRuns
  import OperationEffects

  ghost predicate HasVersion(fs: FileSystem, artifactId: string, v: int) {
    exists m :: Stored(fs, m) && m.artifactId == artifactId && m.version == v
  }

  /** There is a version, and the versions are exactly those from 1 to the latest. */
  lemma VersionsUpTo(fs: FileSystem, latest: Metadata)
    requires Inv(fs) && LatestById(fs, latest.artifactId, Some(latest))
    ensures forall v :: HasVersion(fs, latest.artifactId, v) <==> 1 <= v <= latest.version
  {
    hide ArtifactStore.LatestById;
    LatestIsOpen(fs, latest);
    forall v
      ensures HasVersion(fs, latest.artifactId, v) <==> 1 <= v <= latest.version
    {
      if 1 <= v <= latest.version {
        VersionHeld(fs, latest, v);
        var m := HeldRecord(fs, latest, v);
      }
      hide StoreInvariant.Inv;
      if HasVersion(fs, latest.artifactId, v) {
        var m :| Stored(fs, m) && m.artifactId == latest.artifactId && m.version == v;
        StoredIsOk(fs, m);
      }
    }
  }

  lemma VersionHeld(fs: FileSystem, m: Metadata, v: int)
    requires Inv(fs) && Stored(fs, m) && 1 <= v <= m.version
    ensures HoldsVersion(fs, m, v)
  {
  }

  /** What the links of a stored record are. */
  lemma StoredLinks(fs: FileSystem, m: Metadata)
    requires Inv(fs) && Stored(fs, m)
    ensures LinksOk(m)
  {
    hide StoreInvariant.Inv;
    StoredIsOk(fs, m);
  }

  /** Everything below the latest version is superseded and names its successor. */
  ghost predicate LinkedForward(fs: FileSystem, latest: Metadata) {
    forall m | Stored(fs, m) && m.artifactId == latest.artifactId && m.version < latest.version ::
      m.status == Superseded && m.supersededBy == Some(VersionRef(m.artifactId, m.version + 1))
  }

  /**
   All along every run, operations that stop between two writes included, the versions of an artifact
   are exactly 1 to n, each but the first names the one it supersedes, and version n is not superseded.
   All the others are superseded and name their successors if and only if no revision of this
   artifact stopped after saving its new version.
   */
  lemma VersionChain(trace: seq<FileSystem>, events: seq<Event>, i: nat, latest: Metadata)
    requires Run(trace, events) && i < |trace| && LatestById(trace[i], latest.artifactId, Some(latest))
    ensures forall v :: HasVersion(trace[i], latest.artifactId, v) <==> 1 <= v <= latest.version
    ensures latest.status != Superseded && latest.supersededBy == None
    ensures forall m | Stored(trace[i], m) && m.artifactId == latest.artifactId ::
              m.supersedes == if m.version == 1 then None else Some(VersionRef(m.artifactId, m.version - 1))
    ensures LinkedForward(trace[i], latest) <==> forall k | 0 <= k < i :: !CutsRevision(events[k], latest.artifactId)
  {
    hide *;
    RunKeepsInv(trace, events, i);
    LinkedExactly(trace, events, i, latest.artifactId);
    VersionsUpTo(trace[i], latest);
    LatestLinks(trace[i], latest);
  }

  /** The links of an artifact's records, read from its latest version. */
  lemma LatestLinks(fs: FileSystem, latest: Metadata)
    requires Inv(fs) && LatestById(fs, latest.artifactId, Some(latest))
    ensures latest.status != Superseded && latest.supersededBy == None
    ensures forall m | Stored(fs, m) && m.artifactId == latest.artifactId ::
              m.supersedes == if m.version == 1 then None else Some(VersionRef(m.artifactId, m.version - 1))
    ensures LinkedForward(fs, latest) <==> Linked(fs, latest.artifactId)
  {
    hide ArtifactStore.LatestById, StoreInvariant.Inv, StoreInvariant.Stored, StoreInvariant.HoldsVersion;
    LatestIsOpen(fs, latest);
    forall m | Stored(fs, m)
      ensures LinksOk(m)
    {
      StoredLinks(fs, m);
    }
  }

  /** At every point of every run: the chain is linked if and only if no revision of it was cut before. */
  lemma LinkedExactly(trace: seq<FileSystem>, events: seq<Event>, i: nat, artifactId: string)
    requires Run(trace, events) && i < |trace|
    ensures Linked(trace[i], artifactId) <==> forall k | 0 <= k < i :: !CutsRevision(events[k], artifactId)
  {
    hide StoreRuns.Step, StoreInvariant.Stored, StoreInvariant.Inv;
    if k :| 0 <= k < i && CutsRevision(events[k], artifactId) {
      CutStaysOpen(trace, events, k, i);
    } else {
      RunLinks(trace, events, i, artifactId);
    }
  }

  /** The version under a revision that was cut stays open, and outdated, for the rest of the run. */
  lemma CutStaysOpen(trace: seq<FileSystem>, events: seq<Event>, k: nat, j: nat)
    requires Run(trace, events) && k < j < |trace| && events[k].op.Revise? && events[k].done == 2
    ensures var m := events[k].op.target; Stored(trace[j], m) && m.status != Superseded && !Linked(trace[j], m.artifactId)
  {
    hide StoreRuns.Run, StoreRuns.Step, StoreInvariant.Stored, StoreInvariant.Inv, StoreRuns.SavedBy;
    StepOfRun(trace, events, k);
    RunKeepsInv(trace, events, k);
    CutUnlinks(trace[k], events[k], trace[k + 1]);
    var m, newer := events[k].op.target, SavedBy(events[k].op);
    OldVersionsFrozen(trace, events, k + 1, j, m, newer);
    var later := StillThere(trace, events, k + 1, j, newer);
  }

  /** The document of a saved version never changes afterwards. */
  lemma DocumentsNeverChange(trace: seq<FileSystem>, events: seq<Event>, i: nat, j: nat, m: Metadata)
    requires Run(trace, events) && i <= j < |trace| && Stored(trace[i], m)
    ensures DocumentPath(m) in trace[i] && DocumentPath(m) in trace[j]
    ensures trace[j][DocumentPath(m)] == trace[i][DocumentPath(m)]
  {
    RunExtends(trace, events, i, j);
    assert KeptIn(trace[i], trace[j], m);
  }

  /**
   The status history of a stored version only grows; it starts as a draft and ends in the current
   status; the lock, the approval date and an approval in the history go together; and a superseded
   record is never written again.
   */
  lemma HistoriesOnlyGrow(trace: seq<FileSystem>, events: seq<Event>, i: nat, j: nat, m: Metadata)
    requires Run(trace, events) && i <= j < |trace| && Stored(trace[i], m)
    ensures MetadataPath(m) in trace[j] && trace[j][MetadataPath(m)].Json?
    ensures var later := trace[j][MetadataPath(m)].metadata;
            && m.statusHistory <= later.statusHistory
            && later.statusHistory != [] && later.statusHistory[0].status == Draft
            && later.statusHistory[|later.statusHistory| - 1].status == later.status
            && (later.locked <==> later.approvedAt != "")
            && (later.locked <==> EverApproved(later.statusHistory))
            && (m.status == Superseded ==> later == m)
            && later.upstreamRefs == m.upstreamRefs
  {
    hide StoreRuns.Run, StoreInvariant.Inv, StoreInvariant.Extends, StoreInvariant.Stored;
    RunExtends(trace, events, i, j);
    RunKeepsInv(trace, events, j);
    var later := KeptRecord(trace[i], trace[j], m);
    StoredHistory(trace[j], later);
  }

  lemma StoredHistory(fs: FileSystem, m: Metadata)
    requires Inv(fs) && Stored(fs, m)
    ensures HistoryOk(m)
  {
    hide StoreInvariant.Inv;
    StoredIsOk(fs, m);
  }

  /** What a record has become in an extension of its file system. */
  lemma KeptRecord(fs: FileSystem, fs': FileSystem, m: Metadata) returns (later: Metadata)
    requires Extends(fs, fs') && Stored(fs, m)
    ensures Stored(fs', later) && Evolves(m, later) && MetadataPath(later) == MetadataPath(m)
    ensures MetadataPath(m) in fs' && fs'[MetadataPath(m)] == Json(later)
  {
    assert KeptIn(fs, fs', m);
    later := fs'[MetadataPath(m)].metadata;
  }

  /** Only the latest version of an artifact is ever written. */
  lemma OlderKept(fs: FileSystem, op: Op, done: nat, m: Metadata, newer: Metadata)
    requires Inv(fs) && Enabled(fs, op) && done <= |Writes(op)|
    requires Stored(fs, m) && Stored(fs, newer) && newer.artifactId == m.artifactId && m.version < newer.version
    ensures Stored(After(fs, op, done), m)
  {
    hide *;
    PicksCounted(fs, op);
    WritesCounted(fs, op);
    if op.Generate? {
      GenerateSteps(fs, op);
    } else {
      TargetIsLatest(fs, op);
      if op.Revise? {
        ReviseSteps(fs, op);
      } else {
        ReviewSteps(fs, op);
      }
    }
  }

  /**
   A version with a successor is frozen: its record stays as it is for the rest of the run. So a
   version that a stopped revision did not get to mark as superseded is never marked later on.
   */
  lemma {:induction false} OldVersionsFrozen(trace: seq<FileSystem>, events: seq<Event>, i: nat, j: nat, m: Metadata, newer: Metadata)
    requires Run(trace, events) && i <= j < |trace|
    requires Stored(trace[i], m) && Stored(trace[i], newer) && newer.artifactId == m.artifactId && m.version < newer.version
    ensures Stored(trace[j], m)
    decreases j
  {
    hide *;
    if i < j {
      OldVersionsFrozen(trace, events, i, j - 1, m, newer);
      RunKeepsInv(trace, events, j - 1);
      var later := StillThere(trace, events, i, j - 1, newer);
      StepOfRun(trace, events, j - 1);
      OlderKeptByStep(trace[j - 1], events[j - 1], trace[j], m, later);
    }
  }

  lemma OlderKeptByStep(fs: FileSystem, e: Event, fs': FileSystem, m: Metadata, newer: Metadata)
    requires Inv(fs) && Step(fs, e, fs')
    requires Stored(fs, m) && Stored(fs, newer) && newer.artifactId == m.artifactId && m.version < newer.version
    ensures Stored(fs', m)
  {
    OlderKept(fs, e.op, e.done, m, newer);
  }

  /** What a stored record has become later in the run. */
  lemma StillThere(trace: seq<FileSystem>, events: seq<Event>, i: nat, j: nat, m: Metadata) returns (later: Metadata)
    requires Run(trace, events) && i <= j < |trace| && Stored(trace[i], m)
    ensures Stored(trace[j], later) && Evolves(m, later) && later.artifactId == m.artifactId && later.version == m.version
  {
    hide StoreRuns.Run, StoreInvariant.Extends, StoreInvariant.Stored;
    RunExtends(trace, events, i, j);
    later := KeptRecord(trace[i], trace[j], m);
  }

  /**
   A run in which the property fails: an artifact is generated, and its revision stops after its
   second write. However the run goes on, version 1 is there, outdated and not superseded.
   */
  lemma StoppedRevision() returns (trace: seq<FileSystem>, events: seq<Event>, m: Metadata)
    ensures Run(trace, events) && |trace| == 3 && CutsRevision(events[1], m.artifactId) && m.version == 1 && m.status != Superseded
    ensures forall trace', events', j | Run(trace', events') && events <= events' && 2 <= j < |trace'| ::
              Stored(trace'[j], m) && !Linked(trace'[j], m.artifactId)
  {
    var now: Time := "1970-01-01T00:00:00Z";
    var generate := Generate(SafetyPlan, "demo", "wp_safetyplan-1", "author", "", false, [], now, "");
    trace, events, m := CutAfterGenerating(generate, now);
    CutForGood(events, m);
  }

  lemma CutAfterGenerating(generate: Op, now: Time) returns (trace: seq<FileSystem>, events: seq<Event>, m: Metadata)
    requires generate.Generate? && generate.wp == SafetyPlan && generate.picks == []
    ensures Run(trace, events) && |trace| == 3 && CutsRevision(events[1], m.artifactId) && events[1].op.target == m
    ensures m.version == 1 && m.status != Superseded
  {
    hide ReviewWorkflow.Writes, ReviewWorkflow.Enabled, StoreRuns.After, StoreInvariant.Stored, StoreRuns.SavedBy;
    var revise := GeneratedThenRevised(generate, now);
    m := revise.target;
    events := [Event(generate, 2), Event(revise, 2)];
    var fs := After(map[], generate, 2);
    WritesCounted(fs, revise);
    trace := [map[], fs, After(fs, revise, 2)];
    assert Step(trace[0], events[0], trace[1]) && Step(trace[1], events[1], trace[2]);
  }

  lemma CutForGood(events: seq<Event>, m: Metadata)
    requires |events| == 2 && events[1].op.Revise? && events[1].done == 2 && events[1].op.target == m
    ensures forall trace', events', j | Run(trace', events') && events <= events' && 2 <= j < |trace'| ::
              Stored(trace'[j], m) && !Linked(trace'[j], m.artifactId)
  {
    hide StoreInvariant.Stored, StoreInvariant.Linked, StoreRuns.Step;
    forall trace', events', j | Run(trace', events') && events <= events' && 2 <= j < |trace'|
      ensures Stored(trace'[j], m) && !Linked(trace'[j], m.artifactId)
    {
      assert events'[1] == events[1];
      CutStaysOpen(trace', events', 1, j);
    }
  }

  /** The first artifact of a workspace can be revised. */
  lemma GeneratedThenRevised(generate: Op, now: Time) returns (revise: Op)
    requires generate.Generate? && generate.wp == SafetyPlan && generate.picks == []
    ensures Enabled(map[], generate) && |Writes(generate)| == 2
    ensures revise.Revise? && revise.target == SavedBy(generate) && Enabled(After(map[], generate, 2), revise)
    ensures revise.target.version == 1 && revise.target.status == Draft && revise.target.artifactId == generate.artifactId
  {
    assert Missing([], []) == [];
    EmptyOk();
    assert Enabled(map[], generate);
    GenerateSteps(map[], generate);
    var fs, m := After(map[], generate, 2), SavedBy(generate);
    hide StoreRuns.After, ReviewWorkflow.Writes;
    revise := Revise(m, "", [], "", now, now);
    FirstIsLatest(fs, m);
  }

  lemma FirstIsLatest(fs: FileSystem, m: Metadata)
    requires Inv(fs) && forall u :: Stored(fs, u) <==> u == m
    ensures LatestById(fs, m.artifactId, Some(m))
  {
    hide StoreInvariant.Stored;
    forall u
      ensures Listed(fs, [], u) <==> u == m
    {
      ListedIsStored(fs, u);
    }
  }

  // ---------- The trace graph ----------

  predicate RefersTo(ref: UpstreamRef, m: Metadata) {
    ref.artifactId == m.artifactId && ref.version == m.version && ref.wpId == m.wpId && ref.title == m.title
  }

  /** `a` was derived from `b`. */
  ghost predicate TraceEdge(fs: FileSystem, a: Metadata, b: Metadata) {
    && Stored(fs, a) && Stored(fs, b) && a.projectSlug == b.projectSlug
    && exists ref | ref in a.upstreamRefs :: RefersTo(ref, b)
  }

  /** The record at the end of a reference. */
  lemma RefRecord(fs: FileSystem, m: Metadata, ref: UpstreamRef) returns (u: Metadata)
    requires FilesOk(fs) && RecordsOk(fs) && RefResolves(fs, m, ref)
    ensures Stored(fs, u) && u.projectSlug == m.projectSlug && RefersTo(ref, u) && EverApproved(u.statusHistory)
  {
    var p := RefPath(m.projectSlug, ref);
    u := fs[p].metadata;
    assert MetadataPath(u) == p;
    assert Stored(fs, u) && RecordOk(u);
    FileNames.NamesDistinct(u.artifactId, u.version, ref.artifactId, ref.version);
  }

  /** No reference dangles: it leads to a stored, once approved version of the same project. */
  lemma RefsNeverDangle(fs: FileSystem, m: Metadata, ref: UpstreamRef) returns (u: Metadata)
    requires Inv(fs) && Stored(fs, m) && ref in m.upstreamRefs
    ensures TraceEdge(fs, m, u) && RefersTo(ref, u) && EverApproved(u.statusHistory)
  {
    assert RefResolves(fs, m, ref);
    u := RefRecord(fs, m, ref);
  }

  lemma EdgeDecreases(fs: FileSystem, a: Metadata, b: Metadata)
    requires Inv(fs) && TraceEdge(fs, a, b)
    ensures KnownWorkProduct(a) && KnownWorkProduct(b)
    ensures WorkProductOf(b) in Upstream(WorkProductOf(a)) && Rank(WorkProductOf(b)) < Rank(WorkProductOf(a))
  {
    var ref :| ref in a.upstreamRefs && RefersTo(ref, b);
    var i :| 0 <= i < |a.upstreamRefs| && a.upstreamRefs[i] == ref;
    var wp := Upstream(WorkProductOf(a))[i];
    WithIdInverse(wp);
    UpstreamDecreases(WorkProductOf(a));
  }

  ghost predicate TracePath(fs: FileSystem, path: seq<Metadata>) {
    |path| >= 2 && forall i | 0 <= i < |path| - 1 :: TraceEdge(fs, path[i], path[i + 1])
  }

  lemma {:induction false} PathDecreases(fs: FileSystem, path: seq<Metadata>)
    requires Inv(fs) && TracePath(fs, path)
    ensures KnownWorkProduct(path[0]) && KnownWorkProduct(path[|path| - 1])
    ensures Rank(WorkProductOf(path[|path| - 1])) < Rank(WorkProductOf(path[0]))
    decreases |path|
  {
    hide StoreInvariant.Inv, TraceEdge, WorkProductOf, StoreInvariant.KnownWorkProduct;
    EdgeDecreases(fs, path[0], path[0 + 1]);
    if |path| > 2 {
      var rest := path[1..];
      forall i | 0 <= i < |rest| - 1
        ensures TraceEdge(fs, rest[i], rest[i + 1])
      {
        var k := i + 1;
        assert TraceEdge(fs, path[k], path[k + 1]);
      }
      PathDecreases(fs, rest);
    }
  }

  /** The trace graph has no cycle, at any point of any run. */
  lemma TraceIsAcyclic(trace: seq<FileSystem>, events: seq<Event>, i: nat, path: seq<Metadata>)
    requires Run(trace, events) && i < |trace| && TracePath(trace[i], path)
    ensures path[0] != path[|path| - 1]
  {
    RunKeepsInv(trace, events, i);
    PathDecreases(trace[i], path);
  }

  // ---------- Approved ancestry ----------

  /** `a` is required, directly or not, before `wp` can be generated. */
  predicate Ancestor(a: WorkProduct, wp: WorkProduct)
    decreases Rank(wp)
  {
    UpstreamDecreases(wp);
    a in Upstream(wp) || exists b | b in Upstream(wp) :: Ancestor(a, b)
  }

  /** The project holds a version of this work product that was approved at some time. */
  ghost predicate HoldsApproved(fs: FileSystem, project: string, wp: WorkProduct) {
    exists u :: Stored(fs, u) && u.projectSlug == project && u.phase == Phase(wp) && u.wpId == WpId(wp) && EverApproved(u.statusHistory)
  }

  /** The record behind one of the references of a fully traced record. */
  lemma UpstreamRecord(fs: FileSystem, m: Metadata, i: nat) returns (u: Metadata)
    requires Inv(fs) && Traced(fs, m.projectSlug) && Stored(fs, m) && KnownWorkProduct(m) && i < |Upstream(WorkProductOf(m))|
    ensures Stored(fs, u) && u.projectSlug == m.projectSlug && EverApproved(u.statusHistory)
    ensures KnownWorkProduct(u) && WorkProductOf(u) == Upstream(WorkProductOf(m))[i]
  {
    u := RefsNeverDangle(fs, m, m.upstreamRefs[i]);
    WithIdInverse(Upstream(WorkProductOf(m))[i]);
  }

  /** A fully traced record rests on approved versions of all its ancestors. */
  lemma {:induction false} AncestryHeld(fs: FileSystem, m: Metadata, a: WorkProduct)
    requires Inv(fs) && Traced(fs, m.projectSlug) && Stored(fs, m) && KnownWorkProduct(m) && Ancestor(a, WorkProductOf(m))
    ensures HoldsApproved(fs, m.projectSlug, a)
    decreases Rank(WorkProductOf(m))
  {
    hide WorkProducts.Upstream, WorkProducts.Rank, Ancestor, StoreInvariant.Inv, StoreInvariant.Traced, StoreInvariant.Stored,
      StoreInvariant.KnownWorkProduct, StoreInvariant.WorkProductOf, HoldsApproved;
    var wp := WorkProductOf(m);
    UpstreamDecreases(wp);
    OneStep(a, wp);
    var i :| 0 <= i < |Upstream(wp)| && (a == Upstream(wp)[i] || Ancestor(a, Upstream(wp)[i]));
    var u := UpstreamRecord(fs, m, i);
    if a == Upstream(wp)[i] {
      IsHeld(fs, u);
    } else {
      AncestryHeld(fs, u, a);
    }
  }

  lemma IsHeld(fs: FileSystem, u: Metadata)
    requires Stored(fs, u) && KnownWorkProduct(u) && EverApproved(u.statusHistory)
    ensures HoldsApproved(fs, u.projectSlug, WorkProductOf(u))
  {
  }

  // ---------- The ancestry was there before ----------

  ghost predicate Unused(fs: FileSystem, artifactId: string) {
    forall m | Stored(fs, m) :: m.artifactId != artifactId
  }

  /** Only generating brings in a new artifact id. */
  lemma NewIdIsGenerated(fs: FileSystem, op: Op, done: nat, m: Metadata)
    requires Inv(fs) && Enabled(fs, op) && done <= |Writes(op)|
    requires Unused(fs, m.artifactId) && Stored(After(fs, op, done), m)
    ensures op.Generate? && op.artifactId == m.artifactId && done == 2 && m == SavedBy(op)
  {
    StepRecords(fs, op, done, m);
    hide ReviewWorkflow.Writes, ReviewWorkflow.Enabled, StoreRuns.After, StoreInvariant.Inv;
    if !op.Generate? {
      TargetIsLatest(fs, op);
      UpdateEvolves(op);
    }
  }

  /** The identity of the record a generator saves. */
  lemma SavedIdentity(fs: FileSystem, op: Op)
    requires Inv(fs) && op.Generate? && Enabled(fs, op)
    ensures var m := SavedBy(op);
            && m.artifactId == op.artifactId && m.projectSlug == NormalizeProjectSlug(op.project)
            && KnownWorkProduct(m) && WorkProductOf(m) == op.wp
  {
    GeneratedRefs(fs, op);
  }

  /** An artifact stays in its project and work product. */
  lemma HomeKept(fs: FileSystem, fs': FileSystem, u: Metadata, m: Metadata)
    requires Inv(fs') && Extends(fs, fs') && Stored(fs, u) && Stored(fs', m) && u.artifactId == m.artifactId
    ensures SameHome(u, m) && KnownWorkProduct(m)
  {
    hide StoreInvariant.FilesOk, StoreInvariant.VersionsOk, StoreInvariant.LatestOpen, StoreInvariant.RefsOk;
    assert KeptIn(fs, fs', u);
    var later := fs'[MetadataPath(u)].metadata;
    assert MetadataPath(later) == MetadataPath(u);
    assert Stored(fs', later);
    assert SameHome(later, m);
    assert RecordOk(m);
  }

  /** The approved version a generator found for one of its required work products. */
  lemma FoundApproved(fs: FileSystem, op: Op, i: nat) returns (u: Metadata)
    requires Inv(fs) && op.Generate? && Enabled(fs, op) && Missing(Upstream(op.wp), op.picks) == [] && i < |Upstream(op.wp)|
    ensures Stored(fs, u) && u.projectSlug == NormalizeProjectSlug(op.project) && EverApproved(u.statusHistory)
    ensures KnownWorkProduct(u) && WorkProductOf(u) == Upstream(op.wp)[i]
  {
    var project, wp := NormalizeProjectSlug(op.project), Upstream(op.wp)[i];
    AllFound(Upstream(op.wp), op.picks);
    u := op.picks[i].value;
    NormalizeIdempotent(op.project);
    ListedForWorkProduct(fs, project, wp, u);
    assert u.statusHistory[|u.statusHistory| - 1] in u.statusHistory;
    WithIdInverse(wp);
  }

  /** What is approved when a work product is generated with nothing missing: all of its ancestors. */
  lemma GeneratedOnApproved(fs: FileSystem, op: Op, a: WorkProduct)
    requires Inv(fs) && op.Generate? && Enabled(fs, op) && Traced(fs, NormalizeProjectSlug(op.project))
    requires Missing(Upstream(op.wp), op.picks) == [] && Ancestor(a, op.wp)
    ensures HoldsApproved(fs, NormalizeProjectSlug(op.project), a)
  {
    hide ReviewWorkflow.Enabled, StoreInvariant.Inv, StoreInvariant.Traced;
    var upstream := Upstream(op.wp);
    var b :| b in upstream && (a == b || Ancestor(a, b));
    var i :| 0 <= i < |upstream| && upstream[i] == b;
    var u := FoundApproved(fs, op, i);
    if a != b {
      AncestryHeld(fs, u, a);
    }
  }

  /** A record under a new artifact id was generated on approved ancestors. */
  lemma NewArtifact(fs: FileSystem, e: Event, fs': FileSystem, m: Metadata)
    requires Inv(fs) && Traced(fs, m.projectSlug) && Step(fs, e, fs') && !SkipsUpstream(e, m.projectSlug)
    requires Unused(fs, m.artifactId) && Stored(fs', m)
    ensures KnownWorkProduct(m)
    ensures forall a | Ancestor(a, WorkProductOf(m)) :: HoldsApproved(fs, m.projectSlug, a)
  {
    hide ReviewWorkflow.Writes, ReviewWorkflow.Enabled, StoreRuns.After, StoreInvariant.Inv, StoreInvariant.Traced,
      StoreInvariant.Stored, StoreRuns.SavedBy, StoreRuns.SkipsUpstream, HoldsApproved, Ancestor, Unused;
    NewIdIsGenerated(fs, e.op, e.done, m);
    SavedIdentity(fs, e.op);
    PicksCounted(fs, e.op);
    NothingSkipped(e, m.projectSlug);
    forall a | Ancestor(a, WorkProductOf(m))
      ensures HoldsApproved(fs, m.projectSlug, a)
    {
      GeneratedOnApproved(fs, e.op, a);
    }
  }

  lemma NothingSkipped(e: Event, project: string)
    requires !SkipsUpstream(e, project) && e.op.Generate? && e.done == 2 && NormalizeProjectSlug(e.op.project) == project
    requires |e.op.picks| == |Upstream(e.op.wp)|
    ensures Missing(Upstream(e.op.wp), e.op.picks) == []
  {
  }

  lemma NothingAtFirst(trace: seq<FileSystem>, events: seq<Event>, m: Metadata)
    requires Run(trace, events)
    ensures !Stored(trace[0], m)
  {
  }

  /** At every point of every run: a project is traced if and only if nothing in it was saved on missing work products. */
  lemma TracedExactly(trace: seq<FileSystem>, events: seq<Event>, i: nat, project: string)
    requires Run(trace, events) && i < |trace|
    ensures Traced(trace[i], project) <==> forall k | 0 <= k < i :: !SkipsUpstream(events[k], project)
  {
    hide StoreRuns.Step, StoreInvariant.Stored, StoreInvariant.Inv, StoreRuns.SkipsUpstream, StoreRuns.SavedBy, StoreInvariant.TracedRecord;
    if k :| 0 <= k < i && SkipsUpstream(events[k], project) {
      RunKeepsInv(trace, events, k);
      StepOfRun(trace, events, k);
      SkipUntraces(trace[k], events[k], trace[k + 1], project);
      var m := SavedOf(events[k], project);
      var later := StillThere(trace, events, k + 1, i, m);
      SameRefs(m, later);
    } else {
      RunTraces(trace, events, i, project);
    }
  }

  lemma SavedOf(e: Event, project: string) returns (m: Metadata)
    requires SkipsUpstream(e, project)
    ensures e.op.Generate? && |e.op.picks| == |Upstream(e.op.wp)| && m == SavedBy(e.op)
  {
    m := SavedBy(e.op);
  }

  /**
   The central promise. In every run, a stored record of any work product was preceded by a point of
   the run where its artifact did not exist yet and the same project already held a once approved
   version of every ancestor, provided that no generator saved a work product of this project while
   required ones were missing: that alone is what leaves a project untraced (`TracedExactly`).
   */
  lemma {:induction false} ApprovedBefore(trace: seq<FileSystem>, events: seq<Event>, j: nat, m: Metadata) returns (i: nat)
    requires Run(trace, events) && j < |trace| && Stored(trace[j], m)
    requires forall k | 0 <= k < j :: !SkipsUpstream(events[k], m.projectSlug)
    ensures i < j && Unused(trace[i], m.artifactId) && KnownWorkProduct(m)
    ensures forall a | Ancestor(a, WorkProductOf(m)) :: HoldsApproved(trace[i], m.projectSlug, a)
    decreases j
  {
    hide *;
    NothingAtFirst(trace, events, m);
    var fs := trace[j - 1];
    RunKeepsInv(trace, events, j - 1);
    StepOfRun(trace, events, j - 1);
    if Unused(fs, m.artifactId) {
      i := j - 1;
      RunTraces(trace, events, i, m.projectSlug);
      NewArtifact(fs, events[i], trace[j], m);
    } else {
      var u := SomeVersion(fs, m.artifactId);
      RunKeepsInv(trace, events, j);
      RunExtends(trace, events, j - 1, j);
      HomeKept(fs, trace[j], u, m);
      SameProject(u, m);
      i := ApprovedBefore(trace, events, j - 1, u);
      SameProduct(u, m);
    }
  }

  lemma SameProject(a: Metadata, b: Metadata)
    requires SameHome(a, b)
    ensures a.projectSlug == b.projectSlug
  {
  }

  lemma SomeVersion(fs: FileSystem, artifactId: string) returns (u: Metadata)
    requires !Unused(fs, artifactId)
    ensures Stored(fs, u) && u.artifactId == artifactId
  {
    u :| Stored(fs, u) && u.artifactId == artifactId;
  }

  lemma SameProduct(a: Metadata, b: Metadata)
    requires SameHome(a, b) && KnownWorkProduct(a) && KnownWorkProduct(b)
    ensures WorkProductOf(a) == WorkProductOf(b)
  {
  }

  /** The ancestors of every work product. */
  lemma AncestorsAre(a: WorkProduct, wp: WorkProduct)
    ensures Ancestor(a, wp) <==>
            match wp
            case SafetyPlan => false
            case Hara => false
            case FunctionalSafetyConcept => a in [SafetyPlan, Hara]
            case TechnicalSafetyConcept => a in [SafetyPlan, Hara, FunctionalSafetyConcept]
            case HardwareRequirements => a in [SafetyPlan, Hara, FunctionalSafetyConcept, TechnicalSafetyConcept]
            case SoftwareRequirements => a in [SafetyPlan, Hara, FunctionalSafetyConcept, TechnicalSafetyConcept]
            case SafetyManual => a != SafetyManual && a != SafetyCase
            case SafetyCase => a != SafetyCase
    decreases Rank(wp)
  {
    hide Ancestor;
    OneStep(a, wp);
    var upstream := Upstream(wp);
    match wp
    case SafetyPlan =>
    case Hara =>
    case FunctionalSafetyConcept =>
      assert upstream[0] == SafetyPlan && upstream[1] == Hara;
      AncestorsAre(a, SafetyPlan);
      AncestorsAre(a, Hara);
    case TechnicalSafetyConcept =>
      assert upstream[0] == FunctionalSafetyConcept;
      AncestorsAre(a, FunctionalSafetyConcept);
    case HardwareRequirements =>
      assert upstream[0] == TechnicalSafetyConcept;
      AncestorsAre(a, TechnicalSafetyConcept);
    case SoftwareRequirements =>
      assert upstream[0] == TechnicalSafetyConcept;
      AncestorsAre(a, TechnicalSafetyConcept);
    case SafetyManual =>
      assert upstream[0] == HardwareRequirements && upstream[1] == SoftwareRequirements;
      AncestorsAre(a, HardwareRequirements);
      AncestorsAre(a, SoftwareRequirements);
    case SafetyCase =>
      assert upstream[0] == SafetyPlan && upstream[5] == SafetyManual;
      AncestorsAre(a, SafetyManual);
      AncestorRank(a, SafetyCase);
  }

  lemma {:induction false} AncestorRank(a: WorkProduct, wp: WorkProduct)
    ensures Ancestor(a, wp) ==> Rank(a) < Rank(wp)
    decreases Rank(wp)
  {
    UpstreamDecreases(wp);
    if Ancestor(a, wp) && a !in Upstream(wp) {
      var b :| b in Upstream(wp) && Ancestor(a, b);
      AncestorRank(a, b);
    }
  }

  lemma OneStep(a: WorkProduct, wp: WorkProduct)
    ensures Ancestor(a, wp) <==> exists i | 0 <= i < |Upstream(wp)| :: a == Upstream(wp)[i] || Ancestor(a, Upstream(wp)[i])
  {
    hide Ancestor, WorkProducts.Upstream;
    AncestorUnfolds(a, wp);
    ByPosition(a, Upstream(wp));
  }

  lemma AncestorUnfolds(a: WorkProduct, wp: WorkProduct)
    ensures Ancestor(a, wp) <==> a in Upstream(wp) || exists b | b in Upstream(wp) :: Ancestor(a, b)
  {
    hide WorkProducts.Upstream;
  }

  lemma ByPosition(a: WorkProduct, wps: seq<WorkProduct>)
    ensures (a in wps || exists b | b in wps :: Ancestor(a, b)) <==> exists i | 0 <= i < |wps| :: a == wps[i] || Ancestor(a, wps[i])
  {
    hide Ancestor;
    if a in wps {
      var i :| 0 <= i < |wps| && wps[i] == a;
    } else if b :| b in wps && Ancestor(a, b) {
      var i :| 0 <= i < |wps| && wps[i] == b;
    }
  }

  /** A stored Safety Case was preceded by approved versions of the seven work products it rests on. */
  lemma SafetyCaseRests(trace: seq<FileSystem>, events: seq<Event>, j: nat, m: Metadata) returns (i: nat)
    requires Run(trace, events) && j < |trace| && Stored(trace[j], m) && m.wpId == WpId(SafetyCase)
    requires forall k | 0 <= k < j :: !SkipsUpstream(events[k], m.projectSlug)
    ensures i < j && Unused(trace[i], m.artifactId)
    ensures forall a | a != SafetyCase :: HoldsApproved(trace[i], m.projectSlug, a)
  {
    i := ApprovedBefore(trace, events, j, m);
    WithIdInverse(SafetyCase);
    forall a | a != SafetyCase
      ensures HoldsApproved(trace[i], m.projectSlug, a)
    {
      AncestorsAre(a, SafetyCase);
    }
  }

  /** With the flag set, a Safety Case can be all there is. */
  lemma FlagBreaksAncestry() returns (trace: seq<FileSystem>, events: seq<Event>, m: Metadata)
    ensures Run(trace, events) && |trace| == 2
    ensures Stored(trace[1], m) && m.wpId == WpId(SafetyCase)
    ensures forall a :: !HoldsApproved(trace[1], m.projectSlug, a)
  {
    var fs: FileSystem := map[];
    var picks := seq(6, _ => None);
    var op := Generate(SafetyCase, "demo", "wp_safetycase-1", "author", "", true, picks, "1970-01-01T00:00:00Z", "");
    EnabledOnEmpty(op);
    WritesCounted(fs, op);
    hide ReviewWorkflow.Writes, ReviewWorkflow.Enabled, StoreRuns.After, StoreInvariant.Stored;
    events := [Event(op, 2)];
    trace := [fs, After(fs, op, 2)];
    m := SavedBy(op);
    assert Step(trace[0], events[0], trace[1]);
    FirstArtifact(op);
  }

  /** Right after the first artifact of a workspace was generated it is all there is, and a draft. */
  lemma FirstArtifact(op: Op)
    requires op.Generate? && Enabled(map[], op)
    ensures var fs := After(map[], op, 2);
            && Stored(fs, SavedBy(op)) && SavedBy(op).wpId == WpId(op.wp)
            && forall u | Stored(fs, u) :: !EverApproved(u.statusHistory)
  {
    EmptyOk();
    GenerateSteps(map[], op);
    hide ReviewWorkflow.Writes, ReviewWorkflow.Enabled, StoreRuns.After, StoreInvariant.Inv, StoreInvariant.Extends;
    var fs := After(map[], op, 2);
    forall u | Stored(fs, u)
      ensures !EverApproved(u.statusHistory)
    {
      assert u == SavedBy(op);
    }
  }

  lemma EnabledOnEmpty(op: Op)
    requires op.Generate? && op.allowMissing && |op.picks| == |Upstream(op.wp)|
    requires forall i | 0 <= i < |op.picks| :: op.picks[i] == None
    ensures Enabled(map[], op)
  {
  }

  /** The text after the control block of a document that is revised as it is, and before it, stays. */
  lemma RevisionKeepsText(fs: FileSystem, op: Op)
    requires Inv(fs) && op.Revise? && Enabled(fs, op)
    requires Strings.Contains(op.text, DocumentControl.MARKER)
    requires forall r | r in DocumentControl.Rows(ControlFieldsOf(RevisedMetadata(op))) :: !DocumentControl.BreaksBlock(r.value)
    ensures var document := DocumentPath(SavedBy(op));
            && |Writes(op)| == 3 && document in After(fs, op, 3)
            && var file := After(fs, op, 3)[document];
            && file.Markdown? && Strings.Contains(file.text, DocumentControl.MARKER)
            && DocumentControl.Before(file.text) == DocumentControl.Before(op.text)
            && DocumentControl.After(file.text) == DocumentControl.After(op.text)
  {
    var block := DocumentControl.RenderDocumentControl(ControlFieldsOf(RevisedMetadata(op)));
    DocumentControl.RenderedBlock(ControlFieldsOf(RevisedMetadata(op)));
    DocumentControl.SplicedParts(op.text, block);
    OperationEffects.RevisionDocument(fs, op);
    OperationEffects.SameFields(op);
  }
}
