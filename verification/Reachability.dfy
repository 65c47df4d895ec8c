/**
 What can always be done: from wherever a run has come to, every work product can be generated and
 approved, the Safety Case last, without going on without a required one.
 */
module Reachability {
  import opened Wrappers
  import opened Slugs
  import opened WorkProducts
  import opened ArtifactStore
  import opened ReviewWorkflow
  import opened StoreInvariant
  import opened StoreRuns
  import opened OperationEffects

  /** The project holds an approved version of this work product. */
  ghost predicate Ready(fs: FileSystem, project: string, wp: WorkProduct) {
    exists u :: ApprovedRecord(fs, project, wp, u)
  }

  ghost predicate ApprovedRecord(fs: FileSystem, project: string, wp: WorkProduct, u: Metadata) {
    Stored(fs, u) && u.projectSlug == project && u.phase == Phase(wp) && u.wpId == WpId(wp) && u.status == Approved
  }

  // ---------- A search always has an answer ----------

  ghost predicate LatestIn(fs: FileSystem, scope: seq<string>, matches: Metadata -> bool, paths: set<Path>, answer: Option<Metadata>) {
    match answer
    case None => forall p, m | p in paths && ListedAt(fs, scope, p, m) :: !matches(m)
    case Some(latest) =>
      && Listed(fs, scope, latest) && matches(latest)
      && forall p, m | p in paths && ListedAt(fs, scope, p, m) && matches(m) :: m.version <= latest.version
  }

  lemma {:induction false} LatestAmong(fs: FileSystem, scope: seq<string>, matches: Metadata -> bool, paths: set<Path>)
    returns (answer: Option<Metadata>)
    requires paths <= fs.Keys
    ensures LatestIn(fs, scope, matches, paths, answer)
  {
    answer := None;
    if paths != {} {
      var p :| p in paths;
      answer := LatestAmong(fs, scope, matches, paths - {p});
      if fs[p].Json? && ListedAt(fs, scope, p, fs[p].metadata) && matches(fs[p].metadata) {
        var m := fs[p].metadata;
        if answer.None? || answer.value.version < m.version {
          answer := Some(m);
        }
      }
    }
  }

  lemma LatestExists(fs: FileSystem, scope: seq<string>, matches: Metadata -> bool) returns (answer: Option<Metadata>)
    ensures IsLatest(fs, scope, matches, answer)
  {
    answer := LatestAmong(fs, scope, matches, fs.Keys);
    assert forall p, m | ListedAt(fs, scope, p, m) :: p in fs.Keys;
  }

  lemma PickExists(fs: FileSystem, project: string, wp: WorkProduct) returns (pick: Option<Metadata>)
    ensures LatestApproved(fs, project, wp, pick)
  {
    pick := LatestExists(fs, Scope(project, Phase(wp), WpId(wp)), HasStatus(Some(Approved)));
  }

  lemma {:induction false} PicksExist(fs: FileSystem, project: string, wps: seq<WorkProduct>) returns (picks: seq<Option<Metadata>>)
    ensures Answered(fs, project, wps, picks)
  {
    hide ArtifactStore.LatestApproved;
    picks := [];
    if wps != [] {
      var n := |wps| - 1;
      picks := PicksExist(fs, project, wps[..n]);
      var pick := PickExists(fs, project, wps[n]);
      picks := picks + [pick];
    }
  }

  /** What is ready is found. */
  lemma ReadyIsFound(fs: FileSystem, project: string, wp: WorkProduct)
    requires Inv(fs) && project != "" && NormalizeProjectSlug(project) == project && Ready(fs, project, wp)
    ensures !LatestApproved(fs, project, wp, None)
  {
    hide StoreInvariant.Inv, StoreInvariant.Stored, ArtifactStore.Listed, ArtifactStore.Scope;
    var u :| ApprovedRecord(fs, project, wp, u);
    ListedForWorkProduct(fs, project, wp, u);
    assert HasStatus(Some(Approved))(u);
  }

  lemma NothingMissing(fs: FileSystem, project: string, wps: seq<WorkProduct>, picks: seq<Option<Metadata>>)
    requires Inv(fs) && project != "" && NormalizeProjectSlug(project) == project && Answered(fs, project, wps, picks)
    requires forall wp | wp in wps :: Ready(fs, project, wp)
    ensures Missing(wps, picks) == []
  {
    hide StoreInvariant.Inv, ArtifactStore.LatestApproved, ArtifactStore.Missing, Ready, Answered, Slugs.NormalizeProjectSlug;
    AnsweredAll(fs, project, wps, picks);
    MissingHaveNone(fs, project, wps, picks);
    if Missing(wps, picks) != [] {
      var wp := Missing(wps, picks)[0];
      assert wp in Missing(wps, picks);
      ReadyIsFound(fs, project, wp);
    }
  }

  lemma AnsweredAll(fs: FileSystem, project: string, wps: seq<WorkProduct>, picks: seq<Option<Metadata>>)
    requires Answered(fs, project, wps, picks)
    ensures |picks| == |wps| && forall i | 0 <= i < |wps| :: LatestApproved(fs, project, wps[i], picks[i])
  {
  }

  lemma {:induction false} LongerThanIds(fs: FileSystem, paths: set<Path>) returns (n: nat)
    requires paths <= fs.Keys
    ensures forall p | p in paths && fs[p].Json? :: |fs[p].metadata.artifactId| < n
  {
    n := 0;
    if paths != {} {
      var p :| p in paths;
      n := LongerThanIds(fs, paths - {p});
      if fs[p].Json? && |fs[p].metadata.artifactId| >= n {
        n := |fs[p].metadata.artifactId| + 1;
      }
    }
  }

  lemma FreshIdExists(fs: FileSystem) returns (artifactId: string)
    ensures FreshId(fs, artifactId)
  {
    var n := LongerThanIds(fs, fs.Keys);
    artifactId := seq(n, _ => '0');
    assert forall p, m | ListedAt(fs, [], p, m) :: p in fs.Keys && |m.artifactId| < n;
  }

  // ---------- Generating and approving one work product ----------

  lemma CanGenerate(fs: FileSystem, project: string, wp: WorkProduct, now: Time) returns (op: Op)
    requires Inv(fs) && forall u | u in Upstream(wp) :: Ready(fs, NormalizeProjectSlug(project), u)
    ensures op.Generate? && op.wp == wp && op.project == project && Enabled(fs, op)
    ensures Missing(Upstream(wp), op.picks) == [] && !op.allowMissing
  {
    hide StoreInvariant.Inv, ArtifactStore.LatestApproved, ArtifactStore.Missing, Ready, ArtifactStore.Answered, Slugs.NormalizeProjectSlug,
      WorkProducts.Upstream, FreshId;
    var slug := NormalizeProjectSlug(project);
    NormalizeIdempotent(project);
    var picks := PicksExist(fs, slug, Upstream(wp));
    NothingMissing(fs, slug, Upstream(wp), picks);
    AnsweredAll(fs, slug, Upstream(wp), picks);
    var artifactId := FreshIdExists(fs);
    op := Generate(wp, project, artifactId, "author", "", false, picks, now, "");
  }

  lemma CanApprove(fs: FileSystem, m: Metadata, now: Time) returns (op: Op)
    requires Inv(fs) && Stored(fs, m) && forall u | Stored(fs, u) && u.artifactId == m.artifactId :: u == m
    ensures op.Approve? && op.target == m && Enabled(fs, op)
  {
    hide StoreInvariant.Stored;
    forall u
      ensures Listed(fs, [], u) <==> Stored(fs, u)
    {
      ListedIsStored(fs, u);
    }
    op := Approve(m, "", "", now, now);
  }

  /** Whatever is required being ready, a work product can be generated and approved; what was ready stays so. */
  lemma OneMore(fs: FileSystem, project: string, wp: WorkProduct) returns (first: Event, middle: FileSystem, second: Event, fs': FileSystem)
    requires Inv(fs) && forall u | u in Upstream(wp) :: Ready(fs, NormalizeProjectSlug(project), u)
    ensures Step(fs, first, middle) && Step(middle, second, fs')
    ensures forall p: string :: !SkipsUpstream(first, p) && !SkipsUpstream(second, p)
    ensures Ready(fs', NormalizeProjectSlug(project), wp)
    ensures forall w | Ready(fs, NormalizeProjectSlug(project), w) :: Ready(fs', NormalizeProjectSlug(project), w)
  {
    hide StoreInvariant.Inv, StoreInvariant.Stored, ReviewWorkflow.Enabled, ReviewWorkflow.Writes, StoreRuns.After, Replaced, Ready,
      Slugs.NormalizeProjectSlug, WorkProducts.Upstream, ArtifactStore.Missing, ApprovedRecord;
    var now: Time := "1970-01-01T00:00:00Z";
    var slug := NormalizeProjectSlug(project);
    var generate := CanGenerate(fs, project, wp, now);
    PicksCounted(fs, generate);
    var m := GenerationSaves(fs, generate);
    Generates(fs, generate);
    first, middle := Event(generate, 2), After(fs, generate, 2);
    FreshRecord(fs, generate);
    var approve := CanApprove(middle, m, now);
    var approved := ApprovalApproves(middle, approve);
    second, fs' := Event(approve, 1), After(middle, approve, 1);
    NowReady(middle, fs', slug, wp, m, approved);
    forall w | Ready(fs, slug, w)
      ensures Ready(fs', slug, w)
    {
      StaysReady(fs, middle, fs', slug, w, m, approved);
    }
  }

  lemma NowReady(middle: FileSystem, fs': FileSystem, project: string, wp: WorkProduct, m: Metadata, approved: Metadata)
    requires Replaced(middle, fs', m, approved) && approved.status == Approved
    requires m.projectSlug == project && m.phase == Phase(wp) && m.wpId == WpId(wp)
    ensures Ready(fs', project, wp)
  {
    hide StoreInvariant.Stored;
    assert ApprovedRecord(fs', project, wp, approved);
  }

  lemma StaysReady(fs: FileSystem, middle: FileSystem, fs': FileSystem, project: string, wp: WorkProduct, m: Metadata, approved: Metadata)
    requires (forall u :: Stored(middle, u) <==> u == m || Stored(fs, u)) && Replaced(middle, fs', m, approved)
    requires m.status == Draft && Ready(fs, project, wp)
    ensures Ready(fs', project, wp)
  {
    hide StoreInvariant.Stored;
    var u :| ApprovedRecord(fs, project, wp, u);
    assert ApprovedRecord(fs', project, wp, u);
  }

  lemma FreshRecord(fs: FileSystem, op: Op)
    requires Inv(fs) && op.Generate? && Enabled(fs, op)
    ensures forall u | Stored(fs, u) :: u.artifactId != op.artifactId
  {
    FreshIsNew(fs, op.artifactId);
  }

  // ---------- All of them in order ----------

  /** An order in which each work product comes after those it requires. */
  const ORDER: seq<WorkProduct> :=
    [SafetyPlan, Hara, FunctionalSafetyConcept, TechnicalSafetyConcept, HardwareRequirements, SoftwareRequirements, SafetyManual, SafetyCase]

  lemma RequiredBefore(n: nat, wp: WorkProduct)
    requires n < |ORDER| && wp in Upstream(ORDER[n])
    ensures exists i | 0 <= i < n :: ORDER[i] == wp
  {
    assert ORDER[0] == SafetyPlan && ORDER[1] == Hara && ORDER[2] == FunctionalSafetyConcept && ORDER[3] == TechnicalSafetyConcept;
    assert ORDER[4] == HardwareRequirements && ORDER[5] == SoftwareRequirements && ORDER[6] == SafetyManual;
  }

  /** The run goes on with these two steps. */
  lemma Continue(trace: seq<FileSystem>, events: seq<Event>, first: Event, middle: FileSystem, second: Event, fs': FileSystem)
    requires Run(trace, events) && Step(trace[|trace| - 1], first, middle) && Step(middle, second, fs')
    ensures Run(trace + [middle, fs'], events + [first, second])
  {
    hide StoreRuns.Step;
    var trace', events' := trace + [middle, fs'], events + [first, second];
    forall i | 0 <= i < |events'|
      ensures Step(trace'[i], events'[i], trace'[i + 1])
    {
      if i < |events| {
        assert Step(trace[i], events[i], trace[i + 1]);
      }
    }
  }

  /** The first `n` work products of the order can be made ready, wherever a run has come to. */
  lemma {:induction false} FirstOnesReachable(trace: seq<FileSystem>, events: seq<Event>, project: string, n: nat)
    returns (trace': seq<FileSystem>, events': seq<Event>)
    requires Run(trace, events) && n <= |ORDER|
    ensures Run(trace', events') && trace <= trace' && events <= events'
    ensures forall k, p: string | |events| <= k < |events'| :: !SkipsUpstream(events'[k], p)
    ensures forall i | 0 <= i < n :: Ready(trace'[|trace'| - 1], NormalizeProjectSlug(project), ORDER[i])
  {
    hide StoreRuns.Step, Ready, StoreInvariant.Inv, StoreRuns.SkipsUpstream, Slugs.NormalizeProjectSlug, WorkProducts.Upstream;
    trace', events' := trace, events;
    if n > 0 {
      trace', events' := FirstOnesReachable(trace, events, project, n - 1);
      var fs := trace'[|trace'| - 1];
      RunKeepsInv(trace', events', |trace'| - 1);
      forall u | u in Upstream(ORDER[n - 1])
        ensures Ready(fs, NormalizeProjectSlug(project), u)
      {
        RequiredBefore(n - 1, u);
      }
      var first, middle, second, fs' := OneMore(fs, project, ORDER[n - 1]);
      Continue(trace', events', first, middle, second, fs');
      trace', events' := trace' + [middle, fs'], events' + [first, second];
    }
  }

  /**
   Wherever a run has come to, and in every project, it can go on to a stored and approved Safety Case
   without any generator going on without a required work product.
   */
  lemma SafetyCaseReachable(trace: seq<FileSystem>, events: seq<Event>, project: string)
    returns (trace': seq<FileSystem>, events': seq<Event>, m: Metadata)
    requires Run(trace, events)
    ensures Run(trace', events') && trace <= trace' && events <= events'
    ensures forall k, p: string | |events| <= k < |events'| :: !SkipsUpstream(events'[k], p)
    ensures Stored(trace'[|trace'| - 1], m) && m.projectSlug == NormalizeProjectSlug(project)
    ensures m.wpId == WpId(SafetyCase) && m.status == Approved
  {
    hide StoreRuns.Step, StoreInvariant.Stored, StoreRuns.SkipsUpstream, Slugs.NormalizeProjectSlug;
    trace', events' := FirstOnesReachable(trace, events, project, |ORDER|);
    assert ORDER[7] == SafetyCase;
    var fs := trace'[|trace'| - 1];
    assert Ready(fs, NormalizeProjectSlug(project), SafetyCase);
    m :| ApprovedRecord(fs, NormalizeProjectSlug(project), SafetyCase, m);
  }

  /** From an empty workspace, too: a run in which nothing required is ever missing, and which ends in a Safety Case. */
  lemma SafetyCaseExists(project: string) returns (trace: seq<FileSystem>, events: seq<Event>, m: Metadata)
    ensures Run(trace, events) && Stored(trace[|trace| - 1], m) && m.wpId == WpId(SafetyCase)
    ensures m.projectSlug == NormalizeProjectSlug(project) && m.status == Approved
    ensures forall k, p: string | 0 <= k < |events| :: !SkipsUpstream(events[k], p)
  {
    hide StoreInvariant.Stored, StoreRuns.SkipsUpstream, Slugs.NormalizeProjectSlug;
    var none: FileSystem := map[];
    trace, events, m := SafetyCaseReachable([none], [], project);
  }
}
