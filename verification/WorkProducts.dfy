/**
 The work products of ISO 26262:2018 that the phase plugins generate, the approved work products
 each of them requires upstream, and the metadata record kept for every stored version.
 */
module WorkProducts {
  import opened Strings
  import opened Wrappers
  import opened Slugs
  import opened FileNames
  import opened DocumentControl

  datatype WorkProduct =
    | SafetyPlan | Hara | FunctionalSafetyConcept | TechnicalSafetyConcept
    | HardwareRequirements | SoftwareRequirements | SafetyManual | SafetyCase

  function Phase(wp: WorkProduct): string {
    match wp
    case SafetyPlan => "management"
    case Hara => "concept"
    case FunctionalSafetyConcept => "concept"
    case TechnicalSafetyConcept => "system"
    case HardwareRequirements => "hardware"
    case SoftwareRequirements => "software"
    case SafetyManual => "production_operation"
    case SafetyCase => "supporting_confirmation"
  }

  function WpId(wp: WorkProduct): string {
    match wp
    case SafetyPlan => "WP-SAFETYPLAN"
    case Hara => "WP-HARA"
    case FunctionalSafetyConcept => "WP-FSC"
    case TechnicalSafetyConcept => "WP-TSC"
    case HardwareRequirements => "WP-HW-SRS"
    case SoftwareRequirements => "WP-SW-SRS"
    case SafetyManual => "WP-SAFETYMANUAL"
    case SafetyCase => "WP-SAFETYCASE"
  }

  function Title(wp: WorkProduct): string {
    match wp
    case SafetyPlan => "Safety Plan"
    case Hara => "Hazard Analysis and Risk Assessment"
    case FunctionalSafetyConcept => "Functional Safety Concept"
    case TechnicalSafetyConcept => "Technical Safety Concept"
    case HardwareRequirements => "HW Safety Requirements Specification"
    case SoftwareRequirements => "SW Safety Requirements Specification"
    case SafetyManual => "Safety Manual"
    case SafetyCase => "Safety Case"
  }

  function RequiredFields(wp: WorkProduct): seq<string> {
    if wp == SafetyPlan then ["item_name", "organization", "author", "safety_manager"] else ["item_name", "author"]
  }

  /** The work products that must be approved before this one is generated, in request order. */
  function Upstream(wp: WorkProduct): seq<WorkProduct> {
    match wp
    case SafetyPlan => []
    case Hara => []
    case FunctionalSafetyConcept => [SafetyPlan, Hara]
    case TechnicalSafetyConcept => [FunctionalSafetyConcept]
    case HardwareRequirements => [TechnicalSafetyConcept]
    case SoftwareRequirements => [TechnicalSafetyConcept]
    case SafetyManual => [HardwareRequirements, SoftwareRequirements]
    case SafetyCase =>
      [SafetyPlan, FunctionalSafetyConcept, TechnicalSafetyConcept, HardwareRequirements, SoftwareRequirements, SafetyManual]
  }

  /** How far down the requirement graph a work product is. */
  function Rank(wp: WorkProduct): nat {
    match wp
    case SafetyPlan => 0
    case Hara => 0
    case FunctionalSafetyConcept => 1
    case TechnicalSafetyConcept => 2
    case HardwareRequirements => 3
    case SoftwareRequirements => 3
    case SafetyManual => 4
    case SafetyCase => 5
  }

  /** The work product with this id, as its plugin declares it. */
  function WithId(wpId: string): (r: Option<WorkProduct>)
    ensures r.Some? ==> WpId(r.value) == wpId
  {
    if wpId == WpId(SafetyPlan) then Some(SafetyPlan)
    else if wpId == WpId(Hara) then Some(Hara)
    else if wpId == WpId(FunctionalSafetyConcept) then Some(FunctionalSafetyConcept)
    else if wpId == WpId(TechnicalSafetyConcept) then Some(TechnicalSafetyConcept)
    else if wpId == WpId(HardwareRequirements) then Some(HardwareRequirements)
    else if wpId == WpId(SoftwareRequirements) then Some(SoftwareRequirements)
    else if wpId == WpId(SafetyManual) then Some(SafetyManual)
    else if wpId == WpId(SafetyCase) then Some(SafetyCase)
    else None
  }

  lemma WithIdInverse(wp: WorkProduct)
    ensures WithId(WpId(wp)) == Some(wp)
  {
    IdsByLength(wp);
  }

  /** Work product ids differ in their length or in a letter. */
  lemma IdsByLength(wp: WorkProduct)
    ensures |WpId(wp)| == match wp
            case SafetyPlan => 13 case Hara => 7 case FunctionalSafetyConcept => 6 case TechnicalSafetyConcept => 6
            case HardwareRequirements => 9 case SoftwareRequirements => 9 case SafetyManual => 15 case SafetyCase => 13
    ensures WpId(SafetyPlan)[9] != WpId(SafetyCase)[9]
    ensures WpId(FunctionalSafetyConcept)[3] != WpId(TechnicalSafetyConcept)[3]
    ensures WpId(HardwareRequirements)[3] != WpId(SoftwareRequirements)[3]
  {
  }

  lemma UpstreamDecreases(wp: WorkProduct)
    ensures forall u | u in Upstream(wp) :: Rank(u) < Rank(wp)
  {
  }

  // ---------- Metadata ----------

  /** A UTC time stamp as text; never empty. */
  type Time = s: string | s != "" witness "1970-01-01T00:00:00Z"

  datatype Status = Draft | InReview | Approved | Superseded

  datatype StatusEntry = StatusEntry(status: Status, date: Time, note: string)

  datatype VersionRef = VersionRef(artifactId: string, version: int)

  datatype UpstreamRef = UpstreamRef(artifactId: string, wpId: string, title: string, version: int, status: Status)

  datatype Path = Path(project: string, phase: string, wpId: string, name: string)

  datatype Metadata = Metadata(
    artifactId: string,
    wpId: string,
    title: string,
    phase: string,
    projectSlug: string,
    version: int,
    status: Status,
    createdAt: Time,
    updatedAt: Time,
    author: string,
    reviewer: string,
    reviewNotes: string,
    approvedAt: string,
    locked: bool,
    supersedes: Option<VersionRef>,
    supersededBy: Option<VersionRef>,
    changeRequests: seq<string>,
    upstreamRefs: seq<UpstreamRef>,
    statusHistory: seq<StatusEntry>,
    artifactPath: Option<Path>,
    metadataPath: Option<Path>)

  function BuildMetadata(projectSlug: string, phase: string, wpId: string, title: string, author: string,
                         reviewer: string, upstreamRefs: seq<UpstreamRef>, artifactId: string, version: int,
                         supersedes: Option<VersionRef>, changeRequests: seq<string>, now: Time): Metadata
  {
    Metadata(artifactId, wpId, title, phase, NormalizeProjectSlug(projectSlug), version, Draft, now, now,
             author, reviewer, "", "", false, supersedes, None, changeRequests, upstreamRefs,
             [StatusEntry(Draft, now, "created")], None, None)
  }

  function RecordStatusChange(metadata: Metadata, status: Status, note: string, now: Time): Metadata {
    metadata.(status := status, updatedAt := now,
              statusHistory := metadata.statusHistory + [StatusEntry(status, now, note)])
  }

  function StatusText(status: Status): string {
    match status
    case Draft => "DRAFT"
    case InReview => "IN_REVIEW"
    case Approved => "APPROVED"
    case Superseded => "SUPERSEDED"
  }

  function IntText(n: int): string {
    if n < 0 then "-" + Digits(-n) else Digits(n)
  }

  function SummarizeRef(ref: UpstreamRef): string {
    ref.artifactId + " (" + ref.wpId + ", v" + FormatVersion(ref.version) + ", " + StatusText(ref.status) + ")"
  }

  function SummarizeUpstream(refs: seq<UpstreamRef>): string {
    if refs == [] then "None" else Join("; ", seq(|refs|, i requires 0 <= i < |refs| => SummarizeRef(refs[i])))
  }

  function RefLine(ref: UpstreamRef): string {
    "- " + SummarizeRef(ref) + " - " + ref.title
  }

  function BuildTraceabilitySection(refs: seq<UpstreamRef>): string {
    Join("\n", ["## Traceability"] +
      if refs == [] then ["- No upstream artifacts linked."]
      else seq(|refs|, i requires 0 <= i < |refs| => RefLine(refs[i])))
  }

  /** The values of the control block of a version. */
  function ControlFieldsOf(m: Metadata): ControlFields {
    ControlFields(m.title, m.wpId, m.artifactId, IntText(m.version), StatusText(m.status), m.projectSlug, m.phase,
                  m.author, m.reviewer, m.createdAt, m.updatedAt,
                  if m.supersedes.Some? then m.supersedes.value.artifactId else "", SummarizeUpstream(m.upstreamRefs))
  }

  function RefTo(u: Metadata): UpstreamRef {
    UpstreamRef(u.artifactId, u.wpId, u.title, u.version, u.status)
  }

  /** The references a new work product keeps to the versions it was derived from. */
  function UpstreamRefs(upstream: seq<Metadata>): seq<UpstreamRef> {
    seq(|upstream|, i requires 0 <= i < |upstream| => RefTo(upstream[i]))
  }

  lemma OneMoreRef(upstream: seq<Metadata>, i: nat)
    requires i < |upstream|
    ensures UpstreamRefs(upstream[..i + 1]) == UpstreamRefs(upstream[..i]) + [RefTo(upstream[i])]
  {
  }

  method MakeUpstreamRefs(upstream: seq<Metadata>) returns (refs: seq<UpstreamRef>)
    ensures refs == UpstreamRefs(upstream)
  {
    refs := [];
    for i := 0 to |upstream|
      invariant refs == UpstreamRefs(upstream[..i])
    {
      OneMoreRef(upstream, i);
      refs := refs + [RefTo(upstream[i])];
    }
    assert upstream[..|upstream|] == upstream;
  }

  method SummarizeUpstreamRefs(refs: seq<UpstreamRef>) returns (summary: string)
    ensures summary == SummarizeUpstream(refs)
  {
    hide Strings.Join, SummarizeRef;
    if refs == [] {
      return "None";
    }
    var parts: seq<string> := [];
    for i := 0 to |refs|
      invariant parts == seq(i, k requires 0 <= k < i => SummarizeRef(refs[k]))
    {
      parts := parts + [SummarizeRef(refs[i])];
    }
    summary := Join("; ", parts);
  }

  method TraceabilitySection(refs: seq<UpstreamRef>) returns (section: string)
    ensures section == BuildTraceabilitySection(refs)
  {
    hide Strings.Join, RefLine;
    var lines := ["## Traceability"];
    if refs == [] {
      lines := lines + ["- No upstream artifacts linked."];
      return Join("\n", lines);
    }
    for i := 0 to |refs|
      invariant lines == ["## Traceability"] + seq(i, k requires 0 <= k < i => RefLine(refs[k]))
    {
      lines := lines + [RefLine(refs[i])];
    }
    section := Join("\n", lines);
  }

  lemma IntTextReads(n: int)
    requires n >= 0
    ensures (forall i | 0 <= i < |IntText(n)| :: IsDigit(IntText(n)[i])) && IntText(n) != "" && ParseDigits(IntText(n)) == n
  {
    DigitsParse(n);
  }

  /** The control block of a version shows its metadata, each value in its own row. */
  lemma BlockShowsMetadata(m: Metadata)
    ensures var block := RenderDocumentControl(ControlFieldsOf(m));
            && ShowsRow(block, "Title", m.title) && ShowsRow(block, "Work Product ID", m.wpId)
            && ShowsRow(block, "Artifact ID", m.artifactId) && ShowsRow(block, "Version", IntText(m.version))
            && ShowsRow(block, "Project", m.projectSlug) && ShowsRow(block, "Phase", m.phase)
            && ShowsRow(block, "Author", m.author) && ShowsRow(block, "Reviewer", m.reviewer)
            && ShowsRow(block, "Created", m.createdAt) && ShowsRow(block, "Updated", m.updatedAt)
            && ShowsRow(block, "Supersedes", if m.supersedes.Some? then m.supersedes.value.artifactId else "")
            && ShowsRow(block, "Upstream References", SummarizeUpstream(m.upstreamRefs))
            && ShowsRow(block, "Status", match m.status case Draft => "DRAFT" case InReview => "IN_REVIEW"
                                                        case Approved => "APPROVED" case Superseded => "SUPERSEDED")
  {
    hide DocumentControl.ShowsRow, DocumentControl.RenderDocumentControl, SummarizeUpstream, IntText;
    BlockShowsFields(ControlFieldsOf(m));
  }

  /** The summary of references: "None", or each of them, separated by semicolons. */
  lemma SummaryLines(a: seq<UpstreamRef>, b: seq<UpstreamRef>, r: UpstreamRef)
    ensures SummarizeUpstream([]) == "None"
    ensures SummarizeUpstream([r]) == r.artifactId + " (" + r.wpId + ", v" + FormatVersion(r.version) + ", " + StatusText(r.status) + ")"
    ensures a != [] && b != [] ==> SummarizeUpstream(a + b) == SummarizeUpstream(a) + "; " + SummarizeUpstream(b)
  {
    if a != [] && b != [] {
      var ab := a + b;
      var partsA := seq(|a|, i requires 0 <= i < |a| => SummarizeRef(a[i]));
      var partsB := seq(|b|, i requires 0 <= i < |b| => SummarizeRef(b[i]));
      assert seq(|ab|, i requires 0 <= i < |ab| => SummarizeRef(ab[i])) == partsA + partsB;
      JoinConcat("; ", partsA, partsB);
    }
  }

  /** The traceability section: its heading, then a line for each reference, or one that says there is none. */
  lemma TraceabilityLines(refs: seq<UpstreamRef>, r: UpstreamRef)
    ensures BuildTraceabilitySection([]) == "## Traceability" + "\n" + "- No upstream artifacts linked."
    ensures BuildTraceabilitySection(refs + [r]) ==
            (if refs == [] then "## Traceability" else BuildTraceabilitySection(refs)) + "\n" +
            ("- " + SummarizeUpstream([r]) + " - " + r.title)
  {
    hide SummarizeRef;
    JoinConcat("\n", ["## Traceability"], ["- No upstream artifacts linked."]);
    var more := refs + [r];
    var lines := seq(|refs|, i requires 0 <= i < |refs| => RefLine(refs[i]));
    var all := ["## Traceability"] + lines;
    assert seq(|more|, i requires 0 <= i < |more| => RefLine(more[i])) == lines + [RefLine(r)];
    assert ["## Traceability"] + (lines + [RefLine(r)]) == all + [RefLine(r)];
    JoinConcat("\n", all, [RefLine(r)]);
  }
}
