/**
 The document-control block of a work product: how it is rendered, and how a revision
 splices a new block into an existing document.
 */
module DocumentControl {
  import opened Strings

  const MARKER := "## Document Control"
  const HEADER := "\n## "

  function ReplaceDocumentControl(content: string, block: string): string {
    var start := Find(content, MARKER, 0);
    if start == -1 then block + "\n\n" + content
    else
      var nextHeader := Find(content, HEADER, start + |MARKER|);
      if nextHeader == -1 then content[..start] + block
      else content[..start] + block + content[nextHeader..]
  }

  /** The text before the first marker. */
  function Before(content: string): string
    requires Contains(content, MARKER)
  {
    content[..Find(content, MARKER, 0)]
  }

  /** The text from the first second-level header after the marker on. */
  function After(content: string): string
    requires Contains(content, MARKER)
  {
    var nextHeader := Find(content, HEADER, Find(content, MARKER, 0) + |MARKER|);
    if nextHeader == -1 then "" else content[nextHeader..]
  }

  predicate OpensBlock(block: string) {
    |MARKER| <= |block| && block[..|MARKER|] == MARKER
  }

  /** A second-level header after the block's own heading. */
  predicate HasInnerHeader(block: string)
  {
    Find(block, HEADER, |MARKER|) != -1
  }

  lemma ReplaceSplits(content: string, block: string)
    requires Contains(content, MARKER)
    ensures ReplaceDocumentControl(content, block) == Before(content) + block + After(content)
  {
    assert Before(content) + block + "" == Before(content) + block;
  }

  /** The first marker of the spliced document is the one the new block opens with. */
  lemma MarkerAfterSplice(content: string, block: string)
    requires Contains(content, MARKER) && OpensBlock(block)
    ensures Find(Before(content) + block + After(content), MARKER, 0) == |Before(content)|
  {
    var before := Before(content);
    var spliced := before + block + After(content);
    var n := |before| + |MARKER|;
    assert content[..n] == before + MARKER;
    assert spliced[..n] == before + block[..|MARKER|];
    forall i | 0 <= i <= |before| {
      OccursInPrefix(content, spliced, MARKER, i, n);
    }
  }

  /** No header starts inside one text and ends in the next, when the next opens with a line break. */
  lemma NoHeaderAcrossSeam(block: string, after: string, i: int)
    requires after == "" || after[0] == '\n'
    requires 0 <= i && |block| - |HEADER| < i < |block|
    ensures !OccursAt(block + after, HEADER, i)
  {
    var text, k := block + after, |block| - i;
    if i + |HEADER| <= |text| {
      assert text[i + k] == after[0] == HEADER[0];
      assert HEADER[k] != HEADER[0];
      OccursAtChars(text, HEADER, i);
    }
  }

  /** Where the next header is after splicing in a block. */
  lemma HeaderAfterBlock(block: string, after: string)
    requires OpensBlock(block)
    requires after == "" || after[0] == '\n'
    ensures Find(block + after, HEADER, |MARKER|) ==
            if HasInnerHeader(block) then Find(block, HEADER, |MARKER|)
            else if Contains(after, HEADER) then |block| + Find(after, HEADER, 0) else -1
  {
    var text := block + after;
    forall i | |MARKER| <= i <= |block| - |HEADER|
      ensures OccursAt(text, HEADER, i) <==> OccursAt(block, HEADER, i)
    {
      assert text[..|block|] == block == block[..|block|];
      OccursInPrefix(text, block, HEADER, i, |block|);
    }
    forall i | |MARKER| <= i && |block| - |HEADER| < i < |block|
      ensures !OccursAt(text, HEADER, i) && !OccursAt(block, HEADER, i)
    {
      NoHeaderAcrossSeam(block, after, i);
    }
    forall i | |block| <= i
      ensures OccursAt(text, HEADER, i) <==> OccursAt(after, HEADER, i - |block|)
    {
      OccursInSuffix(block, after, HEADER, i);
    }
    if Contains(after, HEADER) {
      assert OccursAt(text, HEADER, |block| + Find(after, HEADER, 0));
    }
  }

  /** Searching past a prefix. */
  lemma FindShift(prefix: string, text: string, pattern: string, start: nat)
    ensures Find(prefix + text, pattern, |prefix| + start) ==
            if Find(text, pattern, start) == -1 then -1 else |prefix| + Find(text, pattern, start)
  {
    var r := Find(text, pattern, start);
    forall i | |prefix| + start <= i
      ensures OccursAt(prefix + text, pattern, i) <==> OccursAt(text, pattern, i - |prefix|)
    {
      OccursInSuffix(prefix, text, pattern, i);
    }
    if r != -1 {
      assert OccursAt(prefix + text, pattern, |prefix| + r);
    }
  }

  lemma AfterIsHeader(content: string)
    requires Contains(content, MARKER)
    ensures After(content) == "" || OccursAt(After(content), HEADER, 0)
  {
    var nextHeader := Find(content, HEADER, Find(content, MARKER, 0) + |MARKER|);
    if nextHeader != -1 {
      assert content == content[..nextHeader] + content[nextHeader..];
      OccursInSuffix(content[..nextHeader], content[nextHeader..], HEADER, nextHeader);
    }
  }

  /** Where a document is cut, given where its marker and the header after it are. */
  lemma CutAt(before: string, rest: string, cut: int)
    requires Find(before + rest, MARKER, 0) == |before|
    requires cut == Find(rest, HEADER, |MARKER|)
    ensures Contains(before + rest, MARKER) && Before(before + rest) == before
    ensures After(before + rest) == if cut == -1 then "" else rest[cut..]
  {
    FindShift(before, rest, HEADER, |MARKER|);
    if cut != -1 {
      assert (before + rest)[|before| + cut..] == rest[cut..];
    }
  }

  /** What is before and after the control block of a spliced document. */
  lemma SplicedParts(content: string, block: string)
    requires Contains(content, MARKER) && OpensBlock(block)
    ensures var r := ReplaceDocumentControl(content, block);
            && Contains(r, MARKER)
            && Before(r) == Before(content)
            && After(r) == (if HasInnerHeader(block) then block[Find(block, HEADER, |MARKER|)..] + After(content)
                            else After(content))
  {
    hide Before, After, ReplaceDocumentControl, OpensBlock, HasInnerHeader;
    var before, after := Before(content), After(content);
    ReplaceSplits(content, block);
    MarkerAfterSplice(content, block);
    assert before + block + after == before + (block + after);
    AfterIsHeader(content);
    CutAt(before, block + after, Find(block + after, HEADER, |MARKER|));
    CutOfSplice(block, after);
  }

  /** The rest of a document from the header after a spliced block on. */
  lemma CutOfSplice(block: string, after: string)
    requires OpensBlock(block) && (after == "" || OccursAt(after, HEADER, 0))
    ensures var cut := Find(block + after, HEADER, |MARKER|);
            (if cut == -1 then "" else (block + after)[cut..]) ==
            (if HasInnerHeader(block) then block[Find(block, HEADER, |MARKER|)..] + after else after)
  {
    HeaderAfterBlock(block, after);
    if HasInnerHeader(block) {
      DropWithin(block, after, Find(block, HEADER, |MARKER|));
    } else if after != "" {
      assert Find(after, HEADER, 0) == 0;
      DropWithin(block, after, |block|);
    }
  }

  lemma DropWithin(a: string, b: string, n: nat)
    requires n <= |a|
    ensures (a + b)[n..] == a[n..] + b && (n == |a| ==> (a + b)[n..] == b)
  {
  }

  /**
   Replacing the block twice is the same as replacing it once with the second block,
   exactly when the first block holds no header of its own after its heading.
   */
  lemma ReplaceTwice(content: string, first: string, second: string)
    requires Contains(content, MARKER) && OpensBlock(first)
    ensures ReplaceDocumentControl(ReplaceDocumentControl(content, first), second) ==
            ReplaceDocumentControl(content, second)
       <==> !HasInnerHeader(first)
  {
    SplicedParts(content, first);
    var once := ReplaceDocumentControl(content, first);
    ReplaceSplits(once, second);
    ReplaceSplits(content, second);
    if HasInnerHeader(first) {
      assert |After(once)| > |After(content)|;
    }
  }

  /**
   A text without a marker gets the block in front; from then on it has one, nothing before it, and
   after it the text from its first second-level header on.
   */
  lemma WithoutMarker(content: string, block: string)
    requires !Contains(content, MARKER) && OpensBlock(block) && !HasInnerHeader(block)
    ensures var r, cut := ReplaceDocumentControl(content, block), Find("\n\n" + content, HEADER, 0);
            && r == block + "\n\n" + content
            && Contains(r, MARKER) && Before(r) == ""
            && After(r) == if cut == -1 then "" else ("\n\n" + content)[cut..]
  {
    hide Before, After;
    var rest := "\n\n" + content;
    var text := block + rest;
    assert block + "\n\n" + content == text == "" + text;
    MarkerFirst(block, rest);
    HeaderAfterBlock(block, rest);
    CutAt("", text, Find(text, HEADER, |MARKER|));
    if Find(rest, HEADER, 0) != -1 {
      DropFromRest(block, rest, Find(rest, HEADER, 0));
    }
  }

  lemma MarkerFirst(block: string, rest: string)
    requires OpensBlock(block)
    ensures Find(block + rest, MARKER, 0) == 0
  {
    assert (block + rest)[0..|MARKER|] == MARKER;
    assert OccursAt(block + rest, MARKER, 0);
  }

  lemma DropFromRest(a: string, b: string, n: nat)
    requires n <= |b|
    ensures (a + b)[|a| + n..] == b[n..]
  {
  }

  /** The document after a chain of revisions that leave its text alone. */
  function ReplaceInTurn(content: string, blocks: seq<string>): string {
    if blocks == [] then content
    else ReplaceDocumentControl(ReplaceInTurn(content, blocks[..|blocks| - 1]), blocks[|blocks| - 1])
  }

  predicate AllClean(blocks: seq<string>) {
    forall b | b in blocks :: !HasInnerHeader(b)
  }

  /** One more block of a chain. */
  lemma ReplaceNext(content: string, block: string)
    requires Contains(content, MARKER) && OpensBlock(block)
    ensures var r := ReplaceDocumentControl(content, block);
            && r == Before(content) + block + After(content)
            && Contains(r, MARKER) && Before(r) == Before(content)
            && (if HasInnerHeader(block) then |After(r)| > |After(content)| else After(r) == After(content))
  {
    SplicedParts(content, block);
    ReplaceSplits(content, block);
  }

  /**
   Over any chain of blocks the text before the marker stays. The text after the block stays if and
   only if every block is clean; and the document is the last block between the original text if and
   only if all blocks before the last are.
   */
  lemma {:induction false} RevisionChainKeepsText(content: string, blocks: seq<string>)
    requires Contains(content, MARKER) && forall b | b in blocks :: OpensBlock(b)
    ensures var r := ReplaceInTurn(content, blocks);
            && Contains(r, MARKER) && Before(r) == Before(content)
            && |After(r)| >= |After(content)|
            && (After(r) == After(content) <==> AllClean(blocks))
            && (blocks != [] ==>
                (r == Before(content) + blocks[|blocks| - 1] + After(content) <==> AllClean(blocks[..|blocks| - 1])))
  {
    hide Before, After, ReplaceDocumentControl, OpensBlock, HasInnerHeader;
    if blocks != [] {
      var n := |blocks| - 1;
      var earlier, last := blocks[..n], blocks[n];
      assert blocks == earlier + [last];
      RevisionChainKeepsText(content, earlier);
      var sofar := ReplaceInTurn(content, earlier);
      ReplaceNext(sofar, last);
      SameTail(Before(content) + last, After(sofar), After(content));
    }
  }

  lemma SameTail(front: string, a: string, b: string)
    ensures front + a == front + b <==> a == b
  {
    assert (front + a)[|front|..] == a && (front + b)[|front|..] == b;
  }

  // ---------- The rendered block ----------

  /** The values the document-control template is filled with, in template order. */
  datatype ControlFields = ControlFields(
    title: string, wpId: string, artifactId: string, version: string, status: string,
    projectSlug: string, phase: string, author: string, reviewer: string,
    createdAt: string, updatedAt: string, supersedes: string, upstreamRefs: string)

  datatype FieldName =
    | TitleRow | WorkProductIdRow | ArtifactIdRow | VersionRow | StatusRow | ProjectRow | PhaseRow | AuthorRow | ReviewerRow
    | CreatedRow | UpdatedRow | SupersedesRow | UpstreamReferencesRow
  {
    function Text(): string {
      match this
      case TitleRow => "Title"
      case WorkProductIdRow => "Work Product ID"
      case ArtifactIdRow => "Artifact ID"
      case VersionRow => "Version"
      case StatusRow => "Status"
      case ProjectRow => "Project"
      case PhaseRow => "Phase"
      case AuthorRow => "Author"
      case ReviewerRow => "Reviewer"
      case CreatedRow => "Created"
      case UpdatedRow => "Updated"
      case SupersedesRow => "Supersedes"
      case UpstreamReferencesRow => "Upstream References"
    }
  }

  datatype Row = Row(name: FieldName, value: string)

  function Rows(f: ControlFields): seq<Row> {
    [ Row(TitleRow, f.title), Row(WorkProductIdRow, f.wpId), Row(ArtifactIdRow, f.artifactId),
      Row(VersionRow, f.version), Row(StatusRow, f.status), Row(ProjectRow, f.projectSlug),
      Row(PhaseRow, f.phase), Row(AuthorRow, f.author), Row(ReviewerRow, f.reviewer),
      Row(CreatedRow, f.createdAt), Row(UpdatedRow, f.updatedAt), Row(SupersedesRow, f.supersedes),
      Row(UpstreamReferencesRow, f.upstreamRefs) ]
  }

  function RenderRow(row: Row): string {
    "| " + row.name.Text() + " | " + row.value + " |\n"
  }

  function RenderRows(rows: seq<Row>): string {
    if rows == [] then "" else RenderRow(rows[0]) + RenderRows(rows[1..])
  }

  const TABLE_HEAD := "\n| Field | Value |\n| --- | --- |\n"

  function RenderDocumentControl(f: ControlFields): string {
    MARKER + TABLE_HEAD + RenderRows(Rows(f))
  }

  /**
   A value that puts a second-level header into its row. The row follows the value with a
   space, so a value ending in a line break and two hashes is enough.
   */
  predicate BreaksBlock(value: string) {
    Contains(value + " ", HEADER)
  }

  /** No header can run from `a` into `b`. */
  predicate CleanSeam(a: string, b: string) {
    '\n' !in a || b == "" || (b[0] != '#' && b[0] != ' ')
  }

  lemma ContainsAcross(a: string, b: string)
    requires CleanSeam(a, b)
    ensures Contains(a + b, HEADER) <==> Contains(a, HEADER) || Contains(b, HEADER)
  {
    var text := a + b;
    forall i | 0 <= i <= |a| - |HEADER|
      ensures OccursAt(text, HEADER, i) <==> OccursAt(a, HEADER, i)
    {
      assert text[..|a|] == a == a[..|a|];
      OccursInPrefix(text, a, HEADER, i, |a|);
    }
    forall i | 0 <= i && |a| - |HEADER| < i < |a|
      ensures !OccursAt(text, HEADER, i)
    {
      if i + |HEADER| <= |text| {
        var k := |a| - i;
        assert text[i] == a[i] && text[i + k] == b[0];
        assert HEADER[0] == '\n' && (HEADER[k] == '#' || HEADER[k] == ' ');
        OccursAtChars(text, HEADER, i);
      }
    }
    forall i | |a| <= i
      ensures OccursAt(text, HEADER, i) <==> OccursAt(b, HEADER, i - |a|)
    {
      OccursInSuffix(a, b, HEADER, i);
    }
    if Contains(a, HEADER) {
      assert OccursAt(text, HEADER, Find(a, HEADER, 0));
    } else if Contains(b, HEADER) {
      assert OccursAt(text, HEADER, |a| + Find(b, HEADER, 0));
    }
  }

  /** A header starts with a line break and goes on with a hash. */
  lemma NoHeaderWithout(text: string)
    requires (forall k | 0 <= k < |text| - 1 :: text[k] != '\n') || (forall k | 0 <= k < |text| :: text[k] != '#')
    ensures !Contains(text, HEADER)
  {
    forall i | 0 <= i && i + |HEADER| <= |text|
      ensures !OccursAt(text, HEADER, i)
    {
      assert text[i] != '\n' || text[i + 1] != '#';
      OccursAtChars(text, HEADER, i);
      assert HEADER[0] == '\n' && HEADER[1] == '#';
    }
  }

  lemma PlainName(name: FieldName)
    ensures '\n' !in name.Text()
  {
    match name
    case _ =>
  }

  /** A header in a row, or in the rows after it, comes from the value of one of them. */
  lemma RowBreaks(row: Row, rest: string)
    requires rest == "" || rest[0] == '|'
    ensures Contains(RenderRow(row) + rest, HEADER) <==> BreaksBlock(row.value) || Contains(rest, HEADER)
  {
    var open, value, close := "| " + row.name.Text() + " | ", row.value + " ", "|\n";
    PlainName(row.name);
    NoHeaderWithout(open);
    NoHeaderWithout(close);
    ContainsAcross(close, rest);
    ContainsAcross(value, close + rest);
    ContainsAcross(open, value + (close + rest));
    assert RenderRow(row) + rest == open + (value + (close + rest));
  }

  lemma {:induction false} RowsBreak(rows: seq<Row>)
    ensures RenderRows(rows) == "" || RenderRows(rows)[0] == '|'
    ensures Contains(RenderRows(rows), HEADER) <==> exists r | r in rows :: BreaksBlock(r.value)
  {
    if rows != [] {
      RowsBreak(rows[1..]);
      RowBreaks(rows[0], RenderRows(rows[1..]));
      assert rows[0] in rows;
      assert forall r | r in rows :: r == rows[0] || r in rows[1..];
    }
  }

  lemma TableHeadIsPlain()
    ensures forall i | 0 <= i < |TABLE_HEAD| :: TABLE_HEAD[i] != '#'
  {
  }

  lemma HeaderAfterTableHead(rows: string)
    requires rows == "" || rows[0] == '|'
    ensures OpensBlock(MARKER + TABLE_HEAD + rows)
    ensures HasInnerHeader(MARKER + TABLE_HEAD + rows) <==> Contains(rows, HEADER)
  {
    TableHeadIsPlain();
    NoHeaderWithout(TABLE_HEAD);
    ContainsAcross(TABLE_HEAD, rows);
    assert MARKER + TABLE_HEAD + rows == MARKER + (TABLE_HEAD + rows);
    FindShift(MARKER, TABLE_HEAD + rows, HEADER, 0);
  }

  /**
   A rendered block opens with the marker, and holds an inner header exactly when one of the
   metadata values puts it there: the condition under which revisions keep the text around it.
   */
  lemma RenderedBlock(f: ControlFields)
    ensures OpensBlock(RenderDocumentControl(f))
    ensures HasInnerHeader(RenderDocumentControl(f)) <==> exists r | r in Rows(f) :: BreaksBlock(r.value)
  {
    RowsBreak(Rows(f));
    HeaderAfterTableHead(RenderRows(Rows(f)));
  }

  const BREAKING_AUTHOR := "A\n##"

  /** An author that ends in a line break and two hashes: from then on no revision replaces all of the block. */
  lemma BreakingAuthor(f: ControlFields, content: string, second: string)
    requires f.author == BREAKING_AUTHOR && Contains(content, MARKER)
    ensures var block := RenderDocumentControl(f);
            ReplaceDocumentControl(ReplaceDocumentControl(content, block), second) != ReplaceDocumentControl(content, second)
  {
    hide RenderDocumentControl, ReplaceDocumentControl;
    assert BreaksBlock(f.author) by {
      assert f.author + " " == "A" + HEADER;
      OccursInSuffix("A", HEADER, HEADER, 1);
    }
    assert Rows(f)[7] == Row(AuthorRow, f.author);
    RenderedBlock(f);
    ReplaceTwice(content, RenderDocumentControl(f), second);
  }

  /** The block has a row with this name and this value. */
  ghost predicate ShowsRow(block: string, name: string, value: string) {
    Shows(block, "| " + name + " | " + value + " |\n")
  }

  lemma {:induction false} RowsSplit(rows: seq<Row>, i: nat)
    requires i < |rows|
    ensures RenderRows(rows) == RenderRows(rows[..i]) + RenderRow(rows[i]) + RenderRows(rows[i + 1..])
  {
    hide RenderRow;
    if i == 0 {
      assert RenderRows(rows[..0]) == "";
    } else {
      RowsSplit(rows[1..], i - 1);
      assert rows[1..][..i - 1] == rows[..i][1..] && rows[1..][i..] == rows[i + 1..];
      var front, rest := RenderRow(rows[0]), RenderRows(rows[..i][1..]);
      var line, after := RenderRow(rows[i]), RenderRows(rows[i + 1..]);
      assert front + (rest + line + after) == front + rest + line + after;
    }
  }

  /** Every value stands in the row of the block that bears its name. */
  lemma BlockShows(f: ControlFields, i: nat)
    requires i < |Rows(f)|
    ensures ShowsRow(RenderDocumentControl(f), Rows(f)[i].name.Text(), Rows(f)[i].value)
  {
    hide Rows, RenderRows;
    RowsSplit(Rows(f), i);
    var line := RenderRow(Rows(f)[i]);
    var before, after := RenderRows(Rows(f)[..i]), RenderRows(Rows(f)[i + 1..]);
    hide RenderRow;
    assert RenderDocumentControl(f) == (MARKER + TABLE_HEAD + before) + line + after;
  }

  lemma RowsAre(f: ControlFields)
    ensures var rows := Rows(f);
            && |rows| == 13
            && rows[0] == Row(TitleRow, f.title) && rows[1] == Row(WorkProductIdRow, f.wpId) && rows[2] == Row(ArtifactIdRow, f.artifactId)
            && rows[3] == Row(VersionRow, f.version) && rows[4] == Row(StatusRow, f.status) && rows[5] == Row(ProjectRow, f.projectSlug)
            && rows[6] == Row(PhaseRow, f.phase) && rows[7] == Row(AuthorRow, f.author) && rows[8] == Row(ReviewerRow, f.reviewer)
            && rows[9] == Row(CreatedRow, f.createdAt) && rows[10] == Row(UpdatedRow, f.updatedAt)
            && rows[11] == Row(SupersedesRow, f.supersedes) && rows[12] == Row(UpstreamReferencesRow, f.upstreamRefs)
  {
  }

  /** Each value of the block under the name the template gives it. */
  lemma BlockShowsFields(f: ControlFields)
    ensures var block := RenderDocumentControl(f);
            && ShowsRow(block, "Title", f.title) && ShowsRow(block, "Work Product ID", f.wpId)
            && ShowsRow(block, "Artifact ID", f.artifactId) && ShowsRow(block, "Version", f.version) && ShowsRow(block, "Status", f.status)
            && ShowsRow(block, "Project", f.projectSlug) && ShowsRow(block, "Phase", f.phase)
            && ShowsRow(block, "Author", f.author) && ShowsRow(block, "Reviewer", f.reviewer)
            && ShowsRow(block, "Created", f.createdAt) && ShowsRow(block, "Updated", f.updatedAt)
            && ShowsRow(block, "Supersedes", f.supersedes) && ShowsRow(block, "Upstream References", f.upstreamRefs)
  {
    hide Rows, ShowsRow, RenderDocumentControl;
    RowsAre(f);
    BlockShows(f, 0);
    BlockShows(f, 1);
    BlockShows(f, 2);
    BlockShows(f, 3);
    BlockShows(f, 4);
    BlockShows(f, 5);
    BlockShows(f, 6);
    BlockShows(f, 7);
    BlockShows(f, 8);
    BlockShows(f, 9);
    BlockShows(f, 10);
    BlockShows(f, 11);
    BlockShows(f, 12);
  }

  // ---------- The generated document ----------

  /** Bullets: one line each, a placeholder when there are none. */
  lemma BulletLines(a: seq<string>, b: seq<string>, item: string)
    ensures FormatBullets([]) == "- TBD" && FormatBullets([item]) == "- " + item
    ensures a != [] && b != [] ==> FormatBullets(a + b) == FormatBullets(a) + "\n" + FormatBullets(b)
  {
    if a != [] && b != [] {
      var ab := a + b;
      var linesA := seq(|a|, i requires 0 <= i < |a| => "- " + a[i]);
      var linesB := seq(|b|, i requires 0 <= i < |b| => "- " + b[i]);
      assert seq(|ab|, i requires 0 <= i < |ab| => "- " + ab[i]) == linesA + linesB;
      JoinConcat("\n", linesA, linesB);
    }
  }

  /** A generated document, spelled out: title, block, body if there is one, and the four sections in order. */
  lemma DocumentSpelled(title: string, block: string, body: string, assumptions: seq<string>,
                        openQuestions: seq<string>, traceability: string, checklist: seq<string>)
    requires block != "" && traceability != ""
    ensures var a, q, c := "## Assumptions\n" + FormatBullets(assumptions), "## Open Questions\n" + FormatBullets(openQuestions),
                           "## Review Checklist\n" + FormatBullets(checklist);
            var sections := a + ("\n\n" + (q + ("\n\n" + (traceability + ("\n\n" + c)))));
            RenderDocument(title, block, body, assumptions, openQuestions, traceability, checklist) ==
            "# " + title + ("\n\n" + (block + ("\n\n" + (if body == "" then sections else body + ("\n\n" + sections)))))
  {
    hide FormatBullets;
    var a, q, c := RenderSection("## Assumptions", assumptions), RenderSection("## Open Questions", openQuestions), RenderSection("## Review Checklist", checklist);
    assert "## Assumptions" + "\n" == "## Assumptions\n" && "## Open Questions" + "\n" == "## Open Questions\n";
    assert "## Review Checklist" + "\n" == "## Review Checklist\n";
    var last, tail := [traceability, c], [q, traceability, c];
    assert NonEmpty([c]) == [c] && JoinNonEmpty([c]) == c;
    JoinFront(traceability, [c]);
    assert last == [traceability] + [c];
    JoinFront(q, last);
    assert tail == [q] + last;
    JoinFront(a, tail);
    var sections := [a] + tail;
    if body != "" {
      JoinFront(body, sections);
    } else {
      assert ([body] + sections)[1..] == sections;
    }
    var all := [body] + sections;
    assert Sections(body, assumptions, openQuestions, traceability, checklist) == all;
    JoinFront(block, all);
    JoinFront("# " + title, [block] + all);
    assert ["# " + title, block] + all == ["# " + title] + ([block] + all);
  }

  function FormatBullets(items: seq<string>): string {
    if items == [] then "- TBD" else Join("\n", seq(|items|, i requires 0 <= i < |items| => "- " + items[i]))
  }

  function RenderSection(heading: string, items: seq<string>): string {
    heading + "\n" + FormatBullets(items)
  }

  function NonEmpty(parts: seq<string>): seq<string> {
    if parts == [] then []
    else if parts[0] == "" then NonEmpty(parts[1..])
    else [parts[0]] + NonEmpty(parts[1..])
  }

  /** The sections that follow the control block. */
  function Sections(body: string, assumptions: seq<string>, openQuestions: seq<string>,
                    traceability: string, checklist: seq<string>): seq<string>
  {
    [ body, RenderSection("## Assumptions", assumptions), RenderSection("## Open Questions", openQuestions),
      traceability, RenderSection("## Review Checklist", checklist) ]
  }

  function JoinNonEmpty(parts: seq<string>): string {
    Join("\n\n", NonEmpty(parts))
  }

  function RenderDocument(title: string, block: string, body: string, assumptions: seq<string>,
                          openQuestions: seq<string>, traceability: string, checklist: seq<string>): string
  {
    JoinNonEmpty(["# " + title, block] + Sections(body, assumptions, openQuestions, traceability, checklist))
  }

  predicate OpensSection(text: string) {
    |text| >= 3 && text[..3] == "## "
  }

  /** A non-empty part at the front of a document. */
  lemma JoinFront(part: string, parts: seq<string>)
    requires part != "" && NonEmpty(parts) != []
    ensures NonEmpty([part] + parts) == [part] + NonEmpty(parts)
    ensures JoinNonEmpty([part] + parts) == part + ("\n\n" + JoinNonEmpty(parts))
  {
    assert ([part] + parts)[1..] == parts;
    assert ([part] + NonEmpty(parts))[1..] == NonEmpty(parts);
  }

  /** The sections start with the body, or with the assumptions when there is no body. */
  lemma FirstSection(body: string, section: string, others: seq<string>)
    requires OpensSection(section) && NonEmpty(others) != []
    ensures NonEmpty([body, section] + others) != []
    ensures OpensSection(JoinNonEmpty([body, section] + others)) <==> (body == "" || OpensSection(body))
  {
    JoinFront(section, others);
    var tail := [section] + others;
    assert OpensSection(JoinNonEmpty(tail)) by {
      assert JoinNonEmpty(tail)[..3] == section[..3];
    }
    assert [body, section] + others == [body] + tail;
    if body == "" {
      assert ([body] + tail)[1..] == tail;
    } else {
      JoinFront(body, tail);
      var joined := JoinNonEmpty([body] + tail);
      if |body| >= 3 {
        assert joined[..3] == body[..3];
      } else {
        assert joined[|body|] == '\n';
        assert "## "[|body|] != '\n';
      }
    }
  }

  lemma SectionsKept(body: string, assumptions: seq<string>, openQuestions: seq<string>,
                     traceability: string, checklist: seq<string>)
    ensures var sections := Sections(body, assumptions, openQuestions, traceability, checklist);
            && NonEmpty(sections) != []
            && (OpensSection(JoinNonEmpty(sections)) <==> (body == "" || OpensSection(body)))
  {
    var first := RenderSection("## Assumptions", assumptions);
    var others := [RenderSection("## Open Questions", openQuestions), traceability, RenderSection("## Review Checklist", checklist)];
    assert first[..3] == "## ";
    assert Sections(body, assumptions, openQuestions, traceability, checklist) == [body, first] + others;
    FirstSection(body, first, others);
  }

  lemma DocumentShape(title: string, block: string, body: string, assumptions: seq<string>,
                      openQuestions: seq<string>, traceability: string, checklist: seq<string>)
    requires block != ""
    ensures var sections := JoinNonEmpty(Sections(body, assumptions, openQuestions, traceability, checklist));
            && RenderDocument(title, block, body, assumptions, openQuestions, traceability, checklist) ==
               "# " + title + "\n\n" + (block + ("\n\n" + sections))
            && (OpensSection(sections) <==> (body == "" || OpensSection(body)))
  {
    var sections := Sections(body, assumptions, openQuestions, traceability, checklist);
    SectionsKept(body, assumptions, openQuestions, traceability, checklist);
    JoinFront(block, sections);
    JoinFront("# " + title, [block] + sections);
    assert ["# " + title, block] + sections == ["# " + title] + ([block] + sections);
  }

  lemma MarkerIsOneLine()
    ensures forall k | 0 <= k < |MARKER| :: MARKER[k] != '\n'
  {
  }

  lemma NoMarkerInTitle(title: string, rest: string, i: nat)
    requires !Contains(title, MARKER) && i < |title| + 4
    ensures !OccursAt("# " + title + "\n\n" + rest, MARKER, i)
  {
    var text := "# " + title + "\n\n" + rest;
    if i + |MARKER| <= |text| {
      if i < 2 {
        OccursAtChars(text, MARKER, i);
        assert text[i + (1 - i)] == ' ' && MARKER[1 - i] == '#';
      } else if i + |MARKER| <= |title| + 2 {
        assert text[i..i + |MARKER|] == title[i - 2..i - 2 + |MARKER|];
        assert !OccursAt(title, MARKER, i - 2);
      } else {
        var k := if i <= |title| + 2 then |title| + 2 - i else 0;
        assert text[i + k] == '\n';
        NoMarkerOverBreak(text, i, k);
      }
    }
  }

  lemma NoMarkerOverBreak(text: string, i: nat, k: nat)
    requires k < |MARKER| && i + |MARKER| <= |text| && text[i + k] == '\n'
    ensures !OccursAt(text, MARKER, i)
  {
    MarkerIsOneLine();
    OccursAtChars(text, MARKER, i);
    assert MARKER[k] != '\n';
  }

  /** The control block of a generated document is found where it was put. */
  lemma GeneratedMarker(title: string, block: string, rest: string)
    requires !Contains(title, MARKER) && OpensBlock(block)
    ensures var before := "# " + title + "\n\n"; Find(before + (block + rest), MARKER, 0) == |before|
  {
    var before := "# " + title + "\n\n";
    var text := before + (block + rest);
    forall i | 0 <= i < |before|
      ensures !OccursAt(text, MARKER, i)
    {
      NoMarkerInTitle(title, block + rest, i);
    }
    assert text[|before|..|before| + |MARKER|] == block[..|MARKER|];
    assert OccursAt(text, MARKER, |before|);
  }

  /**
   Revising a generated document without touching its text keeps everything after the control
   block (one of the two line breaks aside), exactly when the body opens a section. Every phase
   template does, so no generated text is lost; a body that opened with plain text would lose
   everything up to its first header.
   */
  lemma RevisionOfGenerated(title: string, block: string, body: string, assumptions: seq<string>,
                            openQuestions: seq<string>, traceability: string, checklist: seq<string>,
                            newBlock: string)
    requires !Contains(title, MARKER)
    requires OpensBlock(block) && !HasInnerHeader(block)
    ensures var doc := RenderDocument(title, block, body, assumptions, openQuestions, traceability, checklist);
            var sections := JoinNonEmpty(Sections(body, assumptions, openQuestions, traceability, checklist));
            ReplaceDocumentControl(doc, newBlock) == "# " + title + "\n\n" + newBlock + ("\n" + sections)
            <==> (body == "" || OpensSection(body))
  {
    var doc := RenderDocument(title, block, body, assumptions, openQuestions, traceability, checklist);
    var sections := JoinNonEmpty(Sections(body, assumptions, openQuestions, traceability, checklist));
    DocumentShape(title, block, body, assumptions, openQuestions, traceability, checklist);
    KeptText(title, block, sections, newBlock);
  }

  lemma KeptText(title: string, block: string, sections: string, newBlock: string)
    requires !Contains(title, MARKER)
    requires OpensBlock(block) && !HasInnerHeader(block)
    ensures var before := "# " + title + "\n\n";
            ReplaceDocumentControl(before + (block + ("\n\n" + sections)), newBlock) == before + newBlock + ("\n" + sections)
            <==> OpensSection(sections)
  {
    hide ReplaceDocumentControl, Before, After, OpensSection;
    var before, rest := "# " + title + "\n\n", "\n\n" + sections;
    var doc := before + (block + rest);
    GeneratedMarker(title, block, rest);
    CutAt(before, block + rest, Find(block + rest, HEADER, |MARKER|));
    CutOfGenerated(block, sections);
    ReplaceSplits(doc, newBlock);
    var kept := After(doc);
    assert before + newBlock + kept == before + newBlock + ("\n" + sections) <==> kept == "\n" + sections by {
      assert (before + newBlock + kept)[|before + newBlock|..] == kept;
      assert (before + newBlock + ("\n" + sections))[|before + newBlock|..] == "\n" + sections;
    }
  }

  /** What a revision keeps of a generated document from its sections. */
  lemma CutOfGenerated(block: string, sections: string)
    requires OpensBlock(block) && !HasInnerHeader(block)
    ensures var text := block + ("\n\n" + sections);
            var cut := Find(text, HEADER, |MARKER|);
            (if cut == -1 then "" else text[cut..]) == "\n" + sections <==> OpensSection(sections)
  {
    hide OpensSection;
    var rest := "\n\n" + sections;
    HeaderAfterBlock(block, rest);
    SectionStart(sections);
    var cut := Find(rest, HEADER, 0);
    if cut != -1 {
      assert (block + rest)[|block| + cut..] == rest[cut..];
      assert |rest[cut..]| == |rest| - cut;
      assert rest[1..] == "\n" + sections;
    }
  }

  /** A header right after the blank line is a section that opens the text. */
  lemma SectionStart(sections: string)
    ensures var cut := Find("\n\n" + sections, HEADER, 0);
            cut != 0 && (cut == 1 <==> OpensSection(sections))
  {
    var rest := "\n\n" + sections;
    if |HEADER| <= |rest| {
      OccursAtChars(rest, HEADER, 0);
      assert rest[0 + 1] == '\n';
    }
    if |sections| >= 3 {
      assert rest[1..1 + |HEADER|] == "\n" + sections[..3];
      assert ("\n" + sections[..3])[1..] == sections[..3];
      assert HEADER[1..] == "## " && "\n" + "## " == HEADER;
    }
  }
}
