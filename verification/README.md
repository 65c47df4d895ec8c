# AI agent workbench: verified models of its stateful cores

The repository is a conversational agent framework (the "Cat") with plugins that write the work products of
ISO 26262:2018. This project models the parts that keep state and proves what they promise over every input and
every run.

- **Work-product store and review workflow** (`Strings`, `Slugs`, `FileNames`, `DocumentControl`, `WorkProducts`,
  `ArtifactStore`, `ReviewWorkflow`, `StoreInvariant`, `StoreRuns`, `OperationEffects`, `Ancestry`, `Reachability`). The
  workspace is a map from path to
  file. Five operations write to it: generate, request review, request changes, approve, revise. Each operation is a
  method on a `Store`, proved to perform a list of file writes (`Writes`); a run is any sequence of enabled operations,
  each of which may stop after any number of its writes. Main results: `VersionChain` with `LinkedExactly`,
  `DocumentsNeverChange`, `HistoriesOnlyGrow`, `OldVersionsFrozen`, `ApprovedBefore` with `TracedExactly` and
  `SafetyCaseRests`, `SafetyCaseReachable`, `TraceIsAcyclic`, `ReplaceTwice`.
- **Plugin registry, hook pipeline, procedural memory** (`Hooks`, `PluginRegistry`, `ProceduralMemory`, `CheshireCat`).
  After every completed operation the cached tables equal a scan from scratch; hooks are piped in the one stable order
  by priority; repeated synchronisation of the vector index converges; over any run of the registry the keys stored
  are those of the active triggers.
- **Session caches** (`SessionCache`). Eviction keeps the most recently written keys and refines an unbounded map.
- **Conversational form** (`Forms`). A state machine whose oracles answer anything or fail.
- **Smaller cores** (`EmbedderSettings`, `ConversationHistory`, `MetadataFilters`); `Wrappers` and `Collections` hold
  what several modules share.

Methods are proved against specification functions or predicates; the lemmas about these carry the promises, both what
never happens and what does: an approval approves, a confirmation submits, every trigger of an active plugin is stored,
a value is answered as long as it lives, and a Safety Case can be reached from wherever a run has come to.

What the proofs brought to light, each stated in the model:

- Replacing the control block twice equals replacing it once if and only if the first block holds no second-level
  header of its own (`ReplaceTwice`). A metadata value can put one there, also one that merely ends in a line break
  and two hashes, because the table row follows the value with a space (`RenderedBlock`, `BreakingAuthor`).
- The first revision of a generated document drops one of the two line breaks after the block; a body that did not
  open with a section would lose its text up to the first header (`RevisionOfGenerated`).
- "All versions but the last are superseded" holds at a point of a run if and only if no revision of the artifact
  stopped between its second and third write before (`LinkedExactly`). `StoppedRevision` is a run with such a stop: its
  version 1 stays open however the run goes on, because only the latest version is ever written (`OldVersionsFrozen`).
- With `allow_missing_upstream` a Safety Case can be the only thing in the workspace (`FlagBreaksAncestry`). The flag
  itself does no harm: a project is fully traced if and only if nothing in it was saved while required work products
  were missing (`TracedExactly`), and that is all `ApprovedBefore` and `SafetyCaseRests` ask for.
- A cache limit below ten never evicts (`SmallLimitNeverEvicts`).
- Recording validation errors of a form fails when a wrong field is named twice or is not in the model, or when an error
  names no field (`RecordingSucceeds`); the turn then fails and the form stays open.
- One synchronisation of the vector index is enough if and only if no two stale points share a key (`OneRunSuffices`).
  Given that, the next one changes nothing, whatever it fetches, if and only if the collection is still within the fetch
  limit (`SecondRunSettles`). With more active triggers than the limit it grows at every synchronisation
  (`OverLimitGrows`).
- An embedder rollback restores the selected embedder, but forgets the configuration of every other one
  (`RollbackForgets`), and touches records of other categories exactly when they bear one of the names written
  (`RollbackTouchesOthers`). A selection without a configuration record makes the rollback itself fail, with both
  embedder categories already deleted (`Settings.ChangeEmbedder`, reply `Broken`).
- Reinstalling an active plugin deactivates it (`MadHatter.InstallPlugin`). Toggling, installing and uninstalling keep
  the saved list equal to the active one. Discovery adds `core_plugin` to the list in memory without saving it: after a
  completed discovery the two lists agree if and only if the saved one was there and named `core_plugin`
  (`MadHatter.FindPlugins`); after a first start they do not (`FirstStart`).

## Model

| member | source | states |
|---|---|---|
| `Slugs.SlugifyWords` | core/cat/plugins/AI_Agent-Core_Assistant/id_generation.py:6-12 | a slug is the maximal runs of letters and digits of the lowered text, joined by single underscores, or "unnamed" when there are none; spaces at the ends do not matter |
| `Slugs.CaseDoesNotMatter` | core/cat/plugins/AI_Agent-Core_Assistant/id_generation.py:6-12 | texts that differ in ASCII case only have one slug |
| `Slugs.StripSplits` | core/cat/plugins/AI_Agent-Core_Assistant/id_generation.py:9-11 | stripping takes the characters to drop at both ends and nothing else |
| `Slugs.SlugifyFixesSlugs` | core/cat/plugins/AI_Agent-Core_Assistant/id_generation.py:6-12 | every result is a slug, and slugs are exactly the texts left alone |
| `Slugs.SlugShape` | core/cat/plugins/AI_Agent-Core_Assistant/id_generation.py:6-12 | output over a-z, 0-9 and underscore, not empty, without leading, trailing or doubled underscore |
| `Slugs.SlugifyIdempotent` | core/cat/plugins/AI_Agent-Core_Assistant/id_generation.py:6-12 | slugifying twice is slugifying once |
| `Slugs.NormalizeIdempotent` | core/cat/plugins/AI_Agent-Core_Assistant/config.py:76-79 | an empty name is the default project; normalising a project name again, as building a path does, changes nothing |
| `FileNames.VersionParses` | core/cat/plugins/AI_Agent-Core_Assistant/id_generation.py:32-33 | a version is written with at least two characters, two below 100, and reads back as the number |
| `FileNames.FileNameInjective` | core/cat/plugins/AI_Agent-Core_Assistant/artifact_store.py:32-37 | the file name determines artifact id and version, whatever the id contains |
| `FileNames.NamesDistinct` | core/cat/plugins/AI_Agent-Core_Assistant/artifact_store.py:32-37 | document and metadata names never coincide, and each determines id and version |
| `FileNames.MetadataListed` | core/cat/plugins/AI_Agent-Core_Assistant/artifact_store.py:64-79 | every metadata file is matched by the glob that lists metadata |
| `FileNames.GlobMatches` | core/cat/plugins/AI_Agent-Core_Assistant/artifact_store.py:75 | the names listed are those of the form *_v*.json |
| `DocumentControl.SplicedParts` | core/cat/plugins/AI_Agent-Core_Assistant/template_renderer.py:123-131 | what is before and after the control block of a spliced document, whatever header the new block holds; no match straddles a seam |
| `DocumentControl.ReplaceTwice` | core/cat/plugins/AI_Agent-Core_Assistant/template_renderer.py:123-131 | replacing by d1 and then d2 equals replacing by d2 if and only if d1 has no inner header |
| `DocumentControl.RevisionChainKeepsText` | core/cat/plugins/AI_Agent-Core_Assistant/template_renderer.py:123-131 | over any chain of blocks the text before the marker is unchanged; the text after the block is if and only if every block is clean; the last block stands between the original text if and only if all earlier ones are clean |
| `DocumentControl.WithoutMarker` | core/cat/plugins/AI_Agent-Core_Assistant/template_renderer.py:123-127 | a text without a marker gets the block in front, and what a later replacement will find before and after it |
| `DocumentControl.RenderedBlock` | core/cat/plugins/AI_Agent-Core_Assistant/template_renderer.py:27-45 | a rendered block opens with the marker, and has an inner header if and only if a value puts it there |
| `DocumentControl.BreakingAuthor` | core/cat/plugins/AI_Agent-Core_Assistant/template_renderer.py:27-45 | an author ending in a line break and two hashes, with which replacing twice is not replacing once |
| `DocumentControl.BlockShowsFields` | core/cat/plugins/AI_Agent-Core_Assistant/template_renderer.py:27-45 | every value stands in the row of the block that the template names for it |
| `DocumentControl.DocumentSpelled` | core/cat/plugins/AI_Agent-Core_Assistant/template_renderer.py:63-82 | a generated document, spelled out: title, block, body if any, the four sections in order |
| `DocumentControl.BulletLines` | core/cat/plugins/AI_Agent-Core_Assistant/template_renderer.py:20-24 | one line per bullet in order, a placeholder when there are none |
| `DocumentControl.RevisionOfGenerated` | core/cat/plugins/AI_Agent-Core_Assistant/template_renderer.py:63-82 | revising a generated document keeps its sections, one line break aside, if and only if the body is empty or opens a section |
| `WorkProducts.WithIdInverse` | core/cat/plugins/AI_Agent-Concept_Assistant/concept_tools.py:12-23 | a work product is determined by its id |
| `WorkProducts.UpstreamDecreases` | core/cat/plugins/AI_Agent-Confirmation_Assistant/supporting_confirmation_tools.py:9-22 | the requirement graph of the phase plugins goes strictly downwards |
| `WorkProducts.MakeUpstreamRefs` | core/cat/plugins/AI_Agent-Core_Assistant/traceability.py:4-16 | one reference per upstream record, in order |
| `WorkProducts.SummarizeUpstreamRefs` | core/cat/plugins/AI_Agent-Core_Assistant/traceability.py:19-28 | the summary put into the control block |
| `WorkProducts.TraceabilitySection` | core/cat/plugins/AI_Agent-Core_Assistant/traceability.py:31-43 | the traceability section of a document |
| `WorkProducts.SummaryLines` | core/cat/plugins/AI_Agent-Core_Assistant/traceability.py:19-28 | the summary of no, one and several references |
| `WorkProducts.TraceabilityLines` | core/cat/plugins/AI_Agent-Core_Assistant/traceability.py:31-43 | the section for no references, and the line each reference adds |
| `WorkProducts.BlockShowsMetadata` | core/cat/plugins/AI_Agent-Core_Assistant/template_renderer.py:27-45 | the control block of a version shows its metadata, each value in its own row |
| `WorkProducts.IntTextReads` | core/cat/plugins/AI_Agent-Core_Assistant/template_renderer.py:34 | the version shown is the decimal of the version |
| `ArtifactStore.Store.SaveArtifact` | core/cat/plugins/AI_Agent-Core_Assistant/artifact_store.py:39-54 | writes document, then metadata with both paths filled in, and nothing else |
| `ArtifactStore.Store.ListMetadata` | core/cat/plugins/AI_Agent-Core_Assistant/artifact_store.py:64-79 | exactly the metadata found below the scope |
| `ArtifactStore.Store.LatestOf` | core/cat/plugins/AI_Agent-Core_Assistant/artifact_store.py:81-94 | a matching record no other matching record outdates, or none when nothing matches |
| `ArtifactStore.Store.GetLatestById` | core/cat/plugins/AI_Agent-Core_Assistant/artifact_store.py:81-86 | the highest version of an artifact id in the workspace |
| `ArtifactStore.Store.GetLatestByWp` | core/cat/plugins/AI_Agent-Core_Assistant/artifact_store.py:88-94 | the highest version of a work product with the status asked for |
| `ArtifactStore.Store.ResolveUpstream` | core/cat/plugins/AI_Agent-Core_Assistant/artifact_store.py:96-108 | each requirement is found, by its latest approved version, or missing, if and only if it has none; both in request order |
| `ArtifactStore.ResolvedInOrder` | core/cat/plugins/AI_Agent-Core_Assistant/artifact_store.py:96-108 | found and missing come in the order of the requirements |
| `ArtifactStore.Store.UpdateMetadata` | core/cat/plugins/AI_Agent-Core_Assistant/artifact_store.py:110-125 | writes the metadata file of the record, building the paths when it has none |
| `ArtifactStore.Store.ReadArtifactContent` | core/cat/plugins/AI_Agent-Core_Assistant/artifact_store.py:127-143 | the document's text, or nothing when it cannot be read |
| `ReviewWorkflow.RunRequestReview` | core/cat/plugins/AI_Agent-Core_Assistant/review_workflow.py:32-42 | changes the latest version only, by the writes of the operation; without one nothing is written |
| `ReviewWorkflow.RunRequestChanges` | core/cat/plugins/AI_Agent-Core_Assistant/review_workflow.py:45-64 | the same for a request for changes, which makes the version a draft again |
| `ReviewWorkflow.RunApprove` | core/cat/plugins/AI_Agent-Core_Assistant/review_workflow.py:67-83 | changes the latest version only, by the write of an approval; without one nothing is written |
| `ReviewWorkflow.RunRevise` | core/cat/plugins/AI_Agent-Core_Assistant/review_workflow.py:86-125 | the three writes of a revision: new document, new metadata, superseded predecessor |
| `ReviewWorkflow.CheckFields` | core/cat/plugins/AI_Agent-Confirmation_Assistant/supporting_confirmation_tools.py:58-66 | the missing required fields in order, none if and only if all are given |
| `ReviewWorkflow.LackingInOrder` | core/cat/plugins/AI_Agent-Confirmation_Assistant/supporting_confirmation_tools.py:58-66 | missing fields come in the order of the required ones |
| `ReviewWorkflow.LackingOne` | core/cat/plugins/AI_Agent-Confirmation_Assistant/supporting_confirmation_tools.py:58-66 | a field is missing when it is not given or empty |
| `ReviewWorkflow.SaveDraft` | core/cat/plugins/AI_Agent-Confirmation_Assistant/supporting_confirmation_tools.py:77-120 | builds and saves version 1 with references to the resolved upstream versions |
| `ReviewWorkflow.RunGenerate` | core/cat/plugins/AI_Agent-Confirmation_Assistant/supporting_confirmation_tools.py:53-128 | exactly when a generator gives which reply and what it lists (for the HARA both fields, whichever is missing), that only a created artifact writes files, and that these writes are those of an enabled generate operation |
| `ReviewWorkflow.ChooseRevisionText` | core/cat/plugins/AI_Agent-Confirmation_Assistant/supporting_confirmation_tools.py:168-183 | a given document wins, then the model's answer to change requests, stripped, then the current text |
| `OperationEffects.ApprovalApproves` | core/cat/plugins/AI_Agent-Core_Assistant/review_workflow.py:67-83 | after an approval the version is approved and locked, with the date, the notes and the reviewer given or else the old one, the approval last in its history; no other record changed |
| `OperationEffects.ReviewIsRequested` | core/cat/plugins/AI_Agent-Core_Assistant/review_workflow.py:32-42 | after a request the version is in review by the reviewer given or else the old one; nothing else changed |
| `OperationEffects.ChangesAreRequested` | core/cat/plugins/AI_Agent-Core_Assistant/review_workflow.py:45-64 | after a request the version is a draft with these change requests; nothing else changed |
| `OperationEffects.GenerationSaves` | core/cat/plugins/AI_Agent-Confirmation_Assistant/supporting_confirmation_tools.py:77-120 | version 1 is stored as a draft with the author and reviewer given, its document, and a reference to the approved version found for each requirement, in order |
| `OperationEffects.RequestIsFollowed` | core/cat/plugins/AI_Agent-Confirmation_Assistant/supporting_confirmation_tools.py:77-120 | the document a request leads to, spelled out |
| `OperationEffects.RevisionSaves` | core/cat/plugins/AI_Agent-Core_Assistant/review_workflow.py:86-125 | the next version is stored as a draft by the author given or else the old one, with these change requests and the text under a new block; its predecessor is superseded by it |
| `StoreInvariant.ListedInProject` | core/cat/plugins/AI_Agent-Core_Assistant/artifact_store.py:26-79 | listing a project finds exactly the records saved under any name with the same slug |
| `StoreInvariant.ListedForWorkProduct` | core/cat/plugins/AI_Agent-Core_Assistant/artifact_store.py:88-94 | what resolving a requirement can find |
| `StoreInvariant.OneRecordPerVersion` | core/cat/plugins/AI_Agent-Core_Assistant/artifact_store.py:32-54 | at most one record per artifact id and version |
| `StoreInvariant.RecordAdded` | core/cat/plugins/AI_Agent-Core_Assistant/artifact_store.py:39-54 | adding a new version's metadata keeps the invariant and everything stored |
| `StoreInvariant.RecordUpdated` | core/cat/plugins/AI_Agent-Core_Assistant/artifact_store.py:110-125 | writing an evolved record back keeps the invariant and everything else stored |
| `StoreRuns.LatestIsOpen` | core/cat/plugins/AI_Agent-Core_Assistant/artifact_store.py:81-86 | the record found by its id is stored, the highest version, and not superseded |
| `StoreRuns.UpdateIsSound` | core/cat/plugins/AI_Agent-Core_Assistant/artifact_store.py:186-194 | every status change leaves a sound record whose history only grew |
| `StoreRuns.ReviseSteps` | core/cat/plugins/AI_Agent-Core_Assistant/review_workflow.py:86-125 | the records after each of the three writes of a revision, the invariant holding after each |
| `StoreRuns.StepKeeps` | core/cat/plugins/AI_Agent-Core_Assistant/review_workflow.py:32-125 | any operation, stopped after any number of writes, keeps the invariant and loses or rewrites nothing stored |
| `StoreRuns.StepLinks` | core/cat/plugins/AI_Agent-Core_Assistant/review_workflow.py:115-122 | any operation, stopped anywhere, keeps the versions of an artifact but the last superseded, except a revision of it stopped after its second write |
| `StoreRuns.CutUnlinks` | core/cat/plugins/AI_Agent-Core_Assistant/review_workflow.py:115-122 | such a stop leaves the old version open beside the new one |
| `StoreRuns.StepTraces` | core/cat/plugins/AI_Agent-Confirmation_Assistant/supporting_confirmation_tools.py:68-87 | any operation, stopped anywhere, keeps every record of a project referring to all it requires, except a generator that saves while required work products are missing |
| `StoreRuns.SavedTraced` | core/cat/plugins/AI_Agent-Confirmation_Assistant/supporting_confirmation_tools.py:68-87 | what a generator saves refers to all it requires if and only if nothing was missing |
| `StoreRuns.SkipUntraces` | core/cat/plugins/AI_Agent-Confirmation_Assistant/supporting_confirmation_tools.py:73-87 | a generator that goes on without required work products leaves a record that lacks them |
| `StoreRuns.RunKeepsInv` | core/cat/plugins/AI_Agent-Core_Assistant/review_workflow.py:32-125 | the invariant at every point of every run, stops included |
| `StoreRuns.RunExtends` | core/cat/plugins/AI_Agent-Core_Assistant/artifact_store.py:39-54 | between any two points of a run nothing stored is lost or rewritten |
| `Ancestry.VersionChain` | core/cat/plugins/AI_Agent-Core_Assistant/review_workflow.py:86-125 | versions are exactly 1 to n and linked backwards, version n is open; all others are superseded and linked forwards if and only if no revision of the artifact stopped after its second write |
| `Ancestry.LinkedExactly` | core/cat/plugins/AI_Agent-Core_Assistant/review_workflow.py:115-122 | at every point of every run: all but the last superseded if and only if no such stop came before |
| `Ancestry.CutStaysOpen` | core/cat/plugins/AI_Agent-Core_Assistant/review_workflow.py:115-122 | after such a stop the old version is open, and outdated, at every later point |
| `Ancestry.StoppedRevision` | core/cat/plugins/AI_Agent-Core_Assistant/review_workflow.py:86-125 | a run, generate then revise stopped after its second write, whose version 1 stays open in every continuation |
| `Ancestry.DocumentsNeverChange` | core/cat/plugins/AI_Agent-Core_Assistant/artifact_store.py:32-54 | the document of a saved version is the same ever after |
| `Ancestry.HistoriesOnlyGrow` | core/cat/plugins/AI_Agent-Core_Assistant/artifact_store.py:146-194 | histories are append-only, start as draft, end in the current status; lock, date and approval go together; superseded records are final |
| `Ancestry.OldVersionsFrozen` | core/cat/plugins/AI_Agent-Core_Assistant/review_workflow.py:86-125 | a version with a stored successor is never written again, superseded or not |
| `Ancestry.RefsNeverDangle` | core/cat/plugins/AI_Agent-Core_Assistant/traceability.py:4-16 | every reference leads to a stored, once approved version of the same project |
| `Ancestry.TraceIsAcyclic` | core/cat/plugins/AI_Agent-Core_Assistant/traceability.py:4-16 | no path of references returns to its start, at any point of any run |
| `Ancestry.AncestryHeld` | core/cat/plugins/AI_Agent-Core_Assistant/artifact_store.py:96-108 | a fully traced record rests on approved versions of all its ancestors |
| `Ancestry.TracedExactly` | core/cat/plugins/AI_Agent-Confirmation_Assistant/supporting_confirmation_tools.py:68-87 | at every point of every run: all records of a project refer to all they require if and only if none was saved while required work products were missing |
| `Ancestry.ApprovedBefore` | core/cat/plugins/AI_Agent-Confirmation_Assistant/supporting_confirmation_tools.py:15-87 | unless something in its project was saved while required work products were missing, before an artifact came to exist the project already held a once approved version of every ancestor |
| `Ancestry.AncestorsAre` | core/cat/plugins/AI_Agent-Confirmation_Assistant/supporting_confirmation_tools.py:15-22 | the ancestors of every work product; for a Safety Case all seven others |
| `Ancestry.SafetyCaseRests` | core/cat/plugins/AI_Agent-Confirmation_Assistant/supporting_confirmation_tools.py:53-128 | a stored Safety Case was preceded by approved versions of all seven others in its project, under the same condition |
| `Reachability.OneMore` | core/cat/plugins/AI_Agent-Confirmation_Assistant/supporting_confirmation_tools.py:53-128 | when all it requires is approved, a work product can be generated and approved, and what was approved stays so |
| `Reachability.SafetyCaseReachable` | core/cat/plugins/AI_Agent-Confirmation_Assistant/supporting_confirmation_tools.py:53-128 | wherever a run has come to, it can go on to an approved Safety Case in any project without anything required ever missing |
| `Reachability.SafetyCaseExists` | core/cat/plugins/AI_Agent-Confirmation_Assistant/supporting_confirmation_tools.py:53-128 | from an empty workspace, too |
| `Ancestry.FlagBreaksAncestry` | core/cat/plugins/AI_Agent-Confirmation_Assistant/supporting_confirmation_tools.py:69-87 | with the flag, a run that ends in a lone Safety Case |
| `Ancestry.RevisionKeepsText` | core/cat/plugins/AI_Agent-Core_Assistant/review_workflow.py:113-115 | the stored document of a revision has the given text around its new block |
| `Hooks.PrioritizedIsStableSort` | core/cat/mad_hatter/mad_hatter.py:161-162 | the running order is by descending priority and keeps the order within each priority |
| `Hooks.StableSortUnique` | core/cat/mad_hatter/mad_hatter.py:161-162 | there is only one such order |
| `Hooks.SortByPriority` | core/cat/mad_hatter/mad_hatter.py:161-162 | sorting a hook list gives that order |
| `Hooks.PipedChain` | core/cat/mad_hatter/mad_hatter.py:250-272 | piping through two chains is piping the result of the first through the second |
| `Hooks.PipedOne` | core/cat/mad_hatter/mad_hatter.py:258-265 | one hook gives what it returns for the value it gets, or passes that on when it raises or returns nothing |
| `Hooks.SilentHooksDoNothing` | core/cat/mad_hatter/mad_hatter.py:250-272 | a hook that raises or returns nothing acts as the identity, whatever it did to its copy |
| `PluginRegistry.AddHooks` | core/cat/mad_hatter/mad_hatter.py:155-158 | adding hooks one by one gives the table by name, in order |
| `PluginRegistry.SortTable` | core/cat/mad_hatter/mad_hatter.py:160-162 | every entry of the table is sorted, and no other changed |
| `PluginRegistry.ScanHolds` | core/cat/mad_hatter/mad_hatter.py:137-165 | the tables hold exactly the tools, forms, endpoints and hooks of the active plugins; hooks by name, by priority, otherwise as found |
| `PluginRegistry.GatheredInOrder` | core/cat/mad_hatter/mad_hatter.py:144-158 | plugins are scanned in dictionary order |
| `PluginRegistry.GatheredFromOne` | core/cat/mad_hatter/mad_hatter.py:144-158 | a plugin gives what it holds, in order, if and only if it is active |
| `PluginRegistry.MadHatter.SyncHooksToolsAndForms` | core/cat/mad_hatter/mad_hatter.py:137-165 | the four tables equal a scan of the active plugins, also when the finishing callback raises |
| `PluginRegistry.MadHatter.LoadPlugin` | core/cat/mad_hatter/mad_hatter.py:123-134 | a readable folder gets an inactive plugin, an unreadable one changes nothing |
| `PluginRegistry.MadHatter.LoadActivePlugins` | core/cat/mad_hatter/mad_hatter.py:171-183 | the saved plugins and the core plugin, without duplicates |
| `PluginRegistry.MadHatter.SaveActivePlugins` | core/cat/mad_hatter/mad_hatter.py:185-188 | the saved list is the active set without duplicates |
| `PluginRegistry.MadHatter.TogglePlugin` | core/cat/mad_hatter/mad_hatter.py:191-223 | exactly when it gets through; the new plugins and active list, the tables in sync, the saved list equal to the active set, also when the finishing callback raises; otherwise lists and tables are left alone |
| `PluginRegistry.ToggledOnShows` | core/cat/mad_hatter/mad_hatter.py:191-223 | a plugin toggled on is seen with everything it loaded |
| `PluginRegistry.ToggledOffHides` | core/cat/mad_hatter/mad_hatter.py:191-223 | once a plugin is toggled off exactly what the other active plugins hold is seen |
| `PluginRegistry.MadHatter.InstallPlugin` | core/cat/mad_hatter/mad_hatter.py:56-71 | exactly when it completes; activates a plugin that was not active, deactivates one that was; tables and saved list stay in agreement whatever happens |
| `PluginRegistry.MadHatter.UninstallPlugin` | core/cat/mad_hatter/mad_hatter.py:73-84 | exactly when it completes; removes this plugin only, never the core plugin; tables and saved list stay in agreement whatever happens |
| `PluginRegistry.MadHatter.FindPlugins` | core/cat/mad_hatter/mad_hatter.py:87-121 | exactly when a discovery completes; then the discovered plugins, the saved plugins plus the core plugin as active, tables in sync, and the saved list in agreement if and only if it named the core plugin; a discovery that gives up leaves everything in agreement or tables and saved list as they were |
| `PluginRegistry.DiscoveredIds` | core/cat/mad_hatter/mad_hatter.py:87-134 | a completed discovery finds exactly the plugins that could be read, once each |
| `PluginRegistry.DiscoveredHolds` | core/cat/mad_hatter/mad_hatter.py:87-134 | an active plugin is discovered with what it loaded, an inactive one with nothing |
| `PluginRegistry.MadHatter.GiveUp` | core/cat/mad_hatter/mad_hatter.py:112-119 | an active plugin that cannot be activated is deactivated, and everything agrees, or nothing changes |
| `PluginRegistry.FirstStart` | core/cat/mad_hatter/mad_hatter.py:87-121 | with nothing saved, discovery completes and the saved list does not agree with the active one |
| `PluginRegistry.MadHatter.ExecuteHook` | core/cat/mad_hatter/mad_hatter.py:226-272 | every hook of the name is called once, in running order; the first argument is folded through them, the caller's arguments are untouched; fails only when there is no such hook; the plugin lookup of the error handler cannot fail |
| `PluginRegistry.CachedHookHasPlugin` | core/cat/mad_hatter/mad_hatter.py:266-269 | every cached hook belongs to a known, active plugin |
| `PluginRegistry.ScanSkips` | core/cat/mad_hatter/mad_hatter.py:137-165 | putting in or dropping an inactive plugin does not change the scan |
| `PluginRegistry.ToggleOffOn` | core/cat/mad_hatter/mad_hatter.py:191-223 | off and on restores plugins, active set and all tables, hook order included |
| `PluginRegistry.ToggleOnOff` | core/cat/mad_hatter/mad_hatter.py:191-223 | on and off restores the active list and all tables |
| `ProceduralMemory.IndexedKeys` | core/cat/looking_glass/cheshire_cat.py:321-334 | every trigger is found under its key, and every key leads to a trigger with that key |
| `ProceduralMemory.EntriesHold` | core/cat/looking_glass/cheshire_cat.py:321-334 | one entry for every text of every trigger of every procedure, and no others |
| `ProceduralMemory.BuildActiveHashes` | core/cat/looking_glass/cheshire_cat.py:321-334 | the three nested loops build the index of all triggers |
| `ProceduralMemory.Collection.GetAllPoints` | core/cat/memory/vector_memory_collection.py:284-299 | distinct points, all of them when they fit the limit |
| `ProceduralMemory.Collection.BuildEmbeddedHashes` | core/cat/looking_glass/cheshire_cat.py:307-319 | the fetched points by key |
| `ProceduralMemory.Collection.EmbedProcedures` | core/cat/looking_glass/cheshire_cat.py:345-398 | one synchronisation: one point per stale key goes, one per missing trigger comes, the rest stays |
| `ProceduralMemory.StaleDecreases` | core/cat/looking_glass/cheshire_cat.py:345-398 | the number of stale points falls by the number of distinct stale keys, kept points keep their ids, every active trigger has a point |
| `ProceduralMemory.BroughtArePoints` | core/cat/looking_glass/cheshire_cat.py:372-392 | what a synchronisation brings are points with the name, the type, the trigger type and the text of a trigger |
| `ProceduralMemory.OneRunSuffices` | core/cat/looking_glass/cheshire_cat.py:345-398 | one synchronisation reaches the active keys if and only if no two stale points share a key |
| `ProceduralMemory.SettledStays` | core/cat/looking_glass/cheshire_cat.py:345-398 | once the keys are the active ones, synchronising changes nothing |
| `ProceduralMemory.Converges` | core/cat/looking_glass/cheshire_cat.py:345-398 | after as many synchronisations as there were stale points the keys are exactly the active ones, and stay |
| `ProceduralMemory.SyncKeepsOnePerKey` | core/cat/looking_glass/cheshire_cat.py:345-398 | a collection with one point per key keeps that and reaches the active keys at once |
| `ProceduralMemory.KeysComeBack` | core/cat/looking_glass/cheshire_cat.py:336-398 | synchronising with other triggers and then with the old ones again brings the stored keys back, whatever was stored twice |
| `CheshireCat.OffOnRestoresKeys` | core/cat/looking_glass/cheshire_cat.py:336-398 | toggling an active plugin off and on brings back the keys of the scanned procedures |
| `CheshireCat.OnOffRestoresKeys` | core/cat/looking_glass/cheshire_cat.py:336-398 | toggling an inactive plugin on and off does as well |
| `CheshireCat.KeysFollowRegistry` | core/cat/looking_glass/cheshire_cat.py:336-398 | after any run of registry changes, each followed by a synchronisation within the limit, the stored keys are those of the procedures a scan finds, one point each |
| `CheshireCat.Cat.OnFinishPluginsSync` | core/cat/looking_glass/cheshire_cat.py:336-338 | the callback synchronises the collection with the tools and forms of the tables |
| `CheshireCat.StoredKeys` | core/cat/looking_glass/cheshire_cat.py:345-398 | in a collection in step a key is stored if and only if it is that of a text of a trigger of a tool or form of an active plugin |
| `CheshireCat.Cat.SettledKeys` | core/cat/mad_hatter/mad_hatter.py:291-293 | the same of a settled agent |
| `CheshireCat.Cat.TogglePlugin` | core/cat/mad_hatter/mad_hatter.py:191-223 | a toggle, completed or not, leaves collection, tables and plugins in step |
| `CheshireCat.Cat.InstallPlugin` | core/cat/mad_hatter/mad_hatter.py:56-71 | so does an installation |
| `CheshireCat.Cat.UninstallPlugin` | core/cat/mad_hatter/mad_hatter.py:73-84 | so does a removal |
| `CheshireCat.Cat.FindPlugins` | core/cat/mad_hatter/mad_hatter.py:87-121 | a discovery brings them in step, or gives up and leaves tables and collection as they were |
| `ProceduralMemory.SizeChange` | core/cat/looking_glass/cheshire_cat.py:345-398 | by how much a synchronisation changes the size of the collection |
| `ProceduralMemory.WithinLimit` | core/cat/memory/vector_memory_collection.py:284-299 | within the fetch limit a synchronisation sees all points |
| `ProceduralMemory.RunWithinLimit` | core/cat/memory/vector_memory_collection.py:284-299 | a collection that fits before and after its first synchronisation fits ever after, and every synchronisation sees all of it |
| `ProceduralMemory.SecondRunSettles` | core/cat/looking_glass/cheshire_cat.py:345-398 | after a first synchronisation that removed everything stale, the second changes nothing, whatever it fetches, if and only if the collection is within the limit |
| `ProceduralMemory.OverLimitGrows` | core/cat/memory/vector_memory_collection.py:284-299 | with more active triggers than the limit every synchronisation enlarges the collection |
| `SessionCache.InMemoryCache.Insert` | core/cat/cache/in_memory_cache.py:19-45 | the item is written, and at the limit a tenth of it is evicted, none younger than what stays |
| `SessionCache.InsertLeaves` | core/cat/cache/in_memory_cache.py:29-45 | how many items an insert leaves, that they are unchanged, and that none that went is younger |
| `SessionCache.InMemoryCache.SortByCreation` | core/cat/cache/in_memory_cache.py:36-39 | every key once, from oldest to youngest |
| `SessionCache.InMemoryCache.GetItem` | core/cat/cache/in_memory_cache.py:48-67 | an expired item is dropped and not returned |
| `SessionCache.InMemoryCache.GetValue` | core/cat/cache/in_memory_cache.py:70-88 | the unexpired value, or nothing |
| `SessionCache.InMemoryCache.Delete` | core/cat/cache/in_memory_cache.py:91-101 | removes this key only |
| `SessionCache.RecentKeysKept` | core/cat/cache/in_memory_cache.py:19-45 | fewer items than the limit, and the last writes of the limit - limit/10 most recently written keys, or of all |
| `SessionCache.SmallLimitNeverEvicts` | core/cat/cache/in_memory_cache.py:19-45 | below ten the cache is the unbounded map |
| `SessionCache.AnswersAreCurrent` | core/cat/cache/in_memory_cache.py:19-101 | any answer of the in-memory cache is the unexpired value last inserted under the key, not deleted since and not found expired since |
| `SessionCache.FileAnswersExactly` | core/cat/cache/file_system_cache.py:24-95 | the file cache answers every read exactly as the unbounded map does |
| `SessionCache.FileAnswersWhileAlive` | core/cat/cache/cache_item.py:12-16 | until its key is written or deleted a value is answered as long as it lives, for ever when its time to live is none or -1, and not after |
| `SessionCache.MemoryAnswersWhileAlive` | core/cat/cache/cache_item.py:12-16 | the same of the in-memory cache while it is never full |
| `SessionCache.DeletedIsGone` | core/cat/cache/in_memory_cache.py:91-101 | a deleted key answers nothing until it is written again |
| `SessionCache.FilePathInjective` | core/cat/cache/file_system_cache.py:21-22 | different keys have different files |
| `SessionCache.FileSystemCache.Insert` | core/cat/cache/file_system_cache.py:24-35 | writes the file of the key |
| `SessionCache.FileSystemCache.GetItem` | core/cat/cache/file_system_cache.py:37-62 | an expired item's file is removed and nothing returned |
| `SessionCache.FileSystemCache.GetValue` | core/cat/cache/file_system_cache.py:64-82 | the unexpired value, or nothing |
| `SessionCache.FileSystemCache.Delete` | core/cat/cache/file_system_cache.py:84-95 | removes the file of the key only |
| `SessionCache.CachesAgree` | core/cat/cache/file_system_cache.py:24-95 | on runs below the limit both caches answer every call alike |
| `Forms.RecordingSucceeds` | core/cat/experimental/form/cat_form.py:277-283 | recording the errors goes through if and only if each names a field and every wrong field is in the model and named once |
| `Forms.CatForm.RecordErrors` | core/cat/experimental/form/cat_form.py:277-283 | the lists, the model and the failure of the loop over the errors |
| `Forms.FailingTurn` | core/cat/experimental/form/cat_form.py:274-286 | after errors the form is open, without exactly the wrong fields, and lists exactly the missing fields and the messages |
| `Forms.MessagesInOrder` | core/cat/experimental/form/cat_form.py:277-283 | messages come in the order of the errors |
| `Forms.CatForm.Validate` | core/cat/experimental/form/cat_form.py:262-286 | the state after validation, and when it raises |
| `Forms.CatForm.Update` | core/cat/experimental/form/cat_form.py:144-153 | merging the sanitised answer and validating; a failure never leaves the form complete |
| `Forms.AnswersWin` | core/cat/experimental/form/cat_form.py:144-150 | an answer wins over what was known, unless it is one of the null-like values |
| `Forms.CatForm.Finish` | core/cat/experimental/form/cat_form.py:131-138 | a complete form waits for confirmation or is closed and submitted |
| `Forms.CatForm.FinishTurn` | core/cat/experimental/form/cat_form.py:122-141 | from the exit question to the end of the turn; the answer is a submission exactly when one took place and did not raise |
| `Forms.CatForm.Next` | core/cat/experimental/form/cat_form.py:108-141 | one turn, with every point at which an oracle may fail; the answer is a submission exactly when one took place and did not raise |
| `Forms.ConfirmedSubmits` | core/cat/experimental/form/cat_form.py:113-116 | a confirmation closes the form and submits its model, once |
| `Forms.PassingTurn` | core/cat/experimental/form/cat_form.py:122-141 | a model that passes is submitted in this turn, or waits for confirmation |
| `Forms.LeavingCloses` | core/cat/experimental/form/cat_form.py:122-124 | leaving closes the form and submits nothing |
| `Forms.RefusalGoesOn` | core/cat/experimental/form/cat_form.py:117-121 | a refusal reopens or closes the form, and the turn goes on from there |
| `Forms.FailuresKeep` | core/cat/experimental/form/cat_form.py:108-153 | a failing language model leaves the form as it was |
| `Forms.ExecuteFormAgent` | core/cat/agents/form_agent.py:7-33 | drops a closed form, steps an open one, swallows failures |
| `Forms.RunKeepsInv` | core/cat/experimental/form/cat_form.py:108-153 | the invariant at the end of every turn of every run |
| `Forms.SubmitsOnceAndRightly` | core/cat/experimental/form/cat_form.py:108-153 | at most one submission, of a validated and unchanged model, confirmed after a turn that ended waiting when the form asks; complete is never a resting state |
| `Forms.ClosedHasSubmitted` | core/cat/experimental/form/cat_form.py:108-153 | a form that is closed although nobody left it has submitted, exactly once |
| `Forms.ClosedIsFinal` | core/cat/experimental/form/cat_form.py:108-141 | closed is absorbing and submits nothing more |
| `EmbedderSettings.UpsertFinds` | core/cat/db/crud.py:70-79 | an upsert is found under its name, leaves other names alone, keeps names unique |
| `EmbedderSettings.UpsertOutside` | core/cat/db/crud.py:70-79 | what an upsert into the embedder categories takes from the others |
| `EmbedderSettings.Settings.Upsert` | core/cat/db/crud.py:70-79 | append a new name, overwrite an old one |
| `EmbedderSettings.Settings.ChangeEmbedder` | core/cat/routes/embedder.py:101-179 | the reply and the table after every outcome, failed reloads included |
| `EmbedderSettings.ChangeTakes` | core/cat/routes/embedder.py:125-138 | after a change the embedder asked for is selected with the configuration given, other names as before |
| `EmbedderSettings.RollbackRestores` | core/cat/routes/embedder.py:148-169 | selected embedder and configuration are those before the request, also when the same embedder was reconfigured |
| `EmbedderSettings.RollbackTouchesOthers` | core/cat/routes/embedder.py:148-169 | other categories are untouched if and only if none of their records bears a name written |
| `EmbedderSettings.RollbackKeepsUnique` | core/cat/routes/embedder.py:148-169 | names stay unique |
| `EmbedderSettings.RollbackOfFirstChoice` | core/cat/routes/embedder.py:148-154 | with nothing selected before, nothing is selected after; other categories are untouched if and only if none of their records bears a name written; names stay unique |
| `EmbedderSettings.RollbackForgets` | core/cat/routes/embedder.py:150-151 | the configuration of every other embedder is gone |
| `ConversationHistory.HistoryIsWindow` | core/cat/looking_glass/stray_cat.py:468-552 | through any turns the history is a suffix of the conversation with at least min(20, n) messages |
| `ConversationHistory.ExactAfterUpdate` | core/cat/memory/working_memory.py:89-99 | after a turn that ends with an update it is exactly the last min(20, n) messages |
| `ConversationHistory.AppendKeepsWindow` | core/cat/memory/working_memory.py:89-99 | at any moment, right after an update it is exactly the last min(20, n) messages |
| `ConversationHistory.ShowsLatest` | core/cat/memory/working_memory.py:102-124 | what is shown of the last n messages is what was last said |
| `ConversationHistory.LastSaid` | core/cat/looking_glass/stray_cat.py:468-552 | what was said last is at the end of the history, on every exit path |
| `ConversationHistory.RenderLine` | core/cat/memory/working_memory.py:117-124 | the line of a message |
| `ConversationHistory.RenderInOrder` | core/cat/memory/working_memory.py:117-124 | messages are shown in order |
| `ConversationHistory.EndOf` | core/cat/memory/working_memory.py:89-99 | what a slice from the end takes, for positive, zero and negative counts |
| `ConversationHistory.WorkingMemory.UpdateHistory` | core/cat/memory/working_memory.py:89-99 | append and cut to the window |
| `ConversationHistory.WorkingMemory.UpdateConversationHistory` | core/cat/memory/working_memory.py:48-87 | append without cutting |
| `ConversationHistory.WorkingMemory.StringifyChatHistory` | core/cat/memory/working_memory.py:102-124 | the text of the last messages; a count of zero takes all |
| `ConversationHistory.WorkingMemory.TakeTurn` | core/cat/looking_glass/stray_cat.py:468-552 | the history after each exit path of a turn, with deprecated appends in between |
| `MetadataFilters.ConditionPerLeaf` | core/cat/memory/vector_memory_collection.py:154-174 | exactly one condition per scalar leaf, under the dotted name of its place, in order |
| `MetadataFilters.ConditionsAreLeaves` | core/cat/memory/vector_memory_collection.py:154-174 | the conditions are those the leaves ask for and no others |
| `MetadataFilters.Names` | core/cat/memory/vector_memory_collection.py:154-174 | how places are named: dots, brackets for dictionaries in lists, the prefix |
| `MetadataFilters.FilterMeaning` | core/cat/memory/vector_memory_collection.py:141-152 | passing the conjunction is meeting the nested filter, recursively and leaf by leaf |
| `MetadataFilters.BuildCondition` | core/cat/memory/vector_memory_collection.py:154-174 | the recursive loops build these conditions |

## Left out

- The language model, embedders, the vector database and langchain: arbitrary answers, failures or abstract maps here.
- FastAPI routing, (de)activation of endpoints in the app, static files, admin pages, authentication, scheduling.
- The ASIL calculator, the HARA prompt tools, the prompts and the reply texts of the workflow tools.
- `ReviewWorkflow.RunGenerate`: assumes a fresh artifact id, which the source draws from a time stamp and a random suffix; the project and the required fields are parameters, where the source also reads them from tool input, working memory and settings and writes them back.
- Time stamps are opaque non-empty texts; their order is not modelled for the store.
- Concurrent operations on the store, unreadable metadata files, and metadata written by other programs.
- `locked` is set by an approval and checked by no operation, so no claim rests on it.
- `Slugs.SlugifyWords`: lower-casing is modelled for all characters that can come out as a letter of the slug alphabet; others are left as they are, which no slug can tell.
- `SessionCache.InMemoryCache.Insert`: which of two items with the same creation time is evicted is left open.
- `SessionCache.CachesAgree`: for keys that do not start with a slash, which would name files outside the cache directory. Path texts stand for files: subdirectories named in a key are taken to exist, and keys to have no `.` or `..` parts. Values are immutable.
- `PluginRegistry.MadHatter.TogglePlugin`: plugins are values held by the registry, so a plugin object shared with other code, and what plugin code does to the Cat, are not captured.
- `PluginRegistry.MadHatter.ExecuteHook`: hooks do not change the Cat.
- `CheshireCat.Cat.TogglePlugin`: the synchronisation of the collection does not fail half-way; a callback that raises is covered for the registry alone.
- `ProceduralMemory.Collection.EmbedProcedures`: new point ids are given and assumed new; vectors and the `when` field are left out.
- Routing in the procedures agent, which starts forms and picks tools by the language model's answer.
- `EmbedderSettings.Settings.ChangeEmbedder`: rediscovering the plugins after a successful change is left out.
