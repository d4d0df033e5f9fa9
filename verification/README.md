# Verified model of the analysis core

A Dafny model of the parts of the repository where a small mistake is silent: the snapshot query cache and the
host that feeds it, the two three-valued solvers, the inversion of templated names, dependency cycles, the
property index, the parameter search, the template renderer and its call expansion, and the snippet and quote
layers. `dafny verify dfyconfig.toml` checks everything.

The source's loops over mutable variables are methods with invariants; its objects are classes; the functions
they are proved against carry the lemmas. The modules named `…Laws`, with `TextLimits` and `ExpansionMeaning`, pin
these functions in turn: each law says, for all inputs and mostly in both directions, what a function answers in
terms of the plain data, so that a wrong branch of a function that method and lemmas share has a law against it. Rules, symbol facts and the parser are functions whose laws, where any
are needed, are stated in a predicate (`Lawful`, `Valid`, `Wellformed`).

| file | what it holds |
|---|---|
| `Arena.dfy` | three-valued logic, the And/Or arena, its recursive meaning, the stack fold |
| `BlockChecking.dfy`, `OverloadExamples.dfy` | overload checking: task stack, memo, collapse, selection; two telling inputs |
| `TemplateScope.dfy` | the entry-scope machine, one charge at a time, and what truncation may conclude |
| `TemplateMeaning.dfy`, `TemplateSoundness.dfy`, `TemplateDispatch.dfy`, `TemplateSolving.dfy`, `TemplateCompleteness.dfy` | the recursive verdict of a call, what unfinished tasks owe, the task loop, and what working off a call can cost |
| `TemplateRelations.dfy` | inversion of fragments, the closed form for one unknown, joins |
| `DependencyGraph.dfy` | name resolution and the depth-first cycle search |
| `QueryCache.dfy`, `CacheLineage.dfy`, `DefinitionSets.dfy`, `SourceOwnership.dfy` | the cache, all its runs, the definition set, source ownership |
| `DocumentStaging.dfy` | staging, preparing and committing documents |
| `TemplateText.dfy`, `TemplateForms.dfy` | the one-pass renderer, and which sources its recursive meaning covers |
| `TemplateExpansion.dfy`, `TemplateArguments.dfy` | the call expansion, and where the bytes of forwarded arguments come from |
| `PropertyTree.dfy`, `Parameters.dfy` | collection, direct children, the property index; parameter references |
| `Insertion.dfy`, `QuotedScript.dfy` | snippets, quotes and their source maps |
| `BlockLaws.dfy`, `TemplateLaws.dfy`, `RelationLaws.dfy`, `CacheLaws.dfy`, `SourceLaws.dfy`, `HostLaws.dfy`, `TextLaws.dfy`, `TextLimits.dfy`, `ExpansionLaws.dfy`, `ExpansionMeaning.dfy`, `ArgumentLaws.dfy`, `PropertyLaws.dfy`, `ParameterLaws.dfy`, `LayerLaws.dfy` | what the specification functions of these parts mean, told without them |
| `Positions.dfy`, `Sorting.dfy`, `Bisection.dfy`, `Utf8.dfy`, `CharSize.dfy`, `Ascii.dfy`, `Ranges.dfy`, `Options.dfy` | shared parts |

## Model

| member | source | states |
|---|---|---|
| Arena.Fold | crates/hir/src/block_checking.rs:75-97 | on every acyclic arena, shared nodes included, the explicit-stack fold terminates with the recursive three-valued verdict of the root |
| Arena.Combined | crates/hir/src/block_checking.rs:49-74 | once all children have verdicts, the combination of one node is its recursive verdict |
| Arena.VerdictLaw | crates/hir/src/block_checking.rs:49-74 | an All node fails exactly if a child fails and holds exactly if all hold, an Any node the other way round, and all else is unknown |
| Arena.CollapseKeeps | crates/hir/src/block_checking.rs:212-216 | replacing any node by its verdict changes the verdict of no node anywhere |
| Arena.DecidedIsFinal | crates/hir/src/template_scope.rs:468-517 | learning the values of unknown leaves, and growing the arena, never flips a decided verdict |
| Arena.YoungerOnly | crates/hir/src/block_checking.rs:40-48 | in the arenas both solvers build, a verdict depends only on the values and on nodes no older than its own |
| Arena.GrowthLowers | crates/hir/src/template_scope.rs:145-153 | giving an All node more children moves no verdict closer to acceptance |
| BlockChecking.Check | crates/hir/src/block_checking.rs:183-468 | within the allowance the answer is the verdict of the memo-free recursive check, or Unknown where that is Valid; it is exactly that verdict wherever no row that waits for a block holds an unknown of its own; the coverage is reported limited if and only if some container met a limited search; an allowance as large as the memo-free cost is never exhausted, and an exhausted run never answers Valid; the cap for incomplete coverage takes effect exactly in exhausted runs |
| OverloadExamples.LimitedYetValid | crates/hir/src/block_checking.rs:458-467 | a concrete block whose first candidate meets a limited search and whose second matches: every run with an allowance of three answers Valid with the coverage limited |
| OverloadExamples.RowLosesProof | crates/hir/src/block_checking.rs:211-221 | a concrete block that is Valid, with two fields that enter one child block: the child is Valid, the row of one field is Unknown, and with that row's verdict remembered for the child the other field no longer proves the block |
| BlockChecking.FinishKeeps | crates/hir/src/block_checking.rs:212-216 | when a row is finished nothing is owed inside it: its fold is its context's verdict up to a lost proof, and both remembering it and collapsing the row keep the whole state sound |
| BlockChecking.HitKeeps | crates/hir/src/block_checking.rs:218-221 | answering an entered context from the memo keeps the whole state sound |
| BlockChecking.ContainerMeaning | crates/hir/src/block_checking.rs:222-457 | the rows, leaves and quota rejections written for a container, with what its nested tasks owe, mean the recursive verdict of that container |
| BlockChecking.GuardDegrades | crates/hir/src/block_checking.rs:461-467 | the guard for incomplete coverage caps a root that is still open and is ignored by one that was collapsed |
| BlockChecking.SelectOverloads | crates/hir/src/block_checking.rs:99-181 | Valid names the first candidate in field order that is accepted, and its memo-free verdict is Valid; the coverage is limited if and only if some candidate's check met a limited search; without exhaustion Invalid is answered exactly if every candidate is rejected, and Unknown keeps exactly the candidates not rejected, in order |
| BlockLaws.VerdictLaw | crates/hir/src/block_checking.rs:222-457 | told from the rules alone: a block is rejected exactly if a quota is breached or a property is neither deferred nor open to any field (unknown key in a closed block, wrong scope, wrong value, rejected nested block); it is proved exactly if no quota is breached and every property is proved by its key, scope, value and nested block, or has an unknown key in an open block |
| BlockLaws.UnknownKeyIsRejected | crates/hir/src/block_checking.rs:255-264 | in a closed block a complete property that names no field makes the verdict Invalid |
| BlockLaws.UnknownKeyIsIgnored | crates/hir/src/block_checking.rs:255-264 | in an open block taking such a property away changes no verdict, as long as no quota changes and the other properties are matched as before |
| BlockLaws.UnfinishedIsNotProved | crates/hir/src/block_checking.rs:237-264 | a block with a deferred key, or with a property that names no field and lacks its value or operator, is never Valid |
| BlockLaws.UnfinishedMayBeProved | crates/hir/src/block_checking.rs:255-268 | a block of one property that names a field is Valid although the property lacks its value or operator: these are asked for only where no field is named |
| BlockLaws.WrongShapeIsRejected | crates/hir/src/block_checking.rs:296-324 | a property all of whose fields want a block where it has a scalar, or the reverse, makes the block Invalid |
| BlockLaws.BreachIsRejected | crates/hir/src/block_checking.rs:377-457 | a breached quota makes the block Invalid |
| BlockLaws.CountLaw | crates/hir/src/block_checking.rs:325-375 | quotas count each property that is not deferred once, for its first field in scope whose value may fit, or not at all |
| BlockLaws.PartialLaw | crates/hir/src/block_checking.rs:228-288 | the lower quotas are suspended exactly if the block is a hole or one of its properties is deferred, unfinished, or has a field whose key is not known |
| BlockLaws.LimitLaw | crates/hir/src/block_checking.rs:270-320 | the coverage is limited exactly if matching the key or value of some field was cut short, here or in a block that a fitting field opens |
| BlockLaws.CertainLaw | crates/hir/src/block_checking.rs:211-221 | the condition under which the memo loses no proof, told from the rules: every field that has a block checked is known by its key and known to be in scope, here and below |
| BlockLaws.OverloadLaw | crates/hir/src/block_checking.rs:119-150 | an overload is judged by the verdict of the whole block under its child schema, in the scope after its transition |
| BlockLaws.TakingLaw | crates/hir/src/block_checking.rs:119-123 | exactly the fields with a child schema take part, in their order |
| BlockLaws.UndecidedLaw | crates/hir/src/block_checking.rs:157-164 | the fields kept as possible are those of the unknown answers, in order |
| TemplateScope.NextLowers | crates/hir/src/template_scope.rs:172-454 | at every charge the state stays well formed and no verdict moves closer to acceptance |
| TemplateScope.DrainLowers | crates/hir/src/template_scope.rs:172-454 | so over every run: Invalid, once reached, stays |
| TemplateScope.TruncationSound | crates/hir/src/template_scope.rs:172-466 | an Invalid answer of a budget-stopped run is the answer of every run with a larger budget, and a run that did not spend its budget is the run of every larger budget; a run with any limit recorded does not answer Valid |
| TemplateMeaning.CallMeansOnce | crates/hir/src/template_scope.rs:155-466 | the recursive verdict of a call, read without arena, memo, recursion cut or budget, is unique |
| TemplateMeaning.CallGrows | crates/hir/src/template_scope.rs:155-466 | and does not depend on how much fuel the recursion is given |
| TemplateLaws.CallLaw | crates/hir/src/template_scope.rs:225-246 | a call of a template that is not there is Unknown, any other has the verdict of its first block |
| TemplateLaws.GuardLaw | crates/hir/src/template_scope.rs:279-293 | with known arguments a guard has its block checked exactly if its name, in lower case, is present and it is not negated, or absent and it is; any other guard is passed over |
| TemplateLaws.OpenGuardLaw | crates/hir/src/template_scope.rs:294-308 | without, every guard is passed over, and leaves the rest uncertain exactly if the template holds a bare token or recovered text |
| TemplateLaws.RecoverLaw | crates/hir/src/template_scope.rs:264-268 | recovered text is Unknown and leaves the rest uncertain |
| TemplateLaws.ConsumeLaw | crates/hir/src/template_scope.rs:269-278 | a bare token is Unknown exactly if its text is, and leaves the rest uncertain where the schema has no items |
| TemplateLaws.UncertainLaw | crates/hir/src/template_scope.rs:310-322 | a property in an uncertain rest, or with an unknown key, is Unknown |
| TemplateLaws.DispatchLaw | crates/hir/src/template_scope.rs:323-339 | any other property has the best verdict of the fields it may name, and none counts for nothing |
| TemplateLaws.FieldLaw | crates/hir/src/template_scope.rs:340-447 | a field is Invalid out of its scope or link; otherwise it is capped by an unknown scope and by the verdict of the template it calls, with exactly the arguments it is given, or of the block it opens |
| TemplateLaws.ArgumentsLaw | crates/hir/src/template_scope.rs:364-414 | uncut argument collection gives exactly the names of the properties in the call block and in the blocks of the guards taken, and each name the last text it is given there |
| TemplateLaws.GivenIsCollected | crates/hir/src/template_scope.rs:364-414 | and what a call is given so is collected under some allowance |
| TemplateLaws.ReportLaw | crates/hir/src/template_scope.rs:263-322 | one instruction adds to the reported conditions exactly the name of a guard it cannot decide, sets the dynamic flag exactly for a token it reads without text, and records recovered text as a limit |
| TemplateSoundness.LeaveSettles | crates/hir/src/template_scope.rs:180-203 | when a call is left, the fold of its body is its recursive verdict, and collapsing the body leaves every other verdict to come as it was |
| TemplateSoundness.StepSettles | crates/hir/src/template_scope.rs:204-454 | working off the top task keeps, for every call still open, that its body will have the call's verdict if all tasks above it have one |
| TemplateDispatch.FieldsPay | crates/hir/src/template_scope.rs:310-451 | the alternatives a dispatch writes, with the calls and blocks it leaves, mean the verdicts of its fields |
| TemplateSolving.LeaveKeepsSound | crates/hir/src/template_scope.rs:180-203 | every entry published to the shared memo is the recursive verdict of its call |
| TemplateSolving.CallSound | crates/hir/src/template_scope.rs:204-247 | a call answered from the run's memo, from a right shared memo, as missing, or by a new body keeps the state sound |
| TemplateSolving.RunMeans | crates/hir/src/template_scope.rs:172-466 | unless a run gave up for budget or recursion, its arena folds to the recursive verdict of the root call; a shared memo that was right stays right in every run |
| TemplateSolving.Solve | crates/hir/src/template_scope.rs:155-466 | the task loop is that run: with nothing recorded it answers exactly the recursive verdict, with only missing or recovered templates recorded that verdict capped at Unknown |
| TemplateCompleteness.SolverIsExact | crates/hir/src/template_scope.rs:155-466 | a call has a given recursive verdict if and only if some allowance lets a complete run fold to it: the solver decides exactly the well-founded calls, memo, recursion cut and budget notwithstanding |
| TemplateCompleteness.VerdictIsReached | crates/hir/src/template_scope.rs:169-235 | from some allowance on every run of such a call ends without giving anything up for the budget or for recursion |
| TemplateCompleteness.RejectionIsRight | crates/hir/src/template_scope.rs:172-466 | an Invalid answer of any run, however early its budget ended it, is the recursive verdict of the call, if it has one |
| TemplateSolving.CollectArguments | crates/hir/src/template_scope.rs:364-414 | the argument loop computes the recursive collection, cut where the allowance ends |
| TemplateRelations.Inverse | crates/hir/src/template_relations.rs:39-147 | every row is an exact witness: it spells the value up to ASCII case and binds each name to the slice at its first use; with no limit recorded every exact witness is a row |
| TemplateRelations.Search | crates/hir/src/template_relations.rs:99-146 | the worklist search terminates, with the same exactness for any fragments |
| TemplateRelations.InverseOne | crates/hir/src/template_relations.rs:52-98 | dividing the left-over bytes by the occurrences finds the at most one exact witness for a single unknown |
| TemplateRelations.SearchIsExact | crates/hir/src/template_relations.rs:99-146 | the leaves of the search tree are exactly the exact witnesses |
| TemplateRelations.OneUnknownIsUnique | crates/hir/src/template_relations.rs:52-98 | with one distinct name a value has at most one exact witness |
| RelationLaws.ExactLaw | crates/hir/src/template_relations.rs:37-147 | a witness is exact if and only if it binds exactly the names and the value can be cut into one slice for each fragment: a literal up to ASCII case, a parameter as bound up to case, and its binding itself where the name comes first |
| TemplateRelations.SearchBudget.Step | crates/hir/src/template_relations.rs:10-35 | a step is granted while allowance is left and costs one; a refusal is recorded for good |
| TemplateRelations.Join | crates/hir/src/template_relations.rs:150-173 | every joined row merges two agreeing rows; with no limit recorded every agreeing pair is merged |
| TemplateRelations.InvertSites | crates/ide/src/ir_template.rs:733-790 | folding joins over the inversions of all candidate values of several sites: in every run each row merges one kept witness of each site processed so far, fills each of them up to ASCII case and is accepted by every site; with no limit recorded the rows are exactly the accepted merges of one agreeing witness from each constraining site |
| RelationLaws.AgreeLaw | crates/hir/src/template_relations.rs:163-166 | rows agree exactly if they bind every shared name alike up to ASCII case |
| RelationLaws.MergedLaw | crates/hir/src/template_relations.rs:167-169 | a merged family binds the names of its members, each as its last member that binds it |
| RelationLaws.TypedLaw | crates/ide/src/ir_template.rs:754-763 | a witness is kept exactly if it leaves the parameter free or the typed text stands in its binding, up to ASCII case |
| RelationLaws.ConstrainingLaw | crates/ide/src/ir_template.rs:743-772 | the sites that constrain are those with a value, in order |
| DependencyGraph.Search | crates/engine/src/structure.rs:42-84 | the explicit-stack search terminates; each report is a simple cycle of real edges, one for each back edge met, every closed walk takes one of these edges, and the reports are those of the recursive depth-first search, in its order |
| DependencyGraph.Cycles | crates/engine/src/structure.rs:12-84 | over declarations with any names: nothing is reported exactly if no name reaches itself, each report is a cycle of declared dependencies, and the reports are those of the recursive search over the names in the order of their declarations |
| DependencyGraph.Assemble | crates/engine/src/structure.rs:12-33 | names are numbered in the order of their first declarations, and the edges of a node are the resolved dependencies of its last declaration, in order |
| DependencyGraph.FirstNamesLaw | crates/engine/src/structure.rs:16-23 | names are numbered in the order of their first declarations |
| DependencyGraph.LastDependenciesLaw | crates/engine/src/structure.rs:24-30 | the dependencies of a name are those of its last declaration |
| DependencyGraph.ResolveLaw | crates/engine/src/structure.rs:26-29 | the edges of a node are its resolved dependencies in their order |
| QueryCache.SnapshotQueryCache.Get | crates/engine/src/query_cache.rs:177-229 | the probes in their order answer what the lookup function answers |
| QueryCache.SnapshotQueryCache.Insert | crates/engine/src/query_cache.rs:240-319 | late inserts change nothing, others leave exactly the specified state |
| QueryCache.SnapshotQueryCache.AdvanceTo | crates/engine/src/query_cache.rs:322-349 | clears the domains of all three lineages whose watermark moves |
| QueryCache.SnapshotQueryCache.AdvanceDocuments | crates/engine/src/query_cache.rs:356-367 | clears the document lineage only |
| QueryCache.SnapshotQueryCache.AdvanceDefinitions | crates/engine/src/query_cache.rs:375-384 | clears the definition lineage only |
| QueryCache.SnapshotQueryCache.IsSuperseded | crates/engine/src/query_cache.rs:392-407 | says exactly which inserts would be dropped |
| QueryCache.InsertLands | crates/engine/src/query_cache.rs:240-319 | an insert is dropped exactly if its domain is superseded, otherwise its key is there afterwards; no other key is added or changed |
| QueryCache.InsertKeepsBounds | crates/engine/src/query_cache.rs:297-308 | no domain ever holds more than its bound |
| QueryCache.LookupAtHome | crates/engine/src/query_cache.rs:177-229 | if each key is kept to one domain, a lookup answers by that domain's rule alone |
| CacheLaws.SupersededLaw | crates/engine/src/query_cache.rs:392-407 | which of the three watermarks makes an insert late, domain by domain |
| CacheLaws.LookupLaw | crates/engine/src/query_cache.rs:177-229 | for any contents a lookup answers with the first domain in the order of the probes that holds the key and may answer the revision: document data at its own revision only, index and definition data from their watermark on |
| CacheLaws.InsertHereLaw | crates/engine/src/query_cache.rs:297-319 | an admitted new key joins its domain, or replaces a full one, with room for 32 frontends, one entry in the single-slot domains and the capacity elsewhere; a known key keeps its value except in the two memos |
| CacheLaws.InsertElsewhereLaw | crates/engine/src/query_cache.rs:240-296 | every other domain keeps its entries, except that a document insert beyond the watermark drops the document domains |
| CacheLaws.InsertMarksLaw | crates/engine/src/query_cache.rs:240-296 | which watermark an admitted insert sets or raises |
| CacheLaws.InsertedIsFound | crates/engine/src/query_cache.rs:177-319 | a value stored under a new key is read back at its revision unless it came late, or is an ownership view behind the index watermark |
| CacheLaws.AdvanceLaw | crates/engine/src/query_cache.rs:322-349 | what each domain holds after a workspace revision |
| CacheLaws.AdvanceDocumentsLaw | crates/engine/src/query_cache.rs:356-367 | after a document revision |
| CacheLaws.AdvanceDefinitionsLaw | crates/engine/src/query_cache.rs:375-384 | and after a definition revision |
| CacheLineage.CacheIsCoherent | crates/engine/src/query_cache.rs:177-384 | in every run of one host with late workers, a lookup at any published revision answers what a fresh computation on exactly that revision's inputs answers; for definition queries as long as no document operation changed the definition set silently |
| CacheLineage.OwnershipMemoIsTransparent | crates/engine/src/source_resolution.rs:20-48 | every resolver that finishes, by recomputing or by either memo level, has the resolution of its own snapshot |
| CacheLineage.OverlaysLaw | crates/engine/src/source_resolution.rs:25-35 | a resolution reads the open overlays, with their paths, in document order |
| CacheLineage.DeclaringIsExact | crates/engine/src/host.rs:1490-1757 | for every document operation: definition queries are answered right afterwards, in all reachable states and for all queries, if and only if the operation is faithful |
| CacheLineage.StagingIsServedStale | crates/engine/src/host.rs:1537-1563 | a failing input: over a host that scanned one declaring file, staging an overlay is enabled in a reachable state, and a definition query is answered wrong afterwards |
| DefinitionSets.StagingHides | crates/engine/src/host.rs:1537-1563 | staging an overlay over a declaring file stops serving its definition and declares nothing |
| DefinitionSets.OpeningHides | crates/engine/src/host.rs:1490-1531 | so does opening a text that declares nothing |
| DefinitionSets.ClosingReveals | crates/engine/src/host.rs:1706-1757 | closing an overlay over a file that now reads as nothing serves the scanned definition again and declares nothing |
| DefinitionSets.CommittingDrops | crates/engine/src/host.rs:1603-1634 | committing a parse without definitions over one with a definition drops it and declares nothing |
| DefinitionSets.FaithfulIsExact | crates/engine/src/host.rs:1490-1808 | an operation is faithful, a test on the state before it, if and only if it declares itself or keeps the set of served definitions |
| DefinitionSets.DeclaresLaw | crates/engine/src/host.rs:1490-1788 | each operation declares itself exactly if the parse it replaces (change, close, staged text) or the one it leaves (open, commit, change, close, disk) declares something; staging an open never does |
| SourceOwnership.PreferenceIsOrder | crates/engine/src/source_resolution.rs:222-233 | the preference among documents is a strict total order |
| SourceOwnership.OwnershipDecides | crates/engine/src/source_resolution.rs:54-76 | each path's owner is its most preferred overlay, and every other overlay on the path is suppressed |
| SourceOwnership.OwnershipIsOrderFree | crates/engine/src/source_resolution.rs:54-76 | any two orders of the same overlays decide alike |
| SourceLaws.PrefersLaw | crates/engine/src/source_resolution.rs:222-233 | a document of decoded text wins over any other, and among its like the greater identifier |
| SourceLaws.OwnerLaw | crates/engine/src/source_resolution.rs:54-76 | a document owns a path exactly if it is an overlay on it that wins over all others on it |
| SourceLaws.SuppressedLaw | crates/engine/src/source_resolution.rs:54-76 | the suppressed documents are exactly the overlays with a path that they do not own |
| SourceOwnership.ResolutionIsExclusive | crates/engine/src/source_resolution.rs:77-187 | hidden files are never active; of the visible candidates of a logical path all are active if the winner merges, otherwise exactly the winner; no candidate is lost or altered; suppressed documents and owned files are never effective |
| SourceLaws.EffectiveFilesLaw | crates/engine/src/source_resolution.rs:77-187 | a file is effective exactly if it stands at its logical path, hidden by no overlay, as the head there, or the head merges: the head has the highest priority, and among equals comes first, files before documents |
| SourceLaws.EffectiveDocumentsLaw | crates/engine/src/source_resolution.rs:77-187 | a document is effective exactly if it is an overlay without a path, owns a path below no root, or owns one where it is such a contender |
| SourceLaws.ListedLaw | crates/engine/src/source_resolution.rs:77-187 | a logical path has candidates exactly if a file or an owned path stands there, one for each |
| SourceLaws.ListOrderLaw | crates/engine/src/source_resolution.rs:166-176 | listed active first, then by falling priority, then documents before files |
| SourceOwnership.SourceResolution | crates/engine/src/source_resolution.rs:49-187 | the loops compute the specified resolution |
| DocumentStaging.ParsesStayCurrent | crates/engine/src/host.rs:1490-1757 | in every run with stale candidates, a stored parse is the parse of the document's current text |
| DocumentStaging.NoUpdateIsLost | crates/engine/src/host.rs:1565-1757 | while a document stays open its version only rises, and it keeps its text as long as it keeps its version |
| DocumentStaging.CommitTouchesParsesOnly | crates/engine/src/host.rs:1603-1634 | a stale commit changes nothing; a current one changes no source, version, text or path |
| DocumentStaging.CommitAcceptsExactlyTheCurrent | crates/engine/src/host.rs:1603-1634 | a candidate is accepted exactly if no newer version arrived since it was prepared |
| DocumentStaging.AnalysisHost.OpenDocument | crates/engine/src/host.rs:1490-1531 | refuses an open overlay, otherwise leaves exactly the opened document, re-lowered where it contributes facts |
| DocumentStaging.AnalysisHost.StageOpenDocument | crates/engine/src/host.rs:1537-1563 | leaves the unparsed text and re-lowers the others |
| DocumentStaging.AnalysisHost.StageDocumentText | crates/engine/src/host.rs:1565-1601 | refuses unknown documents and versions that are not newer, otherwise leaves the unparsed text |
| DocumentStaging.AnalysisHost.CommitPreparedDocument | crates/engine/src/host.rs:1603-1634 | commits exactly a candidate of the current version, text and path |
| DocumentStaging.AnalysisHost.ApplyDocumentChanges | crates/engine/src/host.rs:1637-1702 | applies all changes in order or none |
| DocumentStaging.AnalysisHost.CloseDocument | crates/engine/src/host.rs:1704-1757 | removes the overlay and restores the readable file |
| HostLaws.OpenLaw | crates/engine/src/host.rs:1490-1531 | what opening leaves: the overlay with its version, text, path and parse, all others untouched up to re-lowering |
| HostLaws.StageOpenLaw | crates/engine/src/host.rs:1537-1563 | what staging an open leaves |
| HostLaws.StageTextLaw | crates/engine/src/host.rs:1565-1601 | what staging a text leaves, and exactly when it is refused |
| HostLaws.PrepareLaw | crates/engine/src/snapshot.rs:190-206 | a worker prepares exactly an open overlay, with the parse of its own text |
| HostLaws.CommitLaw | crates/engine/src/host.rs:1603-1634 | a prepared document is taken exactly if the overlay has its version, text and path, and then stands as prepared |
| HostLaws.EditsLaw | crates/engine/src/host.rs:1637-1702 | changes apply in order, each taking out the bytes between two character boundaries and putting its text there, or replacing all |
| HostLaws.ChangeLaw | crates/engine/src/host.rs:1637-1702 | what changing leaves, and exactly when it is refused |
| HostLaws.CloseLaw | crates/engine/src/host.rs:1704-1757 | closing leaves the readable file as a parsed disk document, and nothing otherwise |
| HostLaws.OpenDiskLaw | crates/engine/src/host.rs:1759-1788 | looking at a file adds it exactly if the document is unknown and the file reads |
| TemplateText.RenderingMeansEvaluation | crates/hir/src/template_text.rs:178-392 | for every tree of text, parameters, guards, quotes and comments, and any comment or quote the body leaves open: within reach and limits the one-pass output is the recursive evaluation, otherwise a limit is recorded and the output is a prefix of it |
| TextLaws.RenderedTextLaw | crates/hir/src/template_text.rs:189-392 | the text of a rendering without limits, form by form: characters, quotes and comments as they stand, the bodies of guards whose name is present or, negated, absent, and for each use of a bound name, up to ASCII case, the raw argument without its quotes inside a quotation, the raw argument at a raw scalar position, and the bound value elsewhere; a hole for an unbound one |
| TextLaws.QuotedUseLaw | crates/hir/src/template_text.rs:283-288 | inside a quotation a quoted raw argument is written without its quotes |
| TextLaws.UseLaw | crates/hir/src/template_text.rs:258-310 | the range, the dependencies, the name and the hole mark of a use |
| TextLaws.PiecesLaw | crates/hir/src/template_text.rs:336-380 | the pieces are the written atoms, joined exactly where plain text continues under the same guards; each has the byte range, the definition range, the dependencies, the hole, script and uncertainty marks of its atoms |
| TextLaws.ReasonsLaw | crates/hir/src/template_text.rs:275-302 | a missing binding is recorded exactly if some used name is not bound, and an interpretation exactly if some bound value holds a dollar sign, under guards that hold or not |
| TextLimits.PrintLaw | crates/hir/src/template_text.rs:189-345 | the concrete syntax of the trees |
| TextLimits.LimitsLaw | crates/hir/src/template_text.rs:189-392 | no limit is recorded exactly if every parameter and guard header closes in reach, there are at most a million iterations, and the text fits the byte limit |
| TextLimits.FindLaw | crates/hir/src/template_text.rs:226-238 | a search in reach finds the first occurrence with fewer bytes before it than the limit, and nothing exactly if there is none |
| TextLimits.StepsLaw | crates/hir/src/template_text.rs:217-224 | the iteration after the millionth stops with the node limit |
| TextLimits.UnclosedLaw | crates/hir/src/template_text.rs:226-270 | a header or parameter that does not close in reach stops as a structural limit |
| TextLimits.WriteLaw | crates/hir/src/template_text.rs:258-380 | any other text is written exactly if all guards hold, and stops at the byte limit exactly if it does not fit |
| TextLimits.EndingLaw | crates/hir/src/template_text.rs:382-392 | a guard still open at the end is a structural limit, and there is a frontier exactly if there is a limit |
| TextLimits.BodyLaw | crates/hir/src/template_text.rs:189-209 | a leading and a trailing brace are dropped, each where it stands |
| TextLimits.PlaceLaw | crates/hir/src/template_text.rs:341-347 | definition positions count the bytes before a character |
| TemplateForms.ReadSourceIsBody | crates/hir/src/template_text.rs:189-392 | every source that the scanner reads to its end with no guard open is the print of a well-formed tree and tail |
| TemplateForms.EveryReadingIsEvaluation | crates/hir/src/template_text.rs:189-392 | so for every such source the output is exactly the recursive evaluation of a tree that prints it |
| TemplateText.ActiveIsConjunction | crates/hir/src/template_text.rs:189-392 | over any source and after any number of iterations, the scanner is active exactly if every open guard holds, and every open guard remembers whether those around it do |
| TemplateText.RenderingTiles | crates/hir/src/template_text.rs:178-392 | over any source the pieces tile the bytes of the output, with disjoint ordered byte ranges of the definition that read what the pieces show |
| TemplateText.Render | crates/hir/src/template_text.rs:178-392 | the loop that writes text and pieces renders as specified |
| TemplateExpansion.StackRefinesRecursion | crates/hir/src/template_text.rs:662-1136 | the task stack writes exactly the recursive in-order expansion, and finishes if and only if the recursion meets no limit and all slices fit |
| ExpansionMeaning.FinishLaw | crates/hir/src/template_text.rs:603-1143 | an expansion finishes if and only if the call unfolds, no call being its own caller and every frame parsed, with at most 100000 calls, frames of at most sixteen times the byte limit together, and a text within it; it has then written the unfolded text, slices and limits |
| ExpansionMeaning.StopLaw | crates/hir/src/template_text.rs:689-859 | which of the four reasons stops an entered call, which limit is recorded for each, and that a frontier is left |
| TemplateExpansion.VisitingIsTheChain | crates/hir/src/template_text.rs:662-704 | in every state the visited identities are the current call chain, and a call is refused as recursive exactly if it is on that chain |
| TemplateExpansion.ExpansionSpells | crates/hir/src/template_text.rs:1114-1136 | a finished expansion spells the text around each call and the expansion of the call, in order |
| TemplateExpansion.ExpansionMapsRight | crates/hir/src/template_text.rs:491-550 | if every frame that can be entered maps its bytes right so does the whole output, wherever the expansion stops |
| TemplateArguments.OutputComesFromRoots | crates/hir/src/template_text.rs:790-1095 | for bindings inserted verbatim and arguments written at clean ranges, however deep they are forwarded: every mapped byte of the output is the byte of a root argument at its offset |
| TemplateArguments.ProjectArgument | crates/hir/src/template_text.rs:1025-1095 | the projection loop maps an argument exactly when each of its boundaries lies at a mapped piece of one root argument |
| ArgumentLaws.PointLaw | crates/hir/src/template_text.rs:1055-1070 | a boundary has the root of the first piece that maps it, and none exactly if no piece does |
| ArgumentLaws.ProjectedLaw | crates/hir/src/template_text.rs:1048-1095 | an argument has a map exactly if all its boundaries have roots in one parameter, and the map lists them |
| ArgumentLaws.AttachedLaw | crates/hir/src/template_text.rs:791-837 | a piece is mapped exactly if it inserts a mapped binding byte for byte and the map covers it |
| TemplateArguments.RepeatedUseSlips | crates/hir/src/template_text.rs:1025-1095 | a parameter used twice in a row projects an argument whose map is wrong behind the first use, although every piece maps right |
| TemplateExpansion.AppendSlice | crates/hir/src/template_text.rs:491-550 | clips and shifts pieces, ranges and frontiers as specified, or leaves the target alone when the slice does not fit |
| ExpansionLaws.SliceLaw | crates/hir/src/template_text.rs:491-550 | a slice that fits appends its text and limits |
| ExpansionLaws.NoSliceLaw | crates/hir/src/template_text.rs:491-550 | one that does not leaves a limit and a frontier |
| ExpansionLaws.MarksLaw | crates/hir/src/template_text.rs:491-550 | byte by byte: old bytes keep their dependencies and roots, new ones have those of the frame with the influence of the caller added |
| ExpansionLaws.EmptyLaw | crates/hir/src/template_text.rs:491-550 | empty pieces move with the text, and an empty slice of a piece is one |
| ExpansionLaws.UnresolvedLaw | crates/hir/src/template_text.rs:491-550 | unresolved bytes move with their text |
| ExpansionLaws.FrontierLaw | crates/hir/src/template_text.rs:491-550 | frontiers move with the slice, both of its ends included |
| TemplateExpansion.CallsAreDisjoint | crates/hir/src/template_text.rs:923-1116 | the call sites selected from a nested property list are disjoint and in source order |
| ExpansionLaws.SelectionLaw | crates/hir/src/template_text.rs:923-1115 | for any property list: a recognised call is a site exactly if no earlier recognised property encloses it, once, with its own range and callee |
| ExpansionLaws.SitesLaw | crates/hir/src/template_text.rs:923-1116 | and the sites of a parsed frame stand in source order |
| ExpansionLaws.MissingLaw | crates/hir/src/template_text.rs:972-986 | a frame is incomplete exactly if such a property has no callee, and its value is then unresolved |
| TemplateExpansion.SoundFramesCut | crates/hir/src/template_text.rs:491-550 | every slice taken from a sound frame ends at character boundaries |
| TemplateExpansion.RenderExpanded | crates/hir/src/template_text.rs:603-1143 | the loop over the stack is that expansion |
| PropertyTree.FactCollector.CollectNode | crates/hir/src/collector.rs:39-156 | appends the pre-order properties of a subtree and nothing else |
| PropertyTree.CollectedIsHeld | crates/hir/src/collector.rs:108-154 | a later property lies behind an earlier one or inside its value; each has its parent in the list or hangs at the top |
| PropertyLaws.CollectLaw | crates/hir/src/collector.rs:39-156 | told by places in the tree: there is one property for each node with a readable key, with its own key, ranges and value range, the keys on the way to it as its path, top-level exactly if only documents are above it; in pre-order and nothing else |
| PropertyTree.PropertyChildren | crates/hir/src/scope.rs:3-23 | the stack of ancestors finds exactly the direct children of every property, in source order |
| PropertyTree.BuildIndex | crates/hir/src/query.rs:20-52 | the index holds every parent, child list, root and container |
| PropertyTree.FindForProperty | crates/hir/src/query.rs:54-71 | the binary search by key selects the siblings that scanning the whole list selects |
| PropertyTree.IndexAgreesOnTrees | crates/hir/src/query.rs:54-129 | on every well-formed tree the key search is a binary search, and the index agrees with the scans for every property and every container, repeated paths included |
| PropertyLaws.RootsLaw | crates/hir/src/query.rs:20-52 | the roots are the top-level properties, in order |
| PropertyLaws.ContainerLaw | crates/hir/src/query.rs:114-129 | a scan of any range selects the properties in it with the shortest paths, in order |
| PropertyLaws.ParentLaw | crates/hir/src/query.rs:90-108 | the scan for a parent finds the first of the shortest properties that are one path segment above and around |
| PropertyLaws.SiblingsLaw | crates/hir/src/query.rs:90-108 | the siblings are what the value of the parent holds, or the parent where it has none, or the roots |
| Bisection.PartitionPoint | crates/hir/src/model.rs:569-576 | halving finds the end of the passed-over prefix of every partitioned sequence |
| Parameters.LowerParameters | crates/hir/src/parameters.rs:12-124 | the loops lower references and inferred definitions as specified, in order for a single delimiter, however often it is repeated |
| Parameters.EachUseIsDefinedOnce | crates/hir/src/parameters.rs:168-190 | in every file each reference has exactly one inferred definition of its owner, delimiter and name up to ASCII case; each definition comes from a reference, none is repeated, and they are in source order |
| Parameters.DelimitedInOrder | crates/hir/src/parameters.rs:192-223 | the scan between delimiters yields disjoint non-empty names in order, each between two delimiters with none inside |
| ParameterLaws.NamesLaw | crates/hir/src/parameters.rs:192-223 | the scan finds exactly the non-empty names between a delimiter with an even number of delimiters before it and the next delimiter |
| ParameterLaws.OwnerLaw | crates/hir/src/parameters.rs:127-144 | an occurrence is owned by the shortest definition around it, the first of equals, or without definitions by the first top-level property around it |
| ParameterLaws.LoweredLaw | crates/hir/src/parameters.rs:43-124 | exactly which references a file has: one for each delimited name of a bare or quoted token, outside all condition heads and inside an owner, and one for each condition head inside an owner, each with its ranges and kind |
| ParameterLaws.LoweredOrderLaw | crates/hir/src/parameters.rs:122-124 | they are sorted by their starts |
| ParameterLaws.DefinitionsLaw | crates/hir/src/parameters.rs:168-190 | the inferred definitions are exactly the first uses of each owner, delimiter and name up to ASCII case |
| Parameters.FindReference | crates/hir/src/model.rs:569-576 | the binary search answers the one reference that contains the position, if there is one |
| Parameters.FindForOwner | crates/hir/src/model.rs:578-590 | searching by range alone misses no reference of the owner |
| ParameterLaws.ReferenceAtLaw | crates/hir/src/model.rs:569-576 | for any list the search by position answers the first reference that does not end by it, exactly if that one contains it |
| ParameterLaws.OwnedLaw | crates/hir/src/model.rs:578-590 | in an ordered list the search by owner answers the references of the owner, each once and in order |
| Parameters.LoweredSearchIsExact | crates/hir/src/parameters.rs:43-124 | the search is exact on every file and at every position if and only if all delimiters of the profile are the same |
| Insertion.LiteralInsertsItself | crates/ide/src/insertion.rs:3-11 | a snippet of escaped text inserts exactly that text |
| LayerLaws.LiteralLaw | crates/ide/src/insertion.rs:3-11 | exactly backslashes and dollar signs are escaped |
| LayerLaws.EscapeLaw | crates/ide/src/insertion.rs:13-47 | an escaped backslash, dollar sign or closing brace inserts that character |
| LayerLaws.TabStopLaw | crates/ide/src/insertion.rs:13-47 | a dollar sign with all digits behind it inserts nothing, and stays under a quote layer |
| LayerLaws.CharacterLaw | crates/ide/src/insertion.rs:13-47 | every other character inserts itself |
| Insertion.QuotingCommutes | crates/ide/src/insertion.rs:13-58 | quoting any snippet and inserting it is inserting it and encoding the result |
| Insertion.LayersCommute | crates/ide/src/insertion.rs:53-58 | so for any number of quote layers |
| Insertion.QuotedInsertion | crates/ide/src/insertion.rs:53-58 | the buffered loops compute the specified layer |
| QuotedScript.QuotedRoundTrip | fuzz/fuzz_targets/quoted_script.rs:6-26 | for every text: its quoted encoding decodes to it, every decoded boundary maps into the token, the map rises, and mapping back returns the boundary |
| QuotedScript.DecodePayload | crates/parser/src/quoted_script.rs:173-224 | decodes and maps as specified, refusing what the source refuses |
| QuotedScript.EncodeText | crates/parser/src/quoted_script.rs:105-115 | encodes character by character |
| LayerLaws.EncodeLaw | crates/parser/src/quoted_script.rs:105-115 | exactly quotes and backslashes are escaped |
| LayerLaws.EscapeDecodes | crates/parser/src/quoted_script.rs:173-224 | an escaped quote or backslash decodes to itself, and before any other character the backslash stays |
| LayerLaws.LoneLaw | crates/parser/src/quoted_script.rs:173-224 | decoding fails exactly if the payload ends with an odd number of backslashes |
| LayerLaws.ClosedLaw | crates/parser/src/quoted_script.rs:117-125 | a token is closed exactly if it ends with a quote behind an even number of backslashes |
| LayerLaws.ReachedLaw | crates/parser/src/quoted_script.rs:60-75 | an offset of the token maps to the last decoded boundary at or before it |

## Findings

- **Two delimiters.** `parameter_reference_at` relies on references being disjoint. They are if and only if all the
  delimiters that match a file are the same (`Parameters.LoweredSearchIsExact`). With two different delimiters `a`
  and `b`, the token `axbxaxb` holds two crossing names that both contain byte 3, so no answer can be the one
  reference there (`Parameters.TwoDelimitersCross`). Naming one delimiter twice only repeats references.
- **Silent definition changes.** `stage_open_document` hides the definitions of a scanned file and never moves the
  definitions watermark; `open_document` looks only at what the new text declares; `close_document` looks at the
  overlay and the file as it reads now, not at the scanned shard that is served again; `commit_prepared_document`
  does not look at a parse it replaces. A cached definition query then stays stale. `DefinitionSets.Faithful` is the
  exact condition under which it does not, and `CacheLineage.SilentIsStale` gives, for every operation outside it,
  a run and a query answered wrong. `DefinitionSets.StagingHides`, `OpeningHides`, `ClosingReveals` and
  `CommittingDrops` are such operations, and `CacheLineage.StagingIsServedStale` is the run for the first.
- **An idle guard.** The Unknown that `check` appends to node 0 for incomplete coverage takes effect in exhausted
  runs only: in all others the root is a value by then and takes no child (`BlockChecking.GuardDegrades`). So a
  limited pattern search alone does not keep `check` from answering Valid, unlike `solve`
  (`TemplateScope.TruncationSound`). `OverloadExamples.LimitedYetValid` is a block that is accepted so.
- **A remembered row.** `check` remembers for a context the fold of the whole row that entered it, leaves included. A
  row that is Unknown on its own leaf can thus hide the proof of a block that another field enters too
  (`OverloadExamples.RowLosesProof`). Where no row that waits for a block has an unknown leaf, the answer is exact
  (`BlockChecking.Check`); a rejection always is.
- **A repeated parameter.** Where two uses of a parameter meet, the boundary between them belongs to both pieces and
  is read from the first, so the byte behind it is mapped to the end of the argument instead of its start
  (`TemplateArguments.RepeatedUseSlips`).

## Left out

- BlockChecking.Check: claims the recursive verdict for runs within the allowance only, since the break inside a container leaves its counts incomplete before the quota checks (block_checking.rs:231-234); the condition for an exact answer is sufficient, not necessary, because which row is remembered depends on the order of the stack.
- BlockLaws.BreachIsRejected: how forms and field families turn the counted fields into breached quotas (block_checking.rs:377-457) is a function of what is counted, given by the rules.
- BlockChecking.SelectOverloads: the residual reasons attached to the answer are not modelled.
- TemplateSolving.Solve: residual reasons, cancellation and the byte sizes given to the shared memo are not modelled; of the conditions and the dynamic flag each instruction's share is claimed, not their union over a run.
- TemplateRelations.InvertSites: the candidate values of a site and what it accepts are given; relations are sequences without duplicates, not sorted sets.
- TemplateText.RenderingMeansEvaluation: a body that ends inside an open guard has no tree, and only the guard, tiling and limit lemmas speak of it; every other source that is read to its end has one.
- TemplateArguments.OutputComesFromRoots: covers verbatim insertions and unquoted arguments written where no two mapped pieces meet; raw or unquoted insertions and the offsets of quote layers are not modelled.
- TemplateExpansion.StackRefinesRecursion: frames and their cached keys are given by a function of the call.
- CacheLineage.DeclaringIsExact: re-lowering is taken to keep what the other overlays declare.
- CacheLineage.CacheIsCoherent: one host lineage; hosts cloned and then mutated share the cache outside this model.
- Entries of `SearchLocalisationReuse` are validated by their callers and carry no claim; each locked method is one atomic step, and revisions do not saturate.
- Parameters.LowerParameters: which delimiters the profile's rules give for a path is the caller's list.
- DocumentStaging.AnalysisHost.OpenDocument: rules, index and previews are behind the lowering function; reading a file is a parameter.
- The parser, rule compilation, indexing, diagnostics, hover text, disk scanning and search corpora.
