# ThreatGenix core: a verified model

ThreatGenix turns architecture evidence into a reviewable threat model. This project models the parts of its
backend whose correctness spans several requests, and proves what they keep:

- **The diagram editor.** Nodes, flows and nested trust boundaries with redundant links
  (`node.trust_boundary_id` against `boundary.node_ids`), edited one request at a time, replaced by a bulk save,
  or seeded by decomposing a node. The same requests exist twice: on the stored graph document of a custom view
  and on the root diagram's tables.
- **The threat register.** `generate`, `analyze`, manual creation, triage, bulk triage and qualification over the
  rows of one model and their audit entries; the qualification queue; the cooldown that concurrent workers claim;
  the reviews and manual creations that overlap because they take no lock.
- **The AI merger.** Guarded enrichments with marker-based deduplication, then new threats with minted ids.
- **Small parsers and printers.** The scan-port list and the "T-NNN" display ids.

## Layout

| file | content |
|---|---|
| `Wrappers.dfy`, `PyText.dfy` | Option and Result, ids, fresh-id supplies and lists without repetition; strip, split, join, decimal print and parse |
| `DfdGraph.dfy`, `Geometry.dfy`, `Membership.dfy`, `GraphOps.dfy` | graph records and lookups, boundary rectangles, the two membership updates, every editor request as a function |
| `GraphEditor.dfy` | the request handlers, assigning fields in place, each proved against its function |
| `BoundaryForest.dfy` | the depth-first cycle check over boundary parents |
| `GraphTables.dfy`, `EditorRefinement.dfy`, `EditorRuns.dfy`, `EditorReferences.dfy` | plain keyed tables, the simulation between graph and tables, theorems over all runs, dangling references |
| `EditorEffects.dfy` | what each editor request changes, field by field and record by record |
| `BulkSave.dfy`, `Decomposition.dfy` | the bulk-save validator; the decomposition seeds |
| `Threats.dfy`, `Reconcile.dfy`, `ThreatCatalog.dfy`, `ThreatSteps.dfy` | rows, entries and reviews; the re-analysis relation; manual threats; one request as a step |
| `ThreatStore.dfy` | the threat endpoints, updating rows and entries in place, each proved to take its step |
| `ThreatRuns.dfy`, `Numbering.dfy`, `ResidualRisk.dfy`, `Qualification.dfy` | theorems over all runs, distinct display ids, residual risk, the queue |
| `AnalysisEffects.dfy`, `ReviewEffects.dfy` | what each threat request stores, column by column |
| `Cooldown.dfy`, `ManualOverlap.dfy`, `ReviewOverlap.dfy` | interleavings: the cooldown protocol, manual creations, reviews of one row |
| `Insights.dfy`, `ThreatMerger.dfy`, `MergeEffects.dfy` | insight deduplication, the merge, what it does with each AI threat |
| `DisplayIds.dfy`, `DisplayIdText.dfy`, `Ports.dfy` | display ids, the texts `int` reads, the port list |

`dafny verify dfyconfig.toml` checks everything.

Each handler is proved against a function of its inputs, and the run theorems speak of these functions.  So that the
functions themselves are pinned down, the `Effects` modules state what each operation stores without naming them, in
terms of the request's fields and the stored records.

## How the model reads the program

- A request is one atomic step, and a refused one leaves the state as it was. `generate`, `analyze`, bulk triage,
  qualification and `next` take the model's advisory lock. Single triage, manual creation, clustering and the editor
  requests take none: for them atomicity is an assumption, dropped for triage in `ReviewOverlap` and for manual
  creation in `ManualOverlap`. The cooldown is modelled event by event, with its row lock.
- `mode` tells custom views (`View`) from the root diagram (`Root`). Where the two branches of a handler differ,
  the model differs: the root tables reject duplicate ids and clear parents through `ON DELETE SET NULL`; custom
  views check no supplied id and leave a deleted boundary's children with a dangling parent.
- `uuid4` is a supply of ids that are pairwise distinct and unused; `issued` remembers every row id ever given out.
- The order in which the database returns rows is an arbitrary parameter (`order`, `found`, `active`).
- Clocks, scores, clusters, the rules engine's output and the AI pass's output are arbitrary parameters.
- Character-level library behaviour (`lower`, `casefold`, the citation regexes, Unicode digit values) is an
  arbitrary function; a theorem that needs something of one says so (`PlainFolding`, `DigitTable`).

## Where the code does less than it seems to promise

Each of these is kept as the code has it. The exact condition is a theorem, and a lemma names a failing input.

- Custom views accept any supplied id, and a root edge may end at another model's node. A successful edit keeps the
  links consistent if and only if the ids it introduced in a view were fresh and a root edge stayed inside its model
  (`EditorRuns.EditKeepsLinkedIff`; `EditorRuns.ReusedIdBreaksLinks`, `EditorRuns.RootEdgeCanLeaveModel`).
- The incremental membership update agrees with the full scan if and only if no other boundary lists the node
  (`Membership.SyncsAgreeIff`, `Membership.SyncsDisagreeOnStray`). Bulk save accepts such a stray listing - its
  result has consistent links if and only if the payload had (`BulkSave.SavedLinkedIff`) - and deleting the node in
  the root diagram then leaves its id in `node_ids` (`EditorReferences.RootDropCanDangle`). A successful edit leaves
  no reference dangling if and only if it is not such a deletion, nor a root edge to another model's node
  (`EditorReferences.EditKeepsReferencesIff`).
- A new boundary is stored with the requested type and parent if and only if it is created in the root diagram or
  neither was requested (`EditorRuns.BoundaryAsAskedIff`, `EditorRuns.ViewBoundaryLosesParent`).
- Enriching twice is enriching once if and only if every insight ends up readable behind a marker
  (`ThreatMerger.EnrichmentIdempotentIff`). An insight that itself contains the marker, and was not there before, is
  appended again by every pass that brings only it (`Insights.AppendTwiceIff`, `Insights.MarkedGrowsForever`,
  `Insights.MarkerRepeats`).
- `generate` is idempotent, up to the ids and creation times of the rule rows (`ThreatRuns.GenerateIsIdempotent`),
  but the register mirrors the engine's output afterwards if and only if the AI pass had touched no row: what it
  touched stays beside the regenerated copy (`ThreatRuns.GenerateMirrorsIff`, `ThreatRuns.GenerateCanMissMirror`).
- Display ids need not stay distinct: an analysis numbers its threats without looking at the manual rows, `generate`
  without looking at any row it keeps. For every request, `Numbering.StepDistinctIff` says exactly when the ids are
  distinct afterwards; `Numbering.DisplayIdsCanCollide` and `Numbering.GenerateCanCollide` are runs in which they
  are not.
- Overlapping manual creations can mint one display id twice, although each looks at all rows: they do so exactly when
  one inserts after another has taken its number (`ManualOverlap.OverlapDistinctIff`,
  `ManualOverlap.OverlapCanCollide`).
- Overlapping reviews of a threat can leave it in progress yet closed, or dismissed without a reason, with a trail
  that does not lead to its status: they do so exactly when an update finds another status than it read, or a
  dismissal repeats a reason that was read and has been taken away since (`ReviewOverlap.OverlapSoundIff`,
  `ReviewOverlap.OverlapCanBreak`). A trail once broken never replays again (`ReviewOverlap.ReplayBreaks`).

## Model

| member | source | states |
|---|---|---|
| BoundaryForest.AcyclicIffNoCycle | backend/app/api/dfd.py:119-141 | every parent chain ends at no parent or at an unknown id exactly when no boundary is its own ancestor |
| BoundaryForest.CycleCheck.Visit | backend/app/api/dfd.py:124-138 | `visit` terminates and accepts exactly the ids whose parent chain ends; on success the path set is restored and everything visited ends |
| BoundaryForest.EnsureNoBoundaryParentCycles | backend/app/api/dfd.py:119-141 | the check accepts a parent map exactly when all its chains end, whatever the dictionary order |
| BoundaryForest.PruneKeepsAcyclic | backend/app/api/dfd.py:2106-2118 | deleting a boundary, with a dangling or a cleared parent, closes no cycle |
| BoundaryForest.NewChildKeepsAcyclic | backend/app/api/dfd.py:2050-2074 | a new boundary below an existing one closes no cycle while nothing points to it |
| DfdGraph.DedupeIs | backend/app/api/dfd.py:115-116 | the deduplicated list has no repetition, the same members, and the order of their first occurrence |
| DfdGraph.FindNode | backend/app/api/dfd.py:521-522 | the first node with the id, None exactly when there is none |
| DfdGraph.FindBoundary | backend/app/api/dfd.py:529-530 | the first boundary with the id, None exactly when there is none |
| DfdGraph.AtMostOneHome | backend/app/api/dfd.py:533-551 | with consistent links a node is listed by at most one boundary |
| Geometry.OmittedGeometryIsTight | backend/app/api/dfd.py:200-241 | omitted geometry is the smallest rectangle leaving each 180x64 box a margin of 20 on all sides |
| Geometry.GivenCoordinatesStay | backend/app/api/dfd.py:219-241 | a coordinate the client gave is stored as given, each omitted one as if none had been given |
| Geometry.EmptyBoundaryGeometry | backend/app/api/dfd.py:227-241 | without members the omitted coordinates are 0, 0, 280 and 180 |
| Membership.FullScanPointwise | backend/app/api/dfd.py:533-551 | with unique boundary ids the scan removes the node everywhere and appends it to the new boundary only |
| Membership.SyncsAgreeIff | backend/app/api/dfd.py:174-197 | incremental update and full scan write the same lists exactly when no boundary but the current one lists the node (or the new one already ends with it) |
| Membership.LinkedSyncsAgree | backend/app/api/dfd.py:174-197 | on consistent links the incremental update refines the full scan |
| Membership.SyncsDisagreeOnStray | backend/app/api/dfd.py:188-197 | a graph with a stray listing on which the two updates differ |
| GraphEditor.Editor.SyncFullScan | backend/app/api/dfd.py:541-551 | the scanning loop computes `FullScan` of the old boundaries |
| GraphEditor.Editor.SyncIncremental | backend/app/api/dfd.py:174-197 | the two-row update computes `Incremental` of the old boundaries |
| GraphEditor.Editor.CreateNode | backend/app/api/dfd.py:1500-1522 | stores the node with its membership, or refuses an unknown boundary (in the root also a taken id) and changes nothing |
| GraphEditor.Editor.UpdateNode | backend/app/api/dfd.py:1568-1634 | patches the sent fields and moves the node only if a boundary was sent; refuses an unknown node or boundary, or a null for name, type or position, without effect; a null for the properties is stored in the root and ignored in a view |
| GraphEditor.Editor.DeleteNode | backend/app/api/dfd.py:1654-1675 | removes the node, its listing and its incident edges |
| GraphEditor.Editor.CreateEdge | backend/app/api/dfd.py:1720-1752 | appends the edge exactly when both ends exist - in the root, in any model - and, in the root, its id is not taken |
| GraphEditor.Editor.UpdateEdge | backend/app/api/dfd.py:1767-1814 | changes label and properties of the edge with the id; refuses an unknown edge or a null label without effect; a null for the properties is stored in the root and ignored in a view |
| GraphEditor.Editor.DeleteEdge | backend/app/api/dfd.py:1833-1847 | removes the edge with the id, or refuses |
| GraphEditor.Editor.QuickAdd | backend/app/api/dfd.py:1881-1967 | adds node and connecting edge together, the edge last and drawn away from the origin exactly when its source handle was dragged, or neither: an unknown origin or boundary, in the root also a taken node or edge id, changes nothing |
| GraphEditor.Editor.CreateBoundary | backend/app/api/dfd.py:1993-2028 | resolves geometry, appends the boundary and moves every distinct member into it; the root also checks the parent (2043-2083) |
| GraphEditor.Editor.DeleteBoundary | backend/app/api/dfd.py:2106-2126 | clears its members' links and removes it; the root also clears children's parents (models/dfd.py:80) |
| GraphTables.MoveLinked | backend/app/api/dfd.py:533-551 | moving a node keeps both sides of the links consistent, in either mode |
| EditorRefinement.NewNodeSimulates | backend/app/api/dfd.py:1500-1522 | creating a node keeps the links consistent and is one row insert on plain tables, with the same errors |
| EditorRefinement.EditNodeSimulates | backend/app/api/dfd.py:1568-1600 | updating a node is one row update on plain tables |
| EditorRefinement.DropNodeSimulates | backend/app/api/dfd.py:1654-1675 | deleting a node is a row delete with cascading edges on plain tables |
| EditorRefinement.QuickNodeSimulates | backend/app/api/dfd.py:1881-1917 | quick-add is a node insert plus an edge insert, or nothing |
| EditorRefinement.NewBoundarySimulates | backend/app/api/dfd.py:1993-2028 | creating a boundary is one row insert plus re-homing its members |
| EditorRefinement.DropBoundarySimulates | backend/app/api/dfd.py:2106-2126 | deleting a boundary is a row delete that clears the links to it |
| EditorRefinement.ApplySimulates | backend/app/api/dfd.py:1484-2150 | every request on a consistent graph - fresh ids in a view, a root edge inside its model - keeps it consistent and computes exactly what the redundancy-free tables compute, errors included |
| EditorRuns.RunKeepsForest | backend/app/api/dfd.py:2008-2019 | no mix of edits and bulk saves closes a cycle of parents, in views (despite dangling parents and reused ids) and in the root (where every parent also exists) |
| EditorRuns.LinkedRunRefinesTables | backend/app/api/dfd.py:533-551 | over every run whose edits are admissible as above and whose accepted bulk saves carry two-way consistent payloads: a node names a boundary exactly when it is listed there, once; endpoints exist; ids are unique; the result is the plain tables' |
| EditorRuns.EditKeepsLinkedIff | backend/app/api/dfd.py:1502-1522 | a successful edit keeps the graph consistent if and only if the ids it introduced in a view were fresh and a root edge stayed inside its model |
| EditorRuns.ReusedIdBreaksLinks | backend/app/api/dfd.py:1502-1514 | two creations with one supplied id, both accepted by an empty workspace |
| EditorRuns.RootEdgeCanLeaveModel | backend/app/api/dfd.py:1741-1752 | a root edge to another model's node is accepted and its end is missing here |
| EditorRuns.BoundaryAsAskedIff | backend/app/api/dfd.py:2008-2074 | the stored boundary has the requested type and parent exactly in the root diagram, or when neither was requested |
| EditorRuns.ViewBoundaryLosesParent | backend/app/api/dfd.py:2008-2017 | a view request below an existing boundary, stored without a parent |
| EditorEffects.UpdateNodeFields | backend/app/api/dfd.py:1568-1634 | only the first node with the id changes; each field that was sent is as sent, each field left out as before |
| EditorEffects.UpdateNodeRefusal | backend/app/api/dfd.py:1568-1634 | exactly when an update is refused, and whether for an unknown node, a null or an unknown boundary |
| EditorEffects.UpdateEdgeFields | backend/app/api/dfd.py:1767-1814 | likewise for an edge, whose ends never change |
| EditorEffects.QuickAddDirection | backend/app/api/dfd.py:1894-1917 | the new edge leads from the origin to the new node exactly when the source handle was dragged, otherwise the other way round, with its id, label and properties |
| EditorEffects.DeleteEdgeKeeps | backend/app/api/dfd.py:1833-1847 | the other edges stay as they were, in order |
| EditorEffects.DeleteNodeKeeps | backend/app/api/dfd.py:1654-1675 | the other nodes and the edges that do not touch the node stay as they were, in order |
| EditorEffects.DeleteBoundaryKeeps | backend/app/api/dfd.py:2106-2126 | homes that name the boundary are cleared, in the root also parents; everything else stays as it was, in order |
| EditorEffects.CreateBoundaryRecord | backend/app/api/dfd.py:1993-2074 | the new boundary comes last with the id, name and given coordinates asked for, in the root also kind and parent; the others keep everything but members |
| EditorEffects.CreateBoundaryRefusal | backend/app/api/dfd.py:1993-2060 | exactly when a boundary request is refused, and for which reason |
| EditorReferences.ViewRunKeepsReferences | backend/app/api/dfd.py:1500-2126 | over every run of a custom view, with reused ids and inconsistent bulk saves, every edge ends at a node, every home is a boundary and every listed member is a node |
| EditorReferences.FreshRunStaysUnique | backend/app/api/dfd.py:1500-2028 | with fresh ids, nodes, edges and boundaries also keep ids of their own over every run |
| EditorReferences.ViewRunResolves | backend/app/api/dfd.py:1500-2126 | the two together, for runs with fresh ids |
| EditorReferences.DropNodeReferencesIff | backend/app/api/dfd.py:1654-1697 | deleting a node leaves no dangling reference exactly in a view, or when only its own boundary listed it |
| EditorReferences.EditKeepsReferencesIff | backend/app/api/dfd.py:1500-2126 | a successful edit in either mode keeps every edge end, home and member resolved if and only if it is no root deletion of a node listed elsewhere and no root edge out of the model |
| EditorReferences.RunKeepsReferences | backend/app/api/dfd.py:1500-2150 | so over every run in either mode, with bulk saves in between, as long as no such edit occurs |
| EditorReferences.RootDropCanDangle | backend/app/api/dfd.py:1687-1697 | a bulk save the validator accepts, after which deleting a root node leaves its id listed |
| Wrappers.DistinctCount | backend/app/api/dfd.py:595-604 | comparing set size with list length detects exactly the duplicates |
| BulkSave.Validate | backend/app/api/dfd.py:595-657 | refuses exactly the payloads that break uniqueness, a reference or the parent forest, and the error names the first violated rule |
| BulkSave.Materialize | backend/app/api/dfd.py:554-720 | accepts exactly the well-formed payloads and returns all elements in order, every field as sent - ids and coordinates where given - or the first violated rule |
| BulkSave.MaterializedAsSent | backend/app/api/dfd.py:555-720 | what an accepted save stores is the payload, position by position and field by field |
| BulkSave.MaterializedWellFormed | backend/app/api/dfd.py:659-720 | what an accepted save stores is well formed as a whole |
| BulkSave.SavedLinkedIff | backend/app/api/dfd.py:607-720 | what an accepted save stores has consistent links exactly when the payload itself tells one membership story |
| BulkSave.SavedGeometryIsTight | backend/app/api/dfd.py:659-679 | every saved boundary without geometry and with a member is drawn as the smallest rectangle around its member nodes' boxes with their margins |
| BulkSave.OnlyGivenIdsClash | backend/app/api/dfd.py:555-604 | node, edge and boundary ids are unique exactly when the client wrote no id twice within one of the lists |
| Decomposition.InterfaceMembers | backend/app/api/dfd.py:731-749 | the edges kept are exactly the incident ones whose counterpart exists |
| Decomposition.SidesCoverCounterparts | backend/app/api/dfd.py:740-752 | every counterpart is on the incoming or the outgoing side |
| Decomposition.CollectCounterparts | backend/app/api/dfd.py:736-752 | the collecting loop computes both sides, deduplicated, in order of first occurrence |
| Decomposition.CloneOutgoing | backend/app/api/dfd.py:782-798 | the second cloning loop adds a clone for each outgoing counterpart that has none yet, and no other |
| Decomposition.LiftEdges | backend/app/api/dfd.py:800-814 | each kept edge is redrawn between centre and clone in its direction, in order |
| Decomposition.BuildStar | backend/app/api/dfd.py:723-816 | the star around a renamed centre |
| Decomposition.BuildContainer | backend/app/api/dfd.py:819-996 | the star around the workload plus exactly its two fixed edges, two fixed nodes and one runtime boundary |
| Decomposition.InterfacePreserved | backend/app/api/dfd.py:800-816 | reading centre as parent and clones as originals sends the seeded edges exactly, in order and direction with label and properties, onto the parent's incident edges with a known counterpart |
| Decomposition.ClonesMatchCounterparts | backend/app/api/dfd.py:766-798 | one faithful clone per distinct counterpart, and every clone touches an edge |
| Decomposition.StarIsLinked | backend/app/api/dfd.py:754-816 | the star has unique ids, resolved endpoints and consistent links |
| Decomposition.ContainerIsLinked | backend/app/api/dfd.py:856-996 | the container seed has unique ids, resolved endpoints and a consistent runtime boundary |
| Decomposition.BuildSeed | backend/app/api/dfd.py:723-728 | either kind of decomposition opens on a consistent graph: each edge between the node and a known node is redrawn once, in order and direction, on an anchor; each counterpart has one faithful clone, senders in the left column and the rest in the right; only its own fixed part comes before them |
| Decomposition.SeedRedraws | backend/app/api/dfd.py:800-814 | the redrawn edges are exactly the diagram's edges between the node and a known node, in order, with the node replaced by the anchor and the other end by its clone |
| Decomposition.SeedPlaces | backend/app/api/dfd.py:764-798 | a counterpart stands left exactly when it sends to the node; left rows are 110 apart from 60 on, right rows at least 110 apart |
| Decomposition.WorkloadInherits | backend/app/api/dfd.py:855-866 | the workload inherits the container's properties, with a container runtime and the container's isolation boundary unless a truthy one is named |
| Ports.Normalise | backend/app/schemas/dfd.py:195-215 | returns None for no ports, the rendering of the ports the text denotes, or an error when it denotes none |
| Ports.MeaningIsRead | backend/app/schemas/dfd.py:195-215 | a field means no ports exactly when it is blank, and a list of ports exactly when its comma-separated pieces are, up to white space, decimal numbers from 1 to 65535 |
| Ports.RenderMeans | backend/app/schemas/dfd.py:202-215 | a rendered list of valid ports reads back as that list |
| Ports.NormalisingIsCanonical | backend/app/schemas/dfd.py:195-215 | normalising keeps the meaning, is idempotent, and two values share a normal form exactly when they mean the same ports |
| Ports.FixedPointsAreRenderings | backend/app/schemas/dfd.py:203-215 | the texts left unchanged are exactly the renderings of nonempty lists of valid ports |
| PyText.SplitJoin | backend/app/schemas/dfd.py:203-215 | splitting what was joined gives the pieces back |
| PyText.ValuePrint | backend/app/schemas/dfd.py:209-214 | reading a printed decimal gives the number back |
| DisplayIds.ParsePad3 | backend/app/services/ai_threat_merger.py:234-265 | `int` of a three-digit zero-padded number, negative ones included, gives the number back |
| DisplayIds.MergerReads | backend/app/services/ai_threat_merger.py:231-237 | the merger reads a minted id's number back |
| DisplayIds.ManualReads | backend/app/api/threat_catalog.py:130-134 | manual creation reads a minted id's number back |
| DisplayIds.MintManual | backend/app/api/threat_catalog.py:121-138 | a manual threat's id differs from every existing id and is one above the largest readable number |
| DisplayIds.NextNumberExact | backend/app/services/ai_threat_merger.py:230-238 | the first number the merger mints is one above the largest readable one, or 1 if none is readable |
| DisplayIds.AboveIsNew | backend/app/services/ai_threat_merger.py:228-265 | an id minted above every readable number is not in use |
| DisplayIds.DisplayIdInjective | backend/app/services/ai_threat_merger.py:265 | different numbers give different ids |
| DisplayIdText.ParseIntMeans | backend/app/services/ai_threat_merger.py:234-237 | `int` reads exactly an optionally signed, white-space-padded decimal with single underscores between digits |
| DisplayIdText.AfterFirstDashIff | backend/app/services/ai_threat_merger.py:234 | the merger reads what follows the first dash |
| DisplayIdText.AfterLastDashIff | backend/app/api/threat_catalog.py:132 | manual creation reads what follows the last dash |
| Insights.SplitAppend | backend/app/services/ai_threat_merger.py:106-114 | splitting at the marker recovers everything on either side of an inserted marker |
| Insights.SplitIffContains | backend/app/services/ai_threat_merger.py:108 | splitting gives one part exactly when the marker does not occur |
| Insights.AppendLayout | backend/app/services/ai_threat_merger.py:93-114 | an insight follows the stripped old text after a blank line and the marker, unless one is blank or some part behind a marker says the same |
| Insights.CollapseRun | backend/app/services/ai_threat_merger.py:81-84 | a run of white space between two texts is compared as one blank |
| Insights.AppendedReads | backend/app/services/ai_threat_merger.py:105-114 | the insights read from an appended rationale are the old ones and those of the new text, up to white space and case |
| Insights.OwnPartsRead | backend/app/services/ai_threat_merger.py:105-112 | an insight is found again in the text that carries it exactly when it contains no marker |
| Insights.AppendTwiceIff | backend/app/services/ai_threat_merger.py:93-114 | appending the same insight again changes nothing if and only if it is blank, was there before, or contains no marker |
| Insights.MarkedGrowsForever | backend/app/services/ai_threat_merger.py:93-114 | an insight that contains the marker and was not there makes the rationale grow on every one of any number of passes |
| Insights.MarkerRepeats | backend/app/services/ai_threat_merger.py:93-114 | the marker as an insight on an empty rationale: the second pass changes it |
| Insights.AppendAllCarries | backend/app/services/ai_threat_merger.py:93-114 | after any sequence of appends, what is readable is what was before plus the parts of each text that was not readable as a whole in its turn |
| Insights.RoundIsIdentityIff | backend/app/services/ai_threat_merger.py:93-114 | a sequence of appends leaves a stripped rationale alone exactly when each of them does |
| Insights.SecondRoundIff | backend/app/services/ai_threat_merger.py:93-114 | repeating a sequence of appends changes nothing if and only if each nonblank insight is readable after the first round |
| Insights.AbsorbedStays | backend/app/services/ai_threat_merger.py:93-114 | an insight once absorbed stays absorbed whatever is appended later |
| ThreatMerger.ResolvedIdsExact | backend/app/services/ai_threat_merger.py:38-57 | the resolved node list has no repetition and holds exactly the nodes named or mentioned |
| ThreatMerger.ResolveNodeIds | backend/app/services/ai_threat_merger.py:38-57 | the two loops compute that list |
| ThreatMerger.IsDuplicate | backend/app/services/ai_threat_merger.py:117-133 | true exactly when some rule threat has the category and shares a node |
| ThreatMerger.Enrich | backend/app/services/ai_threat_merger.py:175-226 | the enrichment loop computes the pass that `MergeEffects.EnrichedIffMeant` describes |
| ThreatMerger.EnrichAllSame | backend/app/services/ai_threat_merger.py:179-226 | enrichment adds, drops, reorders and re-rates nothing: only source and rationale may change |
| ThreatMerger.PassAt | backend/app/services/ai_threat_merger.py:179-226 | a pass appends to each threat its own insights in order, and nothing else |
| ThreatMerger.EnrichmentIdempotentIff | backend/app/services/ai_threat_merger.py:179-226 | applying a list of enrichments to its own result changes nothing if and only if, at every threat, each nonblank insight that reaches it is readable after the first pass |
| ThreatMerger.EnrichmentIdempotent | backend/app/services/ai_threat_merger.py:179-226 | so it changes nothing whenever no insight contains the marker |
| ThreatMerger.EnrichTwiceIff | backend/app/services/ai_threat_merger.py:213-226 | for one enrichment that applies, the exact condition under which a second pass changes nothing |
| ThreatMerger.KeptExact | backend/app/services/ai_threat_merger.py:241-253 | the threats added are exactly the new ones that duplicate no rule threat, each as often as the AI pass returned it |
| ThreatMerger.AppendNew | backend/app/services/ai_threat_merger.py:240-278 | the loop appends one row per kept threat with consecutive rule and display numbers |
| ThreatMerger.MergeAIThreats | backend/app/services/ai_threat_merger.py:136-280 | the whole merge, including the early return, computes the enriched prefix followed by the minted suffix, both described by `MergeEffects` |
| ThreatMerger.MergeIsAdditive | backend/app/services/ai_threat_merger.py:136-280 | the prefix is the rule threats in order with only source and rationale changed; the suffix is, in order, the new threats sharing no category and node with a rule threat, numbered consecutively from AI-001 with duplicate-free node lists |
| ThreatMerger.MergedIdsDistinct | backend/app/services/ai_threat_merger.py:228-278 | all display ids of the result are distinct when the rule threats' were |
| MergeEffects.EnrichedIffMeant | backend/app/services/ai_threat_merger.py:179-226 | a rule threat stays as it was unless an AI threat names it (the last one with the id), mentions no node it is not about, and mentions no boundary or exactly its own; then its source is "AI+Rules" and exactly those insights are appended in order |
| MergeEffects.InsightMeans | backend/app/services/ai_threat_merger.py:213-222 | an insight is the cleaned description followed by the cleaned reasoning, leaving out blank ones |
| MergeEffects.KeptAddsSomething | backend/app/services/ai_threat_merger.py:241-253 | a threat is added, as often as it was returned, exactly if it enriches nothing and no rule threat of its category is about a node it names or mentions |
| MergeEffects.ResolvedMeans | backend/app/services/ai_threat_merger.py:38-57 | it is about a node if it lists the node's name, the last entry of several counting, or if its description mentions it |
| MergeEffects.NewRowsAnnounced | backend/app/services/ai_threat_merger.py:255-278 | every column of an added row: the two numbers, title, description, category, severity, rationale, nodes, provider flag |
| MergeEffects.TitleMeans | backend/app/services/ai_threat_merger.py:258-262 | the title is the text before the first ": ", else the first eighty characters |
| Threats.BlendScores | backend/app/services/threat_scorer.py:214-216 | the blend stays in 0..100 and is the exact 40/60 mean rounded to the nearest |
| Threats.SelectedCount | backend/app/api/threats.py:1801-1823 | the query returns as many rows as ids exactly when the ids are distinct and all belong to the model |
| Threats.BulkTriageAllOrNothing | backend/app/api/threats.py:1780-1851 | bulk triage succeeds exactly for a nonempty list of distinct ids of the model (with a reason if it dismisses), then changes and audits every listed row once and no other |
| Reconcile.SameSortIffSameIds | backend/app/api/threats.py:751-757 | the identity ignores the order of node ids and nothing else |
| Reconcile.CountIsMultiplicity | backend/app/api/threats.py:778-787 | counting an identity in the generated list is its multiplicity in the list's multiset of identities |
| Reconcile.IdentitiesMirrorGenerated | backend/app/api/threats.py:778-899 | after the sync the multiset of identities over the generated rows is that of the generated list; `AnalysisEffects.RowsPerFinding` says what an identity is |
| Reconcile.SurvivorsPerIdentity | backend/app/api/threats.py:786-899 | for each identity exactly min(existing, generated) old row ids survive |
| Reconcile.KeptRow | backend/app/api/threats.py:798-838 | a surviving row keeps status, reasons, analyst fields, stamps, creation time and identity |
| Reconcile.MirroredSyncKeepsRows | backend/app/api/threats.py:778-899 | a sync against a list the register already mirrors inserts and deletes nothing and changes no decision |
| AnalysisEffects.AnalyzeLandsOnSame | backend/app/api/threats.py:751-792 | a finding reuses only a generated row with its rule and its multiset of nodes, and gets a new row only when every such row is taken |
| AnalysisEffects.RowsPerFinding | backend/app/api/threats.py:778-899 | for each rule and each multiset of nodes there are afterwards as many generated rows as findings |
| AnalysisEffects.AnalyzeStores | backend/app/api/threats.py:798-868 | every column of the row a finding lands on: the finding's own, a clean slate on a new row, the old decisions on a reused one, and the score as the 40/60 mean of the automatic and the analyst's |
| AnalysisEffects.AnalyzeKeeps | backend/app/api/threats.py:896-899 | manual rows are not touched, and a generated row goes exactly when no finding landed on it |
| AnalysisEffects.GenerateStores | backend/app/api/threats.py:520-557 | exactly the rule rows are replaced, by unscored and unrated rows with the engine's columns |
| ThreatStore.BuildIndex | backend/app/api/threats.py:766-769 | the index maps each identity to exactly the generated rows that have it |
| ThreatStore.FirstUnmatched | backend/app/api/threats.py:788-792 | the first unmatched candidate, None exactly when all are matched |
| ThreatStore.Store.PlaceAll | backend/app/api/threats.py:772-872 | the sync loop places every generated threat on a row of its identity, each row at most once, inserting only when all old ones are taken |
| ThreatStore.Store.DeleteUnmatched | backend/app/api/threats.py:896-899 | exactly the unmatched generated rows go, with their audit entries |
| ThreatStore.Store.Analyze | backend/app/api/threats.py:740-899 | the locked part of `analyze` takes an analysis step: rows reconciled, manual rows untouched, entries carried, new ids never issued before |
| ThreatStore.Store.Generate | backend/app/api/threats.py:520-557 | `generate` replaces exactly the rule rows by fresh Open rows with default columns |
| ThreatStore.Store.CreateManual | backend/app/api/threat_catalog.py:108-189 | a manual threat gets a new row whose display id no row has, or is refused without effect |
| ThreatStore.Store.Triage | backend/app/api/threats.py:1678-1789 | updates one row and appends its entries, or refuses without effect |
| ThreatStore.Store.BulkTriage | backend/app/api/threats.py:1792-1851 | updates and audits all selected rows, or refuses without effect |
| ThreatStore.Store.Qualify | backend/app/api/threats.py:1917-1986 | updates one row and appends one entry, or refuses an unknown threat |
| ThreatStore.Store.Recluster | backend/app/api/threats.py:440-467 | afterwards a row belongs to the last cluster that lists it, or to none; no other column changes |
| ReviewEffects.TriageStores | backend/app/api/threats.py:1660-1780 | every column a triage writes and every entry it appends; mitigated, accepted and dismissed threats are closed, others are not; exactly when it is refused |
| ReviewEffects.BulkStores | backend/app/api/threats.py:1825-1851 | every column and the entry of every listed row, and that no other row changes |
| ReviewEffects.QualifyStores | backend/app/api/threats.py:1934-1986 | every column and the entry; the stored score is the mean of 40 per cent automatic and 60 per cent analyst score, to the nearest integer |
| ReviewEffects.ManualStores | backend/app/api/threat_catalog.py:116-189 | every column of a manual threat: from the first catalog entry with its trimmed rule under the sent overrides, or of its own with a description |
| ReviewEffects.ManualRefusal | backend/app/api/threat_catalog.py:147-173 | when a manual threat is refused, and for which reason |
| ReviewEffects.ReclusterStores | backend/app/api/threats.py:440-467 | a row belongs to the last cluster that lists it, or to none, and keeps every other column |
| ThreatRuns.StepSound | backend/app/api/threats.py:1684-1725 | every request keeps: closed exactly in a terminal status, dismissals explained, audit entries chained to the current status |
| ThreatRuns.ReachableSound | backend/app/api/threats.py:1684-1986 | the same in every state reachable from the empty register by any requests |
| ThreatRuns.ReplayIsChain | backend/app/api/threats.py:1728-1737 | replaying a log yields a status exactly when its status entries start at Open, each starts where the previous one ended, and the last ends there |
| ThreatRuns.SameFindingsIff | backend/app/api/threats.py:751-787 | two generated lists have the same findings exactly when their multisets of identities agree |
| ThreatRuns.PermutedNodesSameFindings | backend/app/api/threats.py:751-757 | permuting node ids inside threats leaves the findings the same |
| ThreatRuns.ReanalysisIsStable | backend/app/api/threats.py:740-899 | after an analysis, through any reviews, manual creations and clusterings, analyses with the same findings insert and delete no generated row and change no decision, stamp or audit entry |
| ThreatRuns.GenerateAddsCopies | backend/app/api/threats.py:520-557 | per identity, the rows after `generate` number the engine's threats plus the rows the AI pass had touched |
| ThreatRuns.GenerateIsIdempotent | backend/app/api/threats.py:520-557 | running `generate` again on the same output leaves the same rows and audit entries up to the ids and creation times of the rule rows, which have no entries |
| ThreatRuns.GenerateTwiceSameCounts | backend/app/api/threats.py:520-557 | in particular every identity occurs as often after the second run |
| ThreatRuns.GenerateMirrorsIff | backend/app/api/threats.py:520-557 | the register mirrors the engine's output afterwards exactly when every row was a rule or manual row |
| ThreatRuns.GenerateCanMissMirror | backend/app/api/threats.py:520-557 | a run from the empty register, an analysis and then `generate`, after which the register does not mirror the engine |
| ThreatRuns.StampedForGood | backend/app/api/threats.py:1951-1961 | a row stamped as qualified never loses the stamp while it lives, and its id never comes back |
| Numbering.StepDistinctIff | backend/app/api/threats.py:520-899 | after any request display ids are distinct exactly when: for `generate` and `analyze`, the rows they keep unread had distinct ids and the new threats' ids are distinct and avoid them; for any other request, they were distinct before |
| Numbering.AnalyzeDistinctIff | backend/app/api/threats.py:805-806 | display ids are distinct after an analysis exactly when the manual rows' and the generated ones are and the two do not meet |
| Numbering.GenerateDistinctIff | backend/app/api/threats.py:520-557 | the same for `generate` and all rows that are not rule rows |
| Numbering.ManualKeepsDistinct | backend/app/api/threat_catalog.py:121-138 | creating a manual threat keeps display ids distinct |
| Numbering.DisplayIdsCanCollide | backend/app/api/threats.py:805-806 | a manual creation and an analysis from the empty register, after which two rows share a display id |
| Numbering.GenerateCanCollide | backend/app/api/threats.py:520-557 | a manual creation and `generate` from the empty register, after which two rows share a display id |
| ManualOverlap.TakenIffPassed | backend/app/api/threat_catalog.py:121-138 | a number computed earlier has been taken by another insert exactly when it is no longer the next one |
| ManualOverlap.EventDistinctIff | backend/app/api/threat_catalog.py:121-189 | one event of overlapping creations leaves distinct display ids exactly when they were distinct and, for an accepted insert, its number is still the next one |
| ManualOverlap.OverlapDistinctIff | backend/app/api/threat_catalog.py:121-189 | at every point of every interleaving of manual creations and reviews, display ids are distinct exactly when they were at the start and every insert so far found its number still the next one |
| ManualOverlap.OverlapCanCollide | backend/app/api/threat_catalog.py:121-189 | two creations on an empty register that both number before either inserts |
| ReviewOverlap.MergedUndisturbed | backend/app/api/threats.py:1684-1725 | if nothing happened between query and update, updating the changed columns stores the whole new row |
| ReviewOverlap.MergesColumns | backend/app/api/threats.py:1684-1725 | an update overwrites exactly the columns whose value differs from the one it read |
| ReviewOverlap.ReplayBreaks | backend/app/api/threats.py:1678-1737 | over every interleaving of reviews the trail replays to the row's status as long as every update finds the status it read, and never again afterwards |
| ReviewOverlap.OverlapSoundIff | backend/app/api/threats.py:1660-1986 | over every interleaving of triages, bulk triages and qualifications of a row it stays closed exactly in a terminal status, explained and replayable, if and only if every update finds the status it read and no dismissal counts on a reason taken away since |
| ReviewOverlap.UndisturbedIsFresh | backend/app/api/threats.py:1660-1725 | a review that does not overlap always meets that condition |
| ReviewOverlap.OverlapCanBreak | backend/app/api/threats.py:1660-1737 | two triages of an open threat after which it is in progress but closed and its trail does not replay |
| ResidualRisk.ControlsOnlyReduce | backend/app/services/residual_risk.py:36-56 | a derived residual risk is at most the severity, equals it without a control, and falls or stays with a stronger control |
| ResidualRisk.ResidualDrop | backend/app/services/residual_risk.py:36-56 | how many levels each control takes off each severity, and what unknown ones count as |
| ResidualRisk.AnalyzeInStep | backend/app/api/threats.py:825-868 | an analysis leaves a generated row with the residual risk its new severity and its kept control call for, unless a dictated one stood there and the severity is the same |
| ResidualRisk.ResidualFollows | backend/app/api/threats.py:1690-1718 | over every run, from any state where a row's residual risk is absent or the one its severity and control call for (or the row is not there yet), that stays so until a triage of this row sends a residual risk |
| ResidualRisk.BackInStep | backend/app/api/threats.py:1706-1718 | a triage that sends a severity or control and no residual risk, or an analysis that changes the severity, puts a dictated row back |
| Qualification.NotAfterTrans | backend/app/api/threats.py:2116-2121 | the queue key orders threats totally: "not after" is transitive |
| Qualification.TextLessMeans | backend/app/api/threats.py:2121 | display ids compare by the first character where they differ, a proper prefix first |
| Qualification.QueueLeastFirst | backend/app/api/threats.py:2123-2124 | no candidate comes before the head of the sorted queue |
| Qualification.NextIsLeast | backend/app/api/threats.py:2100-2127 | `next` hands out an open or in-progress, unqualified threat that goes before every other, whatever the query order - unclustered before clustered, then the higher score, then the smaller display id - and None exactly when there is none |
| Qualification.ProgressCountsWaiting | backend/app/api/threats.py:2046-2085 | progress counts the open and in-progress threats, as unqualified exactly the waiting ones, so `next` is None exactly when it reports 0 |
| Qualification.QualifyWaiting | backend/app/api/threats.py:1949-1963 | confirming or dismissing takes exactly that threat off the queue, deferring leaves it, no other row changes |
| Qualification.HandedOutInOrder | backend/app/api/threats.py:2088-2127 | repeating "next, then confirm or dismiss" hands out nothing twice, and each time a threat that goes before everything still waiting, in the order above |
| Qualification.DrainsExactly | backend/app/api/threats.py:2046-2127 | such a session ends with None after exactly as many turns as there were unqualified threats, each handed out |
| Qualification.NeverQueuedAgain | backend/app/api/threats.py:2102-2107 | a confirmed or dismissed threat never waits again in any continuation, reopened or re-analysed |
| Cooldown.RunSound | backend/app/api/threats.py:588-608 | at most one claim is open, it still satisfies its condition, and committed stamps lie more than 60 s apart |
| Cooldown.CooldownBound | backend/app/api/threats.py:588-608 | however workers race and whatever their clocks, n granted analyses stamped in a window of length T satisfy 60 s * (n - 1) <= T |
| Cooldown.RefusedOnlyWhenRecent | backend/app/api/threats.py:592-607 | a claim is refused exactly when the latest grant is at most 60 s older than the worker's clock |

## Left out

- HTTP routing, permissions, sessions, commits, refreshes and response hydration; the `analyze` response repeats
  each row with the unblended score, which the stored row does not.
- Custom-view persistence (`_persist_custom_views`) and the choice of the selected view.
- The rules engine, the AI call, document warnings, scoring, clustering, compliance lookup: their results are
  parameters. `Recluster` covers any assignment of clusters.
- Database check constraints, column lengths and the 4300-digit limit of Python's `int`; a request that hits one
  fails and changes nothing.
- Python's recursion limit in `visit`: the model's recursion always completes.
- Nodes, boundaries and threat rows are values inside the sequences and maps the handlers reassign, so aliasing
  between two references to one record is not captured.
- Request ids: `GraphEditor` receives the id of a new record, supplied by the client or minted, as a parameter.
- Once a root node or edge has null properties, responses and requests that read it back fail validation although the
  update was stored; that failure is not modelled.
- Node and edge property normalisation and inference; properties are opaque.
- Primary keys span all models: a root insert whose id another model uses is refused too, without effect.
- Root boundary creation writes the member list at the end of the transaction; the model appends members one by
  one, with the same final lists.
- Positions and sizes are reals; floating-point rounding is not modelled.
- Other writers of the root diagram: `import-iac` (api/dfd.py:1421-1453) and the TMAC import store graphs that do not
  pass the bulk-save validator; they are excluded from `EditorRuns.RunKeepsForest`,
  `EditorRuns.LinkedRunRefinesTables` and `EditorReferences.RunKeepsReferences`.
- Overlap of requests that take no lock: editor requests with each other (a custom view is read, changed and stored
  as one document), clusterings, and manual creations or triages with `generate` and `analyze`. That these do not
  overlap is an assumption of the editor's run theorems, `Numbering.StepDistinctIff`, `Numbering.ManualKeepsDistinct`
  and `ThreatRuns.ReachableSound`; overlapping manual creations, and overlapping reviews of one threat, are
  `ManualOverlap` and `ReviewOverlap`.
- Two audit entries of overlapping reviews are in commit order; the table orders them by transaction start.
- UUID parsing of node ids in a manual request is a given yes or no.
- `progress_pct` and the cluster counts of the progress report: display values.
- Cached AI-likelihood columns, which `analyze` clears on a matched row.
- The review-finding bucket patch, threat import and demo seeding, which may insert rows in other states and are
  excluded from the reachable-state theorems.
- The cooldown is skipped in development and test environments; the protocol is modelled as it runs in production.
