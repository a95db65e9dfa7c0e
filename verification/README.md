# Starframe: a verified model

Starframe is a mod manager: it downloads and imports mods, works out a load order, hands the game an
activation document, and deploys files into a game directory that it shares with the player and with other
programs. This project states what its core code promises and proves it for every input, every run and every
interleaving. `dafny verify dfyconfig.toml` checks the whole project.

The modules follow the source files:

- **Deployment** (`DeploymentProtocol.dfy`, `Deployment.dfy`). The protocol is a state machine over the
  directory, the saved record with its journal, and the content store; a step is one durable boundary. The class
  `Installation` is the engine: every change it makes is one step, it may be refused, may fail or may die at
  any guard, event or input/output call, and others may have a turn at any of them. What they do there is
  settled beforehand (`others`), so no change of the engine can pass for an edit of theirs. Its ghost `history`
  is a run of the protocol in which every state is labelled with the step that led to it, so the theorems about
  runs hold of it; `deeds` are the steps that are the engine's own changes of the directory and the record.
  `tame` means that nobody else edits the directory, `shared` that somebody may be editing it now, `calm` that
  nothing refuses, fails or dies now. What a method ensures without `!shared` holds whatever others do; there
  it speaks of its deeds, of what a path held at some moment of the call (`Seen`, `Strayed`), and of the paths that
  nobody else has changed so far (`Unedited`).
- **Load order** (`Graphs.dfy`, `GraphTheorems.dfy`, `TopologicalSort.dfy`, `CycleSearch.dfy`,
  `Priorities.dfy`, `RegistryOrder.dfy`, `LocalOrder.dfy`, `MixedOrder.dfy`, `OrderTheorems.dfy`). The three
  resolvers are methods over graphs built edge by edge. `Kahn` is what they compute; the theorems say what that is,
  first about graphs and then about the records and manifests alone (`Loadable`, `BuildsLoadable`,
  `ReferencesLoadable`).
- **Activation** (`ActivationDocument.dfy`, `Inventories.dfy`, `Selection.dfy`, `SelectionDocuments.dfy`,
  `SelectionContents.dfy`, `ActivationRequest.dfy`, `SelectionTheorems.dfy`, `ActivationSession.dfy`). The
  producer of the activation document, its validator, and the session that runs it in the game, with the
  theorems that join them.
- **Readers** (`Decimals.dfy`, `Orderings.dfy`, `Texts.dfy`, `Versions.dfy`, `Precedence.dfy`,
  `Dependencies.dfy`, `PathTables.dfy`, `ArchiveTable.dfy`, `ZipDirectory.dfy`). Semantic versions against
  sections 9 to 11 of Semantic Versioning 2.0.0, path tables against their pairwise meaning, and the ZIP
  directory, byte by byte, against sections 4.3.12, 4.3.16 and 4.5.1 of PKWARE APPNOTE.TXT.
- **Requirements** (`Requirements.dfy`, `Enabling.dfy`). The exact builds a local build needs, and enabling them.
- **Sharing** (`Sharing.dfy`, `SharingService.dfy`). Imports of shared collections and the package queue: a
  state machine and the service that takes its steps. `calm` means that no write fails now, `lost` holds the contents
  whose operation could not be recorded since the last poll began.
- **Watching** (`Watch.dfy`). The inspect, settle and copy loop over local sources. A tick is what one turn of the
  loop meets, a turn what it makes of that; the claims are about runs of these, and the worker takes them.
- `References.dfy`, `Sequences.dfy` and `Results.dfy` hold what they share.

SHA-256 is a constructor that keeps the content, so equal digests mean equal content; where the code puts a
digest into a path, the digest is any function and freedom from collisions is a stated condition.

Some results a reader would not expect from the code:

- A ZIP comment free of the end mark is not enough for a written archive to be read. With a comment of 19280
  bytes beginning with 5 and 6, the length field and the comment make a mark together, and the archive is
  refused. The record that was written is read exactly when no mark starts later inside it
  (`ZipDirectory.FreeCommentIsNotEnough`, `ZipDirectory.WrittenRecordIsRead`).
- The conflict check at the end of `local_requirements` never finds anything, while two builds of one mod
  reached on different chains pass through it (`Requirements.SiblingsMayConflict`). Enabling refuses them, and
  does so in exactly the conflicting cases (`Requirements.EnableNeeded`).
- The validator can refuse a produced document for what an entry says or for its size, but never for how mods,
  requirements, inventory and roots fit together, unless two local builds share one digest
  (`SelectionTheorems.SelectionMeaning`).

## Model

| member | source | states |
|---|---|---|
| DeploymentProtocol.StepKeepsSafe | src-tauri/src/deployment.rs:377-424 | Whatever others do to the directory, every step keeps the record valid and every content of the owned and of the journaled files readable from the store |
| DeploymentProtocol.RunIsSafe | src-tauri/src/deployment.rs:453-458 | Recoverability holds in every state of every run, through failed saves and crashes |
| DeploymentProtocol.EngineStepPreserves | src-tauri/src/deployment.rs:229-272 | Outside an edit by others a file changes only under a saved journal, between the recorded and the journaled content, and what is removed is in the store |
| DeploymentProtocol.StoredForever | src-tauri/src/deployment/content.rs:46-86 | Content that can once be read from the store can be read in every later state |
| DeploymentProtocol.NothingIsLost | src-tauri/src/deployment.rs:314-330 | In every run, whatever others do in it, a step that is not theirs replaces or removes only the recorded or the journaled content, and that stays readable in every later state |
| DeploymentProtocol.ForeignStays | src-tauri/src/deployment.rs:314-330 | Content that no journal knows stays on its path through any operations, failures, crashes and recoveries until somebody else changes it |
| DeploymentProtocol.StepKeepsIntact | src-tauri/src/deployment.rs:402-443 | Without external edits each step keeps the directory equal to the unowned base plus, for each tracked path, its old or its new owned state |
| DeploymentProtocol.QuiescentDisk | src-tauri/src/deployment.rs:486-489 | With no journal open the directory is the disjoint union of the base and the owned files |
| DeploymentProtocol.OwnedUntilCommit | src-tauri/src/deployment.rs:304-342 | Without external edits, between two states without a final save, the owned files of the record stay the same |
| DeploymentProtocol.AllOrNothing | src-tauri/src/deployment.rs:304-342 | Without external edits, any applies, crashes and recoveries without a final save give back the directory and the record they began with |
| DeploymentProtocol.EverythingIsGivenBack | src-tauri/src/deployment.rs:577-594 | Without external edits a run from an empty record to an empty record ends with the original directory |
| DeploymentProtocol.BaseIsNeverTouched | src-tauri/src/deployment.rs:426-443 | Without external edits each file of the base, borrowed ones included, has in every state of a run its original content |
| DeploymentProtocol.StepKeepsPath | src-tauri/src/deployment.rs:402-443 | Path by path, with edits elsewhere: a step keeps a path its base content or its old or new owned state if what was found out about that path before a save still holds |
| DeploymentProtocol.SeenIsNow | src-tauri/src/deployment.rs:425-443 | While the engine rests, a path that nobody else changes still holds what was seen there |
| DeploymentProtocol.NothingToForget | src-tauri/src/deployment.rs:618-639 | Without external edits no owned file is missing, so a repair forgets none |
| Deployment.Installation.Replace | src-tauri/src/deployment.rs:229-272 | Whatever others do, at most this one step is taken, only expected content gives way, success means it was taken, and failing has other content as its reason; left alone the file moves exactly when it holds what is expected |
| Deployment.Installation.Restore | src-tauri/src/deployment.rs:314-330 | Whatever others do, a touched path is moved back or left alone, success means it held its recorded content and failing that it held neither; left alone it succeeds exactly on the recorded or the journaled content |
| Deployment.Installation.Rollback | src-tauri/src/deployment.rs:304-342 | Whatever others do, files are only moved back and the journal is kept unless each file it speaks of was found as recorded; left alone it succeeds exactly when each touched file is in one of its two states and the other owned files are as recorded |
| Deployment.Installation.Load | src-tauri/src/deployment.rs:79-110 | A record this engine saved is never rejected when it is loaded |
| Deployment.Installation.RetainFile | src-tauri/src/deployment/content.rs:46-86 | Content counts as kept only when it can be read back under its digest; offered content that is what it claims is kept |
| Deployment.Installation.Prepare | src-tauri/src/deployment.rs:377-401 | Success means distinct paths, each source and the whole within its size limit, the exact map of wanted digests, and every content stored or set aside |
| Deployment.Installation.BackUp | src-tauri/src/deployment.rs:404-424 | Success means that each owned file was found as recorded and its content is secured in the store or in the blobs saved with the journal |
| Deployment.Installation.Classify | src-tauri/src/deployment.rs:425-443 | What is owned or free will be owned, what matches is borrowed, and anything else stops the operation before a change; whatever others do, each new path was found free and each borrowed one as it is wanted |
| Deployment.Installation.OpenJournal | src-tauri/src/deployment.rs:377-459 | Whatever others do, a journal is saved only for a plan that says what was found: owned files in place, new paths free, borrowed files as wanted; one such step is the only deed |
| Deployment.Installation.SaveJournal | src-tauri/src/deployment.rs:453-459 | The journal and its backups are saved together or not at all |
| Deployment.Installation.Deploy | src-tauri/src/deployment.rs:460-479 | Whatever others do, files only move on, and success means each changed file was moved and each new, removed and borrowed file was found as wanted; without external edits the owned files are then in their new state, and with nothing in the way it succeeds |
| Deployment.Installation.Apply | src-tauri/src/deployment.rs:365-490 | Success means that the very bytes that were offered, and of each file content of its declared digest, stood in their places, and each file given up was gone. Without external edits the directory then holds exactly the base and what was offered, and what the base does not hold is owned; any other outcome, death included, leaves the old ownership or the whole new deployment; and it succeeds on every deployable request |
| Deployment.Installation.Recover | src-tauri/src/deployment.rs:565-576 | Recovery never changes ownership, reports whether a journal was open, only moves files back, and left alone succeeds exactly when the directory is restorable |
| Deployment.Installation.Remove | src-tauri/src/deployment.rs:577-594 | A completed removal leaves an empty record after each owned file was gone and, without external edits, the original directory; then, with nothing refusing, it succeeds if every owned file is within the limit |
| Deployment.Installation.RepairMissing | src-tauri/src/deployment.rs:618-639 | What leaves the record was found missing and what stays was found as recorded; left alone only missing files leave, a changed one stops it with the record kept, and otherwise it succeeds and keeps exactly what is there |
| Deployment.Session | src-tauri/src/deployment.rs:343-490 | Any sequence of commands, each refused, failed, killed or completed, and any edits of others are one run of the protocol: it tells exactly what the others did, and every other step keeps what no journal knows. Whenever no journal is open, each path that only the engine changed is as the base or the owned files have it, and after a completed last removal as it was; without edits so is the whole directory |
| Deployment.RunPreserves | src-tauri/src/deployment.rs:229-272 | In every run all steps but those of others keep what no journal knows |
| Deployment.InterruptedApply | src-tauri/src/deployment.rs:304-490 | An apply, begun under an open journal or not, and any number of recoveries that die anywhere leave, once no journal is open, the old ownership and its directory or the whole new deployment: the base and exactly what was offered, byte for byte, and owned where the base does not hold it |
| Deployment.PlanIsClear | src-tauri/src/deployment.rs:425-443 | A plan made without external edits only claims free paths and only borrows what is there |
| Deployment.IntactRestorable | src-tauri/src/deployment.rs:304-342 | Without external edits every open journal can be rolled back |
| Deployment.DeliversWanted | src-tauri/src/deployment.rs:471-489 | When the new files are in place, what was asked for is there and owned exactly where the base does not hold it |
| Deployment.WantedAsOffered | src-tauri/src/deployment.rs:377-401 | What is wanted of a place is the digest of the bytes offered for it, or the digest declared of the file |
| Deployment.ServedAsOffered | src-tauri/src/deployment.rs:460-489 | When all that is wanted is deployed, the directory is the base and exactly what was offered: the bytes themselves, and the content of each honest file |
| Deployment.FoundAsOffered | src-tauri/src/deployment.rs:471-485 | What was verified in place, whatever others do, is what was offered, and what was given up was gone |
| Deployment.TotalOfOffer | src-tauri/src/deployment.rs:383-397 | The size of a request adds up the lengths of the bytes and the declared sizes of the files |
| Deployment.DeployableMeans | src-tauri/src/deployment.rs:377-443 | A request is deployable when paths are valid and given once, contents are what they are declared to be, sizes are within their limits and the base holds nothing else in these places |
| GraphTheorems.KahnComplete | src-tauri/src/ordering.rs:148-171 | The smallest-ready order lists every node exactly when the graph has no closed walk |
| GraphTheorems.KahnIsLeast | src-tauri/src/ordering.rs:148-171 | It is at most every other linear extension in lexicographic order |
| GraphTheorems.StuckHasClosedWalk | src-tauri/src/ordering.rs:173-207 | Nodes that all wait for one another contain a closed walk |
| GraphTheorems.KahnKeepsForward | src-tauri/src/ordering/mixed.rs:108-125 | On an acyclic graph the order is the requested one exactly when every edge points forward |
| GraphTheorems.KahnProjects | src-tauri/src/ordering/mixed.rs:61-97 | On a part without edges from outside, choosing the smallest ready node commutes with leaving out the rest |
| GraphTheorems.KahnFromRenumbers | src-tauri/src/ordering/mixed.rs:61-97 | The order of an embedded graph is the embedded order of the graph |
| TopologicalSort.Topological | src-tauri/src/ordering.rs:148-171 | The counting loop computes the smallest-ready order: a linear extension exactly on acyclic graphs, and the least one |
| TopologicalSort.Release | src-tauri/src/ordering.rs:161-169 | Each count is the number of unemitted predecessors and never drops below zero |
| CycleSearch.Cycle | src-tauri/src/ordering.rs:173-207 | None exactly when the graph is acyclic, otherwise a closed walk along real edges with equal ends |
| CycleSearch.Search.Visit | src-tauri/src/ordering.rs:174-199 | A visit finishes everything reachable in an order that read backwards respects every edge, or returns a cycle; it ends because unvisited nodes run out |
| Priorities.OrderMeaning | src-tauri/src/ordering.rs:120-146 | The effective order is a permutation of the request in which nothing comes before what must load before it, and by the places in the request it is at most every other such order |
| Priorities.OrderIsFirst | src-tauri/src/ordering.rs:120-171 | If some order of the same references meets every constraint there is an effective order, and where the two first differ it has what is requested earlier |
| Priorities.OrderIsStable | src-tauri/src/ordering.rs:120-146 | Ordering an effective order changes nothing |
| Priorities.Adjustments | src-tauri/src/ordering.rs:121-137 | One adjustment for each edge against the requested order, and no other |
| Priorities.NoAdjustments | src-tauri/src/ordering.rs:121-146 | There is nothing to adjust exactly when the effective order is the requested one |
| Priorities.OrderProjects | src-tauri/src/ordering/mixed.rs:61-97 | The order of a mixture restricted to a part that shares no constraint with the rest is the order of that part |
| RegistryOrder.SelectionEdges | src-tauri/src/ordering/registry.rs:54-115 | The edges are exactly the dependencies inside the selection; it succeeds exactly when each release is known, valid and has its dependencies met, and each reported fault is real |
| RegistryOrder.ResolveRegistry | src-tauri/src/ordering/registry.rs:24-52 | The result is the first of all orders of the request in which every release is described and each of its dependencies is admitted, by version precedence or exact identifier, by an earlier release; it fails exactly when there is no such order, for a fault that is there; the adjustments are the dependencies that stood in the wrong order |
| RegistryOrder.RegistryOrderIsFirst | src-tauri/src/ordering/registry.rs:24-52 | The effective order has every dependency admitted by an earlier release, and is the first such order |
| RegistryOrder.LoadableIsEnough | src-tauri/src/ordering/registry.rs:54-115 | A list that can be put into such an order is accepted |
| LocalOrder.AddTargets | src-tauri/src/ordering.rs:93-118 | Before and after constraints add an edge for each selected target and nothing else |
| LocalOrder.AddRequirements | src-tauri/src/ordering.rs:75-92 | Requirements are accepted exactly when each exact build is selected, and add one edge each |
| LocalOrder.ResolveLocals | src-tauri/src/ordering.rs:27-146 | The result is the first of all orders of the request in which every build is known, what it requires comes earlier, and it stands before and after the mods it asks to stand before and after; it fails exactly when there is no such order; the adjustments are the constraints that stood in the wrong order |
| LocalOrder.LocalOrderIsFirst | src-tauri/src/ordering.rs:75-146 | The effective order meets what every manifest says, in its direction, and is the first such order |
| LocalOrder.LoadableBuildsAreEnough | src-tauri/src/ordering.rs:27-119 | A list that can be put into such an order is accepted |
| MixedOrder.ReadSelection | src-tauri/src/ordering/mixed.rs:28-60 | The selection is read exactly when each reference is valid and known and no runtime identity repeats |
| MixedOrder.EmbedRegistry | src-tauri/src/ordering/mixed.rs:61-68 | The registry graph is embedded edge by edge at the places of its references |
| MixedOrder.AddLocals | src-tauri/src/ordering/mixed.rs:69-107 | Local constraints add exactly the edges the manifests ask for between local places |
| MixedOrder.ResolveMixed | src-tauri/src/ordering/mixed.rs:23-166 | The result is the first of all orders of the request in which no runtime identity repeats, each dependency of a release is admitted by an earlier release, each requirement of a build comes earlier, and builds stand before and after the mods they ask for; it fails exactly when there is no such order; there is no adjustment exactly when the result is the request |
| MixedOrder.MixedOrderIsFirst | src-tauri/src/ordering/mixed.rs:23-166 | The effective order meets what every record and manifest says and is the first such order |
| MixedOrder.LoadableReferencesAreEnough | src-tauri/src/ordering/mixed.rs:23-107 | A list that can be put into such an order is accepted |
| OrderTheorems.MixedProjectsToRegistry | src-tauri/src/ordering/mixed.rs:61-97 | Restricted to releases the mixed order is what the registry resolver gives for them alone, and that resolver accepts them |
| OrderTheorems.MixedProjectsToLocals | src-tauri/src/ordering/mixed.rs:69-97 | Restricted to local builds it is what the local resolver gives for them alone, and that resolver accepts them |
| OrderTheorems.MixedIsIdempotent | src-tauri/src/ordering/mixed.rs:108-166 | Resolving an effective order succeeds and returns it |
| Versions.ParsePrint | src-tauri/src/registry/dependencies.rs:29-57 | Every version of the grammar of sections 9 and 10, whatever its build metadata, reads back as itself within the length limit |
| Versions.ParseSound | src-tauri/src/registry/dependencies.rs:29-57 | Whatever is read is a version of the grammar, printed |
| Versions.CompareIsTotal | src-tauri/src/registry/dependencies.rs:59-86 | Precedence is a total order, equal only for the same core and prerelease |
| Precedence.NumberAgrees | src-tauri/src/registry/dependencies.rs:9-14 | Length first and then text orders numerals without leading zeros as the unbounded numbers they denote |
| Precedence.CompareAgreesWithSection11 | src-tauri/src/registry/dependencies.rs:59-86 | Comparison agrees with each rule of section 11 of Semantic Versioning 2.0.0 |
| Dependencies.ValidDependencies | src-tauri/src/registry/dependencies.rs:182-188 | Accepts exactly at most 100 valid constraints, one for each other mod |
| Dependencies.MatchesMeaning | src-tauri/src/registry/dependencies.rs:121-150 | An exact dependency admits just its release; a range admits exactly the labels that read as a version which does not precede the minimum, precedes the upper bound, and is a prerelease only if those are included, in the precedence of section 11 of Semantic Versioning 2.0.0 |
| Dependencies.ValidMeaning | src-tauri/src/registry/dependencies.rs:97-119 | A dependency is valid exactly when it is on another mod, an exact one names a random RFC 4122 identifier, and a range has bounds that are versions, the lower one preceding the upper |
| Dependencies.RangeIsConvex | src-tauri/src/registry/dependencies.rs:121-150 | Between two matching versions every version the prerelease flag admits matches |
| Dependencies.MatchesIgnoresBuild | src-tauri/src/registry/dependencies.rs:121-150 | Build metadata never decides a match |
| References.RuntimeIdInjective | src-tauri/src/registry/activation.rs:5-7 | Two releases have one runtime identity only if they belong to one mod |
| References.IdMeaning | src-tauri/src/runtime_contract.rs:326-335 | A mod id is 1 to 128 lower-case letters, digits, dots, underscores and dashes and begins with a letter or a digit |
| References.HashMeaning | src-tauri/src/runtime_contract.rs:141-148 | A digest is written in 64 lower-case hexadecimal digits |
| PathTables.FindAncestor | src-tauri/src/deployment.rs:68-76 | The walk over parents meets the table exactly when a member is an ancestor |
| PathTables.ValidateFiles | src-tauri/src/deployment.rs:57-78 | Accepts exactly bounded sets of valid, case-distinct paths no two of which overlap |
| PathTables.RelativeMeaning | src-tauri/src/runtime_contract.rs:347-377 | A path is accepted exactly when it has 1 to 240 characters and no part between its slashes is empty, a dot or two, ends in a dot or a space, holds a character such as a colon or a backslash, or is a device name in any case, with or without spaces and an extension |
| PathTables.OverlapMeaning | src-tauri/src/runtime_contract.rs:378-380 | Two names overlap exactly when they are equal or one is the other with a slash and more behind it |
| ArchiveTable.AddEntry | src-tauri/src/packages/archive.rs:204-237 | The directories on the way to an entry are added to the table exactly when none clashes with it |
| ArchiveTable.CheckEntries | src-tauri/src/packages/archive.rs:177-237 | The two tables accept exactly the lists in which names are case-distinct, no file is an ancestor of an entry, and shared directories have one spelling |
| ZipDirectory.CheckExtras | src-tauri/src/packages/archive.rs:363-375 | The loop accepts a block exactly when it reads as a complete list of permitted fields |
| ZipDirectory.ParsePrintExtras | src-tauri/src/packages/archive.rs:363-375 | Printed extra fields (4.5.1) read back as themselves |
| ZipDirectory.PrintParseExtras | src-tauri/src/packages/archive.rs:363-375 | A block that is read is exactly the fields found in it, printed |
| ZipDirectory.ParsePrintHeaders | src-tauri/src/packages/archive.rs:350-377 | Printed central headers (4.3.12) read back as themselves |
| ZipDirectory.ParseDecidesDirectory | src-tauri/src/packages/archive.rs:350-381 | The walk accepts exactly the bytes that are count well-formed headers with no gap |
| ZipDirectory.CheckHeaders | src-tauri/src/packages/archive.rs:350-381 | The cursor loop, in bounds on every input, accepts exactly what reads as count headers |
| ZipDirectory.HeaderInBytes | src-tauri/src/packages/archive.rs:350-379 | A header is accepted exactly when its bytes are the mark, a first disk of zero, no reparse point, lengths that fit, and extra fields of permitted kinds, each number least significant byte first |
| ZipDirectory.FindEnd | src-tauri/src/packages/archive.rs:319-331 | Finds the last end mark within reach of the longest comment, if there is one |
| ZipDirectory.Preflight | src-tauri/src/packages/archive.rs:317-386 | On every byte string it returns a count exactly when the end record (4.3.16) describes the file and the directory is that many headers, also stated byte by byte |
| ZipDirectory.AcceptsInBytes | src-tauri/src/packages/archive.rs:317-386 | Acceptance in terms of the single bytes of the file: the last end mark, one disk, equal counts of at most 4096, a directory of at most 4 MiB that ends at the record, a comment that ends the file, and each header with its fields |
| ZipDirectory.WrittenRecordIsRead | src-tauri/src/packages/archive.rs:325-331 | The record that was written is the one that is read exactly when no end mark starts later in it |
| ZipDirectory.PrintedIsAccepted | src-tauri/src/packages/archive.rs:317-386 | A written archive is then accepted with its number of entries |
| ZipDirectory.FreeCommentIsNotEnough | src-tauri/src/packages/archive.rs:325-349 | One comment free of end marks makes every written archive unreadable |
| ActivationDocument.Check | src-tauri/src/runtime_contract.rs:43-201 | The validator's loops accept exactly the documents in which entries are unique, mods listed once, requirements earlier, roots and files apart, and payloads valid |
| ActivationDocument.CheckFiles | src-tauri/src/runtime_contract.rs:132-151 | A file list is accepted exactly when it is bounded, valid and free of overlaps, and counts against the total |
| ActivationDocument.CheckRequired | src-tauri/src/runtime_contract.rs:98-105 | Requirements are accepted exactly when bounded, distinct and active already |
| ActivationDocument.EntryMeaning | src-tauri/src/runtime_contract.rs:113-158 | Without an entry a mod has no type and some files; with one the assembly is a relative path ending in .dll in any case, is among the files, and its type is names joined by dots |
| Inventories.AppendUnseenMeaning | src-tauri/src/selection.rs:89-107 | The inventory keeps what it begins with, never repeats an id and contains every id |
| Inventories.AppendTakesFirsts | src-tauri/src/selection.rs:89-107 | What is appended comes in its own order, and of entries with one id the first |
| Inventories.CutMeaning | src-tauri/src/selection.rs:108-109 | Cutting to 256 loses nothing of the front, and the omitted count is exact and positive only when the inventory is full |
| Inventories.Extend | src-tauri/src/selection.rs:89-107 | The loop appends exactly the entries whose ids have not been seen |
| Selection.CandidateIsEntry | src-tauri/src/registry/activation.rs:70-76 | With one release for each mod the entry a dependency is routed to is that of the selected release |
| Selection.RequiredComeBefore | src-tauri/src/registry/activation.rs:67-82 | Whatever a selected mod lists as required is active and earlier in the order, filtered content mods notwithstanding |
| Selection.RequiredAreDistinct | src-tauri/src/registry/activation.rs:67-82 | No requirement is listed twice and the list fits the validator's bound |
| Selection.ReleaseRootsApart | src-tauri/src/registry/activation.rs:9-15 | Roots of releases of different mods never overlap, whatever their numbers and ids |
| Selection.RootsAreApart | src-tauri/src/mods/local.rs:93-96 | Roots of one document overlap only when two local builds have one digest |
| SelectionDocuments.DocumentFits | src-tauri/src/selection.rs:41-113 | The merged document meets every structural clause of the validator exactly when no local digests collide |
| SelectionDocuments.RegistryDocumentFits | src-tauri/src/registry/activation.rs:17-98 | The registry part always meets them |
| SelectionDocuments.LocalDocumentFits | src-tauri/src/mods/local.rs:36-134 | The local part meets them exactly when no local digests collide |
| SelectionDocuments.DocumentListsAll | src-tauri/src/selection.rs:89-109 | Listed and omitted entries together are every id that is active, in the library or installed as code |
| SelectionDocuments.SubIsSettled | src-tauri/src/selection.rs:28-40 | Each kind of an effective order is by itself an accepted selection in effective order |
| SelectionContents.DocumentIsDescribed | src-tauri/src/registry/activation.rs:17-98 | Of each code reference, in the effective order, the document has one mod with its own id, source and root, the entry and type its installation or layout names, the selected code releases among its dependencies or the mods its manifest requires, and each prepared file with its own path and digest; its inventory entry has the name and version of the library |
| SelectionContents.InventoryIsShown | src-tauri/src/selection.rs:89-109 | After the active mods the inventory goes on with the rest of the library and then the rest of what is installed as code, every id once and the first of it; 256 are shown and the others counted |
| SelectionContents.SizesAdd | src-tauri/src/registry/activation.rs:53-66 | Sizes are added up file by file and mod by mod |
| ActivationRequest.RouteDependencies | src-tauri/src/registry/activation.rs:67-82 | The requirement list is exactly the routed dependencies, content left out, in order |
| ActivationRequest.RequestRegistry | src-tauri/src/registry/activation.rs:17-98 | Produces the registry part exactly when releases are accepted, usable, within the byte limit and the document is valid |
| ActivationRequest.RequestLocal | src-tauri/src/mods/local.rs:28-112 | Produces the local part exactly when builds are in the library, accepted, usable, within the limit and the document is valid |
| ActivationRequest.MergeLoop | src-tauri/src/selection.rs:52-88 | Taking active mods out of the map in order merges both parts in the mixed order; each inventory look-up finds its entry |
| ActivationRequest.TakeEntry | src-tauri/src/selection.rs:76-84 | The inventory entry of every active mod survives the cut of its own part |
| ActivationRequest.RequestSelection | src-tauri/src/selection.rs:11-114 | Returns the merged document exactly when the selection is ready, and no other document; it describes each selected code reference as the library does, files and digests place by place, shows the whole inventory, and is never made of a build that is blocked, unprepared or refused |
| SelectionTheorems.SelectionMeaning | src-tauri/src/selection.rs:11-114 | A selection becomes a document exactly when it has an order, keys are not shared, builds are usable, sizes and texts are in bounds and digests do not collide |
| SelectionTheorems.RequestIsStable | src-tauri/src/selection.rs:116-123 | Asking again with the effective order gives the same document |
| SelectionTheorems.SelectionLoads | runtime/Starframe.Runtime/ActivationSession.cs:117-169 | When no mod fails by itself every selected reference that carries code loads in the game |
| ActivationSession.Session.Attempt | runtime/Starframe.Runtime/ActivationSession.cs:119-166 | One mod: it is reported as loaded exactly when its requirements have loaded and nothing of it fails, as skipped, invalid, unsupported or failed exactly in their cases; calls made to its code, and what is kept for the end |
| ActivationSession.Session.Activate | runtime/Starframe.Runtime/ActivationSession.cs:42-184 | Once in a process and only for a valid document; one report for each mod in order, saying of each exactly whether it loaded, was skipped, has an invalid payload, is unsupported or failed; and exactly the calls its behaviour asks for, in the order of the mods |
| ActivationSession.Session.Dispose | runtime/Starframe.Runtime/ActivationSession.cs:254-258 | What was kept is shut down from the last to the first, once |
| ActivationSession.LoadedSettles | runtime/Starframe.Runtime/ActivationSession.cs:126-149 | The loaded mods are exactly those that work and whose requirements are all loaded |
| ActivationSession.SettlesOnce | runtime/Starframe.Runtime/ActivationSession.cs:126-149 | No other set of mods has that property |
| ActivationSession.OrderDoesNotMatter | runtime/Starframe.Runtime/ActivationSession.cs:117-149 | Every valid order of the same mods loads the same set |
| ActivationSession.AllLoad | runtime/Starframe.Runtime/ActivationSession.cs:126-149 | No mod is held back unless one fails |
| ActivationSession.ReportsTell | runtime/Starframe.Runtime/ActivationSession.cs:119-168 | The report of each mod says loaded exactly when it is in the one set that settles, skipped exactly when a requirement is not, and each kind of failure exactly in its own case |
| ActivationSession.TraceCalls | runtime/Starframe.Runtime/ActivationSession.cs:138-166 | An overlay is applied, an instance initialised and a failing one stopped exactly in their cases, mods in their order and the stop after the initialisation |
| ActivationSession.PushedStay | runtime/Starframe.Runtime/ActivationSession.cs:154-158 | Kept for the end are exactly the loaded instances that can be stopped, in the order of the mods |
| ActivationSession.ShutDownOnce | runtime/Starframe.Runtime/ActivationSession.cs:157-165 | From activation to disposal each instance that can be shut down is shut down exactly once, and one never made is not |
| ActivationSession.NoOtherIsShutDown | runtime/Starframe.Runtime/ActivationSession.cs:157-165 | Nothing that is not listed is ever shut down |
| ActivationSession.FailureStopsAtOnce | runtime/Starframe.Runtime/ActivationSession.cs:161-165 | Among all calls up to disposal those of a failing instance are its initialization, if any, and right after it its shutdown, at its turn and at no other time |
| ActivationSession.DependentsFirst | runtime/Starframe.Runtime/ActivationSession.cs:254-258 | Of two loaded mods the later one is shut down first, so dependents go before requirements |
| ActivationSession.RunsAfterRequirements | runtime/Starframe.Runtime/ActivationSession.cs:126-158 | Code of a mod runs only after each requirement has run and loaded |
| Requirements.Walk.Require | src-tauri/src/mods.rs:381-412 | Ends on every source set; succeeds exactly when no chain of requirements lacks metadata or meets a mod twice; the result is all that is needed, each after its own requirements, the asked build last |
| Requirements.ResolvableAbove | src-tauri/src/mods.rs:386-400 | A build can be resolved when it is complete and all it asks for can be, with its own id out of bounds |
| Requirements.NeedsStep | src-tauri/src/mods.rs:396-399 | What is needed is the build itself and what its requirements need |
| Requirements.SiblingsMayConflict | src-tauri/src/mods.rs:402-407 | A build that can be resolved may need two builds of one mod |
| Requirements.Enable | src-tauri/src/mods.rs:335-355 | Succeeds exactly when no needed build meets another build of its mod; other entries keep their places, only the asked build replaces one |
| Requirements.EnableNeeded | src-tauri/src/mods.rs:334-355 | From sources to the new list: what a build needs can join exactly when the build can be resolved and no other build it needs meets a different build of its mod, in the collection or among its needs; then all it needs is in the list in exact builds and other entries keep their places |
| Enabling.SetEnabled | src-tauri/src/mods.rs:320-362 | A mod of the library is enabled exactly when what it needs can join, the new list is a selection that becomes a document, and each of its artifacts is as recorded; disabling takes out that entry and moves no other |
| Requirements.EnabledIsClosed | src-tauri/src/mods.rs:334-357 | Afterwards every needed build has its exact requirements enabled |
| Sharing.StepKeepsInv | src-tauri/src/sharing.rs:154-521 | Every step of every actor keeps: an attached operation works on the entry's content and serves no other entry, a ready entry belongs to an operation that has been completed |
| Sharing.Ownership | src-tauri/src/sharing.rs:206-218 | A preparing entry without an operation is moved only by the online task, one with an operation or pending only by the worker, and either by a restart |
| Sharing.BecomesReady | src-tauri/src/sharing.rs:464-475 | An entry becomes ready only through the worker, from preparing, and only when its attached operation is recorded or held as completed |
| Sharing.BecomesAttending | src-tauri/src/sharing.rs:499-506 | An operation is attached in the step that starts it, to the waiting entry of its content |
| Sharing.FinishedWasCompleted | src-tauri/src/packages.rs:384-492 | What counts as finished was recorded or held as completed in some state of the run |
| Sharing.ReadyIsEarned | src-tauri/src/sharing.rs:440-521 | In every run each ready entry had an operation started for its content, kept it until it was completed, and was then made ready by the worker |
| SharingService.Service.Plan | src-tauri/src/sharing.rs:171-202 | Exactly the missing, unblocked, unresolved releases are taken up and asked for in their order, all in one write; it happens unless that write fails |
| SharingService.Service.GiveUp | src-tauri/src/sharing.rs:203-218 | Only the first waiting entry of that release becomes unresolved |
| SharingService.Service.Install | src-tauri/src/sharing.rs:219-269 | An operation is attached only to the first waiting entry, and only when it could start; without a saved entry nothing changes in the import; when nothing stands against it and no write fails it begins, and it is put off exactly while nothing can start |
| SharingService.Service.Retry | src-tauri/src/sharing.rs:381-419 | An import begins again exactly when nothing in it is pending or preparing and the write succeeds |
| SharingService.Service.PollEntry | src-tauri/src/sharing.rs:448-512 | An attended entry is settled exactly when its operation is over; a pending one waits exactly while nothing can start, otherwise its verification runs, unless the content is gone, blocked or cannot be verified or the new operation could not be recorded; when no write fails it does run |
| SharingService.Service.Poll | src-tauri/src/sharing.rs:440-521 | Every entry of every import becomes ready, preparing, pending or unresolved exactly for its reasons, and the whole poll is one step of the worker even when a write fails; when none fails it completes |
| SharingService.PolledBecomes | src-tauri/src/sharing.rs:440-521 | Ready is what was, or what completed and is there unblocked; preparing is what has not begun, is at work or begins now with its own running operation; pending is what nothing can start for even at the end; and nothing pending is given up unless it is gone, blocked, cannot be verified or could not be recorded |
| SharingService.Service.Reopen | src-tauri/src/sharing.rs:423-438 | A completed reopening leaves nothing running, pending or preparing: what was running is recorded as failed, unfinished imports are stopped, and what was ready or over is as it was; it completes unless a write fails |
| SharingService.Service.Launch | src-tauri/src/packages.rs:247-258 | At most three operations run and none on content that is being worked on |
| SharingService.Service.Cancel | src-tauri/src/packages.rs:269-288 | Only a running operation is marked as being cancelled, in memory and, when the write succeeds, in the database; nothing else changes |
| SharingService.Service.Commit | src-tauri/src/packages.rs:384-492 | A cancellation wins over the answer of the worker, a pass completes and anything else fails; the operation leaves the queue exactly when that end is recorded, and then no other is changed; when no write fails it leaves, and a pass is recorded as completed |
| SharingService.Session | src-tauri/src/sharing.rs:154-521 | Any commands of the online task, the worker, the user and the queue, with failing writes and restarts, are one run of the state machine in which every entry that is ever ready was earned |
| Watch.Worker.Update | src-tauri/src/packages/watch.rs:152-173 | Exactly the listed mods are watched; an unchanged source goes on as it was unless watching is resumed, and any other starts anew without a candidate |
| Watch.Worker.Observe | src-tauri/src/packages/watch.rs:174-184 | Each source whose signal is heard loses its candidate and waits the quiet period from then; the others are untouched |
| Watch.Worker.Conclude | src-tauri/src/packages/watch.rs:215-259 | A reading makes a candidate and an event exactly as the source, its candidate and what was found demand: an error when the files cannot be used or are of another mod, watching when the build is unchanged, settling when it changed or is new, and the build itself when it is the one waited for; and sets when the source is due again |
| Watch.Worker.Read | src-tauri/src/packages/watch.rs:188-262 | Nothing is read before its time; the source that has been due longest is read, its event is the one its state and the files demand, and the others are untouched |
| Watch.Worker.Run | src-tauri/src/packages/watch.rs:135-264 | The turns answer the ticks one by one from the sources at hand, each beginning when the last ended, until there is a reason to end; what others received are the events of these turns |
| Watch.Work | src-tauri/src/packages/watch.rs:120-264 | A worker that starts with nothing, whatever it meets: every build it hands over has settled so, every event is the one its source and the files demand, and others receive just the events of its turns |
| Watch.CandidateWasFound | src-tauri/src/packages/watch.rs:236-252 | Every candidate was found in an earlier turn and its source left alone since |
| Watch.RunSays | src-tauri/src/packages/watch.rs:214-259 | In every run the event of each turn, status by status, and what is waited for next are what the source that was read, its candidate and the files demand |
| Watch.ReadyWasSettled | src-tauri/src/packages/watch.rs:236-239 | A build handed over in a turn was found by a reading of the same source in an earlier turn that ended at least the quiet period before the copy began; in every turn since, the source was listed, watching was not resumed, no change signal of it was heard, and it was not read; and the copy found the same build, undisturbed |

## Left out

- Temporary files and created directories: the code leaves fresh temporary names and directories behind after a crash, and the claims about the directory do not speak of them.
- Deployment.Installation.Replace: the last digest check and the rename, and the digest check and the removal, are one step; an edit by others between the two, which the code allows also while it asks the guard before a removal, is not modelled.
- Deployment.Installation.Apply: disk-space checks, path pins, reparse-point checks and other guards are arbitrary answers; the record's size limit is part of a save that may fail; the journal's random id is left out; paths are visited in any order where the code uses sorted order. A wanted path that clashes by case, or as a directory, with a file of the base or of the old deployment counts as a guard that refuses, so `Deployable` does not speak of it.
- Deployment.Installation.Remove: the check for other plugins that need the loader is an arbitrary answer.
- The bootstrap payload, its total-size wrapper and the preparation of the game before a launch: thin callers of the deployment.
- Versions.ParsePrint: characters are ASCII as in the grammar; other text is rejected by the code and by the model alike, by character and not by byte.
- RegistryOrder.ResolveRegistry: preference notes and messages, which never influence an order.
- MixedOrder.ResolveMixed: checks of manifests on text, layout and path are one answer for each manifest; advisory notes are left out.
- ActivationDocument.Check: starts from decoded documents; JSON syntax, nesting, the one-mebibyte document limit and the decimal revision are left out. A content id stands for the lines it digests.
- ActivationRequest.RequestLocal: the shortcut for an empty list is not separate, because the general path gives the same document.
- ActivationRequest.RequestSelection: whether prepared files fit what a build declares, and whether an archive is blocked, are answers of the library; database errors are left out; sizes are unbounded numbers.
- ActivationSession.Session.Activate: loading assemblies and hashing files are one answer for each mod; messages and logging are left out; a shutdown that throws is logged by the code and counts as made.
- ArchiveTable.CheckEntries: decompression, sizes and digests of entries; the tables are modelled up to the first byte written.
- Requirements.Walk.Require: an unfinished walk leaves ids marked, as in the code, and nothing is claimed about them.
- SharingService.Service.Install: signatures and the registry transfer are opaque; starting a job is one answer.
- SharingService.Service.Advance: a registry job may report any progress and may be dropped at any time, but completes only if its work passed.
- SharingService.Service.PollEntry: messages are left out; which records are recent enough to be listed is arbitrary.
- Enabling.SetEnabled: the stored revision and the artifacts on disk are answers; saving the new list may fail besides.
- Watch.Worker.Run: signals that arrive while notifications are being reopened are unseen by the code and by the model; reading files is one answer; of sources due at the same time any may be read first.
- The watcher's bounded channels and the pending-resume flag of its owner: hand-over only.
- Capabilities and report documents, the receipt protocol, update back-off, accounts, launching, and the user interface: input and output or simple checks.
