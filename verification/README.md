# codergag: a verified model of its core

codergag keeps a graph of a code base (files, functions, notes, cache entries) and answers
questions about it. This project models its most intricate parts and states what they
guarantee for every input, every history and every interleaving:

- **Architecture layers** (`Components`, `Layers`): Tarjan's algorithm as the recursive closure
  over `index`, `low`, `on`, `stack` and `out`, and the memoised layer numbers on top of it.
- **Journalled graph store** (`Store`, `Identity`, `Absorption`, `Outcome`, `Operations`, `Growth`,
  `LocalRuns`, `Processes`, `ModestRuns`, `SavedNodes`, `SavedIdentities`, `CacheCoherence`,
  `StaleCache`, `RepoState`, `NodeCache`, `Repository`): a shared file, one journal per process,
  reads that merge the journal into an already merged cache, saves under a lock, and a bounded cache
  of nodes in front. `Store` to `StaleCache` are about values and histories of N processes;
  `RepoState`, `NodeCache` and `Repository` are the mutable objects, whose methods are proved to be
  steps of those histories, for journal and file as for the node cache.
- **Query index** (`Memory`, `QueryIndex`): ten derived maps that must agree with a plain scan
  of the in-memory store, guarded by a generation counter.
- **Call edges** (`CallRule`, `Calls`, `EdgeSync`, `CallGraph`): resolving recorded call names and
  synchronising CALLS edges.
- **Analyses** (`EditDistance`, `Reachability`, `Cycles`, `ImportCycles`, `CallerRanking`).
- **Run-time state machines** (`Worker`, `Paging`, `Purge`, `ExactCache`, `ContextPipeline`,
  `ContextRanking`, `Rings`, `Hooks`).

Conventions. Methods are proved against functions and predicates of the model; the sections headed
"the same, field by field" (or read off the nodes, row by row) say what these mean in plain fields,
without the functions. Iterating a Go map is a loop that picks any remaining key, so results hold for
every iteration order. `Order` holds the order of Go strings, `sort.Strings` by its contract, and common helpers.
Fresh ids, timestamps, the language table of `langGroup`, lower-casing, the hash of a cache key,
the expiry clock, the shaping and token estimate of rows, and the outcome of an indexing call are
parameters; ids are assumed fresh where the program draws a UUID. Strings are sequences of
characters, and property values are compared as values. A file replacement is atomic and its
stamp always changes; the file lock makes a save one step.

## What the proofs showed about the code

- Merging the journal into the already merged cached state equals merging it into the file in
  every history, whatever the identities (`Absorption.MergeAbsorbs`), as long as each pending node
  lands under its own id. It does **iff** it has no rival: no other node carries its kind and
  identity, as stored, or as pending when it is written before the lookup index is built
  (`Identity.StaysIff`). Over runs of any operations, reads through the cache and from the file
  agree and show every pending node iff there never is a rival (`LocalRuns.RunAgreesIff`). In a
  run, or a history of any processes, no pending node ever has the identity of another one iff no
  operation takes an identity of another node and no save stores one that is pending elsewhere; then
  no read meets a rival (`ModestRuns.RunUnrivalledIff`, `ModestRuns.HistoryUnrivalledIff`).
- Three ways a rival comes about, each with its input: another process stores a node of the same
  identity (`LocalRuns.MovedExample`), a stored node is renamed to it (`LocalRuns.RenameExample`),
  or a stored node is renamed away from it before a node is created under the old name, which is
  then lost even on saving if its id comes first (`LocalRuns.RenamedAwayExample`).
- Two nodes of one identity can get into the file: two processes do it from an empty file
  (`SavedIdentities.TwoProcessesDuplicate`), and one process does it by renaming a stored node to
  the name of another (`SavedIdentities.RenameDuplicates`). A save leaves one node per identity
  exactly when no two nodes end with one, where a stored node ends as its pending change or as the
  new snapshot that lands on it, and a new node ends as itself unless it lands elsewhere
  (`SavedNodes.SaveUniqueIff`, for the saves that move a snapshot under conditions named below);
  when nothing lands elsewhere these are the unchanged stored nodes and the pending ones, with no
  further condition (`SavedNodes.UnmovedUniqueIff`). For every save, `SavedNodes.AnySaveUniqueIff`
  says the same given where its snapshots landed. If stored nodes keep
  their identities, it means that no two new snapshots have an identity that no stored, undeleted
  node has (`SavedIdentities.SaveKeepsUniqueIff`).
- What a save does to nodes and edges needs only that edge ids are not handed out twice, however
  many reads met a rival (`Processes.EverySaveDoes`).
- As long as no read meets a rival, the node cache of a process falls behind the file only by
  another process saving (`CacheCoherence.CacheAlwaysCoherent`; at an input,
  `StaleCache.SaveLeavesStale`).
- A failed pass over the whole repository puts nothing back. It loses exactly the reports it alone
  kept (`Worker.StepKeepsIff`, reached in `Worker.FailedFullPassLoses`), and they are kept again
  exactly by a report of the file, an overflow, a later pass over everything, or a partial batch
  put back (`Worker.RegainsIff`). A request made during a pass does not cause another pass by
  itself (`Worker.AgainDoesNotLoop`).
- An exact counter of cache entries stays exact over a store that does not purge iff the entry was
  known or its tool name is not reserved (`ExactCache.CacheManager.StoreExactCache`); nothing keeps
  callers from a reserved name, which makes it too high (`ExactCache.StoreCountsReserved`). It stays
  exact over an invalidation or a flush iff no reserved (privacy) entry went or no regular one is
  left (`ExactCache.ForgetExact`, `ExactCache.CacheManager.Flush`); else it is too low
  (`ExactCache.InvalidateForgetsRegular`).
- `suggest` depends on map order exactly when two known names equal the wanted one up to case.
- `ResolveCalls` reconciles targets only: a kept edge keeps its confidence. Which own edges stay
  depends on the order of the neighbours exactly when a wanted target has two edges, one of them
  own (`EdgeSync.KeptIgnoresOrderIff`); the targets do not.

## Model

| member | source | states |
|---|---|---|
| `Components.Sccs` | internal/services/architecture.go:38-84 | the components list exactly the vertices reachable from the given nodes, each once; members reach each other; every edge leads to the same or an earlier component |
| `Components.SameComponentIffMutual` | internal/services/architecture.go:38-84 | two listed vertices share a component iff each reaches the other |
| `Components.ComponentsPartitionNodes` | internal/services/architecture.go:38-84 | if every successor is a listed node, the components partition the nodes: nothing outside, nothing missing, nothing twice |
| `Components.TogetherIffMutual` | internal/services/architecture.go:63-76 | for any list in reverse topological order with strongly connected members, sharing a component and mutual reachability coincide |
| `Components.Tarjan.Visit` | internal/services/architecture.go:45-77 | one call of the recursive closure keeps the search invariant, extends `index`, `stack` and `out`, and leaves `low[v]` meaning: v closed its component, or leads to the vertex with that number still on the stack |
| `Components.Tarjan.Open` | internal/services/architecture.go:46-49 | numbering and pushing a vertex keeps the invariant that everything on the stack leads to an open call |
| `Components.Tarjan.HandleSuccessor` | internal/services/architecture.go:55-62 | either branch of the loop body keeps what `low[v]` knows about the successors handled so far |
| `Components.Tarjan.CloseComponent` | internal/services/architecture.go:63-76 | the popped part of the stack is emitted sorted, with exactly the vertices from v upwards, and the flags and stack are those below v |
| `Components.LoopExitPopping` | internal/services/architecture.go:63-76 | with low[v] == index[v] the popped vertices are a strongly connected set closed under edges to earlier components, so emitting them keeps the order of components |
| `Layers.LayersOf` | internal/services/architecture.go:182-212 | every component gets exactly the length of the longest chain of components it depends on |
| `Layers.CompOf` | internal/services/architecture.go:184-189 | each module is mapped to the position of the component that lists it |
| `Layers.Layering.Resolve` | internal/services/architecture.go:193-207 | terminates, keeps every memo entry right, and yields the longest chain below the component |
| `Layers.Layering.FoldDependencies` | internal/services/architecture.go:198-204 | after module m the running maximum accounts for exactly the components m and earlier modules depend on |
| `Layers.DependsOnEarlier` | internal/services/architecture.go:192-203 | a dependency of a component is an earlier component, which is why the recursion terminates |
| `Layers.LongestUnique` | internal/services/architecture.go:193-207 | a component has only one longest chain length |
| `Layers.LayersAbove` | internal/services/architecture.go:208-212 | each layer number is strictly above those of all components it depends on |
| `Layers.LayersTight` | internal/services/architecture.go:208-212 | a component above layer 0 is exactly one above some component it depends on |
| `Layers.LayerNumbersUnique` | internal/services/architecture.go:182-212 | being above and tight determines the layer numbers |
| `EditDistance.Distance` | internal/services/docs_check.go:94-112 | the two-row table computes the recursively defined Levenshtein distance |
| `EditDistance.NextRow` | internal/services/docs_check.go:99-110 | the outer loop body turns row i-1 of distances between prefixes into row i |
| `EditDistance.DistanceIsLeastCost` | internal/services/docs_check.go:94-112 | the distance is the least cost of any edit script from one name to the other: some script has it and none is cheaper |
| `EditDistance.Compose` | internal/services/docs_check.go:94-112 | two scripts in a row fuse into one that costs no more than both |
| `EditDistance.ZeroIffEqual` | internal/services/docs_check.go:94-112 | distance zero means equal names, and conversely |
| `EditDistance.Symmetric` | internal/services/docs_check.go:94-112 | the distance is symmetric |
| `EditDistance.Triangle` | internal/services/docs_check.go:94-112 | the distance meets the triangle inequality |
| `EditDistance.Bounds` | internal/services/docs_check.go:94-112 | the distance lies between the difference of the lengths and the longer length |
| `EditDistance.Suggest` | internal/services/docs_check.go:167-185 | whatever the order of the map: an equal name up to case if there is one, else the nearest long name under a fifth of the length with ties by name, else nothing |
| `EditDistance.AnswerIff` | internal/services/docs_check.go:167-185 | the answers allowed are exactly those the loop gives for some order of the map |
| `EditDistance.SuggestOrderIndependent` | internal/services/docs_check.go:167-185 | all orders of the map lead the loop to the same answer iff at most one known name equals the wanted one up to case |
| `Store.MergeKeepsSound` | internal/graph/persistent.go:668-791 | whatever node each snapshot lands on, merging a journal leaves every edge under its own id with both ends stored |
| `Store.SnapshotIsWritten` | internal/graph/persistent.go:726-744 | a snapshot that shares its target with no other is stored there, with the creation time of a node it replaces |
| `Store.OtherNodesUnchanged` | internal/graph/persistent.go:669-744 | a node that is no target is stored afterwards iff it was before and was not deleted, unchanged |
| `Store.AddAllGrows` | internal/graph/persistent.go:756-790 | adding edges removes none and adds only redirected new ones |
| `Store.MergeSettlesEdges` | internal/graph/persistent.go:746-790 | a stored edge stays unchanged if neither it nor one of its ends is deleted, whatever else is; any other edge afterwards is a new one, redirected; every new edge is stored, equal to a stored one, or lacks an end; also for a state that already holds some of the new edges |
| `Outcome.MergeDoes` | internal/graph/persistent.go:668-791 | told field by field, whatever the targets: which nodes are stored and that untouched ones stay, what a written snapshot keeps of itself and of the node it replaces, that a stored edge goes exactly if it or an end is deleted, and that each new edge is stored between the nodes its ends landed on, equal to a stored one, or without an end |
| `Outcome.PlainDoes` | internal/graph/persistent.go:629-651 | the file with the journal is that outcome with every pending node under its own id |
| `Outcome.StoredStays` | internal/graph/persistent.go:683-744 | a snapshot whose id is stored and not deleted, or that has no identity, is written at its own id |
| `Outcome.LoneLands` | internal/graph/persistent.go:683-744 | the only snapshot of a journal, new and with an identity, lands on a stored, undeleted node of its kind with all identity values if there is one, else it stays |
| `Identity.StaysIff` | internal/graph/persistent.go:676-744 | every outcome of the lookups leaves every pending node under its own id iff no snapshot that is looked up has a rival: another node that carries its kind and identity, as stored, or as pending when it is written before the index is built |
| `Identity.RivalMoves` | internal/graph/persistent.go:720-744 | and without empty ids a rival always moves a snapshot, whichever node the index happens to hold |
| `Identity.UnrivalledStays` | internal/graph/persistent.go:720-744 | that holds in particular if no other stored or pending node carries the identity of a snapshot that is not stored under its id, whatever its properties |
| `Identity.MovedIsGone` | internal/graph/persistent.go:733-743 | a moved snapshot leaves no node under its own id |
| `Absorption.UnmovedIsPlain` | internal/graph/persistent.go:668-791 | a merge that moves no snapshot is the file with the journal: deletions gone, pending nodes laid over under their own ids, new edges added in id order |
| `Absorption.ReadsArePlainIff` | internal/graph/persistent.go:629-651 | every possible outcome of a read is the file with the journal iff no pending snapshot has a rival |
| `Absorption.RivalAlwaysHides` | internal/graph/persistent.go:720-744 | with a rival every read hides some pending node |
| `Absorption.AddAllTwice` | internal/graph/persistent.go:746-790 | adding the new edges again to a state that already holds some of them gives the same edges |
| `Absorption.PlainSound` | internal/graph/persistent.go:668-791 | the file with the journal has every edge under its id with both ends |
| `Absorption.MergeAbsorbs` | internal/graph/persistent.go:629-651 | merging a grown journal into the already merged state equals merging it into the file, nodes and edges; no condition on identities is needed for this |
| `Growth.OpKeepsGrown` | internal/graph/persistent.go:351-558 | any upsert or link that reads the file with the journal, and any removal, leaves a journal the absorption law applies to |
| `Growth.UpsertUnrivalledIff` | internal/graph/persistent.go:351-397 | after an upsert still no identity is shared iff its node takes no identity of another pending node and, when it is new, none that a node changed here has in the file |
| `Growth.RemovalKeepsUnrivalled` | internal/graph/persistent.go:517-540 | a removal never makes identities shared |
| `LocalRuns.RunAgreesIff` | internal/graph/persistent.go:629-651 | in every run of any operations, up to any point: reads through the cache and from the file agreed and showed every pending node under its own id iff no pending snapshot had a rival in either |
| `LocalRuns.AbsorbsIff` | internal/graph/persistent.go:629-651 | while nothing was created since the cache was read: all reads agree iff no snapshot has a rival in the file, and otherwise no read of the file agrees with any read through the cache |
| `LocalRuns.MoveBreaksAbsorption` | internal/graph/persistent.go:647-650 | a snapshot moved onto another node and then removed under its local id: every later read through the cache shows its content there, no read of the file does |
| `LocalRuns.MovedExample` | internal/graph/persistent.go:629-651 | a file and a journal for which that happens: two processes create a node of one title |
| `LocalRuns.RenameExample` | internal/mcp/handlers.go:330-343 | one process creates a node and renames a stored one to its name: reads through the cache show the new node, a read of the file writes it over the renamed one |
| `LocalRuns.RenamedAwayExample` | internal/graph/persistent.go:720-744 | a stored node is renamed and a node is created under the old name: the new node is lost in every read and save when its id comes first |
| `Processes.DiskAlwaysSound` | internal/graph/persistent.go:1157-1196 | in every interleaving of any number of processes the file never holds an edge without its ends or under a foreign key |
| `Processes.StepAmongOthers` | internal/graph/persistent.go:351-558 | a step of a process alone with the file is its step among any number of others, which it leaves as they are |
| `Processes.StepOfItsOwn` | internal/graph/persistent.go:351-558 | every step of a process among others is one it could take alone with the file |
| `Processes.EdgesAlwaysApart` | internal/graph/persistent.go:426-474 | in every interleaving in which no edge id is handed out twice, the file and the journals of all processes share no edge id, whatever was read |
| `Processes.EverySaveDoes` | internal/graph/persistent.go:1157-1196 | so in every such interleaving every save does that: field by field the file afterwards is the file before without what is deleted, with the snapshots and the new edges of the journal, which is empty then, and the cache is the file |
| `Processes.SaveDoes` | internal/graph/persistent.go:1157-1196 | the same for one save, if no pending edge has the id of another stored one |
| `Processes.NextReadIff` | internal/graph/persistent.go:629-651 | whatever a process may read next is the file with its journal iff none of its snapshots has a rival in what it reads from |
| `Processes.ReadsSeeFilePlusJournal` | internal/graph/persistent.go:629-651 | in every interleaving of reads, upserts, links, removals, saves and refreshes of any number of processes: as long as no process read past a rival, every read was the file with the reader's journal, field by field too, and the next one is iff it meets no rival |
| `ModestRuns.RunUnrivalledIff` | internal/graph/persistent.go:351-397 | in every run no pending snapshot has the identity of another node, in the file or the cache, iff no operation takes one |
| `ModestRuns.ModestRunAgrees` | internal/graph/persistent.go:629-651 | so a run whose operations take none never meets a rival, and its reads through the cache and from the file agree throughout |
| `ModestRuns.HistoryUnrivalledIff` | internal/graph/persistent.go:351-558 | in every interleaving nothing pending in any process shares an identity iff no local operation takes one and no save stores one that is pending elsewhere; then no read is past a rival |
| `ModestRuns.ModestHistoryReads` | internal/graph/persistent.go:629-651 | in every such interleaving every read was the file with the reader's journal, and the next one will be |
| `SavedNodes.SaveEndsAs` | internal/graph/persistent.go:683-744 | whatever the order of lookups and map iterations: the nodes after a save, and the identities each has, are those read off file and journal before it |
| `SavedNodes.SaveUniqueIff` | internal/graph/persistent.go:683-744 | a save leaves at most one node per identity iff no two nodes end with one: stored ones as pending unless a new snapshot lands on them, new ones unless they land elsewhere |
| `SavedNodes.AnySaveUniqueIff` | internal/graph/persistent.go:683-744 | any save at all, given where its snapshots landed: at most one node per identity iff no two of the nodes it leaves have one, each as the last snapshot in id order that landed there, else as stored |
| `SavedNodes.UnmovedUniqueIff` | internal/graph/persistent.go:683-744 | a save in which no snapshot has a rival leaves at most one node per identity iff no two of the unchanged undeleted stored nodes and the pending ones have one |
| `SavedIdentities.DiskUniqueIff` | internal/graph/persistent.go:1157-1196 | in every interleaving of such saves the file never held two nodes of one identity iff in no save two nodes ended with one |
| `SavedIdentities.RenameDuplicates` | internal/mcp/handlers.go:330-343 | modules stored under two names, one renamed to the other: no snapshot is new or moves, and every save leaves two modules of one name |
| `SavedIdentities.SaveKeepsUniqueIff` | internal/graph/persistent.go:683-744 | if the pending changes of stored nodes keep their identities: a save leaves at most one node per identity iff each identity with two or more new snapshots has a stored node that is not deleted |
| `SavedIdentities.DiskIdentitiesUniqueIff` | internal/graph/persistent.go:1157-1196 | in every interleaving of such saves the file never held two nodes of one identity iff every save met that condition |
| `SavedIdentities.TwoProcessesDuplicate` | internal/graph/persistent.go:683-744 | a history of seven steps of two processes, from an empty file, after which the file holds two nodes of one identity |
| `RepoState.RepoState.MergeDeletions` | internal/graph/persistent.go:669-679 | a node is left iff it is not deleted, an edge iff neither it nor one of its ends is, all as they were |
| `RepoState.RepoState.Lookup` | internal/graph/persistent.go:677-718 | the answer is one the index of the kind and property names gives that was built for the first snapshot looked up in it |
| `RepoState.RepoState.WriteSnapshot` | internal/graph/persistent.go:727-743 | one snapshot is written at its own id, or over the node found by its identity, which is then recorded as its new id |
| `RepoState.RepoState.MergeDirty` | internal/graph/persistent.go:720-744 | all snapshots are written in id order at targets the lookup allows, and the recorded redirections are exactly those targets |
| `RepoState.RepoState.GroupEdges` | internal/graph/persistent.go:746-750 | every stored edge is listed under its kind and ends, and only there |
| `RepoState.RepoState.HasEqual` | internal/graph/persistent.go:772-782 | found iff some stored edge has the same kind, ends and properties |
| `RepoState.RepoState.AddNewEdge` | internal/graph/persistent.go:757-789 | one new edge is redirected, dropped without an end or as a duplicate, else stored, and the grouping kept |
| `RepoState.RepoState.MergeEdges` | internal/graph/persistent.go:746-790 | the edges afterwards are those of the pure merge, and sound if they were |
| `RepoState.WritesResolve` | internal/graph/persistent.go:720-744 | the recorded writes are a resolution of the snapshots in the sense of the pure merge |
| `NodeCache.Cache.Get` | internal/graph/persistent.go:83-92 | a hit returns the cached node and makes it the most recent |
| `NodeCache.Cache.Put` | internal/graph/persistent.go:94-111 | the order afterwards is the bounded recency list with the id touched; the new entry is there and no other entry changed |
| `NodeCache.Cache.Promote` | internal/graph/persistent.go:113-121 | the id moves to the end, the others keep their order |
| `NodeCache.Cache.EvictOldest` | internal/graph/persistent.go:123-130 | exactly the least recently used entry goes |
| `NodeCache.Cache.Remove` | internal/graph/persistent.go:132-142 | the id leaves nodes and order, nothing else does |
| `NodeCache.Cache.Clear` | internal/graph/persistent.go:204-211 | nothing is cached afterwards |
| `NodeCache.CacheIsEnd` | internal/graph/persistent.go:83-142 | after any sequence of uses, removals and clearings the cached ids are the last ones in the order of last use, at most as many as the bound |
| `NodeCache.CachedIff` | internal/graph/persistent.go:83-142 | an id is cached iff it was used, not removed since, and at no time since had as many ids as fit been used later and were still there |
| `NodeCache.EvictedWereOlder` | internal/graph/persistent.go:94-130 | whatever was used and not removed, but is not cached any more, was last used before everything that is |
| `Repository.PersistentRepository.MergeJournal` | internal/graph/persistent.go:668-791 | merging in place yields the pure merge for some resolution of the lookups, also told field by field, and keeps the state sound |
| `Repository.PersistentRepository.ReadEffective` | internal/graph/persistent.go:629-651 | a hit clones and merges; a miss caches the decoded file and merges into that same object; field by field what is merged |
| `Repository.PersistentRepository.FindNodeByIdentity` | internal/graph/persistent.go:403-424 | some node carrying the identity, or none if none does |
| `Repository.PersistentRepository.UpsertNode` | internal/graph/persistent.go:351-397 | updates one node of the kind that has all identity values, or creates one; given values win, other properties stay, the time of update is stamped; a created node has identity, given values and defaults where neither says anything; the journal and the node cache get this node and nothing else; one step of the shared-file model, for the node cache too |
| `Repository.UpsertMeans` | internal/graph/persistent.go:351-397 | every upsert of the histories does exactly that, property by property |
| `Repository.PersistentRepository.Link` | internal/graph/persistent.go:426-474 | the returned edge has the kind, the properties and the ends given, an empty end being any; if such an edge is there already the journal stays, else it gets exactly this one under the new id; the call is one step of the shared-file model |
| `Repository.LinkMeans` | internal/graph/persistent.go:426-474 | every link of the histories does exactly that |
| `Repository.PersistentRepository.FindEqualEdge` | internal/graph/persistent.go:439-463 | found iff some edge has the kind, the same properties and the ends, an empty end matching any; then one of those |
| `Repository.PersistentRepository.RemoveNodes` | internal/graph/persistent.go:517-540 | snapshots of the nodes, pending edges with an end among them and their cache entries go and the ids are marked deleted, nothing else changes; nothing is read; one step of the shared-file model, for the node cache too |
| `Repository.PersistentRepository.RemoveEdges` | internal/graph/persistent.go:542-559 | pending edges of these ids go and the ids are marked deleted, nothing else changes |
| `Repository.PersistentRepository.GetNode` | internal/graph/persistent.go:793-825 | a cached node as it is; else the merged node, or the pending snapshot, which is then cached; a miss is a read of the shared-file model, for the node cache too |
| `Repository.PersistentRepository.FindNodes` | internal/graph/persistent.go:827-863 | exactly the nodes of the merged state of the kind, any if empty, with all filter values, in id order; only they enter the cache; a read of the shared-file model, for the node cache too |
| `Repository.PersistentRepository.ReplaceFile` | internal/graph/persistent.go:1173-1188 | the merge of file and journal, field by field, replaces the file, moves its stamp and becomes the cached state |
| `Repository.PersistentRepository.Save` | internal/graph/persistent.go:1157-1196 | the file becomes file plus journal: stored nodes and edges stay unless deleted or touching a deleted node, the pending ones are there; the journal empties, the node cache is dropped; with an empty journal file, stamp, cached state and node cache stay; one step of the shared-file model, for the node cache too |
| `Repository.PersistentRepository.Refresh` | internal/graph/persistent.go:1134-1155 | with nothing pending and a changed file the cached state becomes the file and the node cache is dropped; else cached state, stamp and node cache stay; one step of the shared-file model, for the node cache too |
| `Repository.MethodsAreSteps` | internal/graph/persistent.go:351-558 | in a system in order no pending edge clashes with what is read from, so the methods are steps of the shared-file model |
| `Repository.CacheNeverClashes` | internal/graph/persistent.go:629-651 | a cached state holds a pending edge only as that very edge |
| `Repository.CachedReadIsMerge` | internal/graph/persistent.go:634-639 | what a read through a valid cache returns is the file merged with the journal |
| `Repository.FileReadIsMerge` | internal/graph/persistent.go:643-650 | what a read after a miss returns is the file merged with the journal |
| `CacheCoherence.OwnStepKeeps` | internal/graph/persistent.go:351-540 | every read, upsert, link, removal, save and refresh of a process, which the repository methods ensure to be such steps with any fill or eviction, keeps each of its cached nodes equal to the node of file plus journal |
| `CacheCoherence.CacheStepAmongOthers` | internal/graph/persistent.go:351-540 | what a step does to the node cache of a process alone with the file, it does among any number of others |
| `CacheCoherence.UpsertCoherentIff` | internal/graph/persistent.go:370-385 | right after an upsert the cached node is the one shown iff its "id" property names it |
| `CacheCoherence.CacheAlwaysCoherent` | internal/graph/persistent.go:793-825 | in every interleaving in which no other process changes the file, through any number of own saves, every cached node is the node of file plus journal |
| `StaleCache.SaveLeavesStale` | internal/graph/persistent.go:793-803 | a history in which a process looks up a module, another renames it and saves, and the first goes on seeing the old name in its node cache |
| `Memory.MemoryRepository.FindNodes` | internal/graph/memory.go:79-105 | exactly the nodes of the kind, any if empty, with all filter values, a missing one being nil, in id order |
| `Memory.MemoryRepository.UpsertNode` | internal/graph/memory.go:29-67 | the matching node with the least id gets the given values and the time of update and keeps its other properties, else a node is created with identity, given values over it, and id, creation time and project only where neither has them; other nodes and all edges stay; an invalid kind changes nothing |
| `Memory.UpsertMeans` | internal/graph/memory.go:29-67 | the contents after an upsert, property by property |
| `Memory.MemoryRepository.Link` | internal/graph/memory.go:107-124 | the returned edge has the kind, ends and properties given; it is a stored one if there is such, and then nothing is added, else the one new edge; an invalid kind changes nothing |
| `Memory.MemoryRepository.Neighbors` | internal/graph/memory.go:126-162 | each hit is a stored edge of the kind with the stored node at its other end, exactly as often as it belongs to the direction: a self-loop twice for both |
| `Memory.MemoryRepository.RemoveNodes` | internal/graph/memory.go:164-183 | the nodes and every edge touching them go, nothing else |
| `Memory.MemoryRepository.RemoveEdges` | internal/graph/memory.go:215-223 | exactly these edges go |
| `Memory.MemoryRepository.GraphSnapshot` | internal/graph/memory.go:241-255 | all nodes and edges in id order, with the generation they belong to |
| `QueryIndex.ScanIsRestriction` | internal/graph/query_index.go:331-433 | the scan of the project is the repository's own neighbour scan cut down to nodes of the project |
| `QueryIndex.ScanUnique` | internal/graph/query_index.go:477-484 | the sorted answer is unique, so index and scan are equal lists |
| `QueryIndex.IndexNodes` | internal/graph/query_index.go:167-186 | each node map lists exactly the project's nodes under each of their keys, once |
| `QueryIndex.IndexEdges` | internal/graph/query_index.go:192-210 | the four neighbour maps list exactly the hits of edges inside the project, once each |
| `QueryIndex.SortMaps` | internal/graph/query_index.go:212-238 | sorted, all ten maps agree with the scan |
| `QueryIndex.GraphQueryIndex.Rebuild` | internal/graph/query_index.go:81-106 | a ready index of the current generation, or a failed one with the old maps when there is no project |
| `QueryIndex.GraphQueryIndex.Refresh` | internal/graph/query_index.go:253-265 | nothing at all changes if the index is ready at the store's generation; else it rebuilds, or fails with everything but its state as it was |
| `QueryIndex.GraphQueryIndex.Invalidate` | internal/graph/query_index.go:267-272 | the index is stale under a new index generation; its maps and the store's generation it knows are untouched |
| `QueryIndex.GraphQueryIndex.StoreCallKeepsValid` | internal/graph/memory.go:29-223 | whatever any call of the store ensures is an event of the run, a change or a rejection, and leaves the index valid |
| `QueryIndex.GraphQueryIndex.Node` | internal/graph/query_index.go:274-285 | when ready and fresh, the node of the store iff its trimmed "project_id" is the project |
| `QueryIndex.GraphQueryIndex.Find` | internal/graph/query_index.go:287-329 | when ready and fresh: in id order, without repeats, exactly the nodes of the project whose kind is the key, or whose trimmed "name", "qualified_name" or "stable_id" is, or one of "path", "rel_path" and "file_id", by the lookup asked |
| `QueryIndex.KeysAre` | internal/graph/query_index.go:172-186 | which properties each lookup goes by |
| `QueryIndex.TrimIs` | internal/graph/query_index.go:511-514 | trimming takes off white space only, and leaves none at either end |
| `QueryIndex.TrimmedOnce` | internal/graph/query_index.go:511-514 | which determines the trimmed text |
| `QueryIndex.GraphQueryIndex.Neighbors` | internal/graph/query_index.go:331-433 | when ready and fresh, the sorted hits of the scan for the direction, by kind or all: stored edges between the node and another of the project |
| `QueryIndex.AlwaysInSync` | internal/graph/query_index.go:81-113 | in every sequence of store calls and index calls, each as its method ensures, a ready index at the store's generation agrees with the store |
| `QueryIndex.RefreshedAgrees` | internal/graph/query_index.go:253-265 | after any such sequence a refresh leaves all ten maps equal to the scan, also when it did nothing |
| `CallRule.PickIsBySet` | internal/services/calls.go:223-252 | the picked targets depend on the set of candidates only: those in the caller's file, else all linkable ones unless there are more than three |
| `CallRule.CallMeans` | internal/services/calls.go:51-70 | the targets of a recorded call are the functions whose owner, dot and name is the call and that the file rule chooses; only if it chooses none of them, those chosen among the functions named like the text after the last dot; 0.9 in the caller's file, 0.8 for a single one, 0.5 for two or three, times 0.8 iff the full name is known but was not chosen |
| `CallRule.LastNameIff` | internal/services/calls.go:59 | the bare name of a call: a function goes by it iff its name has no dot and is the call or follows a dot to its end |
| `CallRule.DesiredMeans` | internal/services/calls.go:50-76 | a function wants exactly the others that one of its recorded calls means |
| `Calls.PickTargets` | internal/services/calls.go:223-252 | the loops compute the rule |
| `Calls.BuildMaps` | internal/services/calls.go:33-48 | the three maps are the functions by name, by owner and name, and their paths |
| `Calls.ResolveCall` | internal/services/calls.go:51-72 | the targets of one recorded call and their confidence are its meaning: by owner and name, and only without such a choice by the bare name, at a lower confidence if the full name is known |
| `Calls.DesiredOf` | internal/services/calls.go:50-78 | the wanted targets are exactly what some recorded call means but the caller itself, each with the best rating of the calls that mean it |
| `CallRule.DesiredIgnoresOrder` | internal/services/calls.go:27-78 | the wanted targets do not depend on the order in which the functions are listed |
| `CallRule.DesiredAreFunctions` | internal/services/calls.go:49-78 | every wanted target is a function of the project |
| `EdgeSync.SyncEdgesAs` | internal/services/calls.go:89-113 | edges of other sources stay; afterwards there is at most one edge of this source per target, to wanted targets only, and every wanted target has an edge; new edges have the confidence of their target; if that held before, nothing changes |
| `EdgeSync.KeptIgnoresOrderIff` | internal/services/calls.go:90-104 | the same own edges stay in every order of the neighbours iff no wanted target has two edges, one of them own |
| `EdgeSync.SiftHits` | internal/services/calls.go:92-104 | the stale list holds only own edges, one own edge to each wanted target without another edge stays |
| `EdgeSync.LinkMissing` | internal/services/calls.go:108-112 | in any order, exactly one new stamped edge for each wanted target not taken care of |
| `EdgeSync.SyncedTargets` | internal/services/calls.go:84-113 | the targets are exactly the wanted ones and those of other sources, whatever was there before |
| `EdgeSync.SyncedUpToDate` | internal/services/calls.go:84-113 | without edges of other sources a synchronisation leaves nothing to do |
| `CallGraph.ResolveCalls` | internal/services/calls.go:27-80 | afterwards a function has a CALLS edge to a node exactly if one of its calls means it or an edge from another source led there; at most one tree-sitter edge to each, to wanted ones only; new edges carry the best rating; all other edges stay; an up-to-date store is not changed at all |
| `CallGraph.ResolvedMeans` | internal/services/calls.go:27-80 | that result edge by edge, from the reconciliation of each function |
| `CallGraph.FunctionsAre` | internal/services/calls.go:28-47 | the functions are the nodes of that kind in the project, with the name, owner, path and calls recorded on them |
| `CallGraph.ResolvedIsUpToDate` | internal/services/calls.go:16-19 | after a resolution without edges of other sources a second one has nothing to do |
| `ImportCycles.CircularDependencies` | internal/services/analysis.go:70-138 | for a limit of at least 1 nothing is reported iff no files of the project import each other in a circle; every list names, by path or else id, distinct files of the project each importing the next and the last the first; none repeats; at most `limit`; below the limit every cycle contains the closing edge of a reported one |
| `ImportCycles.ReportsLoops` | internal/services/analysis.go:75-138 | cycles of the adjacency lists are circles of IMPORTS edges between SourceFile nodes of the project |
| `ImportCycles.BuildGraph` | internal/services/analysis.go:75-91 | the adjacency lists are the import edges between files of the project |
| `Cycles.CycleSearch.Visit` | internal/services/analysis.go:98-132 | keeps the stack a path without repeats, finishes vertices after their successors except along closing edges of reported cycles, and restores the stack |
| `Cycles.CycleSearch.VisitNeighbours` | internal/services/analysis.go:127-129 | after the loop every edge of the vertex leads to a finished vertex or closes a reported cycle |
| `Cycles.CycleSearch.Report` | internal/services/analysis.go:102-120 | the stack from the vertex on is a real cycle, and after the call it is listed |
| `Cycles.CycleSearch.Run` | internal/services/analysis.go:134-137 | started at every vertex in any order, below the limit the reported cycles cover all cycles |
| `Cycles.PostOrderCovers` | internal/services/analysis.go:98-132 | a finishing order of all vertices leaves no cycle without an edge that closes a reported one |
| `Cycles.NothingIffAcyclic` | internal/services/analysis.go:92-138 | with that cover, nothing is reported exactly for acyclic graphs |
| `CallerRanking.HotPaths` | internal/services/analysis.go:170-222 | entries are Function nodes of the project with the exact number of other nodes from which a chain of CALLS edges leads to them, descending, at most `limit`, and no omitted function has more than a listed one |
| `CallerRanking.CallersAre` | internal/services/analysis.go:177-190 | what the search reaches is what chains of CALLS edges lead from |
| `CallerRanking.CountCallers` | internal/services/analysis.go:177-190 | the breadth-first search terminates and counts exactly the other nodes that reach the function through CALLS; none means no entry |
| `CallerRanking.SearchEnd` | internal/services/analysis.go:179-190 | when the queue is empty the visited nodes are the function and its transitive callers |
| `CallerRanking.SortDescending` | internal/services/analysis.go:200-206 | the exchange sort leaves a descending permutation of the array |
| `Worker.ProjectWorker.OnEvent` | internal/services/daemon.go:367-393 | an event of the project that names a change marks its file, or trips the overflow when the list is full, then asks for a pass; any other changes nothing |
| `Worker.ProjectWorker.TakeBatch` | internal/services/daemon.go:418-436 | without a request nothing happens; else the batch is everything after an overflow, the dirty files, each once, if indexing is incremental, and nothing otherwise; what was taken is not dirty any more |
| `Worker.ProjectWorker.RestoreDirty` | internal/services/daemon.go:491-497 | the files are dirty again, nothing else changes |
| `Worker.ProjectWorker.RunMaintenance` | internal/services/daemon.go:395-413 | a goroutine starts only if no pass is under way or asked for |
| `Worker.ProjectWorker.EndPass` | internal/services/daemon.go:468-475 | the request flag is cleared and reported once, if not stopped |
| `Worker.StepKeepsSlots` | internal/services/daemon.go:438-466 | no step makes the number of passes holding a slot differ from the slots used, or exceed the capacity |
| `Worker.StepKeepsIff` | internal/services/daemon.go:415-497 | a step of any goroutine loses a kept report of a worker that is not stopped iff it is the failure of a pass over everything that alone kept it; kept means dirty, behind the overflow flag, held by a pass that took its batch later, or indexed by one |
| `Worker.RegainsIff` | internal/services/daemon.go:415-497 | a lost report is kept again iff its file is reported again, the flag trips, a pass over everything takes its batch, or a failed partial batch with the file is put back |
| `Worker.KeptIff` | internal/services/daemon.go:367-497 | in every interleaving of all workers a report stays kept exactly as long as no such failure happens |
| `Worker.RunIsSafe` | internal/services/daemon.go:438-466 | in every interleaving of all workers at most MaxBackgroundJobs passes hold a slot, and only batches of single files wait to be put back |
| `Worker.NothingLost` | internal/services/daemon.go:448-458 | if no pass over everything failed, every report in every run is dirty, behind the flag, held, or indexed since |
| `Worker.FailedFullPassLoses` | internal/services/daemon.go:449-450 | a reachable state in which a failed pass over everything has lost two reports |
| `Worker.AgainDoesNotLoop` | internal/services/daemon.go:468-475 | a request noted during a pass does not make the goroutine loop: its next step ends it |
| `Worker.ReportDuringPassWaits` | internal/services/daemon.go:467-475 | a reachable state with a dirty file but no goroutine and no request |
| `Paging.ApplyBudget` | internal/mcp/shape.go:189-201 | the longest prefix that fits the budget, but never fewer than one row; cut iff something was dropped |
| `Paging.TotalIsSum` | internal/mcp/shape.go:189-201 | what is held against the budget is the sum of the tokens of the rows |
| `Paging.LongestIsUnique` | internal/mcp/shape.go:189-201 | there is only one such prefix |
| `Paging.LimitOf` | internal/mcp/handlers.go:23-37 | the given limit, 20 without a positive one, at most 200 (1000 for internal fetches) |
| `Paging.CallPaginated` | internal/mcp/tools.go:1041-1101 | too deep is refused; else the rows of the ranking from the offset on, as many as asked for or left, fewer only for the budget and never none, next_offset behind them, has_more iff rows remain, truncated iff the budget cut |
| `Paging.WalkAdvances` | internal/mcp/tools.go:1047-1094 | following next_offset, offsets strictly increase, so there are boundedly many pages |
| `Paging.WalkCovers` | internal/mcp/tools.go:1041-1101 | the pages joined are the ranking without gap or repeat, up to its end or to where the depth limit refuses |
| `Paging.WalkEnds` | internal/mcp/tools.go:1041-1101 | from every offset a walk exists and ends |
| `ExactCache.CacheManager.constructor` | internal/cache/cache.go:238-258 | the counter starts as the number of regular entries |
| `ExactCache.CacheManager.StoreExactCache` | internal/cache/cache.go:335-391 | the entry with this project, key and tool, the first by id, or a new one if there is none, holds the result with what it was computed from, marked valid; other nodes stay; a new one is counted and past the limit the graph is purged; an exact counter stays exact iff it was purged, the entry was known or the tool is not reserved; for other than reserved tools it stays bounded and, if exact, every project ends within the limit |
| `ExactCache.StoredMeans` | internal/cache/cache.go:350-376 | what an upsert of a result writes, property by property |
| `ExactCache.CacheManager.CheckExactCache` | internal/cache/cache.go:295-333 | a hit is the first entry with this project, key and tool, not marked stale or invalid and not expired; if it is not fresh it is removed and counted off; a miss means there is none; bound and exactness are kept |
| `ExactCache.CacheManager.PurgeExact` | internal/cache/cache.go:397-442 | per project at most n entries stay, each updated later than any removed one or at the same time with a smaller id, none is removed unless n stay, reserved ones stay, and the counter is exact |
| `Purge.PurgedDone` | internal/cache/cache.go:397-442 | that result read off kind, tool, project and time of update of the entries |
| `ExactCache.CacheManager.Invalidate` | internal/cache/cache.go:454-490 | exactly the entries of the project that have every property given go; an exact counter stays exact iff no reserved entry went or no regular one is left; it never exceeds the regular entries |
| `ExactCache.CacheManager.InvalidateByCommit` | internal/cache/cache.go:492-514 | exactly the project's entries of the commit go, with the same effect on the counter |
| `ExactCache.CacheManager.InvalidateByBinaryHash` | internal/cache/cache.go:516-538 | exactly the project's entries of the hash go, with the same effect on the counter |
| `ExactCache.CacheManager.Flush` | internal/cache/cache.go:608-627 | exactly the entries of the project go, and their number is returned; no regular entry of the project is left and no other project loses any; an exact counter stays exact iff no reserved entry went or no regular one is left |
| `ExactCache.CacheManager.StoreReserved` | internal/cache/cache.go:639-665 | a reserved entry is stored without touching the number of regular entries |
| `ExactCache.StoreCountsReserved` | internal/mcp/handlers.go:1124-1137 | in an empty graph, storing a result under a reserved tool name makes the counter one too high |
| `ExactCache.InvalidateForgetsRegular` | internal/cache/cache.go:444-490 | with a regular and a reserved entry, invalidating the reserved one makes the counter too low |
| `ExactCache.ForgetExact` | internal/cache/cache.go:444-452 | subtracting the number of removed entries keeps the counter bounded, and exact iff only regular ones went or none is left |
| `ExactCache.CutAll` | internal/cache/cache.go:414-432 | over all projects in any order, the removal list and the number remaining are those of a purge |
| `Purge.SortedNewestFirst` | internal/cache/cache.go:415-420 | sorted by update time, newest first, ties by id |
| `Purge.SplitOne` | internal/cache/cache.go:415-431 | cutting one more project keeps the split of all projects handled so far |
| `ContextPipeline.CompactBlocks` | internal/services/context.go:224-246 | the items are the first occurrences of all normalised non-empty items, in their sections, in order; no block is empty |
| `ContextPipeline.FirstsNoRepeats` | internal/services/context.go:232-239 | no kind and text is kept twice |
| `ContextPipeline.FirstsAreFirst` | internal/services/context.go:230-239 | every kept item is normalised and the first with its kind and text |
| `ContextPipeline.FirstsCover` | internal/services/context.go:230-239 | the joined key of every input with text is the key of something kept |
| `ContextPipeline.NothingLostIff` | internal/services/context.go:230-239 | every kind and text of the input is kept iff no two inputs differ only in where the zero character that joins kind and text stands |
| `ContextPipeline.KeyDetermines` | internal/services/context.go:232 | kinds without a zero character make the joined key tell kind and text apart |
| `ContextPipeline.FieldsOfJoin` | internal/services/context.go:230 | joining words and splitting again gives the words, so normalising twice changes nothing |
| `ContextPipeline.FieldsSplit` | internal/services/context.go:230 | white space separates the words before it from those after it |
| `ContextPipeline.FieldsWord` | internal/services/context.go:230 | a text without white space is its only word; both together say what the words of any text are |
| `ContextPipeline.CompactIdempotent` | internal/services/context.go:224-246 | compacting compacted blocks changes no item |
| `ContextRanking.RankBlocks` | internal/services/context.go:441-481 | the kept items are `limit` of the scored items, or all; none dropped scores higher than one kept; sections keep their order |
| `ContextRanking.SortDescends` | internal/services/context.go:459-461 | the sort is by descending score |
| `ContextRanking.SortIsStable` | internal/services/context.go:459-461 | items with equal scores keep their order |
| `ContextRanking.PickedUptoAll` | internal/services/context.go:467-480 | spreading the kept items over their blocks loses and repeats none |
| `ContextRanking.ApplyBudget` | internal/services/context.go:535-558 | the items kept are the longest prefix whose cost fits; truncated iff something was dropped |
| `ContextRanking.Compile` | internal/services/context.go:165-193 | all three steps: no repeats, at most `limit` items, tokens and twenty for each item within the budget, items drawn from the input in section order, each with its words joined by blanks and a score of 0.1 if it had none |
| `ContextRanking.CostIsSum` | internal/services/context.go:535-558 | the cost of items is the sum of the tokens of their texts and twenty for each |
| `Rings.EventQueue.Enqueue` | internal/runtime/queue.go:62-93 | accepted iff not closed and not full, or full with the oldest pushed out; order is kept and every drop is counted |
| `Rings.EventQueue.DequeueOne` | internal/runtime/queue.go:95-106 | the oldest event comes out, the others keep their order |
| `Rings.EventQueue.DequeueAll` | internal/runtime/queue.go:108-128 | everything queued comes out in order and counts as delivered; with the class invariant, accepted = delivered + queued + pushed out |
| `Rings.EventQueue.CountIsDistance` | internal/runtime/queue.go:62-106 | the counter is the distance from head to tail modulo the capacity |
| `Rings.EventQueue.Close` | internal/runtime/queue.go:146-149 | the queue is closed and keeps what is queued |
| `Rings.EventEngine.Emit` | internal/services/events.go:166-175 | the buffer keeps the last events emitted, as many as fit, and counts the ones pushed out |
| `Rings.EventEngine.Snapshot` | internal/services/events.go:275-283 | the last min(n, size) events emitted, in order |
| `Hooks.Settings.MergeHooks` | cmd/codergag/hooks_settings.go:42-69 | each managed event without one of ours before ends with its old entries and one more, whose only hook is of type "command" with the marker, a blank and the event as its command; all other events and settings stay; a change is reported iff there is one |
| `Hooks.Settings.RemoveHooks` | cmd/codergag/hooks_settings.go:73-107 | no hook whose command holds the marker is left; events without any stay, so do entries without any, and an entry with others keeps exactly those; no other setting changes; a change is reported iff there is one |
| `Hooks.MergedIsDone` | cmd/codergag/hooks_settings.go:42-69 | that result of an installation, read off the settings tree |
| `Hooks.RemovedIsDone` | cmd/codergag/hooks_settings.go:73-107 | that result of a removal |
| `Hooks.RestoresIff` | cmd/codergag/hooks_settings.go:42-107 | installing and uninstalling restores the tree iff it held none of ours, its hooks were absent or a non-empty object, and each managed event was absent or a non-empty list |
| `Hooks.InstallTwice` | cmd/codergag/hooks_settings.go:42-69 | installing twice is installing once |
| `Hooks.UninstallTwice` | cmd/codergag/hooks_settings.go:73-107 | uninstalling twice is uninstalling once |
| `Hooks.OthersUntouched` | cmd/codergag/hooks_settings.go:42-107 | neither operation changes the other tools' commands under any event, their order, or any other setting |

## Left out

- Worker.KeptIff: neither liveness nor that one worker has a single pass at a time holds, because the request flag is cleared just before it is looked at.
- Worker.KeptIff: nothing is claimed for a stopped worker, whose waiting batch is dropped; observers, timers, job counters and error texts are not part of this model.
- Repository.PersistentRepository.UpsertNode: an "id" property that is not a string makes the program panic; the model requires it to be a string.
- Repository.PersistentRepository.UpsertNode: identity values are non-null and ids hold no "|", so the joined lookup keys of the program are compared as tuples.
- Repository.PersistentRepository.Save: migration on load, the file format, and errors of reading or writing are not part of this model.
- CacheCoherence.CacheAlwaysCoherent: after another process saves, the node cache may be behind the file until it is refreshed, as in StaleCache.SaveLeavesStale; a hit does not look at the file.
- SavedNodes.SaveUniqueIff: a save that moves nothing has no condition; in one that moves a snapshot, identities are of properties other than the id and the creation time, a moved snapshot has no other identity than its own, no node is landed on for two identities, and where there is a choice of nodes they keep the identity and have no other; SavedNodes.AnySaveUniqueIff has none of these, but needs to know where the snapshots landed.
- SavedIdentities.DiskUniqueIff: the same conditions, for each save that moves a snapshot.
- SavedIdentities.SaveKeepsUniqueIff: for pending changes that leave the identities of stored nodes alone, in a file without duplicates; SavedNodes.SaveUniqueIff needs neither.
- SavedIdentities.DiskIdentitiesUniqueIff: the same conditions, for each save.
- Processes.SaveDoes: its condition on edge ids is met in every history that hands out no edge id twice (Processes.EverySaveDoes).
- NodeCache.Cache.Put: the edge half of the cache, which works the same way on its own list.
- QueryIndex.RefreshedAgrees: for the in-memory repository only; the persistent one can change its file stamp without moving its generation.
- Memory.MemoryRepository.UpsertNode: nodes are copied out by the model, while the program returns references a caller could change without moving the generation.
- Paging.CallPaginated: one list per result, a fixed ranking, and shaping that keeps the rows in place; the shared path prefix is not part of this model.
- ContextRanking.RankBlocks: scores are those after an item without one is given 0.1; nothing is claimed about the order of the scores before that.
- ContextRanking.Compile: the diff-aware and provenance steps between ranking and budget, the checklist, the explanation and the privacy firewall.
- Rings.EventQueue.Enqueue: a capacity of 1, for which a full ring looks empty, and concurrent producers, which take no lock; wake-up channels are not part of this model.
- Rings.EventEngine.Emit: only the history buffer; delivery to workers through channels is not part of this model.
- Hooks.Settings.MergeHooks: reading, parsing and atomically writing the settings file.
- EditDistance.Distance: characters stand for the bytes the program compares.
- Batch upserts and batch links of both repositories, which do not do what their single forms do.
- BM25, vector and rank-fusion scoring, regular-expression extraction, query parsing, the PDF scanner and the CLAUDE.md injection.
- The data-flow and type-relation edges that are derived after CALLS edges, and the report text built from the layers.
- The command line, MCP framing, adapters, HTTP, updates, git, and the SQL and Mongo back ends.
