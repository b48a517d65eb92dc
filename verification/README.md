# Verified model of the debug-info cache

This project models the core of the symbolication worker in `crates/symbols-core`: the
build-id-keyed cache of parsed debug files, the registry of symbol sources it is filled from, the
per-module lookup it answers with, and the manifest that carries its durable state to the next
process. The product's claim is that a bounded cache, a lazily built index and a fast path all
behave like the slow, simple thing. That claim is what is proved here, for all budgets and all runs,
together with the exact conditions under which it fails.

## How the model is laid out

| file | role |
|---|---|
| Ids, Frames, Manifest, Wrappers, Sorting | identifiers and aliases, rows, manifest data, sorting and binary search |
| Symbols, Modules, Parsing | symbol lookup; DWARF and PDB answers, the panic guard; which files parse and to what |
| Braces, Walk, Local | brace expansion, the directory walk, glob indexing |
| Catalogs, Index, SourceRegistry, SourceFacts | source list and id allocation; the reference index; the lazily indexed registry class; which file a token leads to |
| Lru, Log | the `lru` crate's map as an order and a table; the history of resident modules |
| Caches, CacheFacts, Effects, Listing, SymbolCache | the cache as a value, what each operation keeps, what it changes field by field, listings, the cache class |
| States, SymbolsState | the resolve flow as a state machine; the state class |
| Answers, Calls | every call in terms of the files and the state before it: its rows column by column, and everything it changes |
| Keys, Runs | entry keys and known misses through every call and run; swapping the fast path in |
| Reference, Transparency, Unambiguous, Shelves | the uncached reference and the cache against it, call by call and run by run; files that compete and files that do not |
| SourceChanges | what is answered after a source was added or dropped |
| Conservation, Counters | parses, bytes and row counters over runs |
| Inclusion, WorkingSets, CountCap | larger byte budgets include smaller ones; runs that fit the count cap; why it must be out of reach |
| ColdStart | manifest round trip and restarts |

Each object the source mutates is a class (`SourceRegistry`, `SymbolCache`, `SymbolsState`) whose
methods are proved to take its value exactly where a specification function takes it; the theorems
are about those functions and about runs of them. What those functions do is in turn stated on its
own, without using them: `Answers`, `Calls`, `Effects`, `Parsing`, `SourceFacts`,
`Modules.DwarfModule.Resolves` and `Modules.PdbModule.Resolves` say field by field which row, entry,
module or source results, with every condition, constant and status written out. The history (`log`)
is ghost: nothing decides on it. The libraries that read debug files are data: a parsed module
carries, for every address, the frames its reader would yield and how that walk ends (exhausted,
corrupt or panicking).

Three hypotheses recur, all about files and sources only. `ProbeAgrees`: the identity the index probes
from a file is the one parsing it gives. `Coherent`: whatever module a token leads to, each alias of
that module is answered as the module answers. `NoCompetition`: any two indexed files have the same
aliases or none in common, and every path has a final component. `NoCompetition` implies `Coherent`,
and `Coherent` is exactly what transparency needs. `Shelves.PeacefulShelfExists` builds files that do
not compete, `Shelves.TwoBuildsExist` files that do.

## Where the code and its documentation differ

The model follows the code in each case.

- `LruCache::put` hands back only a value with the same key. At count capacity the oldest module is
  dropped silently: its bytes stay on the counter and its row counter is lost
  (`crates/symbols-core/src/cache/mod.rs:231-241`). `Conservation.InsertDrift`,
  `Conservation.PushedOutCounters` and `CountCap.LargerBudgetHoldsLess` say what follows.
- `rows_resolved` is called cumulative (`crates/symbols-core/src/cache/manifest.rs:117`), but every
  insertion resets it (`crates/symbols-core/src/cache/mod.rs:225`); see `CacheFacts.InsertedEntry`.
- The source index is first-wins, the cache's aliases are last-wins. Where files compete for a token
  the cache is therefore not transparent: `Unambiguous.SameUuidCompetes`.
- Adding a source does not clear the negative set, and dropping one does not evict its modules:
  `SourceChanges.NewSourceSeen`, `SourceChanges.DroppedSourceGone`.
- An entry is imported under the debug-id as spelled, but its miss under the canonical token
  (`crates/symbols-core/src/cache/mod.rs:105-111`): `Keys.ImportInStep` says when the two stay in step.
- A DWARF walk whose first frame has no function falls back to the symbol table on the fast path
  only; `Modules.ParsedModule.FunctionName` gives the exact condition for the two to agree.

## Model

| member | source | states |
|---|---|---|
| Transparency.TransparencyExact | crates/symbols-core/src/state.rs:86-133 | For every source list, byte budget and module budget: all runs of resolve, function_name, evict, export and restart are answered as by locate, parse, resolve without a cache, if and only if the files are coherent |
| Reference.ResolveLikeReference | crates/symbols-core/src/state.rs:110-133 | In every sound state one call gives the reference's rows and name, and the defensive not_found row for a module that is not resident after all is unreachable |
| Transparency.RunSettled | crates/symbols-core/src/state.rs:86-188 | Over every run each remembered fact stays true of the files: a known miss has no file, an alias leads to a module with that alias, a resident module is what its file parses to |
| Reference.FoundUnderAlias | crates/symbols-core/src/source/mod.rs:173-192 | The token a module was found under is one of its aliases, and each of its aliases leads to some file |
| Answers.AnsweredByFile | crates/symbols-core/src/state.rs:86-133 | At any moment of a run on coherent files a call answers not_found exactly if no indexed file has the token, and then one bare row without function, place, module or debug-id; a file that does not parse gives one bare row with that parse failure; any other file gives the rows and the name of its own debug info at that address, each with its debug-id |
| Answers.ResolveAnswers | crates/symbols-core/src/state.rs:86-122 | In any state, coherent files or not: a resident module answers for its aliases, a known miss or a token without a file gets one bare not_found row, a malformed file one bare error row, and a good file is answered from its debug info |
| Calls.ResolveChanges | crates/symbols-core/src/state.rs:86-133 | In any state a call changes only what a hit, a recorded miss, or the insertion of the located file's module under its origin followed by a hit changes; a known miss and a malformed file change nothing |
| Calls.StepExact | crates/symbols-core/src/state.rs:57-188 | Each of the nine calls, field by field: what it answers and everything it changes in sources, cache and limits |
| Unambiguous.NoCompetitionIsUnambiguous | crates/symbols-core/src/source/mod.rs:158-162 | When any two indexed files have equal or disjoint alias sets, every alias of a findable module leads to that same module |
| Unambiguous.CacheIsTransparent | crates/symbols-core/src/state.rs:86-133 | Under that alias condition the cache is transparent for all budgets and runs |
| Unambiguous.SameUuidCompetes | crates/symbols-core/src/cache/mod.rs:210-212 | In every setting, two findable builds with one UUID and different ages make the cache opaque for every budget: answers depend on what was resolved before |
| Unambiguous.OpaqueWhereAnswersDiffer | crates/symbols-core/src/cache/mod.rs:210-212 | Wherever a file's token and another of its aliases have different reference rows or names at any address, the cache is not transparent |
| Shelves.TwoBuildsExist | crates/symbols-core/src/module/pdb.rs:36-45 | Such builds exist: two PDBs with the raw build-id the code derives, one file name, one UUID and two ages, each found under its own debug-id |
| Shelves.PeacefulShelfExists | crates/symbols-core/src/source/mod.rs:158-162 | Any number of builds with UUIDs of their own can be registered so that no two files compete and each is found under its debug-id |
| Inclusion.LargerBudgetIncludes | crates/symbols-core/src/cache/mod.rs:177-257 | On one run from empty caches, restarts included, with nothing dropped at count capacity, what is resident under a smaller byte budget is resident under a larger one in the same recency order, and the larger one never parses more in all, over all processes of the run |
| Inclusion.StepIncluded | crates/symbols-core/src/state.rs:86-188 | Every call, a restart too, keeps the smaller worker included in the larger one, also when one of them parses and the other hits |
| Inclusion.FewerSurvive | crates/symbols-core/src/cache/mod.rs:248-257 | When both caches insert the same module, the smaller cache's survivors begin the larger cache's |
| Inclusion.DropIsLogged | crates/symbols-core/src/cache/mod.rs:231-241 | An insertion at count capacity always leaves a drop in the history, so a history without drops rules it out |
| WorkingSets.FittingNeverDrops | crates/symbols-core/src/cache/mod.rs:231-241 | If the tokens of a run lead to no more debug-ids than the count cap has room for, no module is ever dropped: a condition on the calls and the files, known before the run |
| WorkingSets.FittingRunsInclude | crates/symbols-core/src/cache/mod.rs:177-257 | On such runs inclusion holds for any two byte budgets |
| CountCap.LargerBudgetHoldsLess | crates/symbols-core/src/cache/mod.rs:231-257 | Once the count cap is reached inclusion fails: after the same three resolve calls the smaller byte budget holds two modules and the larger one |
| Conservation.ParsesAreResidentsPlusEvictions | crates/symbols-core/src/state.rs:86-106 | Under the alias condition, after every run the parse count is the resident modules plus the evictions, and between two parses of one debug-id it was evicted |
| Conservation.ParsesConserved | crates/symbols-core/src/cache/mod.rs:203-292 | In every reachable cache, whatever the files, each parse is a resident module or a removal |
| Conservation.InsertedIsAbsent | crates/symbols-core/src/state.rs:86-106 | A module is never parsed over its own resident copy when files do not compete |
| Conservation.RowsAreHits | crates/symbols-core/src/cache/mod.rs:124-131 | A resident module's row counter is its hits since its latest insertion, and an export or an eviction leaves that number in its entry |
| Conservation.PushedOutCounters | crates/symbols-core/src/cache/mod.rs:203-266 | A module pushed out by an insertion has its exact counter folded into its entry, except the one dropped at count capacity, whose entry is left stale |
| Conservation.BytesAccounted | crates/symbols-core/src/cache/mod.rs:231-292 | No saturating subtraction ever saturates; the byte counter is the true sum exactly if no dropped bytes linger |
| Conservation.InsertDrift | crates/symbols-core/src/cache/mod.rs:231-241 | An insertion makes the byte counter drift from the true sum by exactly the bytes of the module it drops |
| Counters.HitsAreAnswers | crates/symbols-core/src/cache/mod.rs:177-198 | On coherent files the rows a worker has counted over any run, restarts included, are the calls whose tokens lead to a module: a number the files and calls determine, whatever the budgets |
| Counters.StepHits | crates/symbols-core/src/state.rs:110-188 | A call counts one hit if its token leads to a module; eviction and export count none; a restart counts anew |
| Counters.ReadyIsGood | crates/symbols-core/src/state.rs:86-106 | On coherent files a module is resident after ensure_resident exactly if the token's file is found and parses |
| CacheFacts.InsertIsLru | crates/symbols-core/src/cache/mod.rs:203-257 | After an insertion under any budgets the new module is resident and most recent, the survivors are a prefix of the recency order, at most max(1, max_modules) remain, and the true bytes fit or one module remains |
| CacheFacts.InsertKeepsAllThatFits | crates/symbols-core/src/cache/mod.rs:248-257 | Insertion evicts no more than it must: one survivor more would exceed the budget, counting dropped bytes |
| CacheFacts.EvictToBudgetFits | crates/symbols-core/src/cache/mod.rs:248-257 | Eviction to budget keeps the longest most-recently-used prefix that fits, never fewer than one module, and folds every evicted counter back |
| CacheFacts.InsertMaps | crates/symbols-core/src/cache/mod.rs:203-228 | Whatever is evicted, all aliases of the module lead to it, its own key is no known miss, and one entry key is added |
| CacheFacts.InsertedEntry | crates/symbols-core/src/cache/mod.rs:215-228 | The entry of an inserted module is fresh, with its rows at zero, even if the module was known before |
| CacheFacts.EvictTokenKeeps | crates/symbols-core/src/cache/mod.rs:269-281 | Forced eviction removes at most the named module, frees exactly its bytes from both the counter and the true sum, and keeps the invariant |
| CacheFacts.EvictAllKeeps | crates/symbols-core/src/cache/mod.rs:282-291 | Evicting everything frees the true sum, not the drifted counter, folds every counter back and restarts the counter |
| CacheFacts.SyncKeeps | crates/symbols-core/src/cache/mod.rs:124-131 | Export stores every resident module's exact counters and changes nothing else |
| Effects.TokenMeaning | crates/symbols-core/src/cache/mod.rs:139-173 | Aliases, residency and known misses are looked up under the canonical spelling of a token |
| Effects.NewIsEmpty | crates/symbols-core/src/cache/mod.rs:86-98 | A new cache holds nothing and has room for max(1, max_modules) modules |
| Effects.MissEffects | crates/symbols-core/src/cache/mod.rs:151-166 | After a recorded miss every alias and entry that was there is unchanged, at most the canonical token is new, as its own alias and as a miss entry blank but for key and time, it is a known miss, and modules, order and counters are as before |
| Effects.ResolveEffects | crates/symbols-core/src/cache/mod.rs:177-201 | A hit puts the module first and keeps the order of the others, adds one row and the given time to it, and changes no other module, map or counter; without a resident module nothing changes |
| Effects.InsertEffects | crates/symbols-core/src/cache/mod.rs:203-257 | After an insertion all aliases and no others lead to the module, its own miss alone is cleared, its entry and its resident record have exactly the parsed values, survivors are unchanged in the old order, evicted modules left their counters in their entries, a silently dropped one did not |
| Effects.EvictEffects | crates/symbols-core/src/cache/mod.rs:269-281 | Forced eviction takes out the token's module, its bytes and its place in the order, leaves its counters in its entry, and every other module, entry and map as it was |
| Effects.EvictAllEffects | crates/symbols-core/src/cache/mod.rs:282-291 | Evicting everything leaves no module, a zero counter and every entry, those of resident modules with their live counters |
| Effects.SyncEffects | crates/symbols-core/src/cache/mod.rs:124-131 | Export stores live counters in the entries of resident modules, leaves all other entries and everything else as they were |
| Effects.LoadEffects | crates/symbols-core/src/cache/mod.rs:103-113 | After an import each entry sits under its debug-id and its canonical token leads to it, the last of equals winning; exactly the misses are added; other keys and all modules are as before |
| ColdStart.ManifestRoundTrip | crates/symbols-core/src/state.rs:178-188 | Export, import into a fresh worker with any budgets, export: the same manifest, its entries sorted with distinct keys |
| ColdStart.ColdStartAnswersAlike | crates/symbols-core/src/state.rs:178-188 | On coherent files a worker started from another's manifest answers every call of every later run as the other does |
| ColdStart.RestartedEntries | crates/symbols-core/src/cache/mod.rs:103-131 | A restart keeps exactly the entries with their exact counters and no module |
| ColdStart.RestartedMaps | crates/symbols-core/src/cache/mod.rs:103-113 | After a restart every debug-id leads to itself, secondary aliases are gone, and the known misses are the miss entries |
| Runs.MapsAgree | crates/symbols-core/src/cache/mod.rs:103-166 | In every reachable state, imports of any manifests included, resident keys and alias targets are entry keys and entries sit under their own debug-id; while imports fit, known misses are entry keys and miss entries are known misses |
| Runs.InStepExactly | crates/symbols-core/src/cache/mod.rs:103-166 | Misses and entries are in step at every moment of a run exactly if the misses of every imported manifest fit the state they meet |
| Keys.ImportInStep | crates/symbols-core/src/cache/mod.rs:103-113 | An import of any manifest keeps misses and entries in step exactly if each miss entry it leaves has a canonical key and each miss token is an entry key |
| Keys.CanonicalMissesFit | crates/symbols-core/src/cache/mod.rs:103-113 | Manifests whose misses are under canonical keys, as exports write them, always fit |
| Runs.RunKeepsEntries | crates/symbols-core/src/cache/mod.rs:203-292 | No run of any calls, evictions, restarts and imports included, loses an entry |
| Runs.SwapAnywhere | crates/symbols-core/src/state.rs:110-133 | Swapping resolve and function_name anywhere in a run leaves the same recency order, counters, entries and known misses |
| SourceChanges.NewSourceSeen | crates/symbols-core/src/state.rs:57-68 | After add_source every token, resident or not, gets the new list's rows exactly unless it is a known miss for which the new list has a file, and its name exactly unless it is a known miss for which the new list has a name |
| SourceChanges.DroppedSourceGone | crates/symbols-core/src/state.rs:76-78 | After drop_source a token that is not resident is answered from the new list, a resident one still from the old list, and so differently where the new list has no file |
| States.StepKeepsValid | crates/symbols-core/src/state.rs:57-188 | Every call keeps byte accounting, the honest history and the maps' consistency, whatever the sources and manifests |
| States.Resolve | crates/symbols-core/src/state.rs:110-122 | Every answer has between 1 and max(1, max_inline_depth) rows, in shape |
| States.FastPathSameState | crates/symbols-core/src/state.rs:110-133 | function_name leaves the state resolve leaves |
| SymbolsStates.SymbolsState.Resolve | crates/symbols-core/src/state.rs:110-122 | The call moves the state and answers as the state machine does, and so, column by column, as the resident module, the known miss or the located file demands, changing only what the matching cache operation changes |
| SymbolsStates.SymbolsState.FunctionName | crates/symbols-core/src/state.rs:125-133 | The call moves the state and names the function as the state machine does, changing only what the matching cache operation changes |
| SymbolsStates.SymbolsState.EnsureResident | crates/symbols-core/src/state.rs:86-106 | Resident, known miss, located and parsed, malformed or absent, in that order |
| SymbolsStates.SymbolsState.ExportManifest | crates/symbols-core/src/state.rs:178-181 | The manifest carries the source list and the unique sorted listing of the synced entries |
| SymbolsStates.SymbolsState.ImportManifest | crates/symbols-core/src/state.rs:185-188 | Sources are replaced and entries added |
| SymbolsStates.SymbolsState.EvictAll | crates/symbols-core/src/state.rs:165-167 | Evicts everything and returns the true sum of bytes |
| SymbolCaches.SymbolCache.Insert | crates/symbols-core/src/cache/mod.rs:203-245 | The in-place insertion with its eviction loop reaches the specified cache |
| SymbolCaches.SymbolCache.EvictToBudget | crates/symbols-core/src/cache/mod.rs:248-257 | The pop loop reaches the specified cache |
| SymbolCaches.SymbolCache.EvictToken | crates/symbols-core/src/cache/mod.rs:269-281 | Evicts the module a token leads to and returns its bytes |
| SymbolCaches.SymbolCache.EvictAll | crates/symbols-core/src/cache/mod.rs:282-291 | The drain loop reaches the specified cache and adds up the bytes |
| SymbolCaches.SymbolCache.RecordMiss | crates/symbols-core/src/cache/mod.rs:151-166 | Records the token as missing: aliases and entries that were there keep their values, and at most a blank miss entry and an alias of the canonical token are new |
| SymbolCaches.SymbolCache.Resolve | crates/symbols-core/src/cache/mod.rs:177-189 | A hit promotes the module, counts one row and answers; otherwise nothing changes |
| SymbolCaches.SymbolCache.ToManifest | crates/symbols-core/src/cache/mod.rs:116-131 | The exported entries are every entry once, synced, sorted by debug-id, whatever order the hash map yields |
| SymbolCaches.SymbolCache.Rehydrate | crates/symbols-core/src/cache/mod.rs:103-113 | The loop over the entries reaches the specified cache |
| SymbolCaches.SymbolCache.Status | crates/symbols-core/src/cache/mod.rs:296-339 | Every known debug-id is listed exactly once, resident ones first in recency order; each column comes from the resident module with its live counters, or from the entry |
| Listing.ListingUnique | crates/symbols-core/src/cache/mod.rs:116-121 | A map of entries has only one sorted listing |
| Listing.StatusColumns | crates/symbols-core/src/cache/mod.rs:296-339 | Each column of a status row: bytes, rows and time of the resident module or of the entry, its name, format and architecture, and the origin spelled out, not_found for a miss |
| Sorting.StringLeqLexicographic | crates/symbols-core/src/cache/mod.rs:116-121 | Entries are sorted by the lexicographic order of their debug-ids |
| Lru.TotalPut | crates/symbols-core/src/cache/mod.rs:231-242 | What a put adds to and takes from the total weight, the silently dropped entry included |
| Log.ModulesConserved | crates/symbols-core/src/cache/mod.rs:203-292 | In an honest history insertions are removals plus live keys |
| Log.RemovedBetweenInsertions | crates/symbols-core/src/cache/mod.rs:203-292 | Between two insertions of one key there is a removal of it |
| Registry.SourceRegistry.EnsureIndexed | crates/symbols-core/src/source/mod.rs:136-167 | After any history of add, drop, restore and locate, the lazily built index answers every token as one first-match-wins pass over the sources served: the enabled local ones but for those skipped |
| Registry.ReissuedIsSkipped | crates/symbols-core/src/source/mod.rs:136-144 | A source added under an id already marked as indexed is never indexed, any other one is |
| Registry.SourceRegistry.Locate | crates/symbols-core/src/source/mod.rs:173-192 | The located file, name and origin are the reference's over the sources served, and over the whole list unless one was skipped; SourceFacts.LocateExact says which file that is |
| Registry.SourceRegistry.Add | crates/symbols-core/src/source/mod.rs:75-120 | Validates, issues the next id and appends, without invalidating the index; the new source is skipped exactly if it is local and its id is already marked, which never happens below u64 exhaustion |
| Registry.SourceRegistry.DropSource | crates/symbols-core/src/source/mod.rs:123-133 | Removes every source with the id, says whether there was one, and forgets the index, skipped sources with it, only then |
| Registry.SourceRegistry.Restore | crates/symbols-core/src/source/mod.rs:52-66 | Takes over the list, serves all of it and moves the id counter past every id in it |
| Index.FirstIndex | crates/symbols-core/src/source/mod.rs:158-162 | What a lookup finds is the first offer in source order |
| Index.NothingOffered | crates/symbols-core/src/source/mod.rs:158-162 | A lookup finds nothing exactly when no indexed file has the alias |
| SourceFacts.LocateExact | crates/symbols-core/src/source/mod.rs:136-192 | A token is located exactly if some enabled dir or glob source with a path has a recognised file with it among its first 1,000,000; what is returned is the first such file of the first such source, its bytes, its name or else the token, and an origin of that source's kind |
| SourceFacts.InertIrrelevant | crates/symbols-core/src/source/mod.rs:139-146 | A source that is disabled, of another kind, or without a path changes no lookup, wherever it is in the list |
| SourceFacts.DirFinds | crates/symbols-core/src/source/mod.rs:136-167 | An enabled dir source makes every recognised file at or below its root found, if there are at most 1,000,000 files |
| SourceFacts.GlobFinds | crates/symbols-core/src/source/mod.rs:136-167 | An enabled glob source makes every recognised file its expanded patterns match found, if they match at most 1,000,000 files |
| SourceFacts.GlobFilesExact | crates/symbols-core/src/source/local.rs:72-93 | The files of a list of patterns are exactly the matches that are not directories |
| Catalogs.IdsNeverReissued | crates/symbols-core/src/source/mod.rs:52-133 | Below u64 exhaustion no id is issued twice or equals one present, over any adds, drops and restores of arbitrary specs |
| Catalogs.ExhaustionReissues | crates/symbols-core/src/source/mod.rs:106-108 | Past the last number the wrapped counter issues a present id again |
| Catalogs.SourceIdRoundTrip | crates/symbols-core/src/source/mod.rs:52-66 | The number printed into a source id is the one parsed from it |
| Catalogs.AddExact | crates/symbols-core/src/source/mod.rs:75-120 | A request is accepted exactly if its kind, trimmed and in lowercase, is known and its locator is not empty; then one source is appended with the next id, enabled by default exactly if it is local; otherwise nothing changes and the complaint names the kind |
| Catalogs.DropKeepsOrder | crates/symbols-core/src/source/mod.rs:123-127 | Dropping keeps the other sources in their order |
| Catalogs.AheadExactly | crates/symbols-core/src/source/mod.rs:52-66 | Restoring moves the id counter to just past the largest number present, or leaves it |
| Catalogs.NumeralExact | crates/symbols-core/src/source/mod.rs:58-64 | What reads as an id number: digits after at most one plus sign, at least one, within 64 bits |
| Modules.ParsedModule.Answer | crates/symbols-core/src/module/mod.rs:98-109 | Total and in shape whatever the readers do; a failure status stands alone; ok rows are a prefix of the uncapped inline chain |
| Modules.ParsedModule.FunctionName | crates/symbols-core/src/module/mod.rs:112-118 | Equals the first row's function exactly where the two paths do not diverge; without panics and with a cap of at least 1 it is the first row's function or else the nearest symbol |
| Modules.DwarfModule.Resolve | crates/symbols-core/src/module/dwarf.rs:155-216 | Row i of an ok answer carries frame i's names, file, line and column, the module's name and its debug-id; each failure of the walk and each address without coverage gives its own status and one bare row |
| Modules.PdbModule.Resolve | crates/symbols-core/src/module/pdb.rs:106-139 | Row i carries frame i's name, file and line; a missing context, addresses beyond 32 bits, uncovered ones and each lookup failure give their own status and one bare row |
| Modules.ModuleRows | crates/symbols-core/src/module/mod.rs:98-109 | The rows of either container pass through column by column; a contained panic becomes one error row with the debug-id and nothing else |
| Parsing.ParseExact | crates/symbols-core/src/module/mod.rs:70-92 | Above the size cap a file is refused whatever is in it, a rejection keeps its kind, a panicking reader is a corrupt line program, and any other file gives a module with its identity, name, size and answers |
| Parsing.TableFallsBack | crates/symbols-core/src/module/dwarf.rs:82-133 | For a file's own symbols: no fallback exactly if every text symbol with a readable, non-empty name starts above the address, else the demangled name of the first such symbol in file order at the greatest such address |
| Symbols.SymbolForIsNearest | crates/symbols-core/src/module/dwarf.rs:82-133 | Sort, dedup and binary search give, for every address, the first symbol in file order among those with the greatest address at or below it |
| Symbols.Nearest | crates/symbols-core/src/module/dwarf.rs:126-133 | The naive scan: none exactly when every symbol starts above the address, else the first at the greatest address below |
| Sorting.StableSortCorrect | crates/symbols-core/src/module/dwarf.rs:93 | A sorted permutation that never reorders equal keys |
| Sorting.DedupCorrect | crates/symbols-core/src/module/dwarf.rs:94 | Distinct keys, each keeping its first element |
| Sorting.BinarySearchCorrect | crates/symbols-core/src/module/dwarf.rs:126-133 | An insertion point splits the keys below from the keys above |
| Local.IndexGlob | crates/symbols-core/src/source/local.rs:72-93 | Probes exactly the first max_files files the expanded patterns match, in order |
| Braces.ExpandBraces | crates/symbols-core/src/source/local.rs:98-131 | The growing list of prefixes ends as the cartesian product of the pattern's pieces |
| Braces.PiecesOfPrint | crates/symbols-core/src/source/local.rs:98-131 | Reading a printed pattern of literals and groups gives it back |
| Braces.ExpansionOfPrint | crates/symbols-core/src/source/local.rs:95-131 | A printed pattern expands to its product, as many results as the alternatives multiply to, none with a brace |
| Braces.CrossAt | crates/symbols-core/src/source/local.rs:117-123 | The left factor varies slowest |
| Braces.NoBracesPassthrough | crates/symbols-core/src/source/local.rs:125-128 | A pattern without an opening brace expands to itself |
| Braces.PiecesExact | crates/symbols-core/src/source/local.rs:98-131 | Any pattern, nested and unclosed groups included: a group goes up to the brace that closes it, or to the end without one, and is split at every comma |
| Walk.IndexDir | crates/symbols-core/src/source/local.rs:38-69 | On every finite tree the worklist walk terminates, having probed exactly the first max_files files of the walk order |
| Walk.DirectoryWalkExact | crates/symbols-core/src/source/local.rs:35-69 | As many reachable files are examined as the cap allows, each at most as often as it is reachable, so a tree with no more than that is examined exactly; unreadable directories are skipped and a root that is a file is examined itself |
| Ids.HexEncode | crates/symbols-core/src/id.rs:180-187 | The pushing loop spells two lowercase digits a byte |
| Ids.HexInjective | crates/symbols-core/src/id.rs:180-187 | Different bytes never have the same spelling |
| Ids.CanonicalIdempotent | crates/symbols-core/src/id.rs:74-79 | Canonicalizing twice changes nothing |
| Ids.CanonicalConcat | crates/symbols-core/src/id.rs:74-79 | Canonicalizing distributes over concatenation |
| Ids.SpellingIrrelevant | crates/symbols-core/src/id.rs:70-79 | Separators anywhere and the case of any letter leave the canonical token as it is |
| Ids.CanonicalOfChar | crates/symbols-core/src/id.rs:74-79 | The canonical token of each character: white space, dashes and braces vanish, capitals become small, all else stays |
| Ids.HexIsCanonical | crates/symbols-core/src/id.rs:180-187 | A hex spelling is its own canonical token |
| Ids.DebugIdStrInjective | crates/symbols-core/src/id.rs:48-50 | Different debug-ids never share a cache key |
| Ids.DebugIdSpells | crates/symbols-core/src/id.rs:48-50 | The cache key is 32 lowercase digits of the UUID, byte by byte, then the age in hexadecimal without leading zeros |
| Ids.AliasesExact | crates/symbols-core/src/id.rs:56-67 | The alias list is strictly sorted and holds exactly the canonical debug-id, UUID and raw build-id |

## Left out

- Parsing ELF, Mach-O, PE, DWARF and PDB: the reader libraries are data of the model, finite maps from addresses to what they answer.
- Demangling: a name carries both its raw and its demangled form, and nothing relates the two.
- `max_units`, `dwarf_stats` and the counts of `module_info`: statistics that no lookup depends on.
- `module_info_blob` and `module_info_path`: they touch neither sources nor cache.
- Files that change while the worker runs: the file world is constant over a run, as transparency requires.
- Glob matching: the matches of a pattern are data of the file world; brace expansion and the file cap are modelled.
- Remote sources: registered, never fetched in this build; they only occupy the list.
- The clock: each call takes its reading as a parameter, one reading for a whole call.
- Machine width of byte, row and parse counters and of the freed-bytes result: unbounded here. Source-id numbers are 64 bits wide and wrap as in a release build.
- The `i32` cast of inline depth: depths are natural numbers.
- The JSON encoding of the manifest and the tolerance for corrupt bytes: the manifest is the datatype itself.
- The process-wide mutex: calls are serialised, so one sequential machine is the whole behaviour.
- Derived columns of identities (`code_id`, `image_base`) and how a format yields its build-id.
- SymbolsStates.SymbolsState.AddSource: the state class follows the state machine while its registry serves the whole source list; this contract says exactly which call ends that, one that needs a wrapped id counter.
