# Android codegen test generator — bookkeeping model

This project models the bookkeeping inside `CodegenTestsOnAndroidGenerator`, the generator that
turns Kotlin codegen box-test fixtures into one JUnit class of Android tests. It models four parts:

- **Walk.** The generator walks one or more testData roots depth first and skips files by name, extension, target back end and text markers.
- **Batching.** Eligible fixtures are grouped by a `ConfigurationKey`, one `FilesWriter` per key.
- **Flushing.** Each writer flushes its pending `(name, content)` pairs to the compiler in numbered modules and counted output folders.
- **Emission.** For every fixture whose box class is known, the generator allocates a unique test name and prints a four-line test method.

Modules:

- `Strings` holds ASCII stand-ins for the library string helpers the generator calls: capitalise, extension split, identifier sanitising, string escaping, substring search and decimal rendering. Each comes with the property the generator relies on, for example that unescaping an escaped path gives the path back.
- `Naming` models test-name allocation. `FreeName` is the value the allocation loop settles on. Lemmas prove:
  - the loop terminates;
  - the result is the first free candidate in the sequence `base`, `base_0`, `base_0_1`, …;
  - the result is fresh, keeps the base as a prefix, and is made of identifier characters.
- `Fixtures` holds the values the generator works on:
  - the directory tree, the configuration key and the eligibility predicate;
  - the walk as a specification function (`Accepted`), with its filter-after-traversal reference definition;
  - the first-appearance order of keys (`AddKeys`);
  - the text of one test method;
  - the run-wide emission of names and lines (`Emit`).
- `Generator` holds the imperative part:
  - the generator class with its counters, its name list, the batches written so far and the printed lines;
  - the inner class `FilesWriter`;
  - the holders map with its insertion order;
  - the recursive walk (`ProcessFiles` / `ProcessListing` / `ProcessEntry`);
  - `GenerateTestMethodsForDirectories`.
- `Runs` proves what the walk functions give for a run in which no key collects more than 300 files: nothing is written during the walk, and the final flush writes each key's files as one batch.

  The walk methods state their effect through the specification functions of `Fixtures` and `Naming`. The flush methods state theirs through the specification functions `Flush` and `AfterFlush` in `Generator`. `Flush` gives the exact batches written and the counters afterwards; `AfterFlush` gives the writers' pending lists afterwards.
  - `FlushConserves` proves that a flush pass moves files from the pending lists to the disk and loses, adds or reorders nothing under any key.
  - `Stream(h, k)` is everything queued under key `k`: the files compiled from its writer, then the files still pending in it. The walk methods state how `Stream` grows, through `PatchedFor`.
  - `WalkFiles`, `WalkListing`, `WalkEntry` and `WalkUnderRoots` describe the walk as a function on a `WalkState`: the disk and the counters, with the writers' pending lists in the map's order. A due pass is `Flush` with threshold 300; an eligible fixture is queued under its key by `Queue`. `RunOutcome` adds the final flush of every writer. Each walk method ends in the state its walk function gives, and `GenerateTestMethodsForDirectories` ends with the disk and the counters `RunOutcome` gives.
  - The class invariant `Valid()` says two things. The name list has no duplicates. What is on disk agrees with the counters (`OutputsConsistent`).
  - `OutputsBounded` and `OutputsOrdered` derive from `OutputsConsistent` that the written-file count is the number of files compiled. Module indices strictly increase and stay below the next index. Folder indices never decrease.

Several answers come from collaborators whose code is not part of this model:

- whether the fixture passes the JVM target check;
- the configuration kind and the JDK kind;
- the serialised key configuration;
- the configuration a new writer is created with;
- the entries `patchFiles` adds;
- the class holding `box()` that `patchFiles` returns.

Each fixture carries these answers as a `Directives` value. Compiling a batch and writing it to disk are recorded as a `CompiledBatch` value appended to the generator's `outputs`. That value holds the module index, the folder index, the configuration and the files.

Behaviour worth noting, as the code has it:

- **Suffixes accumulate.** The second collision of `Case` gives `Case_0_1`, not `Case_1` (`Naming.SuffixesAccumulate`).
- **Flushes happen between listings.** Flush-if-due runs once per directory listing, before the listing's entries are handled, not once per file. A writer can therefore gather more than 300 files before it is flushed.
- **Several batches can share an output folder.** The folder index is the running count divided by 1000.
- **An empty flush still uses a module index.** Flushing an empty writer writes nothing, but it still consumes a module index (`WriteFilesOnDisk`, `FlushAllConsumesOneIndexEach`).

## Model

| member | source | states |
|---|---|---|
| Strings.ContainsIffOccurs | compiler/android-tests/tests/org/jetbrains/kotlin/android/tests/CodegenTestsOnAndroidGenerator.kt:285-287 | the substring test used for `contains` (`Contains`) holds exactly when the pattern occurs at some position of the text |
| Strings.ParseNatToString | compiler/android-tests/tests/org/jetbrains/kotlin/android/tests/CodegenTestsOnAndroidGenerator.kt:264 | the decimal text of the counter appended to a name is all digits, and reading it back gives the counter |
| Strings.NatToStringInjective | compiler/android-tests/tests/org/jetbrains/kotlin/android/tests/CodegenTestsOnAndroidGenerator.kt:264 | distinct counters render as distinct decimal texts |
| Strings.CapitalizeIdempotent | compiler/android-tests/tests/org/jetbrains/kotlin/android/tests/CodegenTestsOnAndroidGenerator.kt:260 | a capitalised name does not start with a lower-case letter, and capitalising it again changes nothing |
| Strings.LastIndexOf | compiler/android-tests/tests/org/jetbrains/kotlin/android/tests/CodegenTestsOnAndroidGenerator.kt:208 | the result is -1 or the position of the character, and no later position holds it |
| Strings.NameSplitsAtLastDot | compiler/android-tests/tests/org/jetbrains/kotlin/android/tests/CodegenTestsOnAndroidGenerator.kt:208 | the name is the part without the extension, a dot and the extension; the extension holds no dot; without a dot the whole name is the stem and the extension is empty |
| Strings.SanitizeIsIdentifier | compiler/android-tests/tests/org/jetbrains/kotlin/android/tests/CodegenTestsOnAndroidGenerator.kt:260 | a sanitised name consists of identifier characters, and sanitising it again changes nothing |
| Strings.UnescapeEscape | compiler/android-tests/tests/org/jetbrains/kotlin/android/tests/CodegenTestsOnAndroidGenerator.kt:241 | the escaped path (`Escape`), read back as the body of a Java string literal, is exactly the original path |
| Naming.BaseName | compiler/android-tests/tests/org/jetbrains/kotlin/android/tests/CodegenTestsOnAndroidGenerator.kt:260 | the base name is made of identifier characters and is no longer than the file name |
| Naming.LongerShrinks | compiler/android-tests/tests/org/jetbrains/kotlin/android/tests/CodegenTestsOnAndroidGenerator.kt:263-264 | each pass lengthens a taken candidate, strictly shrinking the finite set of listed names at least as long, so the loop terminates |
| Naming.FreeNameIsFirstFree | compiler/android-tests/tests/org/jetbrains/kotlin/android/tests/CodegenTestsOnAndroidGenerator.kt:262-265 | the allocated name (`FreeName`) is the k-th candidate `base_0_1_..._(k-1)`, every earlier candidate was taken and the k-th is not |
| Naming.FreeNameIsFresh | compiler/android-tests/tests/org/jetbrains/kotlin/android/tests/CodegenTestsOnAndroidGenerator.kt:259-268 | the allocated name was not in the list, has the base as a prefix, and equals the base exactly when the base was unused |
| Naming.FreeNameIsIdentifier | compiler/android-tests/tests/org/jetbrains/kotlin/android/tests/CodegenTestsOnAndroidGenerator.kt:260-265 | suffixing a name of identifier characters keeps it a name of identifier characters |
| Naming.SuffixesAccumulate | compiler/android-tests/tests/org/jetbrains/kotlin/android/tests/CodegenTestsOnAndroidGenerator.kt:264 | with `Case` and `Case_0` taken and `Case_0_1` free, the name allocated for `Case` is `Case_0_1`, not `Case_1` |
| Naming.AllocationKeepsNamesDistinct | compiler/android-tests/tests/org/jetbrains/kotlin/android/tests/CodegenTestsOnAndroidGenerator.kt:263-266 | appending the allocated name to a duplicate-free list keeps it duplicate-free |
| Fixtures.HasBoxMethodIffOccurs | compiler/android-tests/tests/org/jetbrains/kotlin/android/tests/CodegenTestsOnAndroidGenerator.kt:285-287 | a text has a box method exactly when `fun box()` occurs in it |
| Fixtures.AcceptedIsFilteredWalk | compiler/android-tests/tests/org/jetbrains/kotlin/android/tests/CodegenTestsOnAndroidGenerator.kt:199-219 | the fixtures the walk batches (`Accepted`) are the reached regular files (excluded names and unlistable directories pruned) that pass the filter, in the order reached |
| Fixtures.AcceptedIffEligible | compiler/android-tests/tests/org/jetbrains/kotlin/android/tests/CodegenTestsOnAndroidGenerator.kt:199-219 | a fixture is batched iff it is reached and `Eligible`: its name is not excluded, it has the Kotlin extension, it passes the JVM target check, its text lacks `@file:JvmPackageName(` and contains `fun box()` |
| Fixtures.FilterEligibleMembers | compiler/android-tests/tests/org/jetbrains/kotlin/android/tests/CodegenTestsOnAndroidGenerator.kt:208-219 | a fixture survives the filter iff it was in the input and is eligible |
| Fixtures.AddKeysGrowsByNewKeys | compiler/android-tests/tests/org/jetbrains/kotlin/android/tests/CodegenTestsOnAndroidGenerator.kt:226-232 | looking up keys with getOrPut (`AddKeys`) keeps the key order duplicate-free, keeps the old keys in place, and afterwards holds exactly the old and the looked-up keys |
| Fixtures.AddKeysAppend | compiler/android-tests/tests/org/jetbrains/kotlin/android/tests/CodegenTestsOnAndroidGenerator.kt:226-232 | looking up two key sequences one after the other gives the same order as looking up their concatenation |
| Fixtures.PatchedForAppend | compiler/android-tests/tests/org/jetbrains/kotlin/android/tests/CodegenTestsOnAndroidGenerator.kt:234 | the entries queued under a key over two fixture sequences are those of the first followed by those of the second |
| Fixtures.PatchedForOnlyOwnKeys | compiler/android-tests/tests/org/jetbrains/kotlin/android/tests/CodegenTestsOnAndroidGenerator.kt:226-234 | a key that none of the fixtures has receives no entries, and a single fixture queues its entries under its own key only |
| Fixtures.TestMethodHeaderNamesTest | compiler/android-tests/tests/org/jetbrains/kotlin/android/tests/CodegenTestsOnAndroidGenerator.kt:289-296 | a test method (`TestMethodLines`) is four lines, its header declares exactly the given test name, and it ends with `}` and a blank line |
| Fixtures.EmitAppend | compiler/android-tests/tests/org/jetbrains/kotlin/android/tests/CodegenTestsOnAndroidGenerator.kt:234-242 | the emission over two fixture sequences is the emission over the first, continued over the second |
| Fixtures.EmitAllocatesDistinctNames | compiler/android-tests/tests/org/jetbrains/kotlin/android/tests/CodegenTestsOnAndroidGenerator.kt:234-242 | emission over a fixture sequence extends the name list and the printed lines, adds one name and four lines per fixture with a box class, and keeps the names distinct identifiers |
| Generator.FolderIsQuotient | compiler/android-tests/tests/org/jetbrains/kotlin/android/tests/CodegenTestsOnAndroidGenerator.kt:170 | the folder of a running count is the count divided by 1000 |
| Generator.FolderMonotone | compiler/android-tests/tests/org/jetbrains/kotlin/android/tests/CodegenTestsOnAndroidGenerator.kt:169-170 | a larger count never gives an earlier folder |
| Generator.ModuleNamesDistinct | compiler/android-tests/tests/org/jetbrains/kotlin/android/tests/CodegenTestsOnAndroidGenerator.kt:147 | distinct module indices give distinct `android-module-N` names |
| Generator.FilesForAppend | compiler/android-tests/tests/org/jetbrains/kotlin/android/tests/CodegenTestsOnAndroidGenerator.kt:185 | writing one more batch adds its files to the files compiled under its own key and to no other key |
| Generator.FlushGrows | compiler/android-tests/tests/org/jetbrains/kotlin/android/tests/CodegenTestsOnAndroidGenerator.kt:124-126 | a flush pass (`Flush`) only appends batches, never lowers the module index, and raises the count by exactly the files in the batches it appends |
| Generator.FlushAllConsumesOneIndexEach | compiler/android-tests/tests/org/jetbrains/kotlin/android/tests/CodegenTestsOnAndroidGenerator.kt:124-126 | flushing every writer consumes exactly one module index per writer, whether or not it held files |
| Generator.FlushOneMoves | compiler/android-tests/tests/org/jetbrains/kotlin/android/tests/CodegenTestsOnAndroidGenerator.kt:142-158 | one step of a flush pass moves the first writer's files under its key from pending to the disk, or leaves them pending, and changes no other key |
| Generator.PendingForDistinct | compiler/android-tests/tests/org/jetbrains/kotlin/android/tests/CodegenTestsOnAndroidGenerator.kt:226-232 | with one writer per key, the files pending under a key are those of its writer, or none when no writer has that key |
| Generator.FlushConserves | compiler/android-tests/tests/org/jetbrains/kotlin/android/tests/CodegenTestsOnAndroidGenerator.kt:124-126 | for every key, the files compiled followed by the files pending are the same before and after a flush pass (`AfterFlush`): nothing is lost, added or reordered |
| Generator.FlushStep | compiler/android-tests/tests/org/jetbrains/kotlin/android/tests/CodegenTestsOnAndroidGenerator.kt:195-197 | flushing the i-th writer advances both a flush pass and the pending lists it leaves by exactly one writer |
| Generator.WritersInOrderDistinct | compiler/android-tests/tests/org/jetbrains/kotlin/android/tests/CodegenTestsOnAndroidGenerator.kt:124-126 | iterating over the holders visits each writer once, and each belongs to the generator |
| Generator.WriterAt | compiler/android-tests/tests/org/jetbrains/kotlin/android/tests/CodegenTestsOnAndroidGenerator.kt:195-197 | the i-th writer of the map belongs to the generator and appears at no other position of the iteration |
| Generator.StreamIsPending | compiler/android-tests/tests/org/jetbrains/kotlin/android/tests/CodegenTestsOnAndroidGenerator.kt:226-232 | with a valid map the pending lists carry one key each, and everything queued under a key is what was compiled from its writer followed by what is pending in it |
| Generator.StreamAfterFlush | compiler/android-tests/tests/org/jetbrains/kotlin/android/tests/CodegenTestsOnAndroidGenerator.kt:124-126 | after a flush pass that leaves the disk as `Flush` and the writers as `AfterFlush` describe, everything queued under each key equals what was on disk and pending before |
| Generator.AllFlushedEmpty | compiler/android-tests/tests/org/jetbrains/kotlin/android/tests/CodegenTestsOnAndroidGenerator.kt:124-126 | after every writer has been flushed, no writer holds a pending file |
| Generator.OutputsBounded | compiler/android-tests/tests/org/jetbrains/kotlin/android/tests/CodegenTestsOnAndroidGenerator.kt:164-170 | on consistent outputs the count is the number of files compiled, and every batch is non-empty, has a module index from 1 to below the next index, and a folder at most the count divided by 1000 |
| Generator.OutputsOrdered | compiler/android-tests/tests/org/jetbrains/kotlin/android/tests/CodegenTestsOnAndroidGenerator.kt:147-170 | on consistent outputs module indices strictly increase from batch to batch and folder indices never decrease |
| Generator.BatchModuleNamesDistinct | compiler/android-tests/tests/org/jetbrains/kotlin/android/tests/CodegenTestsOnAndroidGenerator.kt:147 | every batch on disk was compiled in a module with a name of its own |
| Generator.FlushKeepsOutputsConsistent | compiler/android-tests/tests/org/jetbrains/kotlin/android/tests/CodegenTestsOnAndroidGenerator.kt:164-186 | a non-empty batch under a module index above every earlier one, written into the folder of the updated count divided by 1000, keeps the disk consistent with the counters |
| Generator.CodegenTestsOnAndroidGenerator.constructor | compiler/android-tests/tests/org/jetbrains/kotlin/android/tests/CodegenTestsOnAndroidGenerator.kt:51-55 | the run starts with zero files written, module index 1, no names and nothing on disk |
| Generator.CodegenTestsOnAndroidGenerator.GenerateTestName | compiler/android-tests/tests/org/jetbrains/kotlin/android/tests/CodegenTestsOnAndroidGenerator.kt:259-268 | returns the first free candidate for the base name, which was not in the list, has the base as prefix, equals the base iff the base was unused, is an identifier; appends exactly it; nothing else changes |
| Generator.CodegenTestsOnAndroidGenerator.GenerateTestMethod | compiler/android-tests/tests/org/jetbrains/kotlin/android/tests/CodegenTestsOnAndroidGenerator.kt:289-296 | prints exactly the four lines of the test method and changes nothing else |
| Generator.CodegenTestsOnAndroidGenerator.PatchFiles | compiler/android-tests/tests/org/jetbrains/kotlin/android/tests/CodegenTestsOnAndroidGenerator.kt:234 | appends the collaborator's entries to the writer in order and returns the class holding box() or none |
| Generator.CodegenTestsOnAndroidGenerator.HolderFor | compiler/android-tests/tests/org/jetbrains/kotlin/android/tests/CodegenTestsOnAndroidGenerator.kt:226-231 | getOrPut: an existing key gives its writer and leaves the map alone; a new key gets a fresh empty writer with the given configuration, added after the keys already held; existing writers are kept; what any key has queued is unchanged |
| Generator.CodegenTestsOnAndroidGenerator.ProcessFixture | compiler/android-tests/tests/org/jetbrains/kotlin/android/tests/CodegenTestsOnAndroidGenerator.kt:220-242 | for an eligible fixture: the key order gains its key if new, the names and lines grow as `EmitOne` says, what is queued under its key grows by its patched entries and under every other key stays the same; the disk, counters and pending lists end as `WalkEntry` says; nothing is flushed |
| Generator.CodegenTestsOnAndroidGenerator.EmitTestFor | compiler/android-tests/tests/org/jetbrains/kotlin/android/tests/CodegenTestsOnAndroidGenerator.kt:234-242 | without a box class nothing is printed; with one, one fresh name is allocated and its method printed, as `EmitOne` says; the disk, the counters and every writer are unchanged |
| Generator.CodegenTestsOnAndroidGenerator.FlushIfDue | compiler/android-tests/tests/org/jetbrains/kotlin/android/tests/CodegenTestsOnAndroidGenerator.kt:195-197 | for the i-th writer of the map: the disk and counters change as `FlushIf` says, that writer's pending list becomes `Cleared`, and no other writer changes |
| Generator.CodegenTestsOnAndroidGenerator.FlushWriter | compiler/android-tests/tests/org/jetbrains/kotlin/android/tests/CodegenTestsOnAndroidGenerator.kt:124-126 | for the i-th writer of the map: the disk and counters change as one flush (`FlushOne`) says, that writer is emptied, and no other writer changes |
| Generator.CodegenTestsOnAndroidGenerator.FlushDue | compiler/android-tests/tests/org/jetbrains/kotlin/android/tests/CodegenTestsOnAndroidGenerator.kt:195-197 | the disk and the counters end exactly as `Flush` with threshold 300 says, over the pending lists in the map's order; the writers end as `AfterFlush` says; names and lines are unchanged |
| Generator.CodegenTestsOnAndroidGenerator.FlushAll | compiler/android-tests/tests/org/jetbrains/kotlin/android/tests/CodegenTestsOnAndroidGenerator.kt:124-126 | the disk and the counters end exactly as `Flush` of every writer says; every writer ends as `AfterFlush` says, that is empty; names and lines are unchanged |
| Generator.CodegenTestsOnAndroidGenerator.ProcessFiles | compiler/android-tests/tests/org/jetbrains/kotlin/android/tests/CodegenTestsOnAndroidGenerator.kt:190-246 | the due writers are flushed first: the batches of the `Flush` pass with threshold 300 over the writers' pending lists in map order are a prefix of the final outputs, and the module index ends at or above the index that pass reaches; the disk, counters and pending lists end exactly as `WalkFiles` says; the key order gains the keys of the accepted fixtures in first-appearance order, existing writers are kept, the names and lines are the emission over the accepted fixtures, and what is queued under each key grows by exactly the entries patched for it |
| Generator.CodegenTestsOnAndroidGenerator.ProcessListing | compiler/android-tests/tests/org/jetbrains/kotlin/android/tests/CodegenTestsOnAndroidGenerator.kt:199-245 | handling the entries in order ends in the state `WalkListing` gives, and has the effect of the walk specification `Accepted` over the whole listing on the key order, the emission and what is queued under each key |
| Generator.CodegenTestsOnAndroidGenerator.ProcessEntry | compiler/android-tests/tests/org/jetbrains/kotlin/android/tests/CodegenTestsOnAndroidGenerator.kt:200-243 | an entry ends in the state `WalkEntry` gives and has the effect of `AcceptedIn` for that entry on the key order, the emission and what is queued; a regular file never flushes |
| Generator.CodegenTestsOnAndroidGenerator.ProcessRegularFile | compiler/android-tests/tests/org/jetbrains/kotlin/android/tests/CodegenTestsOnAndroidGenerator.kt:208-242 | a file that is not excluded is batched and emitted exactly when it is eligible, and otherwise changes nothing; the state ends as `WalkEntry` says; it never flushes |
| Generator.CodegenTestsOnAndroidGenerator.GenerateTestMethodsForDirectories | compiler/android-tests/tests/org/jetbrains/kotlin/android/tests/CodegenTestsOnAndroidGenerator.kt:116-127 | fails, naming the first root that cannot be listed, iff some root cannot be listed; otherwise the disk and the counters end exactly as `RunOutcome` says, the key order and the emission follow the walk over all roots, every writer ends empty, and the files compiled under each key are exactly the entries patched for it, in order |
| Generator.CodegenTestsOnAndroidGenerator.WalkRoots | compiler/android-tests/tests/org/jetbrains/kotlin/android/tests/CodegenTestsOnAndroidGenerator.kt:117-122 | one fresh holders map serves all roots; the walk stops at the first root that cannot be listed; otherwise the state ends as `WalkUnderRoots` from an empty map says, and what is queued under each key is what was on disk before plus the entries patched for it |
| Generator.EligibleContributes | compiler/android-tests/tests/org/jetbrains/kotlin/android/tests/CodegenTestsOnAndroidGenerator.kt:208-234 | an eligible fixture is accepted on its own, contributes its key to the key order, is emitted as `EmitOne` says, and queues its patched entries under its own key only |
| Generator.QueueConserves | compiler/android-tests/tests/org/jetbrains/kotlin/android/tests/CodegenTestsOnAndroidGenerator.kt:226-234 | queueing a fixture (`Queue`) keeps one pending list per key, adds its patched entries at the end of its key's list and changes no other key's list |
| Generator.QueueAt | compiler/android-tests/tests/org/jetbrains/kotlin/android/tests/CodegenTestsOnAndroidGenerator.kt:226-234 | growing the one pending list of the fixture's key, or the empty list added for a new key, gives the pending lists `Queue` describes |
| Generator.HeldSnapshots | compiler/android-tests/tests/org/jetbrains/kotlin/android/tests/CodegenTestsOnAndroidGenerator.kt:226-231 | right after getOrPut the pending lists are the old ones, followed by an empty list with the new configuration when the key was new |
| Generator.SnapshotKeysDistinct | compiler/android-tests/tests/org/jetbrains/kotlin/android/tests/CodegenTestsOnAndroidGenerator.kt:226-231 | with a valid map the pending lists carry one key each |
| Generator.WalkListingStep | compiler/android-tests/tests/org/jetbrains/kotlin/android/tests/CodegenTestsOnAndroidGenerator.kt:199-200 | handling entry i after entries 0..i-1 of a listing amounts to handling entries 0..i |
| Generator.WalkRootsStep | compiler/android-tests/tests/org/jetbrains/kotlin/android/tests/CodegenTestsOnAndroidGenerator.kt:119-121 | walking root i after roots 0..i-1 amounts to walking roots 0..i |
| Generator.CodegenTestsOnAndroidGenerator.QueueFixture | compiler/android-tests/tests/org/jetbrains/kotlin/android/tests/CodegenTestsOnAndroidGenerator.kt:226-234 | getOrPut then patchFiles: the key order gains the key if new, existing writers are kept, the pending lists change as `Queue` says, and the class holding box() is returned |
| Generator.CodegenTestsOnAndroidGenerator.PatchHeld | compiler/android-tests/tests/org/jetbrains/kotlin/android/tests/CodegenTestsOnAndroidGenerator.kt:234 | patchFiles on the i-th writer of the map grows that writer's pending list by the patched entries and changes no other writer |
| Generator.CodegenTestsOnAndroidGenerator.EmitNamedTest | compiler/android-tests/tests/org/jetbrains/kotlin/android/tests/CodegenTestsOnAndroidGenerator.kt:236-242 | allocates the fixture's test name and prints its test method as `EmitOne` says; the disk and the counters are unchanged |
| Generator.CodegenTestsOnAndroidGenerator.FlushDueStep | compiler/android-tests/tests/org/jetbrains/kotlin/android/tests/CodegenTestsOnAndroidGenerator.kt:195-197 | flushing the i-th writer if due, after writers 0..i-1: the disk and counters change as `FlushIf` says and the pass now covers writers 0..i |
| Generator.CodegenTestsOnAndroidGenerator.FlushAllStep | compiler/android-tests/tests/org/jetbrains/kotlin/android/tests/CodegenTestsOnAndroidGenerator.kt:124-126 | flushing the i-th writer after writers 0..i-1: the disk and counters change as `FlushOne` says and the pass now covers writers 0..i |
| Runs.FlushNoneDue | compiler/android-tests/tests/org/jetbrains/kotlin/android/tests/CodegenTestsOnAndroidGenerator.kt:134-140 | a flush pass in which no writer holds more than the threshold writes nothing and changes no counter |
| Runs.DuePassQuiet | compiler/android-tests/tests/org/jetbrains/kotlin/android/tests/CodegenTestsOnAndroidGenerator.kt:195-197 | when no key has more than 300 files pending, the flush pass at the start of processFiles changes nothing |
| Runs.WalkFilesQuiet | compiler/android-tests/tests/org/jetbrains/kotlin/android/tests/CodegenTestsOnAndroidGenerator.kt:190-246 | processFiles on a listing that keeps every key within 300 files writes nothing, and queues the listing's accepted fixtures under their keys in walk order |
| Runs.WalkListingQuiet | compiler/android-tests/tests/org/jetbrains/kotlin/android/tests/CodegenTestsOnAndroidGenerator.kt:199-245 | the entries of such a listing, in order, write nothing and queue their accepted fixtures in walk order |
| Runs.WalkEntryQuiet | compiler/android-tests/tests/org/jetbrains/kotlin/android/tests/CodegenTestsOnAndroidGenerator.kt:200-243 | one entry of such a listing writes nothing and queues the fixtures it accepts |
| Runs.WalkUnderRootsQuiet | compiler/android-tests/tests/org/jetbrains/kotlin/android/tests/CodegenTestsOnAndroidGenerator.kt:117-121 | walking roots that keep every key within 300 files writes nothing and queues all accepted fixtures under their keys in walk order |
| Runs.FinalFlushKeys | compiler/android-tests/tests/org/jetbrains/kotlin/android/tests/CodegenTestsOnAndroidGenerator.kt:123-125 | the final flush appends batches after what was on disk, each under a key some writer holds, no two under the same key |
| Runs.FinalFlushEmpties | compiler/android-tests/tests/org/jetbrains/kotlin/android/tests/CodegenTestsOnAndroidGenerator.kt:123-125 | after the final flush nothing is pending under any key |
| Runs.SmallRunOneBatchPerKey | compiler/android-tests/tests/org/jetbrains/kotlin/android/tests/CodegenTestsOnAndroidGenerator.kt:116-127 | when no key collects more than 300 files over the run, the walk writes nothing, and the run ends with each key's files, all of them in walk order, in a single batch, no key getting two |
| Generator.FilesWriter.constructor | compiler/android-tests/tests/org/jetbrains/kotlin/android/tests/CodegenTestsOnAndroidGenerator.kt:129-132 | a new writer holds its configuration and no pending files |
| Generator.FilesWriter.AddFile | compiler/android-tests/tests/org/jetbrains/kotlin/android/tests/CodegenTestsOnAndroidGenerator.kt:160-162 | appends the pair at the end, keeping earlier entries in order; nothing else changes |
| Generator.FilesWriter.WriteFilesOnDiskIfNeeded | compiler/android-tests/tests/org/jetbrains/kotlin/android/tests/CodegenTestsOnAndroidGenerator.kt:134-140 | flushes iff more than 300 files are pending (`FlushIf`); the pending list becomes `Cleared`; names and lines are unchanged |
| Generator.FilesWriter.WriteFilesOnDisk | compiler/android-tests/tests/org/jetbrains/kotlin/android/tests/CodegenTestsOnAndroidGenerator.kt:142-158 | the disk and counters change as one flush (`FlushOne`) says: the module index rises by exactly one even for an empty list; the pending list is emptied |
| Generator.FilesWriter.WriteFiles | compiler/android-tests/tests/org/jetbrains/kotlin/android/tests/CodegenTestsOnAndroidGenerator.kt:164-186 | an empty list changes nothing; otherwise the count grows by the batch size and the batch, under the given module index, goes to the folder of the updated count divided by 1000 |

## Left out

- Runtime jar copying, libs folder creation, license loading, the class header and footer, and writing the generated Java file (lines 57-114) are file-system I/O. The model keeps only the printed test-method lines.
- Compilation is not modelled: the environment, the disposable, PSI file creation, `compileFiles` and `writeAllTo`. A flush is recorded as a `CompiledBatch` value. The check that the output directory exists after writing is not modelled either.
- Failures while reading a fixture are not modelled. `FileUtil.loadFile` (line 215) can throw an `IOException`, which `processFiles` declares (line 189), and the directive collaborators (lines 220-224) can throw. Either one ends the run. In the model every fixture carries its text and its `Directives`.
- A failed compilation is not modelled. In the source an exception from `compileFiles` (or a failed directory check) ends the whole run after the count has already grown. In the model every flush succeeds.
- Directive handling is not modelled: `isPassingTarget`, `createTestFiles`, `extractConfigurationKind`, `getJdkKind`, `updateConfigurationByDirectivesInTestFiles`, `newConfiguration` and `CompilerConfiguration.toString()`. Their answers are inputs carried by each fixture as `Directives`.
- `patchFiles` is not defined in the generator file and is not part of this model. It appears as a step that appends the collaborator-given entries and returns the collaborator-given class or none.
- `StringUtil.capitalize`, `FileUtil.getNameWithoutExtension`, `FileUtilRt.getExtension`, `NameUtils.sanitizeAsJavaIdentifier` and `StringUtil.escapeStringCharacters` are ASCII stand-ins. Escaping covers only backslash, quote, newline, tab and carriage return. Unicode case mapping and other escapes are not modelled.
- Printer indentation is not modelled. The invocation line carries one fixed indentation step; the class-level indentation is not modelled. `println` progress logging is left out.
- A root's listing error names `root.Path()`. The model takes that path to be the absolute path the source prints. The failure is a returned error value instead of a thrown exception.
- Integer counters are unbounded `nat`s. The source's 32-bit `Int` counters cannot overflow on any realistic fixture set.
- The order of a directory listing is taken as given. `listFiles` promises no order, so the model walks entries in the order of the listing value.
- The constructor's `PathManager` and the `generate` entry point are not modelled; `excluded` stands for `SpecialFiles.getExcludedFiles()`.
