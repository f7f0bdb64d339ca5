# Verified model of pg-embedded-setup-unpriv

pg-embedded-setup-unpriv starts PostgreSQL servers for tests. This project models the parts of it that are hard
to get right and proves what they are for:

- **Scoped environment variables.** `ScopedEnvSpec` describes opening and closing a scope as functions on a
  thread's stack of saved values and the process environment; `ThreadState` is the code itself, a class that
  updates depth, lock, stack and environment in place, proved equal to those functions; `ScopedEnvGuards` adds the
  guards and the order in which they are dropped; `ScopedEnvThreads` breaks both operations into single writes and
  runs any number of threads over one mutex.
- **The shared binary cache.** `Disk` is a file system as a map from paths to files, links and directories.
  `CopyTree` is the recursive copy and the population with the marker written last. `CacheProtocol` is any number of
  processes that read and populate the cache step by step, fail and crash anywhere; `CacheRefinement` shows that the
  copies of `CopyTree` do to an entry what the steps of the protocol say, `CacheMarker` exactly which sources make the
  protocol safe, and `CacheProgress` which populations and installations succeed. `VersionChoice` is the choice among
  versions.
- **Protocols that run something once.** `TemplateProtocol` (template databases), `SharedSingleton` (the cluster
  shared by a process), and `Ddl` (the text of the database commands, read back).
- **Tree walks and removals.** `TreeWalk` (ownership of a tree), `TreeHash` and `HashedPaths` (the byte stream of a
  directory hash), `Cleanup` (the two implementations of removal).
- **Bounded loops.** `Summary` (the truncated list of environment changes) and `Shutdown` (the exit hook).

`dafny verify dfyconfig.toml` verifies everything.

## Assumptions

These are preconditions or modelling choices, each with the place where the code relies on it.

- Changes are valid wherever a theorem is about several calls: the key is not empty and holds no "=", and neither the
  key nor the value holds a NUL. The code checks the first half itself and `set_var` and `remove_var` panic on a NUL
  (`src/env/state.rs:154-163`, `src/env/state.rs:191-202`), both with the lock and the depth already taken
  (`src/env/state.rs:93-97`). `EnterKeepsInv` shows that valid changes are exactly what keeps the invariant,
  `PanicLeaksTheLock` what happens otherwise, and `RestoringNeverPanics` that writing saved values back is safe when the
  original environment holds no NUL, as no environment of a process does. Nobody else writes the environment.
- All sources of one version have the same contents, hold a `bin` directory and have no top-level `.complete`. An
  installation made from the cache does have one (`src/cache/operations/copy.rs:86-99`), and a population from it is
  not safe: `CrashLeavesFalseEntry` and `FalseEntryIsInstalled` give the run, and `SafeIffNoMarkers` shows that the
  absence of the marker is exactly what is needed. Only the protocol writes the cache, and a crash gives a lock up.
- Template setup functions do not call back into `ensure_template_exists`, and nobody drops a template.
- In the hash, entries of one directory whose names have the same lossy text contribute commuting bytes, as entries
  with distinct texts trivially do (`DistinctKeysCommute`); `HiddenIffCommuting` shows that the listing order shows in
  the stream otherwise.

## Where the documentation and the code differ

- `src/cluster/lifecycle.rs:70-74` and `src/cluster/lifecycle.rs:243-247` speak of locks per template and access to
  different templates at the same time. The map entry taken at `src/cluster/lifecycle.rs:282-284` stays alive until the
  call returns and holds the write lock of its shard, so templates whose names share a shard also wait for each
  other. The model follows the code: a waiting call may enter if and only if no call in progress has its shard
  (`EntersIffShardFree`), and `OtherTemplateMayWait` gives the two names and the call that waits. `NoDeadlock` shows
  that the template's own mutex then never makes a call wait.
- `ensure_template_exists` is documented to make sure the template is set up. After a setup that failed or panicked it is not:
  the database stays, and the next call succeeds without running a setup (`FirstFails`,
  `FailedSetupIsTakenForDone`). `SetUpOnce` gives the exact guarantee.
- The count of shown entries in the environment summary counts commas, and `src/env/summary.rs:25` calls it an
  estimate. An environment key may contain a comma: `CommaInKeyMiscounts` gives such a summary, and `CountIsRightIff`
  shows that the count is right if and only if no entry shown has a comma in its shown part.

## Model

| member | source | states |
|---|---|---|
| ScopedEnvSpec.UndoOverlay | src/env/state.rs:318-333 | Writing the saved values back in reverse restores the environment exactly, also when one scope lists a key several times |
| ScopedEnvSpec.OverlayRead | src/env/state.rs:186-205 | A reader sees the last change that names the key, or the old value |
| ScopedEnvSpec.EnterKeepsInv | src/env/state.rs:89-105 | Opening a scope keeps the invariant if and only if every change is valid, and then returns the index of its own unfinished entry |
| ScopedEnvSpec.ExitKeepsInv | src/env/state.rs:107-121 | Closing keeps the invariant for every index: in order, out of order, repeated or out of range |
| ScopedEnvSpec.EarlyExitIsInvisible | src/env/state.rs:207-235 | Closing a scope that is not on top pops nothing and changes no variable |
| ScopedEnvSpec.TopExitUncovers | src/env/state.rs:224-235 | Closing the top scope pops down to the highest unfinished entry, and the environment is then the base overlaid by what remains |
| ScopedEnvSpec.IdleIsBase | src/env/state.rs:237-247 | Depth zero means an empty stack, a free lock and the base environment |
| ScopedEnvSpec.AnyRunKeepsInv | src/env/state.rs:89-121 | After any sequence of calls with any indices: lock held iff depth > 0, depth is the number of unfinished entries, the top is unfinished, the environment is the base overlaid by all entries; depth zero is the initial state |
| ScopedEnvSpec.PanicLeaksTheLock | src/env/state.rs:93-97 | After a panic on a bad key or a NUL, in any consistent state, the lock stays taken through every later run of openings and of closings that name unfinished entries; a closing frees it if and only if it names none and so resets everything |
| ScopedEnvSpec.ScopeAfterPanic | src/env/state.rs:93-97 | On an idle thread the panic leaves a depth of one with no entry to close, and a scope opened and closed correctly gives back exactly that state |
| ScopedEnvSpec.RestoringNeverPanics | src/env/state.rs:318-333 | After any run of valid openings and of closings with any indices, every saved change is one that the system takes |
| ScopedEnvSpec.PopFinished | src/env/state.rs:224-235 | The pop loop leaves a prefix whose top is unfinished and removes only finished entries |
| ScopedEnvSpec.ValidPrefix | src/env/state.rs:146-150 | Where an opening panics: every change before is valid and the next is not, and the length is reached iff all are valid |
| ScopedEnvSpec.RefusedExactly | src/env/state.rs:154-163 | A change is refused, with lock and depth taken and nothing written, if and only if its key is empty or holds a "=", or its key or value holds a NUL |
| ScopedEnvGuards.StepKeepsGuards | src/env/mod.rs:157-167 | Live guards and unfinished entries name each other after every opening and every drop |
| ScopedEnvGuards.GuardsNeverReset | src/env/mod.rs:157-167 | If each guard is dropped at most once, in any order, every live guard names its own unfinished entry, its drop lowers the depth by one, and with no live guard the initial state is back |
| ScopedEnvThreads.OpenRefinesEnter | src/env/state.rs:137-152 | The single steps of opening, run to the end, are exactly the atomic operation |
| ScopedEnvThreads.CloseRefinesExit | src/env/state.rs:207-262 | The single steps of closing, the forced reset included, are exactly the atomic operation |
| ScopedEnvThreads.ActKeepsInv | src/env/state.rs:137-152 | What a thread and its environment keep between any two single writes |
| ScopedEnvThreads.MutualExclusion | src/env/state.rs:123-135 | For any number of threads and any interleaving of single writes, at most one thread has depth > 0, it holds the mutex, and a free mutex means the initial environment |
| ScopedEnvThreads.Isolation | src/env/state.rs:89-135 | Every thread is in the state it would have reached alone, and the holder sees the environment it would then see: outermost scopes are as if run one after another |
| ScopedEnvThreads.OnlyTheHolderWrites | src/env/state.rs:137-152 | A step that changes the environment is a step of the thread that has the mutex |
| ScopedEnvThreads.OnlyWaitersBlock | src/env/state.rs:123-135 | A call under way is held up if and only if it waits for a mutex that is taken; the holder is never waiting, and between calls it can close its top scope |
| ScopedEnvThreads.HolderCanLeave | src/env/state.rs:107-121 | From every reachable world the holder can get out of all its scopes by its own steps, and the mutex is then free and the environment the initial one |
| ScopedEnvThreads.WaiterCanEnter | src/env/state.rs:123-135 | Every reachable world with a waiting thread leads to one in which it has the mutex and sees the initial environment |
| ThreadState.ThreadStateCore.constructor | src/env/state.rs:81-87 | A new thread state is idle |
| ThreadState.ThreadStateCore.EnterScope | src/env/state.rs:89-105 | The new depth, lock, stack, environment and result are those of the specification, and a call that does not panic keeps the invariant |
| ThreadState.ThreadStateCore.ExitScope | src/env/state.rs:107-121 | The new state is that of the specification for every index; reaching depth zero brings back the environment seen at lock acquisition and frees the mutex |
| ThreadState.ThreadStateCore.AcquireLockIfNeeded | src/env/state.rs:123-135 | Takes the mutex only at depth zero; the code's assertion holds |
| ThreadState.ThreadStateCore.ApplyEnvVars | src/env/state.rs:137-152 | Writes the changes up to the first that the key check or the system refuses, and returns the values they replaced |
| ThreadState.ThreadStateCore.ApplySingleVar | src/env/state.rs:186-205 | One write and the previous value; a NUL in key or value stops it with nothing written |
| ThreadState.ThreadStateCore.FinishScope | src/env/state.rs:207-222 | Marks and pops, or resets everything when the index names no unfinished entry |
| ThreadState.ThreadStateCore.RestoreFinishedScopes | src/env/state.rs:224-235 | The loop leaves the prefix up to the highest unfinished entry and undoes exactly the others |
| ThreadState.ThreadStateCore.ReleaseOutermostLock | src/env/state.rs:237-247 | Frees the mutex; the code's two assertions hold |
| ThreadState.ThreadStateCore.ForceRestoreAndReset | src/env/state.rs:249-262 | Undoes every entry and forgets them |
| ThreadState.ThreadStateCore.EnsureLockForRestore | src/env/state.rs:278-283 | The mutex is held before anything is restored |
| ThreadState.ThreadStateCore.RestoreAllScopes | src/env/state.rs:285-293 | Undoes every entry, top first |
| ThreadState.ThreadStateCore.ResetDepthAndUnlock | src/env/state.rs:295-301 | Depth zero and the guard dropped |
| ThreadState.RestoreSaved | src/env/state.rs:318-333 | The reverse loop is the specification's undo |
| Disk.FileSystem.CreateDirAll | src/cache/operations/copy.rs:48-49 | Links on the way are followed; creates the missing directories, or fails with nothing changed exactly when a file is on the way or a link leads nowhere |
| Disk.ResolveIffReached | src/cache/operations/copy.rs:48-49 | A path is looked up to q if and only if at most 40 steps lead from it to q, q having no link on it, where a step replaces the first link on the path by what it points at and that leads to something present |
| Disk.LinkLeadsToTarget | src/cache/operations/populate.rs:57-63 | With one link on the way the rest of the path is found under what the link points at |
| Disk.WalkIsPhysical | src/cache/operations/copy.rs:48-49 | What a path leads to has no link on it |
| Disk.WalkStays | src/cache/operations/populate.rs:57-63 | A path that leads to something keeps leading there while links stay as they are |
| CopyTree.CopyDirRecursive | src/cache/operations/copy.rs:81-104 | For every tree and every listing order, with the destination present or with any part of the way to it missing: succeeds exactly when it can be made, the source is a directory and nothing is in the way, and then each path holds the source merged with what was there; a stop anywhere leaves each path old or copied |
| CopyTree.CopyChildren | src/cache/operations/copy.rs:84-102 | The loop over the listing, with the same result for the children |
| CopyTree.CopyEntry | src/cache/operations/copy.rs:86-101 | One entry: recurse, remake the link or copy the file, and exactly when that fails |
| CopyTree.CopyFromCache | src/cache/operations/copy.rs:45-56 | Both directories looked up through links: the installed tree is the entry merged into the target directory, exactly when the copy fails, and what each kind of failure leaves |
| CopyTree.PopulateCache | src/cache/operations/populate.rs:48-67 | The copy first and the marker last, also for a source that holds a marker of its own: exactly when it succeeds, that success leaves the copy and an empty marker, and that failure leaves part of the copy |
| CopyTree.NoNewMarker | src/cache/operations/populate.rs:57-63 | Without a marker in the source a failed population writes none |
| CopyTree.EntryFound | src/cache/operations/populate.rs:91-96 | The path of the entry leads to the same directory after the copy, so the marker is written where the copy went |
| CopyTree.RoundTrip | src/cache/operations/copy.rs:45-104 | Populating an absent entry and installing into an absent directory gives exactly the original tree plus the marker |
| CopyTree.AbsentTargetIsFree | src/cache/operations/copy.rs:81-104 | Nothing can be in the way in an absent target |
| CopyTree.LeftoverLinkBlocks | src/cache/operations/copy.rs:136-140 | A link made by an earlier attempt makes every later one fail |
| CacheRefinement.PopulatedIsPacked | src/cache/operations/populate.rs:48-67 | Populating an absent or unfinished entry turns it into exactly the source plus marker that the protocol calls complete |
| CacheRefinement.FailureStaysRepeatable | src/cache/operations/populate.rs:48-67 | However far a failed population came, the entry is what the protocol calls partial, and the source is untouched |
| CacheRefinement.OnlyLinksBlock | src/cache/operations/copy.rs:136-140 | Over a partial entry a population is stopped if and only if a link of the source is already there |
| CacheRefinement.InstalledIsPacked | src/cache/operations/copy.rs:45-56 | Installing a complete entry into an absent directory gives the whole source plus marker |
| CacheProtocol.MarkerMeansComplete | src/cache/operations/lookup.rs:35-39 | The completeness check is true exactly of entries with a marker, and those hold the whole source |
| CacheProtocol.StepKeepsInv | src/cluster/cache_integration.rs:132-245 | Every step of every process, failures and crashes included, keeps locks, entries and processes consistent |
| CacheProtocol.OthersUntouched | src/cluster/cache_integration.rs:194-231 | A node stored under the exclusive lock disturbs no other process |
| CacheProtocol.WriterStep | src/cache/operations/populate.rs:57-63 | Only the marker completes an entry, and when it is written every node is in place |
| CacheProtocol.ReadersGetEverything | src/cluster/cache_integration.rs:132-157 | In every run a reader that finishes has the whole version, and the check under the shared lock never misses what the scan found |
| CacheProtocol.WritersAreAlone | src/cache/lock.rs:78-116 | While one process is between its second check and the marker, no other reads or writes that version |
| CacheProtocol.CompleteIsForever | src/cluster/cache_integration.rs:186-230 | A complete entry never changes, and each version is populated at most once in a run |
| CacheMarker.SafeIffNoMarkers | src/cache/operations/lookup.rs:35-39 | For sources with a bin directory and something besides, whose marker if any is a regular file: every finished reader has the whole version, and checked entries never change, if and only if no source holds a marker |
| CacheMarker.CrashLeavesFalseEntry | src/cache/operations/copy.rs:86-99 | With a marker in the source, a writer that crashes after copying it leaves an entry that passes the check, with no lock held and a node missing |
| CacheMarker.FalseEntryIsInstalled | src/cluster/cache_integration.rs:132-157 | And the next process installs that entry without the missing node |
| CacheMarker.UnstableWithMarker | src/cache/operations/lookup.rs:35-39 | Without a crash, such an entry passes the check and still changes |
| CacheProtocol.SomeoneCanStep | src/cache/lock.rs:78-116 | No deadlock: a process that waits for a lock holds none, and some running process can always step |
| CacheProgress.PopulationSucceeds | src/cluster/cache_integration.rs:166-245 | A process that missed and downloaded a version populates it completely by its own steps when nobody holds the lock, the entry is not complete and no link of the source is in it |
| CacheProgress.InstallationSucceeds | src/cluster/cache_integration.rs:132-157 | A process whose scan ends on a complete entry installs the whole version by its own steps when nobody is writing it |
| CacheProgress.LeftoverLinkIsForGood | src/cache/operations/copy.rs:136-140 | Once nobody is writing an unmarked entry that holds a link of the source, no continuation completes it or populates the version |
| CacheProgress.EndIsFinal | src/cluster/cache_integration.rs:186-235 | A process that meets such a link, finds the version complete, fails while populating or crashes gives up its lock, changes and populates nothing, and never steps again |
| CacheProgress.FailedReaderMisses | src/cluster/cache_integration.rs:144-156 | A process whose installation fails gives up its lock and goes on to the download |
| VersionChoice.FindMatchingCachedVersion | src/cache/operations/lookup.rs:131-190 | The scan returns a greatest entry that is not hidden, parses, meets the requirement and is complete, for every listing order, and nothing iff there is none |
| VersionChoice.CompareIsOrder | src/cluster/installation.rs:195-212 | The comparator is a total order up to candidates with the same version |
| VersionChoice.LastIsHighest | src/cluster/installation.rs:195-213 | The last of any sorted arrangement has the highest version if any name parses, else the greatest path |
| VersionChoice.HighestIsUnique | src/cluster/installation.rs:185-213 | The listing order of the directory does not change the version chosen |
| TemplateProtocol.OnePerShard | src/cluster/lifecycle.rs:282-287 | Two calls past the map entry are in different shards |
| TemplateProtocol.EntersIffShardFree | src/cluster/lifecycle.rs:282-284 | In every reachable world a waiting call may enter if and only if no call in progress has its shard |
| TemplateProtocol.OtherTemplateMayWait | src/cluster/lifecycle.rs:282-284 | While the setup of one template runs, a call for another may enter if and only if the two names are in different shards |
| TemplateProtocol.RunKeepsInv | src/cluster/lifecycle.rs:272-295 | Locks, databases and setups stay consistent over every interleaving |
| TemplateProtocol.SetUpOnce | src/cluster/lifecycle.rs:272-295 | A template is created at most once, its setup starts at most once, nobody fails with a duplicate, and a new template that a call returns successfully has been set up iff its setup neither failed nor panicked |
| TemplateProtocol.ReturnsTellTheLastStep | src/cluster/lifecycle.rs:290-294 | In every run a call fails because of the server, its setup or a panic of it exactly when that was its own last step, and a call whose setup succeeded returns success |
| TemplateProtocol.SetUpIsReported | src/cluster/lifecycle.rs:290-294 | Every template that was set up has a call that returned success |
| TemplateProtocol.WithoutFaultsAllSucceed | src/cluster/lifecycle.rs:272-295 | A run in which neither the server nor a setup fails has only successful returns |
| TemplateProtocol.NoDeadlock | src/cluster/lifecycle.rs:282-287 | The mutex never makes a call wait, and while a call has not returned some call can step |
| TemplateProtocol.FirstFails | src/cluster/lifecycle.rs:290-293 | A setup that fails or panics leaves the database behind |
| TemplateProtocol.FailedSetupIsTakenForDone | src/cluster/lifecycle.rs:286-294 | The next call, which recovers the poisoned mutex after a panic, then succeeds without a setup |
| SharedSingleton.SharedSlot.SharedClusterHandle | src/test_support/shared_singleton.rs:76-130 | The reply is the slot's answer, an answered slot never changes, only an unanswered one begins a bootstrap and takes on its result, and over any sequence of calls all who got a reply got the same one |
| SharedSingleton.OneAnswerForAll | src/test_support/shared_singleton.rs:76-130 | Over every interleaving, panics included, one bootstrap completes and all who return get the same reference or the same error kind |
| SharedSingleton.SomeoneCanStep | src/test_support/shared_singleton.rs:77-80 | While a caller has not returned some caller can step |
| Ddl.ReadsBack | src/cluster/connection.rs:17-19 | Reading an escaped name as a delimited identifier gives back the name and stops at the intended quote |
| Ddl.EscapeInjective | src/cluster/connection.rs:17-19 | Different names are escaped differently |
| Ddl.PlaceholderOnce | src/cluster/lifecycle.rs:93 | Substitution fills the one placeholder and never looks inside the name |
| Ddl.CreateNamesExactly | src/cluster/lifecycle.rs:85-125 | For every name, even one with quotes or braces, the create command reads as that one identifier and nothing else |
| Ddl.DropNamesExactly | src/cluster/lifecycle.rs:204-208 | The same for the drop command |
| Ddl.CloneNamesExactly | src/cluster/lifecycle.rs:169-171 | The clone command reads as the two names, each in its place |
| TreeWalk.EnsureTreeOwnedByUser | src/privileges.rs:127-174 | For every tree the stack loop ends, visits each descendant it can reach exactly once and after its directory and counts them; it fails exactly when a reached entry is refused, a reached directory cannot be opened or listed, or the root is no directory or behind a file |
| TreeWalk.ReachedIs | src/privileges.rs:200-202 | Reached are all descendants with no entry of unreadable type above them, so all of them if and only if nothing is below such an entry |
| TreeWalk.WalkFrom | src/privileges.rs:140-165 | The loop over the stack: success exactly when nothing reached is refused or unlisted, and then exactly the reached descendants are visited |
| TreeWalk.VisitEntries | src/privileges.rs:148-164 | The loop over one directory keeps every reached descendant either visited or pending, takes an entry of unreadable type for no directory, and fails only over a refused entry or a directory that cannot be listed |
| TreeWalk.OpenDir | src/privileges.rs:143-155 | Popping a directory makes exactly its unvisited subtree the pending part |
| TreeWalk.VisitChild | src/privileges.rs:155-163 | Visiting an entry and pushing it if it is a directory keeps every descendant either visited or pending, never both |
| TreeHash.HashDirectoryRecursive | src/test_support/hash.rs:44-98 | For every listing order and every chunking the stream is the canonical recursive one of the tree, if siblings that sort alike commute |
| HashedPaths.StreamListsTheTree | src/test_support/hash.rs:78-95 | The stream is the concatenation, over a list of all paths below the directory, each once and immediately before all that is below it and siblings in key order, of the path's text and for a file its contents |
| TreeHash.HiddenIffCommuting | src/test_support/hash.rs:70-76 | The listing order of a directory does not show in its stream if and only if entries whose names sort alike contribute commuting bytes |
| TreeHash.HashEntry | src/test_support/hash.rs:78-95 | One entry: its path, then its subtree, its bytes, or nothing |
| TreeHash.HashFileContents | src/test_support/hash.rs:105-127 | How reads are split does not show in the stream |
| TreeHash.SortByKey | src/test_support/hash.rs:70-76 | A sorted permutation |
| TreeHash.LexIsBytewise | src/test_support/hash.rs:70-76 | Keys are compared byte by byte: at the first difference the smaller has the smaller byte, or it ends there |
| TreeHash.SortedUnique | src/test_support/hash.rs:70-76 | With distinct names sorting leaves one order only |
| TreeHash.EqualKeysShowOrder | src/test_support/hash.rs:70-76 | A tree of two files with equal lossy names and different contents whose stream does show the listing order |
| Cleanup.TryRemoveDirAll | src/cleanup_helpers.rs:45-62 | Asks for a removal only of a path that is not empty, not the root and without "..", and succeeds exactly when that does not fail |
| Cleanup.CleanupInProcess | src/cluster/cleanup.rs:73-153 | The removals of the in-process cleanup in each mode; nothing outside what is due goes, and without a failed request all that is due goes |
| Cleanup.EffectOfExpected | src/cluster/cleanup.rs:91-134 | What is not due stays, and unless a request fails nothing is left at or below the data directory, in full mode the installation, and the password file's directory inside it |
| Cleanup.RunWorker | src/bin/pg_worker.rs:92-112 | The worker issues the expected removals, or none when it cannot read the settings, and reports success only if the data directory went |
| Cleanup.CleanupByWorker | src/cluster/cleanup.rs:37-56 | A mode that removes nothing starts no worker, one that fails to start or cannot read the settings removes nothing, and any other without a failed request removes all that is due and nothing else |
| Cleanup.ExecuteCleanup | src/bin/pg_worker.rs:332-353 | Every removal is tried even after one fails, and the installation only once |
| Cleanup.CompareCleanups | src/cluster/cleanup.rs:122-128 | The two implementations run on equal systems: they make the same requests if and only if the worker starts and can read the settings or there is nothing to remove, and then leave the same tree |
| Cleanup.RemovalsAreContained | src/cleanup_helpers.rs:54-76 | Everything removed lies in the data or installation directory, has no ".." and is neither empty nor the root |
| Cleanup.StopWorkerManaged | src/cluster/shutdown.rs:142-145 | The worker's pass and then the in-process one. After an effective worker the second removes something if and only if it clears a path on which every request of the first above it had failed; without one it removes something if and only if it clears anything; nothing outside the two directories goes |
| Cleanup.RetryClears | src/cluster/shutdown.rs:142-145 | What a second pass with the same requests removes is exactly what a failed request of the first had left and the same request now clears |
| Summary.FindPreferredCutPoint | src/env/summary.rs:38-56 | The cut is after the last comma that fits when that keeps more than half of the limit, else after the last character that starts within it |
| Summary.CutIsBest | src/env/summary.rs:50-55 | The cut keeps more than half of the limit, is after a comma whenever one in the latter half starts within the limit, and otherwise keeps all that starts within it |
| Summary.CharLenIsUtf8 | src/env/summary.rs:45 | A character's length is that of its UTF-8 bytes, which read back as the character whatever follows |
| Summary.TruncateEnvChangesSummary | src/env/summary.rs:7-36 | The result is the input when it fits, else the trimmed prefix up to that cut with the suffix for its count |
| Summary.TextIsBounded | src/env/summary.rs:38-56 | The text is a prefix on a character boundary and at most three bytes over the limit |
| Summary.PrefixOfEntries | src/env/summary.rs:25-32 | A prefix of joined comma-free entries with c commas ends inside the entry after the first c |
| Summary.CountIsRightIff | src/env/summary.rs:25-33 | For any entries the count is never too small, and is that of the entries begun if and only if no entry shown has a comma in its shown part |
| Summary.CommaInKeyMiscounts | src/env/summary.rs:25-33 | At the limit of 512 (`src/env/summary.rs:5`) a variable with a comma in its name is counted twice, and a change is left out without being said to be |
| Summary.CountIsExact | src/env/summary.rs:25-33 | For comma-free entries the count is that of the entries begun, and a text that ends in a comma shows them whole |
| Summary.CommaCutShowsWholeEntries | src/env/summary.rs:58-68 | A cut at a comma shows the first k entries whole, and k plus the number in the suffix is the number of changes |
| Summary.DecimalReadsBack | src/env/summary.rs:70-77 | The number in the suffix reads back as the number written |
| Summary.SuffixTells | src/env/summary.rs:58-77 | What is shown and the number in the suffix make up the count; the suffix is set off by a comma unless the text is empty or ends in one; with nothing left out it only marks the cut |
| Shutdown.WaitForExit | src/cluster/shutdown_hook.rs:177-188 | With any delay between any two steps the poll loop ends; each probe but the last found the process running and was followed by a clock reading before the deadline and a sleep; the last found it gone, or was followed by a reading at or past the deadline; there are at most ceil(timeout / 50 ms) + 1 probes |
| Shutdown.FewProbes | src/cluster/shutdown_hook.rs:35-36 | Probes are at least 50 ms apart and at most ceil(timeout / 50 ms) + 1, whatever the scheduler does |
| Shutdown.StopPostmaster | src/cluster/shutdown_hook.rs:138-148 | TERM before the wait, KILL after it exactly when it gave up, and the grace period after that |
| Shutdown.KillMeansTimedOut | src/cluster/shutdown_hook.rs:145-147 | All signals go to the one process; a KILL is sent if and only if every probe found it running, and comes second and at least the timeout after the TERM |
| Shutdown.FirstStays | src/cluster/shutdown_hook.rs:59-72 | The first accepted registration is not displaced by later calls |
| Shutdown.FirstAccepted | src/cluster/shutdown_hook.rs:50-76 | The stored state is present exactly when some registration was accepted, and is the first of them |
| Shutdown.ShutdownHook.RegisterShutdownHook | src/cluster/shutdown_hook.rs:50-76 | Over any sequence of calls the slot is the first accepted state, atexit is accepted at most once, and a refusal leaves the slot free |
| Shutdown.ShutdownHook.ShutdownCallback | src/cluster/shutdown_hook.rs:111-135 | Signals go only to a positive pid found running, and the cleanup uses the stored state whenever the lock is free |

## Left out

- Logging, tracing spans, error text and report formatting.
- Tokio runtimes, the calls into postgresql_embedded and libc, permission bits and JSON payloads: they appear as parameters or as steps with any result.
- Environment variables are text without a length limit, and setting one fails only for its contents, not for lack of memory; the depth counter does not overflow, and on Windows the case of keys is not folded.
- ScopedEnvGuards.GuardsNeverReset: says nothing about guards after a forced reset, where a stale guard can finish a newer scope with the same index (`src/env/state.rs:209-217`); the invariant of `AnyRunKeepsInv` still holds then.
- ThreadState.ThreadStateCore.EnterScope: blocking on the mutex is a precondition here; waiting is modelled in `ScopedEnvThreads`. Poisoning and its recovery are not modelled (`src/env/state.rs:23-56`).
- CopyTree.CopyDirRecursive: links on the way to either directory are followed, but a symbolic link that stands at or below the destination where the source has a file or directory (the code writes through it), and copies whose source and destination overlap, are excluded by `NoLinkInTheWay` and `Apart`; permission copying (best effort) and special files are not modelled.
- CopyTree.CopyChildren: excludes the same links and overlaps.
- CopyTree.CopyFromCache: excludes the same links and overlaps, for the directories that the two paths lead to.
- CopyTree.PopulateCache: a marker that is itself a link, in the source or left in the entry, is excluded by `MarkerIsNoLink`.
- Disk.FileSystem.CreateDirAll: where a link leads is a function of its place and text, so a ".." that crosses another link is resolved by that function; at most 40 links are followed.
- CopyTree.CopyEntry: excludes the same links and overlaps; a file is written whole; half-written files are modelled in `CacheProtocol`, where the copy may also take the nodes in any order.
- CacheProtocol.SomeoneCanStep: no process is stuck, but that a version is eventually populated is not claimed, since a leftover link makes every repetition fail (`CacheProgress.LeftoverLinkIsForGood`).
- CacheProtocol.ReadersGetEverything: proved for sources without a marker, `CacheMarker.SafeIffNoMarkers` being the exact condition (for a marker that is a regular file); what a reader copies is collected by itself; leftovers in its target directory are the concern of `CopyTree.CopyFromCache`.
- The validation of version strings for lock names, the retry on EINTR and the lock stubs of systems without flock.
- VersionChoice.LastIsHighest: versions are any totally ordered type, their parsing and precedence are not modelled; the early exits of `resolve_installed_dir` for a direct or trusted directory (`src/cluster/installation.rs:177-183`) are left out.
- TemplateProtocol.SetUpOnce: a create command that takes effect on the server although the client sees an error is not modelled.
- SharedSingleton.OneAnswerForAll: one slot is modelled; `shared_cluster` (`src/test_support/shared_singleton.rs:244-291`) has its own of the same shape.
- Ddl.CreateNamesExactly: the empty name is read back like any other, although the server rejects a delimited identifier of length zero.
- TreeWalk.EnsureTreeOwnedByUser: an entry of unreadable type is taken for no directory as in the code, so what is below it is not promised; the root is the directory its path leads to, links followed; changing the owner of a link changes that of its target, which the model does not follow; nothing else changes the tree meanwhile.
- TreeHash.HashDirectoryRecursive: different trees can give the same stream, because names and contents are joined without separators; nothing is said about the digest, and paths that fail to be read end the hash with an error in the code.
- Cleanup.StopWorkerManaged: paths are compared by their components, so links between the two directories are not seen; a worker killed half way through its removals is not modelled, a removal that fails half way is.
- That a worker-managed cluster is stopped only once: the guard's drop stops again after an asynchronous stop (`src/cluster/mod.rs:331-333`, `src/cluster/guard.rs:170-172`).
- Recovery of partial data directories, settings snapshots, conversion of configuration, parsing of environment variables and discovery of the cache directory.
- Shutdown.ShutdownHook.ShutdownCallback: reading and parsing the pid file is a parameter, and the cleanup it starts is that of `Cleanup.CleanupInProcess`.
