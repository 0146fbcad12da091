# Apate: what stays true when its steps interleave, fail and restart

Apate presents attackers with a filesystem that is kept in Redis, filled lazily by a language
model, and audited through SQLite and PostgreSQL. All of its truth changes in small atomic steps: a
Lua script, a `MULTI`/`EXEC` with watched keys, one SQL transaction. This project models those steps
and proves what holds over every interleaving, crash, expiry and retry of them, and what its
sequential algorithms compute.

`dafny verify dfyconfig.toml` checks everything.

## How the modules fit together

| Part | Modules |
|---|---|
| Shared | `Wrappers` (optional values), `Inodes` (inode records, modes, bytes) |
| Session filesystem | `SessionFs` (the four scripts, as functions and as a class over the live tables), `ScriptLaws` (their answers and effects field by field), `FsTree` (the tree invariant), `FsRecords` (inode records), `FsRefinement` (the path map they refine), `FsWalk` (path walks, also interleaved with scripts), `FsCalls` (walk and script together), `FsInit`, `FsInitComplete` and `FsInitAttributes` (the manifest build with crashes, and what it has built when it ends) |
| Content | `ContentBytes` (write and truncate on bytes), `ContentProtocol` (readers, writers, generators, one Redis round trip a step), `ContentStore`, `ContentInvariant`, `ContentSteps` (invariant and its preservation), `ContentRecords` (what each step writes, field by field), `ContentTheorems`, `ContentTries`, `ContentErrors` and `ContentWitness` (that writes end, what their errors mean, and when ENOSPC is wrong), `ContentStorage` (the blob table), `ContentLeases`, `ContentFlights`, `ModelExclusion`, `MutateContent` (the 32-try loop as it executes) |
| Quota | `Quota` (expiring counters, jobs and retries), `QuotaLaws` (exactly when sums and limits hold), `QuotaJobs` (what one job may do) |
| Audit and evidence | `AuditSpool`, `EvidenceFold`, `EvidenceLaws` and `EvidenceCommands` (the handler, its fold, and what the fold says of the log), `AuditPipeline` (outbox, log, poller, tables as one machine), `AuditDelivery`, `EvidenceExactlyOnce`, `EvidenceTheorems`, `LogStreamer` (the poll loop as it executes) |
| Namespaces | `Namespace` (key scoping, any schedule of sessions, cleanup) |
| Sequential code | `ModelStream`, `ShellParser`, `ShellRoundTrip`, `ShellMeaning`, `AndOrLists`, `Report`, `ReportTheorems`, `ReportLaws`, `ReportMeaning` |

Protocols are state machines: a `Run` is a sequence of states joined by enabled steps, and the
theorems quantify over all runs. Redis `WATCH` is a version per watched key that every change makes
newer; `EXEC` goes through exactly when the noted versions are current. Lease expiry, timeouts,
refusals by a full pool, crashes and lost replies are steps or free choices of the environment.
Code that changes objects in place is a class or a method with loops; each such method is proved
against a function of its old state, and the laws are proved about that function. The content
protocol keeps two history variables that no step reads: `log`, the committed content changes, and
`seen`, what a look at a call's inode would have shown at each moment of the call.

## Where the code departs from what one might expect

* An empty write beyond the end of a file pads it with zeros up to the offset; POSIX would leave the
  file alone. The resulting length is max(old length, offset + buffer length), as in the code.
* A quota script that reaches Redis more than two minutes after its window's last grant finds the
  counters expired and starts from zero, so a window can see more grants than its limit.
  `Quota.LateScriptBreaksTheLimit` is such a run; `QuotaLaws.LimitBrokenExactlyWhen` says exactly
  which scripts do it. What a counter reads stays within the limit in every run.
* The global quota counter is not always the sum of the session counters, even with every script on
  time: each grant extends the global counter but only one session's, so an early session's counter
  expires first. `QuotaLaws.SumFailsOnTime` is such a run; `QuotaLaws.SumExactlyWhen` says exactly
  when the sum holds.
* If the parent directory is removed between a call's walk and its script, a call with a good name
  answers ENOTDIR, which in general no atomic call would answer at any moment of it.
  `FsCalls.RemovedParentIsNotAtomic` is such a call; `FsCalls.ReplyJustifiedExactlyWhen` says exactly
  which replies some moment of the call justifies (a bad name's EINVAL always is).
* A write can report ENOSPC although it fits at every moment of its call: the check adds the old
  length, read before, to a counter read later. `ContentWitness.EnospcCanBeWrong` is such a run;
  `ContentErrors.WrongEnospcExactlyWhen` says exactly when the check is wrong.
* A leading `||` in a command line skips its pipeline and a leading `&&` runs it, since the last
  status starts as 0. POSIX has no such lists; the model gives them an always-true left side.
* A read that reports its file as having no content is exact only for classes that are never
  generated; `None` (timeout, full pool, superseded generation) says nothing, and the model leaves
  it so.
* Redirect signs take the next token even if it is another sign, so a command is refused exactly when
  it ends in an odd number of them.

## Model

| member | source | states |
|---|---|---|
| SessionFs.SessionStore.AtomicCreate | src/chronos/core/lua/atomic_create.lua:11-60 | The script's commands, one after the other, give the state and reply that the specification function (checked by the tree and refinement theorems) demands, for every outcome. |
| SessionFs.SessionStore.AtomicMkdir | src/chronos/core/lua/atomic_mkdir.lua:10-50 | Same for mkdir: new inode, both dot entries, parent link count, cap and error replies. |
| SessionFs.SessionStore.AtomicUnlink | src/chronos/core/lua/atomic_unlink.lua:8-42 | Same for unlink: entry and inode go, blobs stay. |
| SessionFs.SessionStore.AtomicRmdir | src/chronos/core/lua/atomic_rmdir.lua:8-42 | Same for rmdir with its ZCARD test and link bookkeeping. |
| SessionFs.SessionStore.ResolvePath | src/chronos/interface/fuse.py:122-132 | The lookup loop returns what component-by-component resolution of the current tables gives, or nothing. |
| SessionFs.SessionStore.Chmod | src/chronos/interface/fuse.py:342-346 | Sequential chmod fails on a missing inode and otherwise gives it the old type bits with the low twelve bits of the argument; every other field, inode, table and counter stays. |
| ScriptLaws.CreateInFields | src/chronos/core/lua/atomic_create.lua:11-60 | The answer, test by test in order (unusable name, no directory, name taken, 10000 numbers used); a failure changes nothing; a success writes the next number's mode, owner 0, size 0 and one link, enters it under the name, and leaves every other record and entry. |
| ScriptLaws.MkdirInFields | src/chronos/core/lua/atomic_mkdir.lua:10-50 | Same for mkdir: size 4096, two links, entries for both dots, and one more link on the parent, whose other fields stay. |
| ScriptLaws.UnlinkInFields | src/chronos/core/lua/atomic_unlink.lua:8-42 | The answer, test by test (a directory gives IsDirectory); a success takes the entry away and one link, and with the last link the record. |
| ScriptLaws.RmdirInFields | src/chronos/core/lua/atomic_rmdir.lua:8-42 | The answer, test by test (a file gives NotDirectory, more than two entries NotEmpty); a success takes away entry, record and table and one link of the parent, and nothing else. |
| ScriptLaws.WalkIsChain | src/chronos/interface/fuse.py:122-132 | The walk from the root finds an inode exactly if a chain of table entries, one for each component and none zero, leads from inode 1 to it. |
| FsTree.ApplyKeepsTree | src/chronos/core/lua/atomic_mkdir.lua:27-50 | Every script, whatever its arguments and outcome, keeps the tree: one named parent entry per live non-root inode, child number above parent number, dots right, files with one link, directories with two plus their subdirectories; and it changes at most one entry. |
| FsTree.ZcardCountsNames | src/chronos/core/lua/atomic_rmdir.lua:26-30 | A directory with its dots has ZCARD at most 2 exactly when it holds no named entry. |
| FsTree.ReachableIsTree | src/chronos/core/lua/atomic_rmdir.lua:17-42 | After any sequence of calls the namespace is a tree that still has its root, and inode numbers only grow and stay within 10000. |
| FsRecords.RecordsAfter | src/chronos/core/lua/atomic_mkdir.lua:27-50 | In a tree a successful script writes, bumps or removes exactly the named inode records (new ones start without content) and a failing one changes nothing at all. |
| FsRefinement.ResolvedPathIsUnique | src/chronos/interface/fuse.py:122-132 | An inode is reached by exactly one dot-free path, the one its parent chain spells. |
| FsRefinement.PathResolves | src/chronos/interface/fuse.py:122-132 | Every live inode is reached: resolving the path its parent chain spells finds it. |
| FsRefinement.ViewIsPrefixClosed | src/chronos/interface/fuse.py:122-132 | The map from paths to nodes that the tables stand for contains the root and, with a path, its parent as a directory. |
| FsRefinement.OpRefines | src/chronos/core/lua/atomic_create.lua:11-60 | Each create, mkdir, unlink and rmdir by path changes the path map at exactly that path as the plain map operation does, with the same success or error; the only extra failure is the inode cap. |
| FsRefinement.ChildInView | src/chronos/interface/fuse.py:134-138 | A name in a resolved directory is present exactly if the extended path is in the map, with the same node. |
| FsWalk.ResolveIsWalk | src/chronos/core/state.py:93-104 | For every component list, dots included, the loop returns the inode the map holds at the path the list denotes. |
| FsWalk.WalkIsAtomicAtLastLookup | src/chronos/interface/fuse.py:122-132 | A walk interleaved with any scripts, if it succeeds, is right at its last lookup: in that one snapshot the whole path leads to the returned inode. |
| FsWalk.FailedWalkIsAtomicSomewhere | src/chronos/interface/fuse.py:128-130 | A walk that reports ENOENT is right at some moment between its first lookup and the failing one. |
| FsWalk.PathIsStable | src/chronos/core/lua/atomic_unlink.lua:26-38 | As long as an inode lives it stays at its path, through any history (there is no rename). |
| FsWalk.DeadStaysDead | src/chronos/core/lua/atomic_create.lua:26-30 | A removed inode number never becomes live again. |
| FsWalk.RemovalMoment | src/chronos/core/lua/atomic_rmdir.lua:26-37 | If a resolved inode is gone later, there was a last snapshot with it at its path and without named entries, and it is gone in the next one. |
| FsCalls.CallIsAtomic | src/chronos/interface/fuse.py:134-138 | A whole call, its parent walk and its script interleaved with any other scripts, is on success one map operation on the full path at the script's moment; so it is on any error while the parent lives; if the parent was removed meanwhile it changes nothing and answers EINVAL for a bad name, ENOTDIR otherwise. |
| FsCalls.ReplyJustifiedExactlyWhen | src/chronos/interface/fuse.py:134-138 | Some moment of the call justifies its reply exactly if the parent found by the walk still lives at the script, or the name is bad, or at some moment a file stood at the parent's path (for rmdir: or at the call's own path). |
| FsCalls.RemovedParentIsNotAtomic | src/chronos/core/lua/atomic_create.lua:11-17 | A concrete call whose ENOTDIR no moment justifies: the map operation succeeds before the removal and gives ENOENT after it. |
| FsCalls.FailedCallIsJustified | src/chronos/interface/fuse.py:122-138 | A call whose parent walk reports ENOENT: the map operation fails with ENOENT at some moment of that walk. |
| FsInit.ConvergesToCleanRun | src/chronos/core/state.py:13-91 | Initialisation interrupted at any commands any number of times, once complete, leaves the store of one clean run: same entries, inode numbers, modes, owners, links, states, classes. |
| FsInit.FailsAsCleanRun | src/chronos/core/state.py:51-53 | If an interrupted build fails on an entry, so does the clean run, on the same entry with the same store. |
| FsInit.RunsToEnd | src/chronos/core/state.py:43-89 | From any interrupted state a bounded number of uninterrupted commands reaches the end. |
| FsInit.ContentStateIsKept | src/chronos/core/state.py:69-71 | A content state set by one attempt is the same after any continuation, with any further crashes and restarts over the partly built store. |
| FsInit.AttemptsKeepContentState | src/chronos/core/state.py:13-91 | From any store whatever, no number of attempts, commands or crashes changes a content state that is set. |
| FsInit.CleanRunBuildsTree | src/chronos/core/state.py:41-86 | For a well-formed manifest every intermediate store after the root setup is a tree whose paths are manifest paths of the manifest's kinds. |
| FsInitComplete.FinishedIsManifest | src/chronos/core/state.py:43-88 | However often it was interrupted, a finished build of a well-formed manifest is a tree with exactly the root and the manifest's paths, each of its kind. |
| FsInitComplete.FinishedForGood | src/chronos/core/state.py:13-15 | A finished build is marked as such: no further attempt, crash or restart changes anything, and an attempt left alone ends at its first command. |
| FsInitAttributes.FinishedAttributes | src/chronos/core/state.py:55-86 | However often the build was interrupted, once it completes every entry's path leads to a live inode. The last entry of a path decides owner and group (its own, else 1000 at or below /home/<user>, else 0) and mode (type bits plus its permissions, else 01777 for /tmp, 0700 for /root and the user's .ssh, 0755 and 0644); the first decides a file's class (its own) and state (Missing exactly for ai_backed and deterministic, else Static). |
| FsInitAttributes.FinishedRoot | src/chronos/core/state.py:20-31 | The root of a finished build is a directory 0755 of user and group 0, whatever the manifest says of it. |
| FsInitAttributes.CleanRunRecords | src/chronos/core/state.py:55-86 | The invariant behind it: at every command of the build the entries dealt with so far have those values, and the one at hand has the fields written so far. |
| ContentBytes.MutatedBytes | src/chronos/core/content.py:54-58 | Length and every byte of the result of a write or truncate, including zero padding. |
| ContentBytes.MutatedSize | src/chronos/core/content.py:36-38 | The size check on the arguments bounds the new content for a file already within the limit. |
| ContentBytes.ReadBack | src/chronos/interface/fuse.py:272-314 | Reading a written range gives the written bytes; reading any other stretch of the old file gives what it gave before. |
| MutateContent.SessionRedis.Run | src/chronos/core/content.py:33-82 | The 32-try loop, with any other clients between any two of its commands: success means exactly one committed mutation of the current bytes, which writes content hash, size, state and revision of that inode and nothing else of any record; every error means none; bad arguments are refused first; every other error is explained by stores the call met, EAGAIN by 32 disturbances of its watched keys. |
| MutateContent.SessionRedis.Attempt | src/chronos/core/content.py:41-81 | One pass: committed once; or an error, explained by stores it met (inode missing, no file, no room for what was read); or a conflict after a disturbance; the last two with no effect. |
| ContentTheorems.LinearizableRead | src/chronos/intelligence/orchestrator.py:49-67 | Bytes returned by a read (cached, joined, generated or superseded) were the inode's content at some moment of that call; at some moment of it the inode was absent if the read says "not found", and live, without content hash and of a class other than ai_backed and deterministic if it says there is nothing to read. |
| ContentRecords.LookDecides | src/chronos/intelligence/orchestrator.py:55-60 | A look at a live regular file without content ends the read with nothing exactly if its class is neither ai_backed nor deterministic, and else goes on to generate. |
| ContentRecords.RecheckDecides | src/chronos/intelligence/orchestrator.py:119-128 | So does the worker's look after it took the lease. |
| ContentRecords.CommitRecord | src/chronos/core/content.py:63-78 | A committed write sets hash, size, state Written and the next revision of its inode, stores and charges the bytes and ends the lease; mode, owner, links and class stay, and so does every other inode. |
| ContentRecords.InstallRecord | src/chronos/intelligence/orchestrator.py:233-245 | An installed generation sets hash, size and state Generated; revision, mode, owner, links, class, charge and lease stay, and so does every other inode. |
| ContentRecords.EveryStepIsRecorded | src/chronos/core/content.py:63-78 | In every run each step is one of these, takes a free lease or gives back its own, is a script, or leaves the store alone; so no commit or generation ever touches mode, owner, links or class. |
| ContentFlights.SingleFlight | src/chronos/intelligence/orchestrator.py:81-99 | In every run an orchestrator has at most one unfinished worker for an inode, however many reads wait for it. |
| ContentFlights.WorkersAreStartedByReads | src/chronos/intelligence/orchestrator.py:81-89 | Only a read that found no pending worker and no full pool starts one, under its own orchestrator and inode, and then waits for it. |
| ContentFlights.ReadsMove | src/chronos/intelligence/orchestrator.py:49-67 | Every step brings a read on: after the look at most one more before it waits or is done, and it waits only for an unfinished worker, whose result it then returns. |
| ContentFlights.NotRegularIsRight | src/chronos/intelligence/orchestrator.py:53-54 | In every run a read that fails as "not a regular file" had, at some moment of its call, a live inode that is none. |
| ContentTheorems.NoLostUpdates | src/chronos/core/content.py:65-78 | At every moment an inode's bytes are the committed mutations in order, from nothing or the generated bytes, and its revision is their number. |
| ContentTheorems.WriteOutcome | src/chronos/core/content.py:78-82 | In every run a reported success was committed exactly once, and a failed (including after 32 conflicts) or unfinished call not at all. |
| ContentTries.WritesEnd | src/chronos/core/content.py:41-82 | Whatever the others do, a write is done after at most 161 commands of its own: its 32 tries of five and the check of its arguments. |
| ContentErrors.WriteErrors | src/chronos/core/content.py:33-82 | In every run each error of a write holds of its arguments or of a moment of its call; EAGAIN comes only after 32 changes of a watched key by others; ENOSPC holds of the room at one moment and the bytes held then or before. |
| ContentErrors.WrongEnospcExactlyWhen | src/chronos/core/content.py:49-62 | In a store where the write would fit, the allocation check says ENOSPC exactly if the write's end fits and the file was too long for the room when read and has since shrunk into it. |
| ContentErrors.EnospcRightExactlyWhen | src/chronos/core/content.py:60-62 | In every run a reported ENOSPC is right at the moment it was decided exactly unless the file is gone by then or has so shrunk. |
| ContentWitness.EnospcCanBeWrong | src/chronos/core/content.py:43-62 | A concrete run from a fresh session in which a one-byte write reports ENOSPC although it fits at every moment of its call. |
| ContentTheorems.Fencing | src/chronos/intelligence/orchestrator.py:223-245 | Generated bytes are installed at most once per inode and before any write; each committed write is its mutation of exactly the bytes before it. |
| ContentLeases.InstallsUnderLease | src/chronos/intelligence/orchestrator.py:223-245 | In every run a generation is installed by its own worker, at a moment when nobody else holds the lease of the inode, even if the lease had expired unseen in between. |
| ContentLeases.CommitChecks | src/chronos/intelligence/orchestrator.py:227-232 | A worker goes on to install exactly if the lease is still its own and what it read back has the revision it started from and no content. |
| ContentLeases.LeftAloneInstalls | src/chronos/intelligence/orchestrator.py:104-196 | A worker that claims a free lease of a file waiting for generated content, and is left alone, installs what was generated, returns it and gives the lease back. |
| ContentTheorems.NoGenerationAfterWrite | src/chronos/intelligence/orchestrator.py:227-232 | After the first change of an inode's content, every later one is a write. |
| ContentTheorems.DeletedStaysDeleted | src/chronos/intelligence/orchestrator.py:224-226 | No commit, write or script brings a removed inode back. |
| ContentTheorems.LogGrows | src/chronos/core/content.py:63-78 | Committed changes are never undone. |
| ContentTheorems.BudgetHolds | src/chronos/core/content.py:60-66 | With concurrent writers the allocation counter is the sum of all committed lengths, at most 16 MiB, and covers the distinct blobs writes created. |
| ContentStorage.RunKeepsStored | src/chronos/core/content.py:66 | In every run the blob table holds exactly the bytes of committed writes and generations, each within 1 MiB. |
| ContentStorage.StorageIsBounded | src/chronos/intelligence/orchestrator.py:233-245 | So all stored blobs together take at most the bytes charged plus one file limit for each inode that ever got generated content, of which there are at most 10000. |
| ContentTheorems.EveryHashResolves | src/chronos/core/lua/atomic_unlink.lua:32-38 | Every content hash leads to stored bytes of the recorded size, at most 1 MiB, also after other inodes sharing the blob are unlinked. |
| ContentTheorems.DistinctBlobsCost | src/chronos/core/content.py:64-66 | Distinct written blobs never take more than the bytes charged. |
| ContentStore.ScriptKeepsContent | src/chronos/core/lua/atomic_unlink.lua:26-38 | A namespace script keeps the tree and every surviving inode's content fields, and gives new inodes empty ones under unused numbers. |
| ContentStore.WriteKeepsStore | src/chronos/core/content.py:63-78 | A committed write keeps log, inodes, blobs and counter in agreement. |
| ContentStore.InstallKeepsStore | src/chronos/intelligence/orchestrator.py:233-245 | So does a committed generation. |
| ContentSteps.StepKeepsInv | src/chronos/intelligence/orchestrator.py:81-128 | Every step of every call, script, expiry or future keeps the system invariant. |
| ContentSteps.RunKeepsInv | src/chronos/intelligence/orchestrator.py:104-128 | Hence the invariant holds at every moment of every run. |
| ModelExclusion.OneGeneratorPerInode | src/chronos/intelligence/orchestrator.py:104-128 | Without lease expiry at most one worker per inode is between its re-check and its release, although a committed write deletes the lease under its holder. |
| ModelExclusion.StaysGuarded | src/chronos/core/content.py:77 | A holder's guard, lease or content, outlives every step but an expiry and its own release. |
| Quota.QuotaRedis.Eval | src/chronos/intelligence/orchestrator.py:203-209 | The script grants exactly when both live counters are below their limits, and then bumps and extends both. |
| Quota.CountersCountGrants | src/chronos/intelligence/orchestrator.py:198-216 | In every run a counter reads as the grants since the last pause of an expiry, and as all of them exactly if there was no such pause. |
| QuotaLaws.CountersWithinLimit | src/chronos/intelligence/orchestrator.py:204-208 | In every run, with no assumption on timing, no session counter reads above its limit and no global counter above 60. |
| QuotaLaws.OverrunExactlyWhen | src/chronos/intelligence/orchestrator.py:203-209 | In every state of every run, the next script takes a key past its limit exactly when the key's grants fill it already and both counters, counted since their last pause, still have room; that needs a pause of an expiry. |
| QuotaLaws.LimitBrokenExactlyWhen | src/chronos/intelligence/orchestrator.py:198-216 | The grants of a window or session exceed the limit by some moment exactly if a script before it was such an overrun; lateness alone does no harm. |
| Quota.GrantsWithinLimit | src/chronos/intelligence/orchestrator.py:206-208 | Unless two consecutive grants of a key lie an expiry apart, they number at most its limit, over all time. |
| QuotaLaws.SumExactlyWhen | src/chronos/intelligence/orchestrator.py:203-208 | In every run and at every moment a window's session counters sum to at most its global counter, and to exactly it if and only if no session has paused for an expiry since the global counter last started from zero. |
| QuotaLaws.OnTimeSumExactlyWhen | src/chronos/intelligence/orchestrator.py:203-214 | When scripts arrive on time, the global counter is the sum exactly if the window's last grant is an expiry old or no session's last grant in it is. |
| QuotaLaws.SumFailsOnTime | src/chronos/intelligence/orchestrator.py:207-208 | The sum does fail on time: a concrete run with global counter 2 and session counters adding to 1. |
| Quota.QuotaIsConserved | src/chronos/intelligence/orchestrator.py:199-214 | When scripts arrive on time, then until the following window is over the global counter is the number of the window's grants and the sum of its session counters. |
| Quota.QuotaBounds | src/chronos/intelligence/orchestrator.py:200-206 | In particular, when all scripts arrive on time, no window sees more than 60 grants, nor a session more than its limit. |
| Quota.LateScriptBreaksTheLimit | src/chronos/intelligence/orchestrator.py:199-208 | A script delayed past the expiry does exceed the limit: a concrete run. |
| Quota.CallsWithinGrants | src/chronos/intelligence/orchestrator.py:136-161 | Every model call, retries included, is paid for by a grant of its own, window by window and session by session. |
| Quota.RecentIsAllIffNoGap | src/chronos/intelligence/orchestrator.py:207-208 | A counter that is extended at each grant counts them all exactly if no pause reached the expiry. |
| QuotaJobs.ScriptGrants | src/chronos/intelligence/orchestrator.py:204-209 | The script grants exactly if the session's live counter is below the limit and the global one below 60; both then count one more and live two minutes from now, and no other counter changes. |
| QuotaJobs.JobsAreLegal | src/chronos/intelligence/orchestrator.py:136-173 | In every run a job's history is a prefix of one of seven (ask; call unless time is up; on a rejected answer ask and call once more), and the job may go on in exactly the ways that keep it so. |
| AuditSpool.Spool.AppendEvent | src/chronos/core/audit_spool.py:18-32 | Admits exactly the events within 64 KiB while below the limit and while SQLite has pages for them, at the end. |
| AuditSpool.Spool.PendingEvents | src/chronos/core/audit_spool.py:34-37 | Returns the oldest events in order, as many as there are up to the batch size. |
| AuditSpool.Spool.Acknowledge | src/chronos/core/audit_spool.py:39-41 | Deletes exactly the named events. |
| AuditSpool.DeletePrefix | src/chronos/core/audit_spool.py:39-41 | Acknowledging the oldest events removes exactly them and keeps the rest in order. |
| AuditPipeline.FaultsAtAnyMoment | src/chronos/core/persistence.py:98-131 | Worker crashes and collector restarts come at any moment and lose only what is in memory; each transaction may end committed, committed but unacknowledged, or aborted, and an unfinished event stays for the next poll. |
| AuditPipeline.AdmittedExactlyWhen | src/chronos/core/persistence.py:124-131 | An operation is admitted exactly if it has a session, its event fits in 64 KiB, the outbox is below its limit and SQLite has room; then it is the newest, else nothing changes. |
| AuditPipeline.PollTakesOldest | src/chronos/core/persistence.py:98-106 | The worker loads the oldest hundred events, or as many as there are, and only if there are any. |
| AuditPipeline.AcknowledgeDeletes | src/chronos/core/persistence.py:116-122 | An acknowledgement, unless aborted, takes exactly the batch's events out of the outbox. |
| AuditDelivery.ExactlyOnceDelivery | src/chronos/core/persistence.py:98-122 | Under crashes, uncertain commits and lost acknowledgements the log is always A[..n] in id order and the outbox A[m..] with m at most n, within its limit. |
| AuditDelivery.StepKeepsDelivered | src/chronos/core/persistence.py:98-131 | Each step keeps that, and neither log nor admitted sequence ever shrinks. |
| AuditDelivery.InsertExtends | src/chronos/core/persistence.py:110-115 | Inserting an overlapping stretch again leaves no repeat and no gap. |
| EvidenceFold.HandleInPlace | src/chronos/watcher/evidence_collector.py:95-161 | The handler, updating the record in place, is the specification's step for every operation. |
| EvidenceFold.FirstWithIsFirst | src/chronos/watcher/evidence_collector.py:129-130 | A result goes to the first command with its identifier. |
| EvidenceFold.HandleLists | src/chronos/watcher/evidence_collector.py:98-137 | Only a new submission changes the list of commands; results and file events never add, drop or reorder one. |
| EvidenceFold.FoldLists | src/chronos/watcher/evidence_collector.py:98-114 | The fold of a log lists exactly the commands submitted in it, in order. |
| EvidenceLaws.FoldVisits | src/chronos/watcher/evidence_collector.py:139-142 | The visited files of a fold are exactly the paths of the session's file events, each once. |
| EvidenceLaws.FoldTraversal | src/chronos/watcher/evidence_collector.py:144-154 | The traversal graph has an edge from parent to child exactly if some counted read, create, getattr or readdir has the path parent + "/" + child (or "/" + child, for the parent "/") with no slash in the child; each child is listed once and no parent without one. |
| EvidenceLaws.FoldDetects | src/chronos/watcher/evidence_collector.py:116-124 | A session counts as detected exactly if some command was flagged, and the suspicious command is the first flagged one. |
| EvidenceLaws.FoldEnds | src/chronos/watcher/evidence_collector.py:156-161 | Start is the first event's time; end, exit reason and duration in whole seconds, cut off towards zero, are those of the last disconnect, or absent. |
| EvidenceLaws.ResultCompletes | src/chronos/watcher/evidence_collector.py:126-137 | A result completes exactly the first command with its id, field by field, and is void without one. |
| EvidenceCommands.FoldCommands | src/chronos/watcher/evidence_collector.py:98-137 | The record has one command for each submission of the session, in order, with what the submission said and its analysis; each of the five result fields is what the last result addressed to the command that carries it said, else outcome "unknown" and the others absent; completed at the last such result. |
| EvidenceCommands.FoldSuccess | src/chronos/watcher/evidence_collector.py:136-137 | The last success is the time of the last result reporting one for a command submitted before it. |
| EvidenceExactlyOnce.StepKeepsCollector | src/chronos/watcher/evidence_collector.py:81-189 | Every step of pipeline, poller and collector keeps: tables are folds, rows up to the cursor are covered, the event at hand is next. |
| EvidenceExactlyOnce.RunKeepsCollector | src/chronos/watcher/log_streamer.py:52-110 | Hence in every run, restarts with the cursor back at 0 included. |
| EvidenceExactlyOnce.NextFold | src/chronos/watcher/evidence_collector.py:88-95 | Handling the next row of a session on top of its saved fold gives the fold up to that row. |
| EvidenceExactlyOnce.FetchTakesNext | src/chronos/watcher/log_streamer.py:52-66 | A fetch takes the next rows after the cursor in id order: all of them, or a thousand. |
| EvidenceExactlyOnce.FlushedTables | src/chronos/core/persistence.py:161-174 | The fenced upsert, which never updates the start time, still stores exactly the fold. |
| EvidenceTheorems.RecordsAreFolds | src/chronos/core/persistence.py:214-225 | In every run saved progress and evidence rows are the fold over the session's events up to their last event id, rows never ahead of progress. |
| EvidenceTheorems.RecordsNeverGoBack | src/chronos/core/persistence.py:161-174 | No record's last event id ever decreases and no session vanishes. |
| EvidenceTheorems.CommandsAreAdmittedPrefix | src/chronos/watcher/evidence_collector.py:81-189 | Commands in progress and evidence are a prefix of those admitted to the outbox, in order, without repeats. |
| EvidenceTheorems.CaughtUpIsComplete | src/chronos/watcher/log_streamer.py:78-102 | With the outbox empty and the cursor at the log's end, the saved commands are all admitted ones. |
| LogStreamer.Streamer.Notify | src/chronos/watcher/log_streamer.py:68-76 | One event through the collector, with delivery going on in between: it succeeds, and the cursor moves, exactly if the load and each save and flush the event needs went through and said so. |
| LogStreamer.WhatAnEventNeeds | src/chronos/watcher/evidence_collector.py:81-95 | An event without a session needs nothing; any other is loaded, saved unless the saved progress has it already, and flushed if it is a disconnect. |
| LogStreamer.Streamer.PollOnce | src/chronos/watcher/log_streamer.py:78-102 | A poll round passes exactly the events before the first failing one, which it leaves for the next round, and whatever it passed is in the saved progress. |
| Namespace.PrefixIsInjective | src/chronos/core/scoped_redis.py:38-43 | Prefixes of equal-length session ids never collide and prefixing loses nothing. |
| Namespace.ScopedKeys | src/chronos/core/scoped_redis.py:38-43 | A key is scoped exactly if it begins with the three characters "fs:", and then becomes "session:" + id + ":" + key; any other key is left alone. |
| Namespace.ExecTraces | src/chronos/core/scoped_redis.py:45-65 | An atomic command is a sequence of calls, each changing only the cell of the key it names as its effect says, on the store the one before left, each chosen from the replies so far. |
| Namespace.ActionMeans | src/chronos/core/scoped_redis.py:51-87 | A session's command runs scoped with that session's prefix and its answer joins that session's replies only; a cleanup's deletion and a control-plane command change one key. |
| Namespace.ScopedRunsLocally | src/chronos/core/scoped_redis.py:45-65 | A scoped command, script or transaction does on the shared store what the plain one does on the session's own, and answers the same. |
| Namespace.ScopedLeavesOthers | src/chronos/core/scoped_redis.py:51-65 | It leaves every other session's store as it was. |
| Namespace.NonInterference | src/chronos/core/scoped_redis.py:38-87 | Under every schedule of sessions, cleanups and control-plane writes each session sees, at every key that begins with "fs:", the store and replies it would see alone. |
| Namespace.UnlinkIsLocal | src/chronos/core/session_cleanup.py:27-28 | A cleanup's deletions are, for every session, deletions in its own store or nothing. |
| Namespace.FlatRedis.DeleteNamespace | src/chronos/core/session_cleanup.py:23-29 | Removes exactly the keys of one canonical session id (and its machine state); refuses other ids untouched. |
| Namespace.UuidGroups | src/chronos/core/session_cleanup.py:25-26 | The ids accepted are exactly five groups of lower-case hexadecimal digits, 8-4-4-4-12, joined by hyphens. |
| Namespace.CleanupSparesOthers | src/chronos/core/session_cleanup.py:27-29 | A cleanup's pattern matches a session's keys exactly if it is that session. |
| ModelStream.ReadStream | src/chronos/intelligence/inference.py:141-181 | For every chunking the joined text or failure is that of the concatenated bytes. |
| ModelStream.FedIffComplete | src/chronos/intelligence/inference.py:155-171 | Feeding lines one by one succeeds and completes exactly for a complete event list, with the concatenated responses. |
| ModelStream.ReadsExactly | src/chronos/intelligence/inference.py:141-181 | A byte string reads as a text exactly if it has at most 262144 bytes, its lines (ended by byte 10) are white or decode to events, no event is truncated, the last one and only it is done, what follows is white, and the text is their responses in order. |
| ModelStream.LinesAreLines | src/chronos/intelligence/inference.py:155-157 | Splitting at newlines is exact and leaves no newline in a line. |
| ModelStream.SplitOfJoined | src/chronos/intelligence/inference.py:155-157 | And it recovers any newline-free lines from their concatenation. |
| ModelStream.EncodedStreamReads | src/chronos/intelligence/inference.py:139-181 | Any well-formed answer, encoded one event a line, reads back as exactly its parts. |
| ShellParser.ParseCommand | src/chronos/gateway/shell_parser.py:107-137 | The index loop equals the recursive reading of a command's tokens. |
| ShellParser.ParsePipeline | src/chronos/gateway/shell_parser.py:86-105 | The accumulator loop equals parsing the sides between pipes, first fault first. |
| ShellParser.ParseSequence | src/chronos/gateway/shell_parser.py:65-84 | The accumulator loop equals parsing the non-empty stretches between separators, each with the operator before it. |
| ShellRoundTrip.SequenceRoundTrip | src/chronos/gateway/shell_parser.py:65-137 | Every well-formed tree, printed to tokens, parses to itself. |
| ShellRoundTrip.ParsedIsGood | src/chronos/gateway/shell_parser.py:65-137 | Whatever parses is a well-formed tree. |
| ShellRoundTrip.ParsePrintParse | src/chronos/gateway/shell_parser.py:65-137 | Parse, print, parse gives the first tree again, for every accepted token list. |
| ShellRoundTrip.RejectsExactly | src/chronos/gateway/shell_parser.py:91-116 | A token list is refused exactly if some pipe side is empty or some redirect lacks a target in its command; the first such side decides which of the two errors. |
| ShellRoundTrip.RedirectLacksTarget | src/chronos/gateway/shell_parser.py:112-128 | A redirect lacks its target exactly if the command ends in an odd number of redirect signs. |
| ShellMeaning.CutExactly | src/chronos/gateway/shell_parser.py:65-97 | The stretches between marks are the one way to write the tokens as mark-free bodies with single marks between them. |
| ShellMeaning.ItemsAreStretches | src/chronos/gateway/shell_parser.py:65-84 | An accepted list has one pipeline for each stretch with tokens, in order, under the separator right before it; empty stretches leave nothing. |
| ShellMeaning.CommandsAreSides | src/chronos/gateway/shell_parser.py:86-105 | An accepted stretch has one command for each side of its pipes, in order. |
| ShellMeaning.CommandGrows | src/chronos/gateway/shell_parser.py:107-137 | What each further token does to an accepted command: a word becomes its last argument, a sign and its target set that redirect over any earlier one of its kind and leave the rest. |
| AndOrLists.ExecuteSequence | src/chronos/gateway/dispatcher.py:599-618 | Within the limits the skip loop has the meaning of left-associative AND-OR lists (world, status, output); above 64 pipelines nothing runs; the pipeline that breaks the output limit is the last to run. |
| AndOrLists.OneMorePipeline | src/chronos/gateway/dispatcher.py:605-614 | The loop's skip condition is exactly when a further pipeline does not change the lists' meaning by running. |
| AndOrLists.ListsAreRead | src/chronos/gateway/dispatcher.py:605-609 | Lists written with `;`, `&&` and `||` are read back as the same lists. |
| AndOrLists.OutputGrows | src/chronos/gateway/dispatcher.py:613-616 | Output of a prefix is a prefix of the output, so the limit is broken once or never. |
| Report.Deduplicate | src/chronos/watcher/research_report.py:15-28 | Fails exactly on a missing or conflicting identity; otherwise distinct records plus repeats make up the input. |
| Report.Classify | src/chronos/watcher/research_report.py:30-48 | Fails exactly on two submissions under one full key; otherwise the dictionaries hold exactly the matching records in order. |
| ReportTheorems.BuildReport | src/chronos/watcher/research_report.py:8-93 | Fails exactly in those cases (values JSON cannot encode aside); otherwise the report is what the set of distinct records says, and submissions by origin total commands plus legacy submissions. |
| ReportTheorems.CommandDescribes | src/chronos/watcher/research_report.py:52-73 | Each command row holds its submission, exactly its results and file events, and the outcome of a single result only. |
| ReportMeaning.RowsInWords | src/chronos/watcher/research_report.py:30-73 | The rows are one for each `ssh_command` record with nonempty session and command id, ascending by session and then command id; each names by id exactly the `ssh_command_result` records and lists exactly the read, write, create and unlink records with the same session and command id, and its outcome is the single result's, else "unknown". |
| ReportMeaning.LeftOversInWords | src/chronos/watcher/research_report.py:37-48 | The three left-over lists name exactly the `ssh_command` records without session or command id, and the results and file records no command of the input goes with. |
| ReportMeaning.CountsInWords | src/chronos/watcher/research_report.py:15-38 | Unique and duplicate records add up to the input, and each origin counts its distinct `ssh_command` records, an absent origin as "unknown" and a null one as null. |
| ReportTheorems.UnmatchedAreListed | src/chronos/watcher/research_report.py:88-91 | The unmatched lists hold exactly the records whose key has no submission, each once. |
| ReportTheorems.SortExists | src/chronos/watcher/research_report.py:52 | Submission keys can be sorted as the report assumes of `sorted`. |
| ReportLaws.OrderIsImmaterial | src/chronos/watcher/research_report.py:9-14 | Permuted inputs give the same report up to order inside lists of ids and file events. |
| ReportLaws.FailsInAnyOrder | src/chronos/watcher/research_report.py:20-25 | And fail for the same inputs. |
| ReportLaws.LandsExactlyOnce | src/chronos/watcher/research_report.py:68-91 | Every submission, result and file event is in exactly one command, or in the matching left-over list and in no command. |
| ReportLaws.OutcomesAddUp | src/chronos/watcher/research_report.py:92-93 | Outcome counts are those of the participants' commands, one by one and in total. |

## Left out

Assumptions of the model:

- Stores: Redis, SQLite and PostgreSQL are their atomic steps; each database transaction commits, fails, or commits while its caller sees an error.
- Single instances: one audit delivery worker, one collector and one initialiser at a time; the 30 second initialisation lock is taken to hold.
- Identities: SHA-256 is an injective digest; lease tokens, call identifiers, event ids and session UUIDs are unique and UUIDs are never reused.
- Generated content: at most 1 MiB, as `_commit` itself does not check it.
- JSON: lines decode by an arbitrary fixed function; bytes that fail to decode and events of a wrong type are one failure.
- Redis and its clients read the same clock in `Quota`; in the content protocol lease expiry is an arbitrary step instead.

Not modelled:

- Timestamps, mtimes and deadlines: times do not enter file metadata, and a timeout is a free choice; the stream reader's deadline is absent.
- The plain HSETs for owner, chmod, chown and utimens: not atomic with their existence checks, so they are not steps of the concurrent systems; sequential chmod is covered.
- Errors at the FUSE boundary: rmdir turns every OSError of the store, ENOTDIR included, into ENOTEMPTY; the model stops at the scripts' own errors.
- `submit_background`, the number of pool slots, and exceptions of renderers and validators: a refusal is a free choice, and a failing worker ends in a release.
- `fs:blob_meta` provenance, prompts, policies, validators, renderers and fallbacks: the content they produce is arbitrary.
- Blob reclamation: the code has none; blobs are only ever added.
- `orphan_sessions`: it scans processes before namespaces, so a session registered in between is not protected; nothing is claimed of which namespaces get reaped.
- Lua source rewriting by text replacement: scripts are modelled by the keys their calls name, each passed through the same prefix rule.
- `skill_assessment` and Prometheus counters: they accumulate in memory across retries and are not part of the fold.
- Password filtering of audit metadata, the Redis dashboard cache of evidence, and the legacy path without saved progress.
- The page accounting of SQLite: whether an append finds pages under the cap of 65536 is a free choice.
- ReportTheorems.BuildReport: the canonical JSON of the input hash also fails on NaN or infinite values (`allow_nan=False`); records hold no such values here.
- Report percentiles, latency samples, the input hash, run metadata, and fields copied into command rows (command text, exit status).
- The FUSE descriptor table, its session check, and the look FUSE read takes before it calls `get_or_generate`, which repeats that call's own first steps.
- Character-level tokenising, unsupported-syntax patterns, pipelines' own execution, variable expansion and individual command handlers: an executor is an arbitrary function of pipeline and world.
- The circuit breaker, event bus, simulation plugins, threat scoring, dashboards and Layer 0.

Stated more weakly than one might wish:

- ContentTheorems.LinearizableRead: nothing is claimed of a read that returns `None`.
- Quota.QuotaBounds: a sufficient condition on timing only; the exact ones are the rows of QuotaLaws.
