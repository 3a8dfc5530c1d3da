# Codux: a verified model of its worktree, terminal, history, pairing and git-view cores

Codux is a desktop application and headless agent for AI coding sessions. This project models the parts of it that
decide something hard, and proves what they promise.

- **Worktrees** (`CommitGraph`, `WorktreeModel`, `WorktreeRuns`, `WorktreeOutcomes`, `WorktreeLosses`,
  `WorktreeEngine`). A repository is a commit graph with branches, tags, the HEAD of every worktree, worktree
  metadata and a tree of directories; a path belongs to the innermost worktree around it. Each operation is a
  function on that state, a class whose methods change it step by step is proved equal to those functions, and
  reachability of commits is proved over whole runs. Every git2 call and directory removal that can fail is an
  input, so early returns and half-finished operations are covered. Assumed of git2: `graph_descendant_of` is
  strict ancestry, merge analysis is decided by ancestry, a branch checked out in any worktree can be neither
  deleted nor checked out again.
- **Terminal fan-out** (`Fanout`, `BaselineCutover`, `BaselineReach`). One producer numbers output while devices
  subscribe; every lock is one atomic step, and all interleavings within a session are considered, with other
  sessions changing the shared tables in between. That output is appended to the buffer before its event is emitted
  is an assumption about the terminal manager.
- **Protobuf reader** (`Bits`, `ProtoWire`, `ProtoReader`, `ProtoCodec`). Varints with 64-bit shifts, the field
  iterator and the first-field lookups, against the encoder, following the "Base 128 Varints" and "Message
  Structure" sections of the Protocol Buffers Encoding specification.
- **Authorization and pairing** (`DeviceStore`, `CacheCoherence`, `Pairing`, `PairingHost`, `Watchers`).
- **Git views** (`DiffLines`, `DiffCompactor`, `DiffBudget`, `StatusTree`, `Debounce`). Diffs follow "Diff -u or -U
  Output Format" of the POSIX `diff` utility.
- **Sessions** (`ForkPrompt`, `Utf8`, `RecentLines`, `MessageText`, `MessageCap`, `ShellQuote`, `WorktreeScan`).

`Text`, `Sets` and `Wrappers` hold the string operations, the set fact and the option type the others share.

## Where the code does less than it says

Each of these is a proved lemma; the model follows the code.

- A merge with removal can lose commits when a tag has the name of the branch, since names resolve to tags first
  (`WorktreeLosses.TagHidingTheBranchLosesCommits`), or when the base is a ref outside refs/heads
  (`WorktreeLosses.DetachingBaseLosesCommits`). `WorktreeRuns.MergeWorktreeLosesNothingIff` says exactly when.
- The removal check accepts a source at or inside the removed worktree and a source with a detached HEAD
  (`WorktreeLosses.RemoveFromItselfLosesCommits`, `WorktreeLosses.DetachedSourceLosesCommits`).
- A merge into the source of a branch that a tag hides reports success and leaves the child unmerged
  (`WorktreeLosses.TagHidingTheBranchStaysUnmerged`); `WorktreeRuns.MergeIntoSourceMakesRemovable` says exactly
  when.
- Without a base a new worktree starts at a tag named like the current branch (`WorktreeLosses.TagMovesTheStart`),
  and `WorktreeOutcomes.StartIs` says exactly when it starts at the branch.
- A failed creation leaves its new branch behind when a linked worktree is on that branch unborn
  (`WorktreeLosses.UnbornWorktreeKeepsTheBranch`).
- A missing device file has the fingerprint that stands for "unknown", so its deletion right after a pairing is
  never noticed (`CacheCoherence.DeletionAfterReplaceIsMissed`).
- Device ids are compared untrimmed when stored and trimmed when authorized, so a padded id can shadow a new token
  (`DeviceStore.PaddedIdShadowsNewToken`). Pairing requests bring only trimmed ids, so this needs a file edited
  from outside; over runs of requests the last token counts (`Pairing.LastTokenCounts`).
- An added line starting with "++" or a deleted one with "--" is taken for a file header and shifts the numbers
  behind it (`DiffLines.ReportsTheScriptIff`).
- A transcript whose last 16 MiB begin inside a character gives no line, and one without a newline there gives the
  rest of a line as a line (`RecentLines.CutCharacterLosesAllLines`, `RecentLines.CutLineIsReturned`);
  `RecentLines.RecentAreCompleteIff` says exactly when the lines are complete.
- The limit of 16 texts per message is checked on entry only: a message can leave 147
  (`MessageCap.MessagesAreBounded`), and `MessageCap.CapHoldsIff` says exactly when the limit holds.
- In a project opened at a linked worktree, looking up the default worktree by its id leads to the project path
  (`WorktreeScan.LookupUndoesNamingIff`).
- A branch whose own name starts with "refs/heads/" loses that prefix (`WorktreeScan.ScanRoundTripIff`).
- An empty session id is not quoted and becomes no argument (`ShellQuote.RestoreCommandIsRead`).

## Model

| member | source | states |
|---|---|---|
| WorktreeRuns.NoCommitLost | crates/codux-git/src/worktree.rs:23-235 | Over every run of create, commit, merge (with or without removal), merge-into-source and remove-merged steps, with directories made and removed in between, every commit reachable from a local branch stays reachable from one, provided the source path of each removal lies in a worktree other than the child, wherever below it, whose HEAD is on a branch, and each merge that removes has a base given as a branch and no tag named like the merged branch |
| WorktreeRuns.MergeBranchForward | crates/codux-git/src/worktree.rs:441-535 | A merge never rewinds or deletes a branch, and when it succeeds both the old HEAD and the merged tip are ancestors of the new HEAD or equal to it |
| WorktreeRuns.MergeBranchMovesOnlyHead | crates/codux-git/src/worktree.rs:441-535 | A merge changes nothing but the HEAD of its worktree or the branch that HEAD is on; a conflict changes nothing at all |
| WorktreeRuns.MergedAncestors | crates/codux-git/src/worktree.rs:441-496 | After a successful merge the new HEAD contains exactly the old commits that one of the two sides contained |
| WorktreeOutcomes.MergeBranchIs | crates/codux-git/src/worktree.rs:441-535 | A merge succeeds if and only if both sides resolve and either the source holds the other side already, or no call fails and they fast-forward or do not conflict; HEAD is then at the side that contains the other, else at one new commit with both as parents; a conflict is reported exactly for two sides that both went on |
| WorktreeOutcomes.MergeBranchSays | crates/codux-git/src/worktree.rs:441-535 | Each error of a merge names something that is the case |
| WorktreeOutcomes.NamesResolve | crates/codux-git/src/worktree.rs:498-508 | A tag wins over a branch of the same name, and an annotated tag cannot be merged |
| WorktreeRuns.MergeIntoSourceMakesRemovable | crates/codux-git/src/worktree.rs:115-149 | After a successful merge into the source, the source is still on its expected branch, and the ancestry test of the removal check holds if and only if it held before or what the name of the child branch resolved to contains its tip; with no tag of that name it always holds |
| WorktreeOutcomes.MergeIntoSourceIs | crates/codux-git/src/worktree.rs:115-149 | It succeeds if and only if every check passes and the merge succeeds; it is that merge and nothing else, the source HEAD then contains both sides, and each error names something that is the case |
| WorktreeRuns.AncestryTestPersists | crates/codux-git/src/worktree.rs:204-220 | Once the ancestry test holds it keeps holding along every run in which the source stays on its branch and the child branch does not move |
| WorktreeRuns.MergeWorktreeLosesNothing | crates/codux-git/src/worktree.rs:82-112 | Under those guards a merge, wherever it stops, loses no commit and rewinds no branch |
| WorktreeRuns.MergeWorktreeLosesNothingIff | crates/codux-git/src/worktree.rs:82-112 | A merge that also removed worktree and branch lost nothing if and only if another branch already held the tip, or the base is a branch and what the branch name resolves to contains the tip |
| WorktreeOutcomes.MergeWorktreeMerges | crates/codux-git/src/worktree.rs:82-112 | After a success, with or without removal, the main HEAD is on the base and contains both its tip and the commit the name of the child branch resolved to, and no other branch has moved; without removal every worktree, directory and the child branch are as they were, with it exactly the worktree, its directory and its branch are gone |
| WorktreeOutcomes.MergeWorktreeDoneIff | crates/codux-git/src/worktree.rs:82-112 | It succeeds if and only if every check passes, the base can be checked out, the merge succeeds and, with removal, the path is a linked worktree, the calls work and no other worktree is on its branch |
| WorktreeOutcomes.MergeWorktreeSays | crates/codux-git/src/worktree.rs:82-112 | Each error names something that is the case |
| WorktreeOutcomes.MergeWorktreeRefuses | crates/codux-git/src/worktree.rs:82-100 | Its refusals come in the order of the checks, and before anything has changed |
| WorktreeOutcomes.SwitchIsNeededIff | crates/codux-git/src/worktree.rs:101-105 | The base is checked out if and only if the main worktree is not on it already |
| WorktreeRuns.RemoveMergedLosesNothing | crates/codux-git/src/worktree.rs:223-235 | A removal whose source path lies in another worktree with its HEAD on a branch loses no commit, whether it succeeds or fails |
| WorktreeRuns.RemoveMergedLosesNothingIff | crates/codux-git/src/worktree.rs:223-235 | A removal that reports success lost nothing if and only if another branch contained the tip of the child branch |
| WorktreeRuns.RemoveMergedTwice | crates/codux-git/src/worktree.rs:151-235 | A removal that succeeded leaves nothing at or below the removed path; repeated, it succeeds again and changes nothing if and only if the source path was not inside the removed directory |
| WorktreeOutcomes.EnsureRemovableIs | crates/codux-git/src/worktree.rs:151-221 | The check accepts exactly a fitting, clean child that is contained in the source HEAD, or is gone with its metadata; each refusal names something that is the case |
| WorktreeOutcomes.RemoveMergedIs | crates/codux-git/src/worktree.rs:223-235 | It succeeds if and only if the check accepts, the calls work and no other worktree is on the branch; metadata, directory and branch are then gone, and nothing else |
| WorktreeOutcomes.RemoveWorktreeIs | crates/codux-git/src/worktree.rs:61-77 | It succeeds if and only if the path is a linked worktree, the calls work and no other worktree is on a branch to delete; the worktree is then gone, and its branch exactly when that was asked for and the main worktree is not on it |
| WorktreeOutcomes.RemoveLinkedIs | crates/codux-git/src/worktree.rs:382-400 | Pruning takes the metadata and everything inside the directory, and when it fails between the two only the directory |
| WorktreeRuns.RemoveWorktreeLosesNothingIff | crates/codux-git/src/worktree.rs:61-77 | The unchecked removal deletes at most the branch of the removed worktree, never the one the main worktree is on; having deleted it, it lost nothing if and only if another branch contained its tip |
| WorktreeRuns.DeleteBranchLosesNothingIff | crates/codux-git/src/worktree.rs:554-571 | Deleting a branch loses nothing if and only if another local branch contains its tip |
| WorktreeOutcomes.DeleteBranchIs | crates/codux-git/src/worktree.rs:554-571 | Deleting succeeds for no name, for a missing branch, and for an existing one if and only if no worktree is on it and the call works; then that branch alone is gone |
| WorktreeRuns.CreateRollsBackIff | crates/codux-git/src/worktree.rs:23-57 | A failed creation leaves every worktree and every other ref as it was, at most some directories above the destination, and a new branch if and only if it got as far as making one and undoing it failed or a linked worktree held that branch unborn; a successful one adds one worktree on the named branch and touches no other ref |
| WorktreeOutcomes.CreateWorktreeIs | crates/codux-git/src/worktree.rs:23-57 | Creation succeeds if and only if every check passes, the start resolves, no worktree is on the branch and no call fails; the worktree is then on the branch, which starts at the start if it is new and keeps its tip if not |
| WorktreeOutcomes.CreateWorktreeRefuses | crates/codux-git/src/worktree.rs:23-57 | Its refusals come in the order of the checks, and before anything has changed; no failure leaves the directory of the destination |
| WorktreeOutcomes.StartIs | crates/codux-git/src/worktree.rs:34-38 | A new branch starts at what the given base resolves to, and without one at the tip of the branch the caller is on if and only if no tag of that name points elsewhere |
| WorktreeOutcomes.CheckoutIs | crates/codux-git/src/worktree.rs:421-439 | The base is checked out if and only if it exists, no linked worktree is on it and no call fails; the main HEAD is then on it, or detached at the commit of a ref outside refs/heads |
| WorktreeRuns.FailedMergeDeletesNoBranch | crates/codux-git/src/worktree.rs:82-112 | A merge that fails at any step has deleted no branch and rewound none |
| WorktreeRuns.RemoveMergedPromises | crates/codux-git/src/worktree.rs:223-235 | What a caller of the removal can rely on in one place: no branch rewound, no loss under the guard, the exact loss condition of a success, and every branch left after a failure |
| WorktreeLosses.RemoveFromItselfLosesCommits | crates/codux-git/src/worktree.rs:204-220 | A source path at or inside the child passes the ancestry test, and removing the child loses its commit |
| WorktreeLosses.DetachedSourceLosesCommits | crates/codux-git/src/worktree.rs:204-220 | A source detached at the tip of the child passes the test, and the commit ends up on no branch |
| WorktreeLosses.TagHidingTheBranchLosesCommits | crates/codux-git/src/worktree.rs:498-508 | A tag with the name of the branch is merged in its place, and the unmerged branch is deleted with its commit |
| WorktreeLosses.TagHidingTheBranchStaysUnmerged | crates/codux-git/src/worktree.rs:115-149 | With a tag of the same name the merge into the source reports success, the ancestry test fails afterwards, and the removal is refused as not merged |
| WorktreeLosses.UnbornWorktreeKeepsTheBranch | crates/codux-git/src/worktree.rs:363-379 | With a linked worktree on an unborn branch, creating a worktree for that branch fails and leaves the new branch behind although nothing else goes wrong |
| WorktreeLosses.DetachingBaseLosesCommits | crates/codux-git/src/worktree.rs:421-439 | A base ref outside refs/heads detaches HEAD, the merge then moves no branch, and deleting the child branch loses its commit |
| WorktreeLosses.TagMovesTheStart | crates/codux-git/src/worktree.rs:34-38 | With a tag named like the branch the caller is on, a new branch starts at the commit of the tag |
| WorktreeRuns.EnclosingIsInnermost | crates/codux-git/src/worktree.rs:575-590 | The worktree found for a path contains it, and no worktree further inside does |
| CommitGraph.ReachesGrown | crates/codux-git/src/worktree.rs:212-220 | New commits change nothing about the ancestry of old ones |
| CommitGraph.ReachesTransitive | crates/codux-git/src/worktree.rs:212-220 | Ancestry, as the removal check asks for it, is transitive |
| CommitGraph.ReachesIff | crates/codux-git/src/worktree.rs:212-220 | A commit is an ancestor of another or equal to it if and only if a walk from child to parent leads there |
| WorktreeEngine.Repository.MergeBranch | crates/codux-git/src/worktree.rs:441-496 | The step-by-step merge has the modelled outcome and effect; it rewinds and deletes no branch, moves only its own HEAD, and changes nothing on a conflict |
| WorktreeEngine.Repository.DeleteBranch | crates/codux-git/src/worktree.rs:554-571 | Deletion refuses a checked-out branch, succeeds on a missing one, and when it removes one loses nothing if and only if another branch contains its tip |
| WorktreeEngine.Repository.CreateWorktree | crates/codux-git/src/worktree.rs:23-57 | Creation has the modelled outcome for every early return, never loses a commit, and after a failure leaves a new branch exactly under the condition above |
| WorktreeEngine.Repository.MergeWorktree | crates/codux-git/src/worktree.rs:82-112 | The merge runs clean check, checkout, merge, prune and deletion as modelled; after a success the main HEAD contains the base and the child, and without removal nothing else has changed; under its guards it loses no commit, and when it fails it has deleted no branch |
| WorktreeEngine.Repository.MergeIntoSource | crates/codux-git/src/worktree.rs:115-149 | The merge into the source rewinds no branch, and after a success the ancestry test of the removal check holds exactly when it held before or the merged commit contains the tip of the child branch |
| WorktreeEngine.Repository.EnsureRemovable | crates/codux-git/src/worktree.rs:151-221 | The removal check accepts if and only if the names fit, an existing child is a clean worktree on its branch, and the branch is contained in the source HEAD or is gone together with the metadata |
| WorktreeEngine.Repository.RemoveMerged | crates/codux-git/src/worktree.rs:223-235 | The removal loses no commit under its guard, reports success without loss if and only if another branch contains the tip, and leaves every branch when it fails |
| WorktreeEngine.Repository.RemoveWorktree | crates/codux-git/src/worktree.rs:61-77 | The unchecked removal reads the branch before pruning and deletes it afterwards; without that deletion it loses nothing |
| WorktreeEngine.Repository.RunOps | crates/codux-git/src/worktree.rs:23-235 | Any list of operations on one repository object, each guarded before it runs, loses no commit |
| BaselineCutover.NoOutputMissed | apps/agent/src/terminals.rs:661-734 | For every interleaving of appending, numbering, reading viewers, sending, subscribing and snapshotting, and every baseline a device has received: its data is a tail of the output up to some chunk, every chunk numbered at or below its outputSeq lies inside, and while the device stays subscribed every later chunk whose sending is over reached it exactly once, live, under a larger number and with its own text and buffer end |
| BaselineCutover.BaselineAndLiveJoin | apps/agent/src/terminals.rs:823-841 | Any baseline of the present subscription followed by the live frames that end past it is a tail of the whole output, without gap or repetition, up to the last chunk sent |
| BaselineCutover.RunKeeps | apps/agent/src/terminals.rs:565-587 | Every run keeps the invariant: numbers are handed out in order, live frames carry the chunk of their number, inboxes increase, and whoever is subscribed was sent everything since the number of each of its baselines was read |
| BaselineCutover.FreshIsTheRest | apps/agent/src/terminals.rs:565-587 | The frames of a device after a snapshot, appended in order, are exactly the output between the snapshot and the last frame |
| BaselineReach.NothingAfterUnsubscribe | apps/agent/src/terminals.rs:138-142 | Over every run, a device that unsubscribes while no frame is on its way to it receives nothing more until it subscribes again |
| BaselineReach.AwayReceivesNothing | apps/agent/src/terminals.rs:565-587 | From every reachable state, a device that is no viewer and has no frame on its way receives nothing along any run without its subscription |
| BaselineReach.OnlyViewersReceive | apps/agent/src/terminals.rs:565-587 | Over every run, each live frame in an inbox went to a device that was a viewer when the viewers were read for the event of that frame |
| BaselineReach.AllOutputGoesOut | apps/agent/src/terminals.rs:547-587 | From every reachable state the handler alone can send out all output appended so far |
| BaselineReach.BaselineIsDelivered | apps/agent/src/terminals.rs:823-841 | From every state a device can subscribe, and receives a baseline with the current number, buffer end and any tail of the output |
| BaselineReach.SubscribingAgainKeeps | apps/agent/src/terminals.rs:823-841 | A viewer that subscribes again keeps its subscription and its inbox |
| Fanout.TableLaws | apps/agent/src/terminals.rs:68-220 | Each operation changes the viewers or the number of one session, or one device in all sessions, and leaves everything else alone |
| Fanout.NoEmptyEntryStays | apps/agent/src/terminals.rs:138-220 | No session is ever kept with no viewers |
| Fanout.TerminalFanout.NextSeq | apps/agent/src/terminals.rs:68-76 | Each number is one more than the last of its session; other sessions keep theirs |
| Fanout.TerminalFanout.AddViewer | apps/agent/src/terminals.rs:85-87 | Adding a viewer adds one device to one session |
| Fanout.TerminalFanout.RemoveViewer | apps/agent/src/terminals.rs:138-142 | Removing a viewer removes one device from one session |
| Fanout.TerminalFanout.RemoveDevice | apps/agent/src/terminals.rs:194-199 | Removing a device removes it from every session and changes no number |
| Fanout.TerminalFanout.ClearSession | apps/agent/src/terminals.rs:205-220 | Clearing a session forgets its viewers and its numbering, and nothing of other sessions |
| ProtoWire.ReadVarintMeaning | crates/codux-ai-history/src/agy_db.rs:475-488 | For every byte string and position: a group of at most ten bytes that ends is read as its base-128 value modulo 2^64 and consumed exactly; a longer or unfinished group is refused, having consumed at most ten bytes |
| ProtoWire.VarintRoundTrip | crates/codux-ai-history/src/agy_db.rs:498-511 | Reading the encoding of any u64, followed by any bytes, gives the value back and stops right behind the encoding |
| ProtoWire.NextField | crates/codux-ai-history/src/agy_db.rs:438-472 | A yielded field strictly advances the position, which never passes the end |
| ProtoCodec.ItemIsRead | crates/codux-ai-history/src/agy_db.rs:438-472 | The iterator reads one encoded item of any wire type, wherever it lies, and stops right behind it |
| ProtoCodec.FieldsRoundTrip | crates/codux-ai-history/src/agy_db.rs:438-472 | Encoding any list of items with numbers below 2^61 and iterating gives back exactly that list |
| ProtoCodec.FindsFirstInt | crates/codux-ai-history/src/agy_db.rs:395-402 | The integer lookup gives the value of the first varint item with that number, and nothing if and only if there is none |
| ProtoCodec.FindsFirstChunk | crates/codux-ai-history/src/agy_db.rs:413-420 | The message lookup gives the bytes of the first length-delimited item with that number, and nothing if and only if there is none |
| ProtoCodec.LookupsOfEncoded | crates/codux-ai-history/src/agy_db.rs:395-420 | On any encoded list of items, the integer lookup gives nothing if and only if no integer has the number, else the first such value, or 0x7FFFFFFFFFFFFFFF when it is 0x8000000000000000 or more; and the message lookup the bytes of the first message |
| ProtoCodec.UnknownTypeStops | crates/codux-ai-history/src/agy_db.rs:438-472 | A key of a group or of an unknown wire type ends the iteration |
| ProtoCodec.NestedLookup | crates/codux-ai-history/src/agy_db.rs:413-420 | Chained lookups reach the message nested along any path of numbers, and iterating over it gives its own items |
| ProtoCodec.FieldsOfPrefix | crates/codux-ai-history/src/agy_db.rs:438-472 | The fields read from any prefix of the data are a prefix of the fields read from all of it |
| ProtoReader.ProtoFields.ReadVarint | crates/codux-ai-history/src/agy_db.rs:475-488 | The loop returns what the recursive reader does and leaves the position where that stops |
| ProtoReader.ProtoFields.Next | crates/codux-ai-history/src/agy_db.rs:438-472 | One step of the iterator yields the modelled field and position, stopping on a group tag, an unknown wire type or a length past the end |
| ProtoReader.FirstI64 | crates/codux-ai-history/src/agy_db.rs:395-402 | The first varint with that number among all fields, itself below 2^63 and the largest i64 above; nothing if and only if there is none |
| ProtoReader.FirstMessage | crates/codux-ai-history/src/agy_db.rs:413-420 | The bytes of the first length-delimited field with that number among all fields |
| Bits.OrShiftedIsSum | crates/codux-ai-history/src/agy_db.rs:481-482 | Or-ing a shifted digit onto smaller bits adds as much of it as fits into 64 bits |
| CacheCoherence.RefreshIsCoherentIff | apps/agent/src/device_store.rs:83-103 | Over every run of file writes, deletions, replacements and refreshes with writes between their two reads: a refresh that starts after the last write leaves the credentials the file gives, if and only if it is not the case that the file is missing while the fingerprint is unknown and credentials are held |
| CacheCoherence.RefreshOfPresentFile | apps/agent/src/device_store.rs:83-103 | With the file present a refresh leaves its credentials whatever happened before, and none at all when a read fails |
| CacheCoherence.FailedRefreshClears | apps/agent/src/device_store.rs:83-103 | A refresh that cannot read the fingerprint, or finds it changed and cannot read the file, leaves no credential and no fingerprint |
| DeviceStore.RefreshIs | apps/agent/src/device_store.rs:83-103 | A refresh keeps everything when it finds the fingerprint it knows, and else takes over what it loads and remembers that fingerprint |
| CacheCoherence.DeletionAfterReplaceIsMissed | apps/agent/src/device_store.rs:69-75 | A file deleted right after a pairing is never noticed: its missing fingerprint equals the unknown one |
| DeviceStore.InAuthorizationMap | apps/agent/src/device_store.rs:113-126 | An id is in the map if and only if some device with a non-blank token has it after trimming |
| DeviceStore.AuthorizationMapIsLast | apps/agent/src/device_store.rs:113-126 | The last device with an id decides its token |
| DeviceStore.AuthorizedIff | apps/agent/src/device_store.rs:113-126 | An id is in the map if and only if it is not blank and some device has it, trimmed, with a token that is not blank |
| DeviceStore.UpsertIs | apps/agent/src/device_store.rs:173-205 | An upsert replaces token, name and platform of the device unless they are blank, always the time last seen and never the pairing time; a new device is added with what was given, paired now |
| DeviceStore.Record | apps/agent/src/device_store.rs:173-205 | The edit in place of the device list is the modelled upsert |
| DeviceStore.UpsertKeeps | apps/agent/src/device_store.rs:173-205 | An upsert keeps ids unique, every pairing time and every other device, and adds a device if and only if the id is new |
| DeviceStore.UpsertAuthorizesIff | apps/agent/src/device_store.rs:113-205 | After an upsert the map holds the new token if and only if no later device with the same trimmed id holds another one |
| DeviceStore.PaddedIdShadowsNewToken | apps/agent/src/device_store.rs:182-182 | In a file edited from outside, a later padded id shadows the token of the device that pairs again |
| DeviceStore.UpsertIsAssignment | apps/agent/src/device_store.rs:113-205 | With trimmed, unique ids an upsert is one assignment in the map of credentials |
| DeviceStore.DeviceAuthorizationCache.ReplaceAfterWrite | apps/agent/src/device_store.rs:69-75 | The cache takes the credentials of the written devices and forgets the fingerprint |
| DeviceStore.DeviceAuthorizationCache.IsAuthorized | apps/agent/src/device_store.rs:77-110 | At most one refresh per interval, with the modelled effect for every read failure; the answer is what the credentials then say, and no for blank ids or tokens |
| Pairing.AcceptedAtMostOnce | apps/agent/src/host.rs:151-217 | Over every run with never-repeating random pairing ids, each credential gets past matching and rotation at most once, whatever fails afterwards |
| Pairing.ReplayIsRefused | apps/agent/src/host.rs:151-217 | A request accepted once is refused at every later point of the run |
| Pairing.ConfirmIs | apps/agent/src/host.rs:151-217 | The first of pairing id, code and secret that differs is named; if and only if all three are right and the four draws are made, the credential is replaced by the drawn id, the first six characters of the drawn code and the drawn secret; and it succeeds if and only if then the files can be used |
| Pairing.ConfirmedStores | apps/agent/src/host.rs:187-194 | A success stores the device under its id with the drawn token and the name and platform it gave |
| Pairing.AcceptedKnew | apps/agent/src/host.rs:151-217 | Over every run, each accepted pairing id came in a request that also gave the code and the secret then active |
| Pairing.HandshakeIdIsTrimmed | crates/codux-remote-transport/src/control_messages.rs:34-50 | Every device id that reaches a pairing request is trimmed and not blank; a message without one, or with two that differ, is dropped |
| Pairing.LastTokenCounts | apps/agent/src/host.rs:151-217 | Over every run of requests from a store with trimmed, unique ids, the store keeps such ids and the credentials hold for each id exactly the token of its last confirmed request, or what they held before when it had none |
| Pairing.ConfirmedAuthorizesIff | apps/agent/src/host.rs:187-194 | After a success the cache is the map of the stored devices, ids stay unique, pairing times are kept, and the device is authorized with its new token if and only if no later device with the same trimmed id holds another |
| PairingHost.AgentPairingState.Confirm | apps/agent/src/host.rs:151-217 | The confirmation under the lock replaces the credential if and only if pairing id, code and secret are right and the draws are made, and names the first part that differs; a refusal leaves store and cache, an unaccepted request leaves everything, and a success leaves the cache in step with the store |
| PairingHost.AgentPairingState.Serve | apps/agent/src/host.rs:151-217 | Serving any list of requests accepts no credential twice when random pairing ids never repeat, and leaves each device authorized with the token of its last confirmed request |
| PairingHost.AgentPairingState.IsAuthorized | apps/agent/src/host.rs:219-223 | Trimming before the cache trims again changes no answer |
| Watchers.RefinesIsOneToOne | apps/agent/src/host.rs:226-245 | The nested project-to-device maps and the flat device-to-(project, scope) map determine each other, so a device is under one project at most |
| Watchers.RegisterRefines | apps/agent/src/host.rs:226-245 | Registering is one assignment in the flat map |
| Watchers.LastRegistrationCounts | apps/agent/src/host.rs:301-320 | The last registration of a device holds until it registers again, or it or its project is removed |
| Watchers.WatchedIff | apps/agent/src/host.rs:226-411 | From the start, a device watches a project with a scope if and only if some operation registered it there and no later one registered or removed the device or removed the project |
| Watchers.RunOps | apps/agent/src/host.rs:226-411 | Over every run of register, remove-device and remove-project the nested maps refine the flat map of the same run, and no inner map is empty |
| Watchers.WatcherMap.Register | apps/agent/src/host.rs:301-320 | The loop, the clean-up and the insertion together move the device to the project and scope |
| Watchers.WatcherMap.RemoveDevice | apps/agent/src/host.rs:383-390 | Removing a device removes its one entry and no other |
| Watchers.WatcherMap.RemoveProject | apps/agent/src/host.rs:392-396 | Removing a project removes the entries of its devices and no others |
| Watchers.WatcherMap.DevicesOf | apps/agent/src/host.rs:226-245 | The devices found under a project are exactly those whose flat entry names it, with their scopes |
| DiffLines.ReportsTheScriptIff | crates/codux-git/src/diff.rs:291-317 | For the text of any edit script rendered as unified-diff hunks after any file headers, with either line end and with or without notes on a missing final newline, the parser reports exactly its deleted and added line numbers if and only if no added line starts with "++" and no deleted line with "--" |
| DiffLines.ReportedLinesReconcile | crates/codux-git/src/diff.rs:291-317 | For such scripts both lists strictly increase, and dropping them from the old and the new file leaves the same lines |
| DiffLines.StripOfRender | crates/codux-git/src/diff.rs:291-317 | Reading lines that end in carriage returns is reading the diff of the same script without them |
| DiffLines.NoteIsSkipped | crates/codux-git/src/diff.rs:291-317 | A note on a missing final newline moves no counter |
| DiffLines.HeaderIsRead | crates/codux-git/src/diff.rs:319-335 | A rendered hunk header is read back as its two starts, with or without lengths, whatever heading follows |
| Text.ParseUsizeIs | crates/codux-git/src/diff.rs:330-335 | A start is read if and only if it is digits, behind an optional plus sign, and below 2^64 |
| Text.LineEnds | crates/codux-git/src/diff.rs:296-296 | A line ends at a newline, and one carriage return before it goes with it |
| DiffLines.OtherLines | crates/codux-git/src/diff.rs:291-317 | A blank context line that lost its space counts in both files, and a line with no sign in neither |
| DiffLines.ParseDiffLineNumbers | crates/codux-git/src/diff.rs:291-317 | The loop with its two counters computes the modelled lists for every text |
| DiffCompactor.CompactIsBounded | crates/codux-git/src/diff.rs:170-222 | For every input the result has at most 24,000 + 28 + 40 bytes and shows lines of the input in order, from at most 80 files with at most 80 lines each that are no headers and one marker |
| DiffCompactor.TruncatedIff | crates/codux-git/src/diff.rs:170-222 | The flag is false if and only if every line of the input is shown; when it is true some line is missing |
| DiffCompactor.UntruncatedIsTheInput | crates/codux-git/src/diff.rs:170-229 | When the flag is false the result is the input joined by newlines, without leading empty lines |
| DiffBudget.CompactFlagIff | crates/codux-git/src/diff.rs:170-222 | The flag is true if and only if some line begins the 81st file, is the 81st of its file that is no header, or passes 24,000 bytes behind the lines before it; else the result is the input |
| DiffBudget.CompactIs | crates/codux-git/src/diff.rs:170-222 | For every input the result is exactly the headers and the first 80 other lines of every file, with a marker for the rest of a file, up to the first line that begins the 81st file or no longer fits, and a final marker if and only if something was left out |
| DiffBudget.HeadersAre | crates/codux-git/src/diff.rs:188-197 | Ten beginnings make a line a header |
| DiffBudget.AddedIsNone | crates/codux-git/src/diff.rs:188-197 | An added line is taken for a header if and only if its text begins with "++ " |
| DiffBudget.DeletedIsNone | crates/codux-git/src/diff.rs:188-197 | A deleted line is taken for a header if and only if its text begins with "-- " |
| DiffBudget.ContextIsNone | crates/codux-git/src/diff.rs:188-197 | A context line is never taken for a header |
| DiffCompactor.CompactCommitMessageDiff | crates/codux-git/src/diff.rs:170-222 | The loop with its counters and breaks computes the modelled text and flag |
| Debounce.RunGitWatchDebounce | crates/codux-git/src/watch.rs:151-187 | Flushes follow each other through the batches without gap or overlap; each comes at most 3000 ms after its first batch, before that only after 900 ms of quiet with no batch waiting, and with at most 4096 distinct paths; only what is pending when the senders go away is lost |
| Debounce.Accumulate | crates/codux-git/src/watch.rs:158-173 | The inner loop ends at the deadline, after a quiet period or at disconnection, having collected the batches received until then |
| Debounce.ProperIs | crates/codux-git/src/watch.rs:151-187 | Every flush comes 900 ms after its last batch or 3000 ms after its first, whichever is earlier, with no longer pause in between, no batch waiting and at most 4096 paths |
| Debounce.PushUniqueStrings | crates/codux-git/src/watch.rs:189-196 | At most 4096 paths, all of them received, and every received one while below the cap |
| Debounce.FlushIsExactIff | crates/codux-git/src/watch.rs:151-196 | A flush holds exactly the paths of its batches if and only if these are at most 4096; otherwise it holds 4096 of them |
| Debounce.NothingLost | crates/codux-git/src/watch.rs:151-196 | When no flush has batches with more than 4096 paths and the senders stay, the union of the flushed sets is the union of the received paths |
| StatusTree.PlaceByComponents | crates/codux-git/src/repository.rs:240-294 | For a path and a base spelled by components: the file is listed if and only if it is a child of the base, gives the marker of the child directory it lies below with its status, and is ignored otherwise |
| StatusTree.DirectEntriesAre | crates/codux-git/src/repository.rs:240-267 | The entries of a listing are exactly the files that are children of the base |
| StatusTree.MarkersAre | crates/codux-git/src/repository.rs:240-267 | The markers of a listing are exactly those its files lie below |
| StatusTree.MarkerIs | crates/codux-git/src/repository.rs:296-310 | A marker carries the statuses of the file, or "?" and "?" when the work tree status is "?" and the index status "?" or blank |
| StatusTree.SlashesAreTrimmed | crates/codux-git/src/repository.rs:244-244 | A directory may be given with any slashes before and behind it |
| StatusTree.MarkerKeyInjective | crates/codux-git/src/repository.rs:312-317 | Different markers have different keys, so none replaces another |
| StatusTree.EveryFileIsReached | crates/codux-git/src/repository.rs:240-310 | Every file below a base is reached by expanding markers: its parent directory is reached and lists it, and every directory on the way shows a marker with its status, "?" and "?" for an untracked one |
| StatusTree.NothingElseIsReached | crates/codux-git/src/repository.rs:240-310 | Expanding reaches only directories between the base and some file, and each lists only its own children |
| StatusTree.CollapsePathStatusFiles | crates/codux-git/src/repository.rs:240-267 | The loop over the flat list fills the entries in order and the markers by key as modelled |
| ShellQuote.QuoteRoundTrip | crates/codux-ai-sessions/src/restore.rs:40-49 | Reading a quoted value by the rules of sections 2.2.1 and 2.2.2 of the POSIX Shell Command Language gives one word equal to it for every non-empty value, and no word for the empty one |
| ShellQuote.RestoreCommandIsRead | crates/codux-ai-sessions/src/restore.rs:9-38 | Every restore command is read as the tool, its flag and the session id as one argument, whatever characters the id has; an empty id gives no argument |
| ShellQuote.CommandsAre | crates/codux-ai-sessions/src/restore.rs:9-38 | A tool whose name contains exactly one known name gets the command and flag of that tool |
| ShellQuote.OtherCommandsAre | crates/codux-ai-sessions/src/restore.rs:9-38 | A tool without a known name is omp, if it is called so, or codex; one with several is codex first, and then claude |
| ShellQuote.SessionIdIs | crates/codux-ai-sessions/src/restore.rs:11-15 | The external id counts unless it is missing or blank |
| ShellQuote.QuoteIsNeededIff | crates/codux-ai-sessions/src/restore.rs:40-49 | A value is left as it is if and only if it consists of ASCII letters, digits and -_./:= alone |
| ForkPrompt.PromptText | crates/codux-ai-sessions/src/session_fork.rs:151-225 | The prompt is exactly the first 120,000 characters of the same prompt built with no limit; one more item counts as omitted if and only if the prompt is full before its last snippet |
| ForkPrompt.UnlimitedIs | crates/codux-ai-sessions/src/session_fork.rs:200-223 | The unlimited prompt is the sections, the numbered excerpts in order or a remark that there are none, and the cleanup notes |
| ForkPrompt.TakeIs | crates/codux-ai-sessions/src/session_fork.rs:669-675 | The cut keeps the first 120,000 characters |
| ForkPrompt.LastSnippetsAre | crates/codux-ai-sessions/src/session_fork.rs:699-705 | The window keeps the last 240 snippets |
| ForkPrompt.PushTranscript | crates/codux-ai-sessions/src/session_fork.rs:200-215 | Stopping at a full prompt gives the same cut as pushing every excerpt |
| ForkPrompt.PushLimited | crates/codux-ai-sessions/src/session_fork.rs:669-675 | A push is a cut of the concatenation at the limit |
| ForkPrompt.LastOfLast | crates/codux-ai-sessions/src/session_fork.rs:699-705 | Truncating two lists and then their concatenation keeps the last of the concatenated lists |
| ForkPrompt.CollectSnippets | crates/codux-ai-sessions/src/session_fork.rs:60-91 | The rolling truncation keeps the last 240 snippets of the first 32 distinct files, joined in processing order, last file first |
| ForkPrompt.SelectedAre | crates/codux-ai-sessions/src/session_fork.rs:61-74 | The files read are at most 32, are there, differ in their paths and keep the given order |
| ForkPrompt.OthersRepeat | crates/codux-ai-sessions/src/session_fork.rs:61-74 | A file that is there and not read repeats the path of one that is, or comes after 32 of them |
| ForkPrompt.BackwardsOfConcat | crates/codux-ai-sessions/src/session_fork.rs:76-90 | The snippets of a later file come before those of an earlier one |
| RecentLines.RecentAreCompleteIff | crates/codux-ai-sessions/src/session_fork.rs:228-257 | For a file of valid text, the lines read back are the last of its non-blank lines, each complete, if and only if the tail begins inside a character (then there are none), or the file is small enough, or a newline or only blanks follow the cut, or the tail begins with a line |
| RecentLines.RecentOfText | crates/codux-ai-sessions/src/session_fork.rs:228-257 | They are the last non-blank lines behind the first newline of the tail, or of the whole file when it is small enough; a tail that begins inside a character gives none |
| RecentLines.FirstLineIsDropped | crates/codux-ai-sessions/src/session_fork.rs:244-248 | The first line of a cut tail is dropped, complete or not, and no other |
| RecentLines.WindowIs | crates/codux-ai-sessions/src/session_fork.rs:249-256 | As many lines as allowed are kept, and those are the last |
| RecentLines.CutCharacterLosesAllLines | crates/codux-ai-sessions/src/session_fork.rs:236-243 | Whatever the text, a tail that begins with the second byte of a character gives no line at all |
| RecentLines.CutLineIsReturned | crates/codux-ai-sessions/src/session_fork.rs:244-248 | Whatever the line, a tail that begins with its second character gives the rest of it as a line of its own |
| RecentLines.ReadRecentLines | crates/codux-ai-sessions/src/session_fork.rs:228-257 | The steps and the queue of lines compute the modelled lines for every file and bound |
| Utf8.DecodeIff | crates/codux-ai-sessions/src/session_fork.rs:240-243 | Bytes are read as a string if and only if they are its encoding |
| Utf8.TailDecodesIff | crates/codux-ai-sessions/src/session_fork.rs:236-243 | The bytes from a position on are readable if and only if no character is cut there, and give the characters left |
| MessageText.TextsAreBounded | crates/codux-ai-sessions/src/session_fork.rs:449-507 | Entered at depth d of at most 11 with n texts, collecting from any value leaves at most max(n, 15 + 12 * (11 - d)) texts |
| MessageText.BoundIsReached | crates/codux-ai-sessions/src/session_fork.rs:626-642 | At every such depth some value with unique keys reaches that bound when entered with 15 texts |
| MessageCap.KeepsWhatWasEntered | crates/codux-ai-sessions/src/session_fork.rs:449-507 | Collecting keeps exactly those texts of the reading without a cap that belong to a value entered before the sixteenth text, in order |
| MessageCap.CapHoldsIff | crates/codux-ai-sessions/src/session_fork.rs:449-507 | A message read as the callers read it, from depth 0 with no texts, keeps to 16 texts if and only if no text after the sixteenth stands under a text key of an object entered before the sixteenth |
| MessageCap.CountsWhatWasOmitted | crates/codux-ai-sessions/src/session_fork.rs:449-507 | The count grows by exactly the oversized arrays, objects left out and fields with an unsafe key that are decided before the sixteenth text |
| MessageCap.LimitsAre | crates/codux-ai-sessions/src/session_fork.rs:449-470 | Past depth 10 or with 16 texts nothing is read, and of an array with more than 32 items only the first 32 are, with one omission counted |
| MessageCap.UsefulIff | crates/codux-ai-sessions/src/session_fork.rs:603-612 | A text is kept if and only if, trimmed, it says that something was omitted, or has at least two bytes, does not begin like JSON and is not "null" in any case |
| MessageCap.UnsafeKeyIff | crates/codux-ai-sessions/src/session_fork.rs:644-652 | A key is unsafe if and only if, in lower case, it contains "image", "screenshot" or "base64" or is one of three names |
| MessageCap.KeptAreUseful | crates/codux-ai-sessions/src/session_fork.rs:449-507 | No useless text is read from any value |
| MessageCap.OmittedObjectIff | crates/codux-ai-sessions/src/session_fork.rs:469-477 | An object is left out if and only if its type is thinking, reasoning or attachment |
| MessageCap.CapHoldsWithoutTextFields | crates/codux-ai-sessions/src/session_fork.rs:626-642 | A value without strings under text keys leaves at most 16 texts wherever it is entered, unless there were more before |
| MessageCap.MessagesAreBounded | crates/codux-ai-sessions/src/session_fork.rs:363-447 | Read as the callers read it, every message leaves at most 147 texts, and one leaves exactly 147 |
| MessageText.CollectMessageText | crates/codux-ai-sessions/src/session_fork.rs:449-507 | The recursive loops gather the modelled texts and omission count, and terminate on every value |
| MessageText.AtMostTwelveTextKeys | crates/codux-ai-sessions/src/session_fork.rs:626-642 | An object with unique keys has at most twelve text keys |
| WorktreeScan.ScanRoundTripIff | apps/agent/src/worktree.rs:96-134 | Scanning the printed list of any worktrees, with no line break in a path, branch or attribute, gives exactly that list with only the first marked default, if and only if no branch itself starts with "refs/heads/" |
| WorktreeScan.ScanOfText | apps/agent/src/worktree.rs:96-134 | The same lines are read from the printed text |
| WorktreeScan.ScanWorktrees | apps/agent/src/worktree.rs:96-134 | The loop over lines with its pending path and branch computes the modelled list for every text |
| WorktreeScan.LookupUndoesNamingIff | apps/agent/src/worktree.rs:54-93 | For any spelling of the path of a listed worktree, looking up the id of that path leads back to an equal path if and only if the worktree is not the default one or is the one the project was opened at |
| WorktreeScan.IdsAre | apps/agent/src/worktree.rs:81-93 | The path the project was opened at and the default worktree have the id of the project, another listed worktree its own, and an unlisted path the id of that path |

## Left out

- git2, the file system, SQLite, the PTY, sockets and processes: their calls are inputs, outcomes or steps of the
  models.
- WorktreeRuns.NoCommitLost: the unchecked removal (worktree.rs:61-77) is no step of its runs; it has its own exact
  condition.
- Worktree slugs and managed paths, the trimming of branch names, and the exclude file: the expected path of a
  branch is a parameter, and names come trimmed.
- Revision syntax other than names of branches and tags (hashes, `HEAD~1`, remote branches).
- Index and work tree contents: whether a worktree is clean and whether a merge conflicts are inputs, and checkouts
  make and remove no directory. Paths are normalized component lists; other repositories nested in a worktree, and
  a linked worktree that contains the main one, are not covered.
- Partial failures inside git2 and the file system: a failing worktree creation adds no worktree, and a failing
  directory removal leaves the directory whole.
- BaselineCutover.NoOutputMissed: one session lifetime; exit, renumbering after exit, a failed baseline, splitting
  a baseline into chunks, acknowledgements, staleness, history pages and viewport frames are not modelled, and
  numbers do not overflow.
- BaselineCutover.BaselineAndLiveJoin: lengths count characters; the ring buffer is any tail of the output, and an
  unsubscription ends a baseline in progress.
- Text fields of the protobuf reader (UTF-8 decoding) and the conversation built from the fields.
- ProtoCodec.FieldsRoundTrip: of a fixed-width field only the width is reported, as in the source, and encodings
  stay below 2^64 bytes.
- CacheCoherence.RefreshIsCoherentIff: fingerprints are assumed to tell versions of the file apart; the interval
  between refreshes is modelled in the class only.
- Pairing.LastTokenCounts: removals and renamings of devices, which other commands write to the file, are no step
  of its runs.
- Pairing: random tokens are inputs; the ticket text and the transport list of the answer are not modelled, nor is
  a poisoned lock.
- Watchers: the two kinds of watcher maps have the same code and share one class; the pushed payloads are left out.
- DiffLines.ReportsTheScriptIff: diffs of one file, with line numbers below the range of usize.
- StatusTree.EveryFileIsReached: paths have no empty component and no NUL character, as git reports them.
- StatusTree.CollapsePathStatusFiles: entries and markers are given as a list and a map; the final sort by
  lower-cased path, the status query and its caps are left out.
- Debounce.RunGitWatchDebounce: receiving and flushing take no time, and waiting is exact; which events are
  forwarded and to which projects, and the adding and removing of watched paths, are left out.
- ForkPrompt.PromptText: the texts of the sections before the transcript are parameters; cleaning a single snippet
  is left out.
- MessageText: a JSON object is a list of fields in the order of its map; other scalars carry no text.
- WorktreeScan.ScanRoundTripIff: line breaks in paths, which git prints as they are, are not covered.
- WorktreeModel.MakeDirectory: the directory of a worktree that was removed from outside is not made again by hand.
- RecentLines.ReadRecentLines: the file does not change between the reading of its length and of its bytes.
- WorktreeScan.LookupUndoesNamingIff: path keys and ids are parameters, assumed to tell listed worktrees apart;
  display names and the JSON list are left out.
- ShellQuote.RestoreCommandIsRead: the tool name is given in lower case.
- Rendering, message dispatch, JSON and base64 encoding, floating point, service installation and updates.
