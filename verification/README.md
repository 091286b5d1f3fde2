# cloud-cli-proxy: verified models

Dafny models of the parts of cloud-cli-proxy whose correctness is an algorithmic matter, with proofs of what they
promise. `dafny verify dfyconfig.toml` checks the whole project.

**Hot sync.** A local directory and a remote one are kept in step by polling. Each pass scans both trees, compares every
path with the state recorded after the last successful pass (the base), and uploads, downloads or deletes. Files of a
configured size and more are left out, a pass is refused when most of the base has vanished from the remote side, and
the engine then halts. `SyncModel` gives the effect of a pass on one path, `SyncEngine` has the engine's methods and
ties them to it, `SyncProofs` proves what one pass guarantees, `SyncRuns` what whole runs guarantee, in which user edits
and polls of any outcome follow one another in any order. `TreeWalk` has the two tree walks, `Ignore`, `Regex`,
`IgnoreMeaning` and `IgnoreMatcher` the compiler from ignore lines to regular expressions and the matcher that both
walks consult.

**SSE hub.** `SseHub` has the two client indexes, the connection caps, the bounded queues and eviction, one method per
section under the hub's lock and one for the select statement of a send, which happens outside it. `Interleave` runs
sections in any order; `Does` says on plain values what each of them must do to the registrations, the queues, the times
of last activity, the closed channels, and the sends and removals under way.

**Bypass rules.** `BypassValidation` has the IPv4 prefix tests as statements about sets of addresses, `BypassRender` the
canonical rendering with its readers and the diff preview.

**Small algorithms.** `InputBuffer` is the offline input ring, `ShellQuote` the quoting of shell words, `EgressVote` the
majority vote over echo services, `AuditPaging` the cursor paging of the audit log. `Sorting`, `Text`, `Paths` and
`Wrappers` hold what several of them share.

## Reading the model

- A file is its bytes and a modification time in nanoseconds; the sync sees only its size and whole second. Results about
  content speak of versions (bytes and whole second).
- An I/O operation may fail where `faulty` is set, and a failed one has taken full effect or none. Without `faulty` the
  engine and the buffer promise success. Edits happen between passes, not during them. No path is a file on one side and
  a directory on the other.
- A path's files in the engine are those of a flat map; the passes receive trees that list the same files, and the walks
  run on those trees. An unreadable local directory counts as empty, as the code treats it; what that costs is said by
  `UnseenIsTakenForDeleted`. A file that the pass then downloads below such a directory is in the flat map, though no
  walk of the unchanged tree shows it.
- The guard's floating-point test `deleted/total > 0.8` is the exact comparison `5 * deleted > 4 * total`; the two agree
  for every count below 10^15.
- Loops over Go maps, and over sorted path lists whose order has no effect, visit their elements in any order.
- Ignore patterns and paths are sequences of characters instead of UTF-8 bytes; every character the code tests is ASCII.
- net.ParseIP and SHA-256 are parameters.

## What the proofs found

- `RetryCanTripTheGuard`: a pass that removes many remote files on the user's behalf and is then cut short can make the
  root-emptied guard halt the retry although nothing was emptied. `RetryIsSafeExactly` gives the exact condition on the
  world before the pass under which no stop of it can do that.
- `UnseenIsTakenForDeleted`: a file below an unreadable local directory is taken for deleted, and its remote copy goes
  exactly when it still shows the base state. `MissingLocalRootEmptiesRemote`: so does everything when the local root is
  missing; the guard watches the remote side only.
- `DeletedBigDownloadReturns`: a file over the size limit that arrived by download loses its base with the next pass, and
  from then on a local deletion is undone by another download. `DeletionArrivesExactly` gives the exact condition for
  any deletion.
- `BytesAgreeExactly`: sides with different contents that both show the size and second of the base, because one or both
  were edited without changing either, stay different; nothing else does.
- `TwoBroadcasts`: two broadcasts that both have a subscriber with a full queue in their snapshot make the second one
  panic, because the first has its channel closed. `Offer` says that a send panics exactly if its client was removed
  since the snapshot. `DrainedAndEvicted`: a queue that was full can be drained before the removal, which goes ahead.
- `ClassOfLetters`: a bracket class means what it means to Go's regexp engine, so `[!a]`, a negation in gitignore, accepts
  `!` and `a`; and `[^a]` accepts a `/`.
- `PagingIsCompleteExactly`: the audit log loses rows exactly when a full page ends between two rows with one timestamp;
  `TiedRowIsLost` is the smallest case, where only the first of two rows is ever shown.
- `OrderKeptExactly`: typed bytes change order exactly when one is handled as connected before the ring was flushed.
- `DeepStopsAtNewline`: `**` stands for everything but a newline (Go's `.` does not match one), although the comment in
  the code says it matches anything.
- The comment above syncOnceAdaptive says that cleanup still calls syncOnce; it does not, and neither syncOnce nor
  syncOnceUploadOnly has a caller.
- `HaltByWording`: run() recognises the guard's error by a phrase in its text, so a failed operation whose message contains
  that phrase (a path can) halts the engine as well. `HaltedExactly`: nothing else does, besides the guard.

## Model

| member | source | states |
|---|---|---|
| Ignore.TrimRight | internal/cloudclaude/ignore.go:192 | a prefix without trailing blanks, cutting blanks only |
| Ignore.Translate | internal/cloudclaude/ignore.go:219-266 | the loop emits exactly the texts of the intended tokens between the head and the tail |
| Ignore.TranslateOne | internal/cloudclaude/ignore.go:228-264 | one round consumes and emits one token, for every pattern including bracket classes |
| Ignore.EmittedTextParses | internal/cloudclaude/ignore.go:244-271 | the emitted text, escapes and plain bracket classes included, compiles to exactly the intended expression, and is rejected iff the range of a class runs backwards |
| Ignore.ClassOfLetters | internal/cloudclaude/ignore.go:246-255 | a class passed on to the engine accepts exactly its characters, with `^` exactly the others |
| Ignore.ClassOfItems | internal/cloudclaude/ignore.go:246-255 | a class of characters and ranges accepts exactly what one of them covers, with `^` exactly the rest, and is rejected iff a range runs backwards |
| Ignore.DeepStopsAtNewline | internal/cloudclaude/ignore.go:230-238 | `**` accepts exactly the strings without a newline |
| Ignore.LineMeaning | internal/cloudclaude/ignore.go:192-217 | a line is read as the one pattern that it spells: optional `!`, optional leading `/`, glob, optional trailing `/`, trailing blanks; a blank line or comment as none |
| IgnoreMeaning.RuleMeaning | internal/cloudclaude/ignore.go:191-273 | the compiled rule finds a match iff the glob accepts a stretch of whole components, from the root if anchored |
| IgnoreMeaning.BodyMeaning | internal/cloudclaude/ignore.go:227-266 | the emitted body matches a stretch iff the glob accepts a part of it and the tail the rest |
| IgnoreMeaning.TailMeaning | internal/cloudclaude/ignore.go:265-266 | the tail accepts exactly at the end of a component |
| IgnoreMatcher.CompileIgnoreRule | internal/cloudclaude/ignore.go:191-273 | a rule results unless the line is blank, a comment, or has a backward range, and it searches paths by the direct meaning of the pattern |
| IgnoreMatcher.NewIgnoreMatcher | internal/cloudclaude/ignore.go:131-139 | the rules of the lines that have one, in order, other lines dropped |
| IgnoreMatcher.IsIgnoredRel | internal/cloudclaude/ignore.go:158-176 | ignored iff the last applicable pattern exists and is no negation; never for the root |
| IgnoreMatcher.IgnoredOneMore | internal/cloudclaude/ignore.go:166-175 | one more pattern at the end decides the paths that it applies to and changes nothing for the others |
| IgnoreMatcher.MatchCoversBelow | internal/cloudclaude/ignore.go:265-266 | a pattern that matches a path matches everything below it |
| IgnoreMatcher.IgnoredBelow | internal/cloudclaude/ignore.go:166-175 | without later negations a match keeps everything below ignored |
| IgnoreMatcher.NamePatternMeaning | internal/cloudclaude/ignore.go:209-217 | an unanchored pattern no part of which can stand for `/` matches a path iff the glob accepts one of its names |
| Paths.JoinSnoc | internal/cloudclaude/hot_sync.go:794-797 | the remote walk's string building spells the path with one more name |
| Paths.JoinIsInjective | internal/cloudclaude/hot_sync.go:813 | the spelling identifies the path, so it can be the key of the scan |
| Paths.JoinOfGoodPath | internal/cloudclaude/ignore.go:163-165 | the exemption of `.` and the empty string never concerns a real entry |
| TreeWalk.Walker.Visit | internal/cloudclaude/hot_sync.go:731-770 | the callback skips exactly pruned directories and records exactly non-ignored regular files |
| TreeWalk.Walker.WalkDir | internal/cloudclaude/hot_sync.go:728-772 | the local walk adds exactly the files that are seen, and changes nothing else |
| TreeWalk.Walker.WalkRemote | internal/cloudclaude/hot_sync.go:787-819 | the remote walk fails iff it enters an unreadable directory, and otherwise adds exactly the files seen |
| TreeWalk.SeesIsTracked | internal/cloudclaude/hot_sync.go:745-756 | step-by-step pruning is the condition on all ancestors of the path at once |
| TreeWalk.ScanLocal | internal/cloudclaude/hot_sync.go:728-772 | the tracked files below readable directories; a missing root gives none. Each entry has the size of its regular file and the whole second of its time, and lies below none of the nine skipped directories; without patterns every such file is returned |
| TreeWalk.ScanRemote | internal/cloudclaude/hot_sync.go:774-825 | every tracked file, or failure iff the root is no directory or some entered directory cannot be listed. The same about its entries and about scans without patterns |
| TreeWalk.TrackedIsOutside | internal/cloudclaude/ignore.go:180-187 | a tracked path lies below none of `node_modules`, `target`, `dist`, `.venv`, `__pycache__`, `.next`, `build`, `.cache`, `.git`; without patterns nothing else is excluded |
| SyncModel.Seconds | internal/cloudclaude/hot_sync.go:61-63 | the one second s with s * 10^9 <= mtime < (s + 1) * 10^9 |
| TreeWalk.WalksAgree | internal/cloudclaude/hot_sync.go:728-825 | on equal trees the local walk returns what the remote walk does iff no tracked file is hidden by an unreadable directory |
| SyncEngine.HotSyncEngine.constructor | internal/cloudclaude/hot_sync.go:135-159 | the initial engine state, with the matcher compiled from the patterns and the interval defaulted and clamped |
| SyncEngine.HotSyncEngine.CopyLocalToRemote | internal/cloudclaude/hot_sync.go:624-651 | the remote file becomes the local bytes with the recorded second, or nothing changes |
| SyncEngine.HotSyncEngine.CopyRemoteToLocal | internal/cloudclaude/hot_sync.go:653-679 | the mirror image for downloads |
| SyncEngine.HotSyncEngine.Delete | internal/cloudclaude/hot_sync.go:681-695 | the path is gone, an absent one counts as success, or nothing changes |
| SyncEngine.HotSyncEngine.ApplyOversizedFilter | internal/cloudclaude/hot_sync.go:697-726 | the returned set is exactly the oversized files; scan and base lose exactly those; all are recorded when asked |
| SyncEngine.HotSyncEngine.CountMissing | internal/cloudclaude/hot_sync.go:387-393 | the number of base entries that the remote scan lacks |
| SyncEngine.HotSyncEngine.ReconcileOne | internal/cloudclaude/hot_sync.go:427-476 | one path is settled as specified, or on failure is settled or untouched on disk |
| SyncEngine.HotSyncEngine.Reconcile | internal/cloudclaude/hot_sync.go:407-480 | the loop settles every path and replaces the base; stopped, it leaves a settled set and the old base; changes are reported exactly |
| SyncEngine.HotSyncEngine.SyncOnceAdaptive | internal/cloudclaude/hot_sync.go:366-481 | a completed pass does the specified effect on every path; while the guard's condition holds no pass changes a file, however it ends; with sound I/O and a listable remote tree it ends with the guard's error if the condition holds, and is complete otherwise |
| SyncEngine.HotSyncEngine.SyncOnce | internal/cloudclaude/hot_sync.go:483-573 | the same effect on every path, without the guard; sound I/O and a listable remote tree make it complete |
| SyncEngine.HotSyncEngine.SyncOnceUploadOnly | internal/cloudclaude/hot_sync.go:575-608 | the upload-only effect on every path, its frame excluding the local disk; stopped, every path is untouched, done, or uploaded but not recorded |
| SyncEngine.HotSyncEngine.InitialSync | internal/cloudclaude/hot_sync.go:187-305 | resetting: the remote side mirrors the hot files and local is untouched; merging: a full pass that deletes no path on either side, even when it fails |
| SyncEngine.HotSyncEngine.RemoveRemoteTree | internal/cloudclaude/hot_sync.go:901-932 | on success no file is left; files only disappear; with sound I/O it succeeds iff every directory of the tree can be listed |
| SyncEngine.HotSyncEngine.NextInterval | internal/cloudclaude/hot_sync.go:344-364 | halved after a change, grown by half from the third idle round, always between 500 ms and 5 s |
| SyncEngine.HotSyncEngine.Tick | internal/cloudclaude/hot_sync.go:318-340 | halted: nothing changes; otherwise one pass and the next interval. The guard's error halts; a failure halts iff six characters of its message are the phrase; a completed pass does not. With sound I/O and a listable remote tree it halts iff the guard's condition held before, and completes otherwise |
| SyncProofs.PassAgrees | internal/cloudclaude/hot_sync.go:424-480 | after a completed pass both sides and the base agree on every tracked path that was not oversized |
| SyncProofs.PassIsDeterministic | internal/cloudclaude/hot_sync.go:366-573 | corollary of the path-by-path form: the two two-way passes cannot end differently from the same world |
| SyncProofs.SecondPassIsIdle | internal/cloudclaude/hot_sync.go:424-480 | a further pass without edits is not guarded, moves no file and reports no change |
| SyncProofs.RetriesConverge | internal/cloudclaude/hot_sync.go:426-480 | any number of stopped passes and then a completed one give the versions of a single uninterrupted pass |
| SyncProofs.StopKeepsProgress | internal/cloudclaude/hot_sync.go:434-476 | repeating a settled or untouched path keeps the eventual outcome |
| SyncProofs.GuardOnRetry | internal/cloudclaude/hot_sync.go:387-400 | a retry counts the entries still missing plus those the stopped pass removed remotely |
| SyncProofs.RetryIsSafeExactly | internal/cloudclaude/hot_sync.go:387-400 | no stop of a pass can make the guard fire on the retry iff the base entries missing or going with the pass stay within four fifths of the base, less what downloads can drop from it |
| SyncProofs.PassMerges | internal/cloudclaude/hot_sync.go:431-476 | the pass is the three-way merge of versions, if equal states mean equal bytes |
| SyncProofs.BytesAgreeExactly | internal/cloudclaude/hot_sync.go:827-835 | without that assumption the bytes agree iff the two contents did not both show the base's state |
| SyncProofs.SameSecondIsKept | internal/cloudclaude/hot_sync.go:827-835 | files of the base's size changed within the base's second are left alone, whatever their times within it |
| SyncProofs.ConflictByWholeSecond | internal/cloudclaude/hot_sync.go:837-854 | when both sides changed, the later whole second wins, then the larger file, then the local side; the loser gets its bytes and that whole second |
| SyncProofs.ChangeIsCopied | internal/cloudclaude/hot_sync.go:436-450 | a change of size or second on one side goes to the other, bytes and whole second |
| SyncProofs.OnlyLosersDisappear | internal/cloudclaude/hot_sync.go:837-854 | a version disappears exactly when only the other side had changed, or when both had and it lost the conflict |
| SyncProofs.ExcludedUntouched | internal/cloudclaude/hot_sync.go:373-380 | no outcome of a pass touches an untracked or oversized path; the latter leaves the base |
| SyncProofs.LocalDeletionIsBounded | internal/cloudclaude/hot_sync.go:382-400 | for every outcome of a pass: local deletions lie among the missing base entries, are at most four fifths of ten or more, and none happens while the guard's condition holds |
| SyncProofs.UploadRefinesSync | internal/cloudclaude/hot_sync.go:577-608 | uploading only ends in the same world as a two-way pass when the remote scan equals the base |
| SyncProofs.UploadPublishes | internal/cloudclaude/hot_sync.go:585-605 | the base records the local side and every changed or deleted file is the same remotely |
| SyncProofs.UploadRetryConverges | internal/cloudclaude/hot_sync.go:585-605 | a stopped upload that is repeated ends exactly as one that was not stopped |
| SyncProofs.MirrorAgrees | internal/cloudclaude/hot_sync.go:229-253 | after a resetting start the remote tree is exactly the hot local files, recorded in the base |
| SyncProofs.FirstPassAfterMirrorIsIdle | internal/cloudclaude/hot_sync.go:229-253 | the first pass after a resetting start is not guarded, reports no change and leaves the world as it is |
| SyncProofs.DeletionArrivesExactly | internal/cloudclaude/hot_sync.go:431-450 | a local deletion reaches the remote side iff that file still shows the base state |
| SyncProofs.UnseenIsTakenForDeleted | internal/cloudclaude/hot_sync.go:731-734 | the remote copy of a file that the local walk cannot reach goes iff it still shows the base state |
| SyncProofs.MissingLocalRootEmptiesRemote | internal/cloudclaude/hot_sync.go:731-734 | without a local root a pass empties a remote side in step with the base, unguarded |
| SyncRuns.TickIsStep | internal/cloudclaude/hot_sync.go:318-340 | the method takes exactly the firing steps of the run model |
| SyncRuns.ExcludedPathsAreSafe | internal/cloudclaude/hot_sync.go:728-825 | in every run no firing touches an excluded path or a locally oversized file and no excluded path enters the base |
| SyncRuns.DeletionsAreBounded | internal/cloudclaude/hot_sync.go:382-400 | in every run every firing, completed or not, keeps the bound on local deletions |
| SyncRuns.HaltedExactly | internal/cloudclaude/hot_sync.go:329-337 | in every run that starts running, the engine is halted exactly once a firing has ended with the guard's error or with a message that holds the phrase |
| SyncRuns.HaltIsFinal | internal/cloudclaude/hot_sync.go:323-327 | once halted, always halted, and every later firing leaves the whole state as it is |
| SyncRuns.NothingInvented | internal/cloudclaude/hot_sync.go:610-679 | every version ever shown at a path was there at the start or came with an edit, never with a firing |
| SyncRuns.SettledStays | internal/cloudclaude/hot_sync.go:366-481 | a settled path keeps its files through firings of any outcome and edits of other paths |
| SyncRuns.MergeArrivesAndStays | internal/cloudclaude/hot_sync.go:424-480 | once a firing has completed, both sides have and keep what one uninterrupted pass would have given, whatever failed before and whatever happened to other paths |
| SyncRuns.EditArrivesAndStays | internal/cloudclaude/hot_sync.go:436-450 | an edit or deletion on either side alone reaches both sides with the next firing that completes, and stays |
| SyncRuns.RetryCanTripTheGuard | internal/cloudclaude/hot_sync.go:387-400 | ten files in step, nine deleted locally, pass cut short: the guard fires on the retry |
| SyncRuns.HaltByWording | internal/cloudclaude/hot_sync.go:334-336 | a firing that fails with the phrase in its message halts although the guard's condition is false |
| SyncRuns.DeletedBigDownloadReturns | internal/cloudclaude/hot_sync.go:715-723 | after its base was dropped the deletion of a downloaded oversized file is undone |
| SseHub.Client.Close | internal/broadcast/sse.go:243 | only an open channel is closed |
| SseHub.Client.TrySend | internal/broadcast/sse.go:278-282 | the message is appended iff fewer than 64 are pending |
| SseHub.IndexIsDetermined | internal/broadcast/sse.go:34-38 | the subscriptions determine the topic index |
| SseHub.DropUndoesAdd | internal/broadcast/sse.go:167-174 | subscribing and unsubscribing a new client restores the index |
| SseHub.DropKeepsAgreement | internal/broadcast/sse.go:244-252 | the index still agrees after a removal, without empty buckets |
| SseHub.Hub.RemoveClientLocked | internal/broadcast/sse.go:238-254 | the client leaves both indexes and is closed, no other channel and no queue changes; the hub stays consistent |
| SseHub.Hub.Subscribe | internal/broadcast/sse.go:126-176 | which of the three refusals applies, and otherwise both indexes gain exactly the new client |
| SseHub.Hub.CountIp | internal/broadcast/sse.go:144-149 | the number of registered clients of an address |
| SseHub.Hub.Cleanup | internal/broadcast/sse.go:97-107 | exactly the clients silent for longer than the timeout are removed |
| SseHub.Hub.Snapshot | internal/broadcast/sse.go:265-275 | exactly the registered subscribers of the topic |
| SseHub.Hub.Offer | internal/broadcast/sse.go:278-282 | the select of one send: appended with room, nothing when full, a panic iff the client was removed since the snapshot; no other queue changes |
| SseHub.Hub.Evict | internal/broadcast/sse.go:232-236 | the removal after a full queue, as its own section: the client is gone and closed, queues stay |
| SseHub.Hub.Receive | internal/broadcast/sse.go:217-227 | messages are taken in order, from a closed channel too, and mark a registered client active |
| SseHub.Hub.Broadcast | internal/broadcast/sse.go:257-313 | uninterrupted: subscribers with room get the message once, full ones are evicted and closed, nobody else changes, no send panics |
| SseHub.TwoBroadcasts | internal/broadcast/sse.go:265-284 | two overlapping broadcasts and a full subscriber: the second panics |
| SseHub.DrainedAndEvicted | internal/broadcast/sse.go:278-282 | a client whose queue was drained after the test is removed all the same |
| SseHub.Hub.Stats | internal/broadcast/sse.go:316-320 | the open clients, and the topics that some open client subscribes |
| SseHub.Interleave | internal/broadcast/sse.go:97-320 | in any order of sections, sends and removals, every one of them does what `Does` says: a snapshot finds exactly the registered subscribers, a pending send meets room, 64 messages, or a removed client, a removal under way unregisters and closes, a client's loop takes its first message, a subscription is refused iff there is no topic or a cap is reached, a sweep keeps exactly the lively clients, and nothing else changes; both caps and closed-iff-removed hold; every send ends once, every full queue leads to one removal, and every queue is what was appended in the order of the sends less what was taken |
| SseHub.RunSection | internal/broadcast/sse.go:97-320 | one section or send does what `Does` says about it, and the hub stays consistent |
| SseHub.OneSendEach | internal/broadcast/sse.go:265-282 | a snapshot starts one send to each of its targets, of its own message |
| SseHub.SectionTurns | internal/broadcast/sse.go:217-284 | whatever a section does agrees with the accounts of sends, removals and queues |
| SseHub.BooksBalance | internal/broadcast/sse.go:217-284 | the accounts of sends, removals and queues over a whole run |
| BypassValidation.PrefixTestIsInclusion | internal/controlplane/http/bypass_validation.go:89-95 | the test on one listed prefix is inclusion of address sets |
| BypassValidation.ContainsCIDRIsInclusion | internal/controlplane/http/bypass_validation.go:75-98 | true iff one listed block covers every address of the needle |
| BypassValidation.PrivateIsOneBlock | internal/controlplane/http/bypass_validation.go:53-71 | for the private list, one block covers the needle iff all its addresses are private |
| BypassValidation.PrivateIsListed | internal/controlplane/http/bypass_validation.go:53-71 | the listed prefixes stand for exactly the seven ranges of private, shared, loopback, link-local and multicast addresses |
| BypassValidation.VerdictExactly | internal/controlplane/http/bypass_validation.go:120-164 | each verdict on an IPv4 cidr rule as a condition on its address set, the proxies and the rule count |
| BypassRender.Collector.AddRule | internal/controlplane/http/bypass_render.go:84-129 | one rule adds its entry to one bucket and counts once |
| BypassRender.CollectAll | internal/controlplane/http/bypass_render.go:131-138 | the four sets and two counters are those of all rules, preset rules counting as not risky |
| BypassRender.Render | internal/controlplane/http/bypass_render.go:75-191 | read by their keys, the two documents of version 3 list, ascending and once each, exactly the trimmed values of the domain rules, those of the suffix rules without one leading dot, those of the keyword rules, and the blocks and single addresses of the others; no other key occurs; host rules alone count as risky; the diff turns the previous set into the current one |
| BypassRender.EntryAsks | internal/controlplane/http/bypass_render.go:84-129 | what one rule puts under which key |
| BypassRender.DomainDocument | internal/controlplane/http/bypass_render.go:156-166 | the domain document gives back the three lists under `domain`, `domain_suffix`, `domain_keyword` |
| BypassRender.RiskyOfAll | internal/controlplane/http/bypass_render.go:131-138 | only the host's own rules count as risky |
| BypassRender.RenderingIsCanonical | internal/controlplane/http/bypass_render.go:70-74 | the documents depend only on which entries occur |
| BypassRender.OrderAndRepetitionDoNotMatter | internal/controlplane/http/bypass_render.go:70-74 | permuted or repeated presets and rules render to the same documents and the same hash |
| BypassRender.ReadersInvertRendering | internal/controlplane/http/bypass_render.go:251-275 | both readers return the sorted list from a rendered document |
| BypassRender.PrevCidrsMeaning | internal/controlplane/http/bypass_render.go:251-275 | the lenient reader takes exactly the strings that some rule lists under `ip_cidr`, whatever else the document holds |
| BypassRender.ExtractCidrs | internal/network/bypass_reload.go:79-112 | accepts iff version and types are right, and then agrees with the lenient reader on every document |
| BypassRender.RenderNftDiff | internal/controlplane/http/bypass_render.go:203-249 | sorted removals then additions, exactly the two set differences; applied to the previous set they give the current one |
| BypassRender.UpdateScript | internal/network/bypass_reload.go:218-246 | whatever the set held, the transaction leaves exactly the IPv4 entries in it, and adds no empty list |
| Sorting.SortedKeys | internal/controlplane/http/bypass_render.go:193-201 | an ascending list of exactly the keys |
| Sorting.ListingIsUnique | internal/controlplane/http/bypass_render.go:193-201 | there is only one such list |
| Sorting.LessMeaning | internal/controlplane/http/bypass_render.go:193-201 | the order is that of the first difference, a proper prefix coming first |
| InputBuffer.RingOfHistory | internal/cloudclaude/input_buffer.go:98-112 | in every history the ring is a suffix of what was typed since the last flush, of the exact length |
| InputBuffer.NothingLost | internal/cloudclaude/input_buffer.go:72-87 | without overflow pipe and ring hold every accepted byte once |
| InputBuffer.OrderKeptExactly | internal/cloudclaude/input_buffer.go:144-159 | without overflow the order is kept iff every connected byte found the ring flushed |
| InputBuffer.BufferedStdin.HandleByte | internal/cloudclaude/input_buffer.go:71-88 | buffers and terminal follow the history, every unconfirmed byte shown in gray unless colours are off; Enter triggers only while reconnecting; it fails only where pipe writes may |
| InputBuffer.BufferedStdin.HandleReconnecting | internal/cloudclaude/input_buffer.go:98-130 | the byte enters the ring and the echo, in gray unless colours are off, with one warning if the ring was full |
| InputBuffer.BufferedStdin.CloseGrayIfOpen | internal/cloudclaude/input_buffer.go:132-138 | the colour codes stay paired |
| InputBuffer.BufferedStdin.Flush | internal/cloudclaude/input_buffer.go:144-159 | the ring moves to the pipe, or stays if the write fails |
| ShellQuote.QuotedWordsReadBack | internal/cloudclaude/mount.go:115-117 | a line of quoted words reads back as exactly those words |
| ShellQuote.QuotingIsInjective | internal/cloudclaude/mount.go:115-117 | different word lists never make the same command line |
| ShellQuote.ReadEscaped | internal/cloudclaude/mount.go:115-117 | inside the quotes the escaped text contributes exactly the string |
| EgressVote.VoteEgressIP | internal/network/verify.go:366-402 | the winner is the only most frequent answer, cast twice or alone; otherwise there is none |
| EgressVote.CountBallots | internal/network/verify.go:370-377 | each non-blank trimmed answer with its number |
| EgressVote.OrderDoesNotMatter | internal/network/verify.go:366-402 | two votes on the same answers in any order have the same winner and the same verdict |
| AuditPaging.FilterInPlace | internal/controlplane/http/admin_bypass_audit_log.go:109-117 | filtering over the shared slice gives the filter of the original rows |
| AuditPaging.ListPage | internal/controlplane/http/admin_bypass_audit_log.go:108-128 | the page and cursor of the original rows |
| AuditPaging.PagingIsCompleteExactly | internal/controlplane/http/admin_bypass_audit_log.go:43-50 | following the cursor returns the log in floor(n/limit)+1 requests iff no full page ends inside a tie |
| AuditPaging.TiedRowIsLost | internal/controlplane/http/admin_bypass_audit_log.go:124-128 | two rows of one time and pages of one row: all pages together show the first row only |
| Text.TrimmedStretch | internal/network/verify.go:372 | the trimmed string is a stretch of the input with only blanks on both sides of it |
| Text.SpaceCodes | internal/network/verify.go:372 | the characters that are trimmed are the white space of Unicode, by code points |

## Left out

- CompileIgnoreRule: requires that bracket classes are not empty and hold no escapes and no named classes; those belong to the syntax of Go's regexp engine, which reads the class text.
- NewIgnoreMatcher: the same restriction on every line.
- EmittedTextParses: the same restriction on the glob.
- RuleMeaning: speaks of globs whose classes compile within that syntax.
- BodyMeaning: the same globs.
- IsIgnoredRel: rules of such globs.
- SyncEngine.HotSyncEngine.constructor: pattern lines with the same restriction.
- PassMerges: assumes that equal size and second mean equal bytes among the three versions; BytesAgreeExactly says what happens otherwise.
- RetriesConverge: speaks of versions; a retry may also cut the sub-second part of a remote modification time.
- RemoveRemoteTree: says what happens to the files; that the emptied directories go with them is not modelled.
- ScanRemote: a failing stat or list call is one failure, without Go's error texts.
- Offer: a panic ends the send only; what net/http does with the goroutine is not modelled.
- UnseenIsTakenForDeleted: a download below an unreadable directory is a change of the flat map; that the directory can refuse it is one of the faults.
- Flush: not interleaved with a byte being handled; the two meet only between bytes.
- VerdictExactly: IPv4 only, after parsing, and with an acceptable port; IPv6, the other rule types and the port syntax are not modelled.
- UpdateScript: the two commands are taken as such; their spelling in nft's language is not modelled.
- ReadersInvertRendering: documents are taken decoded; JSON encoding is not modelled.
- QuotedWordsReadBack: the reader answers None for expansions, operators and comments instead of giving them a meaning.
- PagingIsCompleteExactly: timestamps differ from Go's zero time, which the handler reads as no cursor; parsing of query parameters is not modelled.
- Partly written files after a failed copy, ignored Chtimes errors, and edits during a pass.
- IsIgnored for absolute paths, the reading of .gitignore files and the built-in pattern list.
- Progress output, conflict log lines, keep-alive, mount strategies, doctor checks, the error-code registry and the remaining admin handlers: thin wrappers or foreign calls.
- Snapshot apply and rollback, whose guarantees rest on SQL, and the SSH, SFTP, nft and Docker calls themselves.
