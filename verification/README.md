# Verification of the CI/CDecoy state machines

This project models the parts of CI/CDecoy whose correctness depends on long runs of calls, and
proves what those runs promise. `dafny verify dfyconfig.toml` checks all of it.

**The session filesystem.** Every attacker session of the SSH decoy sees a private copy of one
shared filesystem. The copy is an overlay tree and a set of tombstones over a base tree that no
session may change. `Nodes`, `VirtualFs` and `SessionFs` hold the trees as linked nodes on the heap,
changed in place, and every public operation is proved equal to a step of a specification on values
(`Layers`, `SessionSpec`, `ReferenceSpec`, `DeltaSpec`). About that specification:

- `Simulation`: a session shows exactly what a plain filesystem shows that started as a copy of the
  base and got the accepted calls.
- `Resurrection`: the exact limit of that promise. A recursive removal keeps it for all later runs
  if and only if no overlay directory just below the target shadows base content; otherwise making
  the directories again brings removed base content back, as a run from a fresh session shows.
- `Overwriting`: the exact limits of the same promise for calls on files that meet a directory.
- `Visibility`: when a call is accepted and when what it wrote shows.
- `Effects`: what each call does to the node at its path, to every other path, to the log and to the
  counter, field by field and for both filesystems.
- `Guarantees`, `QuotaRun` and `Forensics`: quota, remove and recreate, and the forensic delta, in every
  reachable state; and which runs leave listing and lookup in agreement.
- `Isolation`: any interleaving of calls on two sessions over one base leaves each as if alone.

**The SIEM forwarder.** `Breaker` is the circuit breaker, `BreakerTrace` what its answers mean for any
history of calls from any number of workers, `Retry` the backoff, `Delivery` the fates a message can
have, `Accounting` what every flush did and what those cut short leave out of the counters, and `Consumer` the
stream worker: batching, retrying, dead-lettering, acknowledging and counting, with the sink, the
dead-letter subject, the clock, cancellation and the other workers left to choose anything. `Escaping` and
`Records` print CEF and LEEF records and read them back; `CefReader` reads the CEF extension, and
`RecordFields` says which field of an event stands under which name.

**Smaller machines.** `AuthSpec` and `AuthHandler` (lockout and delayed acceptance, with other threads in
between), `ResponseCache` (least recently used), `SftpUpload` (writes in any order), `SlidingWindow` with
`AlertForwarder` and `RequestLimiter` (rate limits from pruned state, and what overlapping callers do to
one), `HttpSessions` (a table and its indexes), `SessionState` and `SessionAnalyzer` (bounded session
analysis).

Where a class is proved against a specification, its `Valid()` ties the fields to functions of a history
(kept as a ghost field), and the lemmas about those functions are the results. Methods that stand for the
world outside (`Send`, `Publish`, `Wait`, `Fetch`, `OtherWorkers`, `OtherThreads`, `OtherCallers`, `Now`)
choose freely.

## Model

| member | source | states |
|---|---|---|
| Paths.NormalizePath | ssh-decoy/cow_filesystem.py:584-604 | the loop over a raw path yields the canonical component list: NULs dropped, empty and dot components gone, dot-dot taking one component back |
| Paths.NormalizeCanonical | ssh-decoy/cow_filesystem.py:584-604 | a normalized path has only proper components, whatever the input |
| Paths.NormalizeRender | ssh-decoy/cow_filesystem.py:584-604 | rendering a canonical path and normalizing it gives it back |
| Paths.NormalizeIdempotent | ssh-decoy/cow_filesystem.py:584-604 | normalizing twice is normalizing once |
| Paths.NormalizeDotDot | ssh-decoy/cow_filesystem.py:599-601 | two dots after a slash lead one component back, and nowhere from the root |
| Paths.NormalizeDot | ssh-decoy/cow_filesystem.py:597-598 | a dot or nothing after a slash changes nothing |
| Paths.NormalizeChild | ssh-decoy/cow_filesystem.py:602-603 | any other name after a slash is one component more |
| Paths.NormalizeNul | ssh-decoy/cow_filesystem.py:592-593 | a NUL anywhere in a path is as if it were not there |
| Paths.RenderChild | ssh-decoy/cow_filesystem.py:604-604 | the string form puts a slash before each component, and is a lone slash for the root |
| Nodes.AddNode | ssh-decoy/filesystem.py:22-43 | putting a new node among the children of another adds its location to the tree and changes no other |
| Nodes.Detach | ssh-decoy/filesystem.py:151-178 | taking a child out of its parent removes its location and all below, and nothing else |
| Nodes.Rewrite | ssh-decoy/filesystem.py:180-194 | assigning the fields of a node in place changes the entry at its location only |
| VirtualFs.VirtualFilesystem.GetNode | ssh-decoy/filesystem.py:517-528 | walking the children from the root finds the entry of the tree at that path |
| VirtualFs.VirtualFilesystem.ReadFile | ssh-decoy/filesystem.py:79-83 | content exactly on files |
| VirtualFs.VirtualFilesystem.CreateFile | ssh-decoy/filesystem.py:107-119 | the in-place operation is the reference step, answer and whole tree |
| VirtualFs.VirtualFilesystem.AppendFile | ssh-decoy/filesystem.py:121-129 | the same for appending, which creates a missing file |
| VirtualFs.VirtualFilesystem.CreateDirectory | ssh-decoy/filesystem.py:131-149 | the same for one directory, which must have a parent |
| VirtualFs.VirtualFilesystem.RemoveFile | ssh-decoy/filesystem.py:151-161 | the same for removing a file |
| VirtualFs.VirtualFilesystem.RemoveDirectory | ssh-decoy/filesystem.py:163-178 | the same for removing a directory, which must be empty unless removal is recursive |
| VirtualFs.VirtualFilesystem.Chmod | ssh-decoy/filesystem.py:180-185 | the same for the mode |
| VirtualFs.VirtualFilesystem.Chown | ssh-decoy/filesystem.py:187-194 | the same for owner and group |
| Effects.RefCreateFileEffect | ssh-decoy/filesystem.py:107-119 | accepted if and only if the parent is a directory; then the path has a file with the content, owner and mode given, nothing is below it, and all else is as it was |
| Effects.RefAppendFileEffect | ssh-decoy/filesystem.py:121-129 | the new content comes after the old one; where there is no file, one of root is created |
| Effects.RefCreateDirectoryEffect | ssh-decoy/filesystem.py:141-149 | accepted if and only if the parent is a directory and the path is free; then it has an empty directory of the owner given |
| Effects.RefRemoveEffect | ssh-decoy/filesystem.py:151-178 | when a file and when a directory is removed, and that it goes with all below and nothing else does |
| Effects.RefChmodEffect | ssh-decoy/filesystem.py:180-185 | the node at the path has the mode given, and nothing else changes |
| Effects.RefChownEffect | ssh-decoy/filesystem.py:187-194 | the node at the path has the owner given, and the group if one is given that is not empty; nothing else changes |
| SessionFs.SessionFilesystem.IsTombstoned | ssh-decoy/cow_filesystem.py:554-564 | the loop answers whether the path or an ancestor is tombstoned |
| SessionFs.SessionFilesystem.GetNode | ssh-decoy/cow_filesystem.py:64-79 | a node exactly where the two layers show one, with its entry; a directory is a fresh node with the merged children, and "0644" as its mode becomes "0755" |
| SessionFs.SessionFilesystem.MergedDirNode | ssh-decoy/cow_filesystem.py:510-552 | the merged directory node lists overlay children over surviving base children |
| SessionFs.SessionFilesystem.MergedIsListed | ssh-decoy/cow_filesystem.py:510-552 | the merged children are what the two-layer listing function says |
| SessionFs.SessionFilesystem.ReadFile | ssh-decoy/cow_filesystem.py:92-103 | content exactly on visible files, and the visible content |
| SessionFs.SessionFilesystem.EnsureOverlayDir | ssh-decoy/cow_filesystem.py:427-467 | walking down and making missing overlay directories gives the specified overlay, counter and answer, also when the quota stops it half way |
| SessionFs.SessionFilesystem.CopyUpNode | ssh-decoy/cow_filesystem.py:469-508 | the copied node has the base entry, counts nothing, and no base node is touched |
| SessionFs.SessionFilesystem.CreateFile | ssh-decoy/cow_filesystem.py:129-164 | overlay, tombstones, log, counter and answer are one step of the specification; no base node changes; new nodes are fresh |
| SessionFs.SessionFilesystem.AppendFile | ssh-decoy/cow_filesystem.py:166-197 | the same for appending: in the overlay, after a copy-up, or by creating |
| SessionFs.SessionFilesystem.CreateDirectory | ssh-decoy/cow_filesystem.py:199-239 | the same for directories, with or without parents |
| SessionFs.SessionFilesystem.RemoveFile | ssh-decoy/cow_filesystem.py:241-269 | the same for removing a file from either layer |
| SessionFs.SessionFilesystem.TombstoneRecursive | ssh-decoy/cow_filesystem.py:566-574 | the recursion over merged children buries exactly the specified set of base paths |
| SessionFs.SessionFilesystem.RemoveDirectory | ssh-decoy/cow_filesystem.py:271-299 | the same for removing a directory |
| SessionFs.SessionFilesystem.Chmod | ssh-decoy/cow_filesystem.py:301-311 | the same for the mode, with copy-up |
| SessionFs.SessionFilesystem.Chown | ssh-decoy/cow_filesystem.py:313-327 | the same for owner and group, with copy-up |
| Effects.CreateFileEffect | ssh-decoy/cow_filesystem.py:129-164 | after an accepted call the path has a file with the content, owner and mode given unless something above is deleted; what shows below and above is stated, every other node is as before; one log entry, one tombstone less, one node and each directory made counted |
| Effects.CreateDirectoryEffect | ssh-decoy/cow_filesystem.py:214-239 | the same for a directory, which nothing showed before |
| Effects.MakeParentsEffect | ssh-decoy/cow_filesystem.py:208-216 | with parents the missing directories belong to the owner given, those of the base show on, and nothing else changes |
| Effects.AppendInPlaceEffect | ssh-decoy/cow_filesystem.py:172-185 | in the overlay the new content comes after the old one and nothing else changes |
| Effects.AppendByCreatingEffect | ssh-decoy/cow_filesystem.py:186-197 | elsewhere a file is created: with the content, owner and mode of the base file before the new content if that is not deleted, else one of root |
| Effects.RemoveFileEffect | ssh-decoy/cow_filesystem.py:241-269 | accepted if and only if the overlay has a file there or the base one that is not deleted; hides the path with all below and nothing else |
| Effects.RemoveDirectoryEffect | ssh-decoy/cow_filesystem.py:271-299 | accepted if and only if a directory shows that lists nothing or the removal is recursive; hides the path with all below and nothing else |
| Effects.ChmodEffect | ssh-decoy/cow_filesystem.py:301-311 | the node that shows has the mode given; its kind, owner, group and content and every other node are as before |
| Effects.ChownEffect | ssh-decoy/cow_filesystem.py:313-327 | the node that shows has the owner given, and the group if one is given that is not empty; its kind, content and mode and every other node are as before |
| Effects.RefusedEffect | ssh-decoy/cow_filesystem.py:129-327 | a refused call deletes and logs nothing; at most it has made directories above its path |
| SessionFs.SessionFilesystem.CollectOverlayNodes | ssh-decoy/cow_filesystem.py:380-411 | the traversal visits every overlay location once and reports each as created, modified or a directory |
| SessionFs.SessionFilesystem.GetDelta | ssh-decoy/cow_filesystem.py:350-378 | each overlay location but the root is walked once; the two lists of files and the list of directories are the reports of the walk and name exactly the files and directories made or changed; with them come the tombstones and the log |
| DeltaSpec.ReportExactly | ssh-decoy/cow_filesystem.py:400-407 | a report has the path, the owner, the mode and the first 500 characters |
| Simulation.StepSimulates | ssh-decoy/cow_filesystem.py:129-327 | one call in scope: the reference accepts it if the session does, both then agree at every path on kind, content, owner and mode (a directory with mode "0644" counts as "0755", see ModesReturned), and on the group if asked, unless the call loses one; a refused call changes nothing visible |
| Simulation.GroupsKeptExactly | ssh-decoy/cow_filesystem.py:166-197 | with the group compared too, an accepted call keeps the agreement if and only if it does not append to a base file of another group than "root" |
| Simulation.SessionIsPrivateCopy | ssh-decoy/cow_filesystem.py:35-49 | after any run in scope the session shows, in the same terms, what the plain filesystem shows after the accepted calls on a copy of the base, and the plain filesystem accepts them all; with groups over the runs that lose none |
| Simulation.ModesReturned | ssh-decoy/cow_filesystem.py:510-552 | after any run in scope the node returned at a path has the mode of the plain filesystem if and only if that is not a directory whose mode is "0644" |
| Simulation.ListedIsLookup | ssh-decoy/cow_filesystem.py:510-552 | a visible directory lists a name exactly when its path resolves, and to the same entry |
| Simulation.BuriedComplete | ssh-decoy/cow_filesystem.py:566-574 | recursive burial reaches all base content below a path if and only if no overlay directory shadows any |
| Resurrection.RemovalResurrects | ssh-decoy/cow_filesystem.py:271-299 | otherwise a run of accepted calls brings removed base content back, which the reference does not have |
| Resurrection.RemovalExactLimit | ssh-decoy/cow_filesystem.py:271-299 | a recursive removal keeps the private-copy promise for all later runs if and only if nothing is shadowed |
| Resurrection.RemovedComesBack | ssh-decoy/cow_filesystem.py:271-299 | a run of four accepted calls from a fresh session that brings a removed base file back, while the plain filesystem accepts the same calls and has no such file |
| Overwriting.CreationExactLimit | ssh-decoy/cow_filesystem.py:129-164 | creating a file keeps the private-copy promise for all later runs if and only if everything the base has below the path is buried |
| Overwriting.AppendExactLimit | ssh-decoy/cow_filesystem.py:166-197 | appending where a directory shows keeps it if and only if, besides, the directory does not stand in place of a base file that differs from a new one |
| Overwriting.FileRemovalExactLimit | ssh-decoy/cow_filesystem.py:241-269 | removing a file where a directory shows keeps it if and only if the base has no file there; otherwise the call is accepted, which the plain filesystem refuses |
| Overwriting.FileOverDirectory | ssh-decoy/cow_filesystem.py:129-164 | a call on a fresh session after which a file shows with base content still readable below it |
| Overwriting.FileRemovalHidesDirectory | ssh-decoy/cow_filesystem.py:241-269 | a run of accepted calls that hides a directory by removing a file |
| Guarantees.RunWellFormed | ssh-decoy/cow_filesystem.py:51-60 | the overlay invariant holds in every reachable state, for all calls including those with parents and at the root |
| Guarantees.QuotaBound | ssh-decoy/cow_filesystem.py:427-508 | over any run the counter stays within the limit plus one, and overlay nodes within that plus the base nodes |
| Guarantees.CopiesEscapeQuota | ssh-decoy/cow_filesystem.py:469-508 | at a used-up quota a metadata change of a base node still adds an uncounted overlay node, exactly when its parent is in the overlay |
| QuotaRun.QuotaExceeded | ssh-decoy/cow_filesystem.py:469-508 | for every n a run of accepted calls from a fresh session ends with n overlay nodes more than the quota |
| Guarantees.SoundExactly | ssh-decoy/cow_filesystem.py:510-552 | in every state the invariant allows, listing and lookup agree if and only if the overlay has no nameless entry below the root or the root is tombstoned |
| Guarantees.RootStep | ssh-decoy/cow_filesystem.py:129-327 | which accepted calls make that nameless entry, which take it away, and that all others leave it alone |
| Guarantees.ListingAgrees | ssh-decoy/cow_filesystem.py:510-552 | over any run, listing and lookup agree in every visible directory if and only if no accepted call has written at the root since the last accepted removal there |
| Guarantees.RootWriteBreaksListing | ssh-decoy/cow_filesystem.py:129-164 | in every state the invariant allows, an accepted write at the root lists a nameless entry, which no path names |
| Guarantees.RemovalHidesSubtree | ssh-decoy/cow_filesystem.py:271-299 | in every state, a recursive removal that succeeds hides the subtree and changes no lookup elsewhere |
| Guarantees.RecreatedIsEmpty | ssh-decoy/cow_filesystem.py:199-299 | a directory made right after its removal shows nothing below, whatever the base holds |
| Visibility.CreationAccepted | ssh-decoy/cow_filesystem.py:129-164 | a file is created if and only if the quota has room for it and the missing directories and no overlay file is in the way |
| Visibility.CreatedShows | ssh-decoy/cow_filesystem.py:129-164 | the new file shows if and only if nothing above it is deleted |
| Visibility.DirectoryShows | ssh-decoy/cow_filesystem.py:199-239 | the same for a directory |
| Visibility.AppendedShows | ssh-decoy/cow_filesystem.py:166-197 | the same for appending, where a file of the overlay must not be deleted itself |
| Visibility.MadeShows | ssh-decoy/cow_filesystem.py:199-239 | with parents a call below the quota is always accepted; a directory shows if and only if nothing above is deleted and the overlay reaches it or the base has it |
| Visibility.MakeParentsHalfWay | ssh-decoy/cow_filesystem.py:427-467 | a call with parents that is accepted and makes one directory of two |
| Forensics.DeltaComplete | ssh-decoy/cow_filesystem.py:350-411 | over any run each changed file is among exactly one of the created and the modified files; a base path is gone if and only if a reported deletion covers it |
| Forensics.DeltaReports | ssh-decoy/cow_filesystem.py:380-411 | over any run no path occurs twice in the two returned lists of files together, and each changed file is in the right one, with the preview of its visible content |
| Forensics.DirectoryReported | ssh-decoy/cow_filesystem.py:380-411 | a new directory is reported if and only if the base has nothing at its path |
| Forensics.DirectoryUnreported | ssh-decoy/cow_filesystem.py:380-411 | a run from a fresh session after which a new directory shows and is not reported |
| Forensics.MutationsLogged | ssh-decoy/cow_filesystem.py:350-378 | the log grows by one for each call that returned True |
| Isolation.TakeTurn | ssh-decoy/cow_filesystem.py:39-60 | a call on one session changes neither the base nor the other session |
| Isolation.Interleave | ssh-decoy/cow_filesystem.py:39-60 | after any interleaving each session is in the state its own calls alone lead to |
| Breaker.CircuitBreaker.constructor | siem-forwarder/resilience.go:91-113 | settings that are not positive get the defaults 5, 2 and 30 seconds |
| Breaker.CircuitBreaker.Allow | siem-forwarder/resilience.go:115-135 | the answer and the new fields are those of the history of calls |
| Breaker.CircuitBreaker.RecordSuccess | siem-forwarder/resilience.go:137-155 | the fields are those of the longer history |
| Breaker.CircuitBreaker.RecordFailure | siem-forwarder/resilience.go:157-172 | the fields are those of the longer history |
| BreakerTrace.ClosedCount | siem-forwarder/resilience.go:137-172 | while closed the counter is the number of failures since the last success, below the threshold |
| BreakerTrace.TripsExactly | siem-forwarder/resilience.go:157-172 | a failure opens a closed breaker if and only if it is the threshold-th in a row |
| BreakerTrace.RefusesExactly | siem-forwarder/resilience.go:115-135 | refused if and only if open and less than the timeout after the latest failure |
| BreakerTrace.ClosedRegained | siem-forwarder/resilience.go:115-172 | closed again only by exactly successThreshold successes, with no failure, since an Allow granted after the timeout |
| BreakerTrace.ProbesUnlimited | siem-forwarder/resilience.go:115-135 | once half-open, any number of Allow calls is granted within one probing period |
| BreakerTrace.GrantedAfterTimeout | siem-forwarder/resilience.go:115-135 | a quiet timeout after the latest failure is always enough |
| BreakerTrace.FromClosed | siem-forwarder/resilience.go:137-172 | a closed breaker opens at the failure that makes the threshold, and no other call moves it |
| BreakerTrace.FromOpen | siem-forwarder/resilience.go:115-172 | an open breaker goes half-open at an Allow when the timeout has passed, and no other call moves it |
| BreakerTrace.FromHalfOpen | siem-forwarder/resilience.go:137-172 | a half-open breaker opens at any failure and closes at exactly the success that makes the threshold of its period |
| BreakerTrace.ClosesExactly | siem-forwarder/resilience.go:137-155 | without a failure since it went half-open, the breaker is closed if and only if the successes since make the threshold |
| Retry.Backoff | siem-forwarder/resilience.go:33-47 | never over the maximum, even on overflow; without overflow at least the capped exponential and at most half a base more |
| Retry.Arithmetic | siem-forwarder/resilience.go:33-47 | the exponential doubles with each attempt; sums wrap around at 64 bits |
| Consumer.Consumer.RetryFailed | siem-forwarder/consumer.go:291-345 | only refused messages are sent again, each attempt once and after its wait, until all are accepted, the attempts are used up, or a wait is cancelled; then what was not accepted is given back at once |
| Consumer.Consumer.DeadLetter | siem-forwarder/consumer.go:348-403 | with a dead-letter subject one letter is tried, with the error of the last attempt; the message is acked if it is published and given back if not; without a subject none is tried and the message is given back |
| Consumer.Consumer.FlushBatch | siem-forwarder/consumer.go:224-449 | what the breaker lets through is sent until every message is accepted or refused in all attempts and given up, or until the flush is cut short after k sends of what still fails; a refusal of the breaker sends nothing; every message is settled once and the counters agree; the breaker is told once, success if and only if all were accepted, and not at all if the flush is cut short |
| Consumer.Consumer.Pull | siem-forwarder/consumer.go:181-210 | every fetch asks for at least one message, the batch stays below its size, and between flushes received is the batch plus the other counters plus what cut-short flushes lost |
| Consumer.Consumer.ConsumeStream | siem-forwarder/consumer.go:135-212 | on return every message fetched belongs to one flush, which the breaker let through if and only if it answered so and which did to it what a flush does; the refused flushes are counted; received is the sum of the other counters plus exactly the first successes of the flushes cut short, hence the plain sum if none was |
| Consumer.Consumer.Conservation | siem-forwarder/consumer.go:20-43 | without a message whose sends were cut short, received is the batch plus forwarded, retried, dead-lettered and given back |
| Consumer.Consumer.CountersMean | siem-forwarder/consumer.go:20-43 | each counter is the number of messages of its kind |
| Accounting.LostNext | siem-forwarder/consumer.go:276-345 | a flush adds to the messages lost to the counters what its first send had accepted if it was cut short, and nothing otherwise |
| Accounting.NothingLost | siem-forwarder/consumer.go:276-345 | if no message shows an interruption, no flush was cut short and no message is lost |
| Accounting.TreatedCut | siem-forwarder/consumer.go:310-345 | a flush was cut short if and only if a message of its batch was |
| Accounting.AllWentNext | siem-forwarder/consumer.go:224-449 | one flush more leaves alone what the earlier ones did, and no message is in two flushes |
| Delivery.SettledMeaning | siem-forwarder/consumer.go:218-223 | settled means one disposition; an ack means accepted or published; nothing is sent after success or more than retries plus one times; a letter has the subject and data of its message and the error of the last send; a message given back after all attempts had its letter tried if there is a subject |
| Delivery.KindMeans | siem-forwarder/consumer.go:20-43 | a settled message counts as forwarded, retried, dead-lettered or given back by what became of it |
| Delivery.AfterSend | siem-forwarder/consumer.go:276-289 | after any answer of the sink the failing messages keep their own errors and the others are accepted |
| Delivery.SendCounts | siem-forwarder/consumer.go:276-345 | a send moves exactly the accepted messages from pending to first or later successes |
| Delivery.CountsAll | siem-forwarder/consumer.go:20-43 | every message is pending or counted in one place |
| Escaping.EscapeIsOnePass | siem-forwarder/formatter/formatter.go:168-174 | the chain of replacements is one pass over the text, for CEF and for LEEF |
| Escaping.RoundTrip | siem-forwarder/formatter/formatter.go:343-350 | unescaping an escaped text gives it back |
| Escaping.Injective | siem-forwarder/formatter/formatter.go:343-350 | different texts have different escapes |
| Escaping.EscapeRemoves | siem-forwarder/formatter/formatter.go:165-174 | no line end survives an escape, and no tab a LEEF escape |
| Escaping.EscapesAre | siem-forwarder/formatter/formatter.go:165-174 | the pair of each escaped character, in both styles; all other characters stand for themselves |
| Records.FormatLeef | siem-forwarder/formatter/formatter.go:183-226 | a reader that splits at tabs and first equals signs and unescapes finds the event id and exactly the attributes of the event, in order |
| RecordFields.LeefFieldByField | siem-forwarder/formatter/formatter.go:187-216 | under each LEEF name stands the value of one field of the event, once, and nothing if that is missing or empty; the severity comes last; no other name occurs |
| RecordFields.CefFieldByField | siem-forwarder/formatter/formatter.go:93-147 | the same for the CEF extension, with the labels of custom fields and what Falco adds |
| RecordFields.KnownTypes | siem-forwarder/formatter/formatter.go:353-425 | each known event type has its own signature, name and severity |
| RecordFields.OtherTypes | siem-forwarder/formatter/formatter.go:353-425 | every other event type has the signature and severity of unknown types |
| Records.FormatCef | siem-forwarder/formatter/formatter.go:84-157 | the record printed step by step is the specified one |
| Records.ReadCef | siem-forwarder/formatter/formatter.go:149-154 | a reader that splits at the first seven unescaped pipes finds signature, name and severity, whatever the event type |
| Records.CefOneLine | siem-forwarder/formatter/formatter.go:96-136 | the record breaks into lines if and only if the source port or the decoy tier does |
| CefReader.ReadExactly | siem-forwarder/formatter/formatter.go:84-157 | a reader that splits at unescaped equals signs and takes each key from behind the last space returns the attributes printed if and only if no printed value holds an unescaped equals sign and each unescapes to its value |
| CefReader.ReadCefExtension | siem-forwarder/formatter/formatter.go:84-157 | for every event this reader of the eighth field returns exactly the extension, in order and unescaped, if and only if source port and decoy tier hold no equals sign and no backslash except at the very end |
| CefReader.TierBreaksReading | siem-forwarder/formatter/formatter.go:132-136 | an event whose decoy tier the reader gets wrong |
| Records.Signature | siem-forwarder/formatter/formatter.go:353-373 | every signature consists of characters that need no escape |
| Records.Severity | siem-forwarder/formatter/formatter.go:399-425 | one digit between 1 and 9 |
| AuthHandler.AuthHandler.Enter | ssh-decoy/auth_handler.py:95-116 | the verdict and the new counters are those of the attempts of the address |
| AuthHandler.AuthHandler.Evaluate | ssh-decoy/auth_handler.py:137-180 | the answer is that of the mode after the attempts evaluated before |
| AuthHandler.AuthHandler.CheckPassword | ssh-decoy/auth_handler.py:70-135 | among other threads: a blank password leaves no trace; any other attempt gets the verdict or the evaluation of its own place in the history and is recorded |
| AuthSpec.LockoutBound | ssh-decoy/auth_handler.py:95-116 | any lockout_after evaluated attempts of an address span at least the lockout duration |
| AuthSpec.LockoutWindow | ssh-decoy/auth_handler.py:201-208 | a half-open window of that length has fewer than lockout_after evaluated attempts |
| AuthSpec.LockedExactly | ssh-decoy/auth_handler.py:95-116 | an attempt is locked out if and only if the latest attempt of its address that was not started a lockout that has not run out |
| AuthSpec.LockedUntil | ssh-decoy/auth_handler.py:201-208 | with a clock that never goes back: if and only if the latest lockout of the address has not run out, so every lockout ends |
| AuthSpec.TriggeredExactly | ssh-decoy/auth_handler.py:102-116 | an attempt starts a lockout if and only if it is not locked out and makes lockout_after since the latest lockout |
| AuthSpec.FirstRejected | ssh-decoy/auth_handler.py:155-178 | the first fail_before_success evaluated attempts of a key are rejected, valid or not |
| AuthSpec.AcceptedExactly | ssh-decoy/auth_handler.py:155-178 | accepted if and only if the credentials are valid and that many attempts of the key came before; at least that many were rejected |
| AuthSpec.DecidedByMode | ssh-decoy/auth_handler.py:137-180 | who is let in, and with which reason, in each of the modes |
| AuthSpec.KeysApart | ssh-decoy/auth_handler.py:155-160 | two tries share a failure count if and only if address and user name are equal, where no address holds a colon |
| AuthSpec.AttemptsCounted | ssh-decoy/auth_handler.py:155-178 | the attempts of a key are the tries with that key |
| ResponseCache.ResponseCache.Get | inference/server.py:144-151 | a hit exactly on resident keys, with the last accepted put; recency and counters as specified |
| ResponseCache.ResponseCache.Put | inference/server.py:153-167 | residents, order and values after the longer history; oversized outputs change nothing |
| ResponseCache.ResponseCache.Clear | inference/server.py:178-180 | nothing is resident, the counters stay |
| ResponseCache.ResponseCache.Stats | inference/server.py:182-191 | size, hits and misses of the history, and a rate between 0 and 1 that is positive if and only if there were hits |
| ResponseCache.ResidentExactly | inference/server.py:126-135 | a key is resident if and only if it was touched since the last clear and fewer than max_size other keys were touched after it |
| ResponseCache.TouchNewest | inference/server.py:153-167 | evicting as one goes is the same as keeping the whole recency order and cutting it |
| ResponseCache.HitsAmongGets | inference/server.py:144-151 | hits are among the gets |
| ResponseCache.PutThenFound | inference/server.py:153-167 | a put of at most 65,536 characters is found again; a longer one changes nothing |
| ResponseCache.HitIsNewest | inference/server.py:144-151 | a hit makes its key the newest; a miss changes nothing |
| ResponseCache.OldestGoes | inference/server.py:160-167 | a new key in a full cache pushes out the oldest key and no other |
| SftpUpload.Handle.Put | ssh-decoy/server.py:1152-1163 | what is appended, counted and answered, also when the write is refused |
| SftpUpload.Handle.Close | ssh-decoy/server.py:1165-1186 | sorted and joined content; right whenever the writes tile a file, and whenever they start at zero without a logged anomaly |
| SftpUpload.Reassembly | ssh-decoy/server.py:1165-1177 | if the writes tile a file, sort-and-join equals applying each write at its own offset |
| SftpUpload.AnyOrder | ssh-decoy/server.py:1165-1177 | permuted arrival gives the same content |
| SftpUpload.NoAnomalyTiles | ssh-decoy/server.py:1169-1176 | writes from zero on without an anomaly tile a file |
| SftpUpload.SortedStable | ssh-decoy/server.py:1165-1168 | sorting keeps the writes of each offset in order of arrival |
| SftpUpload.JoinedConcat | ssh-decoy/server.py:1177-1177 | joining puts the data of the writes one after the other |
| SlidingWindow.SpacedNext | dashboard/main.py:142-157 | an event admitted while fewer than n are within reach keeps every n + 1 events apart by more than the window |
| SlidingWindow.WindowLimit | dashboard/main.py:134-157 | no window, wherever it starts, holds more than n events |
| SlidingWindow.ActiveCounted | dashboard/main.py:142-157 | what counts as within reach: the events less than the window ago, and those exactly that long ago if its end belongs to it |
| AlertForwarder.AlertForwarder.RateLimited | cti/alerting.py:216-224 | the answer from the pruned deque is the answer from the full history of what all callers recorded |
| AlertForwarder.AlertForwarder.Post | cti/alerting.py:277-307 | at most three tries, up to the first that is not worth another; recorded exactly when the webhook accepted, with other callers checking and recording between the tries |
| AlertForwarder.AnswersAre | cti/alerting.py:283-306 | which answers are a success and which are worth another try |
| AlertForwarder.AlertForwarder.MaybeSend | cti/alerting.py:231-248 | among any other callers: an event that is severe enough is checked once and posted if and only if the check lets it through, and recorded if and only if the post is accepted; any other is passed over |
| AlertForwarder.SendKeepsRate | cti/alerting.py:216-227 | a send checked earlier than recorded keeps the limits if nothing was recorded in between |
| AlertForwarder.KeptExactly | cti/alerting.py:216-227 | recording a send keeps the limits (rate_limit + 1 sends take over 60 seconds, any two are 2 seconds apart) if and only if a check at that moment would let it through |
| AlertForwarder.RunKeptExactly | cti/alerting.py:216-248 | over any run of any callers the limits are kept if and only if every record would have passed a check at its own moment |
| AlertForwarder.SerialKeepsRate | cti/alerting.py:231-248 | callers that do not overlap keep the limits |
| AlertForwarder.BrokenByOverlap | cti/alerting.py:231-248 | whenever callers break the limits, some send was recorded between a caller's check and its own record |
| AlertForwarder.OverlapBreaksRate | cti/alerting.py:231-307 | two callers that both check before either records break the limits, whatever the rate limit |
| RequestLimiter.RateLimiter.Check | dashboard/main.py:142-157 | admitted if and only if the full history has fewer admissions within the window than the limit (at least one) |
| HttpSessions.SessionTracker.GetOrCreateSession | http-decoy/http_session.py:47-124 | the owned live session, or a new one under the fresh id, kept if and only if the table and the address have room, counted by live sessions; only the returned session has a new activity time |
| HttpSessions.SessionTracker.EvictStale | http-decoy/http_session.py:210-251 | exactly the sessions idle for too long go, from every index, and the others keep their times |
| HttpSessions.SessionTracker.RecordCredential | http-decoy/http_session.py:140-156 | kept if and only if the session lives and both caps allow; the total grows by one, and no time changes |
| HttpSessions.SessionTracker.MarkSeen | http-decoy/http_session.py:158-167 | true for the first call on a live session only; no time changes |
| HttpSessions.SessionTracker.RecordRequest | http-decoy/http_session.py:169-174 | one more request of a live session, nothing else |
| HttpSessions.DropAgrees | http-decoy/http_session.py:227-231 | counting down keeps every address counter equal to its live sessions |
| HttpSessions.AddAgrees | http-decoy/http_session.py:120-123 | counting up keeps it so, and at most 50 |
| HttpSessions.SumWithout | http-decoy/http_session.py:140-156 | the credentials of a table are those of a session and of the rest |
| HttpSessions.SurvivingExactly | http-decoy/http_session.py:210-222 | a session survives if and only if it was active within the last day |
| HttpSessions.OwnsExactly | http-decoy/http_session.py:67-80 | a cookie is good for the address its session was made for, and for no other |
| SessionState.SessionState.Update | cti/session_analyzer.py:276-316 | counters, phases, marks and bounded queues are those of the events processed: the times of the latest 1,000 commands, the latest 500 first techniques by id, the latest 200 first tools, and so on |
| SessionState.SessionState.CheckAlerts | cti/session_analyzer.py:417-473 | a verdict raises the conditions that hold and that no verdict raised before; none is ever raised twice |
| SessionState.SessionState.ComputeVerdict | cti/session_analyzer.py:320-334 | the alerts are exactly the conditions that hold and that no verdict raised before; severity, score, classification and kill chain are those of the state |
| SessionState.SessionState.Score | cti/session_analyzer.py:336-386 | the score is between 0 and 1 |
| SessionState.SessionState.ScoreExactly | cti/session_analyzer.py:336-386 | what each factor adds, in hundredths |
| SessionState.SessionState.TempoExactly | cti/session_analyzer.py:353-368 | what the pace of the commands adds, by their number and the time they span |
| SessionState.SessionState.ClassifiedExactly | cti/session_analyzer.py:388-415 | when a session is called by each of the four names |
| SessionState.SessionState.AlertsDue | cti/session_analyzer.py:417-473 | when each alert is due |
| SessionState.RankOrder | cti/session_analyzer.py:306-309 | the order of the severities |
| SessionState.CommandsCounted | cti/session_analyzer.py:280-284 | the commands are the events whose type names one |
| SessionState.TargetedExactly | cti/session_analyzer.py:311-316 | a sensitive target was met if and only if some command names one |
| SessionState.ToolsMembers | cti/session_analyzer.py:300-304 | the tools are those of the events |
| SessionState.SessionState.C2Noticed | cti/session_analyzer.py:456-459 | a C2 tool is noticed if and only if one is among the latest 200 distinct tool names; while there are no more, if and only if some event named one |
| SessionState.SessionState.KillChainSeen | cti/session_analyzer.py:286-322 | a phase of the detected kill chain is the tactic of the first technique of some id, and has been seen |
| SessionState.SessionState.KillChainNoticed | cti/session_analyzer.py:286-322 | while at most 500 ids have been seen, the known tactic of every first technique of an id is a phase of the chain |
| SessionState.MaxRankIsMax | cti/session_analyzer.py:306-309 | the recorded rank is the maximum over all events |
| SessionState.PhasesMembers | cti/session_analyzer.py:286-298 | the techniques of all events name a tactic if and only if some event showed one of it; the phases seen are these (SessionState.Update) |
| SessionState.FewAlerts | cti/session_analyzer.py:64-64 | distinct alert keys are too few for the queue of 200 to forget one |
| SessionAnalyzer.EventIds.Remember | cti/session_analyzer.py:123-140 | the remembered ids are the specified ones, the newest among them if and only if there was room or the clock moved at most ten minutes |
| SessionAnalyzer.TrimmedBounds | cti/session_analyzer.py:127-140 | trimming keeps ids distinct and within bounds, and keeps the newest if and only if there was room or it is recent |
| SessionAnalyzer.TrimmedExactly | cti/session_analyzer.py:127-140 | which ids are kept of too many |
| SessionAnalyzer.SessionAnalyzer.Ingest | cti/session_analyzer.py:98-143 | a redelivered event or one for a closed session changes nothing; any other is processed once by its active session, which is judged: an alert is raised if and only if its condition holds and no verdict on the session raised it; the event ids remembered are exactly the trimmed ones; table, ledger and queue change by at most one creation and one eviction of a least recent session, and every other session is untouched |
| SessionAnalyzer.SessionAnalyzer.GetOrCreate | cti/session_analyzer.py:222-235 | a new session pushes out a least recently used one if and only if there is no room |
| SessionAnalyzer.SessionAnalyzer.EvictLru | cti/session_analyzer.py:237-267 | a session whose latest event is oldest leaves by eviction only, and its full summary is queued |
| SessionAnalyzer.SessionAnalyzer.CloseSession | cti/session_analyzer.py:145-181 | the session leaves by closing only, with its full summary and all its alerts; every other session is untouched; its id is remembered |
| SessionAnalyzer.SessionAnalyzer.RememberClosed | cti/session_analyzer.py:151-157 | no closed id is forgotten if and only if there is room, otherwise exactly 25,000 are |
| SessionAnalyzer.SessionAnalyzer.SweepIdle | cti/session_analyzer.py:183-218 | exactly the idle sessions leave, by sweeping only, each with its full summary and all its alerts; every other session is untouched |

## Left out

- Simulation.SessionIsPrivateCopy: calls with parents=True, at the root or below no visible directory are out of scope; the lemmas of Guarantees and Visibility cover them in every reachable state. The other calls out of scope are those that break the promise (Resurrection.RemovalExactLimit and the three limits of Overwriting).
- Nodes.FSNode: the name, path, size and modification-time fields, which no modelled operation reads; a missing content counts as empty, as every read treats it.
- SessionFs.SessionFilesystem.GetDelta: the mutation log keeps operation and path of an entry, not its time and details; a report leaves out the size in bytes.
- Simulation.StepSimulates: the mode "0644" of a directory, which the node returned shows as "0755" (Simulation.ModesReturned). A copy-up through append_file sets the group to "root" (Simulation.GroupsKeptExactly).
- VirtualFs.VirtualFilesystem.CreateDirectory: parents=True of the plain filesystem, which can hang a directory below a file, and its own handling of raw path strings; paths arrive as component lists.
- list_directory, long formats, context snapshots, and the construction of the base tree from profiles.
- The comment at MAX_FILES_PER_SESSION says that it caps all overlay nodes; copies are not counted, so that nothing caps them (QuotaRun.QuotaExceeded). The class comment promises a private copy without conditions; recursive removal can break it (Resurrection.RemovalExactLimit), and so can calls on files that meet a directory (Overwriting).
- A directory made in place of a base file is missing from the delta (Forensics.DirectoryUnreported).
- BreakerTrace.ProbesUnlimited: the comment at the circuit breaker speaks of a limited number of probes; there is no limit.
- Consumer.Consumer.FlushBatch: formatting a record and the bytes of the dead letter; a letter is its subject, error, claimed attempts and data. The claimed attempts are MaxRetries + 1 even for a negative setting, when one send is made.
- Consumer.Consumer.ConsumeStream: the counters are one worker's contribution; in the program all workers add to the same ones under a lock. First-attempt successes of a flush that cancellation interrupts are acked but never counted (Accounting.LostNext).
- Retry.Backoff: the value of an overflowing conversion, which depends on the machine, is any value.
- Records.FormatCef: values arrive already printed; the JSON and ECS formats. Source port and decoy tier are printed without an escape, which can break the record into lines (Records.CefOneLine) or mislead a reader of the extension (CefReader.ReadCefExtension).
- AuthSpec.LockoutBound: a clock that goes back. Two pairs of address and user name that print the same key share a failure count, as in the program.
- AuthHandler.AuthHandler.CheckPassword: public-key attempts and the export of attempts. The header comment says that all attempts are logged; blank passwords are not.
- ResponseCache.ResponseCache.Put: hashing of keys and the creation time of entries; a negative size, with which the program fails on its first put.
- SftpUpload.Handle.Close: decoding the bytes and writing the file. The comment on the caps promises bounds; a refused write stays in the buffer all the same.
- AlertForwarder.AlertForwarder.MaybeSend: formatting and severity names. Callers that overlap can break the limits (AlertForwarder.OverlapBreaksRate, exactly when AlertForwarder.RunKeptExactly says).
- HttpSessions.SessionTracker.GetOrCreateSession: cookies, CSRF tokens, header parsing and start times; ids are fresh. The counter of the empty address is never counted down and only bounds its sessions from above.
- SessionAnalyzer.SessionAnalyzer.Ingest: hashing of events without an id. Once 25,000 closed ids are forgotten, late events of those sessions open new ones. Transitions between phases keep their tactics; their times are any.
- SessionState.SessionState.Score: floating-point rounding; the average command interval is computed from the first and the last timestamp.
- The dashboard's session cache, which is the same least-recently-used scheme with merged values.
- Command handlers, templates, enrichment rules, the operator, the dashboard queries and the user interface.
