# svc-downloader, verified

svc-downloader fetches files over HTTP in byte ranges, keeps its downloads in an ordered key/value
store with secondary indexes, starts them from queues, limits their rate, and publishes events. This
project is a Dafny model of that behaviour. Each module follows one part of the program, in the form
that part has: what the program updates in place is a class, what it computes in a loop is a method with
that loop, and each such method is tied to a function about which the theorems are proved.

Run `dafny verify dfyconfig.toml` in this directory.

## What is modelled

**The store** (`Keys`, `Store`, `Consistency`, `Bulk`, `Repeats`, `Lapses`, `Repository`, `Runs`). A store is a map from keys to
values, and keys are visited in byte order. A download is one row under `d|id` and one entry in each of the
created-at, status, queue and tag indexes. `Live` says that every index entry is derived from the record
that is stored now; `Complete` says that no record lacks an entry; `Consistent` is both, and is proved to mean
that the index keys are exactly the union of the keys derived from the records. `Repository` holds the
methods, with their transactions, chunks of 1000 and write batches; every commit that a bulk write makes on
its way is recorded and characterised.
The context of a call is one that may be cancelled at any time, or known to be live or done: a live one never cancels a
call, and with one that is done no call changes anything.

**Reading** (`Listing`, `Paging`, `QueueScope`). Which index is scanned, what survives the filter, which page
is cut and how it is sorted; counting; and the bulk operations on the downloads of one queue, whose scan
has no filter.

**Fetching** (`Planner`, `ContentRange`, `SegmentRunner`, `FileStore`, `Reassembly`). From the plan of byte
ranges over the retry loop of each range to the merged file. The server is an input: one reply for each
pass of the loop, which may be an error, a 200 response or a 206 response, and may stop early.

**Lifecycle and scheduling** (`Lifecycle`, `Service`, `Tags`, `Scheduler`, `TickLaws`). Service calls, the writes
of runners and their monitors, and worker ticks are atomic steps that interleave. `Service` and
`Scheduler` are the code over the repository; `Lifecycle` and `TickLaws` are what holds of all
interleavings.

**The rest.** `RateLimit` is the token bucket in integer nanoseconds, `Events` the publisher with its bounded
channels, `Text` and `Models` strings and entities.

## Where the code falls short of its own promises

Each of these is a theorem. In brackets, the names before the semicolon are those of the lemmas that say exactly when
the code does what it says, and the names after it show inputs on which it does not.

- A retry after a partial append starts again at the old offset but writes at the end of the part file, so
  a run can report success over a wrong part: it is right iff no reply before the deciding one brought a byte
  (`SuccessIsWholeIff`, and `EndToEndIff` for the whole file; `RetryDuplicatesBytes`).
- Without ranges or a known length there is one open-ended segment, and nothing compares what came with what was asked
  for: its success is right iff the appended chunks join to the rest of the content, that is, when nothing came before the
  deciding reply, iff that one is complete (`SingleStreamIff`, `OpenEndIsWholeIff`; `TruncatedSuccess`).
- With fewer bytes than connections every range starts at byte 0 and all but the last are open-ended. The merged
  file is right iff the open-ended parts were empty and are brought nothing (`EndToEndIff`); for a server that delivers
  whole bodies, iff there are no more connections than bytes (`WholeBodiesIff`; `ShortContentRepeats`).
- The loop can run for ever: it does so iff the first passes, up to the retry limit, do not stop it and every later
  reply has a contradicting `Content-Range` (`NeverStopsIff`; `MismatchNeverGivesUp`).
- A 3xx or odd 2xx status passes for success iff it comes when the retries are used up (`OddStatusSucceedsIff`); a
  success has the full last chunk iff it was not decided so (`SuccessIsFullChunkIff`; `OddStatusSucceedsEmpty`). One
  that was retried does no harm (`RetriedOddStatusIsHarmless`).
- A create over an existing id, or a bulk write that names an id twice, can leave stale index entries
  (`CreateKeepsConsistency`, `BulkCreateConsistentIff`, `BulkUpdateConsistentIff`; `CreateOverOtherStatus`,
  `BulkCreateOverOtherStatus`, `BulkUpdateNamesIdTwice`).
- A listing by an empty queue or status finds nothing (`ScanIsExactIff`; `EmptyQueueIsNotFound`).
- With a stale entry in the store a descending list can be shorter than the count (`CountIsListLength`;
  `StaleEntryAboveTop`). The input is an id created twice, once in a queue whose id has a byte 0xFF, which text sent as
  JSON cannot hold.
- Bulk operations on a queue also hit other queues' downloads: of queues whose id begins with its id, and of a queue q
  when its id is q, a bar and the beginning of the rest of one of their keys (`SelectionIsExactIff`;
  `LongerQueueIsSelected`, `BarredQueueSelectsOther`).
- A delete also drops the segment rows of downloads whose id begins with its id (`DeleteSegmentsIff`;
  `DeleteTakesOthersSegments`).
- Part names sort into index order iff there are at most 10^9 of them (`PartsInOrderIff`; `TenDigitsSortFirst`).
- A Pause is undone by a progress message that the monitor of a finished run still has to write
  (`PauseIsStickyIff`; `MonitorUndoesPause`). Without its guard, a Resume before the paused run has ended loses the
  cancel entry of the new run (`StickyIff`; `LateExitUndoesPause`). A Pause between the two parts of a Start is undone by the
  run that Start then registers (`LaunchIsTwoSteps`; `PauseInsideStart`), and a Pause between a tick's listing and its writing
  is overwritten (`WriteBackIsRequeueIff`).
- The scheduler picks the newest queued downloads and only then sorts that page by priority, so a turn starts by
  priority, whatever the priorities, iff it has no slot or one for each queued download (`TurnByPriorityIff`;
  `LowerPriorityStarts`).
- A subscription gets some event more than once, on some run, iff it names a type more than once
  (`DistinctKindsIff`; `RepeatedKindHearsTwice`).
- The publisher panics iff a cancel function is called a second time, overlapping or not (`PanicsIff`).

One more has an exact condition only at a single instant. A caller that honours its waits can have twice the limit for ever,
because tokens flow in while it waits: `WaitIsGrantedTwice`, within the bound of `SequentialCallerBound`. It stays within the
limit if its requests never exceed the tokens there are, `NeverOwingStaysWithin`. The converse fails in general, because unused
inflow may cover a debt, `DebtWithinInflow`; at one instant it holds, `BurstIff`.

## Model

| member | source | states |
|---|---|---|
| Keys.FamiliesDisjoint | internal/repository/repository.go:37-46 | no string lies in two of the eight key families, whatever the ids |
| Keys.TimeKeyOrder | internal/repository/repository.go:73-79 | 20-digit time keys compare, and coincide, exactly as their instants |
| Keys.TailOrder | internal/repository/repository.go:50-64 | entries of one family and value are ordered by creation time, then id |
| Keys.IdIsRecovered | internal/repository/repository.go:257-262 | splitting any index key at bars gives back a bar-free id, even when the queue, status or tag contains bars |
| Keys.AnchoredInjective | internal/repository/repository.go:50-64 | an index key determines its value, instant and id: keys of different ids never collide |
| Keys.RowKeysInjective | internal/repository/repository.go:66-71 | statistics of different queues, and segments of different downloads or indexes, are different rows |
| Store.IndexKeyFacts | internal/repository/repository.go:81-106 | every index key of a download lies in an index family, is no primary key, and leads back to its id |
| Store.ApplyAllPutEntries | internal/repository/repository.go:108-133 | writing a record and its index entries as a batch is writing them in a transaction |
| Store.ConsistentIsExact | internal/repository/repository.go:81-152 | the invariant holds iff the index keys present are exactly the union of the keys derived from the stored records |
| Consistency.PutLive | internal/repository/repository.go:488-507 | writing a record with its entries leaves no stale entry iff the entries its id already had are among the new ones |
| Consistency.CreateKeepsConsistency | internal/repository/repository.go:488-507 | create keeps a consistent store consistent iff the id is new or the old record's entries are all derived from the new one; no other record changes |
| Consistency.UpdateKeeps | internal/repository/repository.go:513-545 | update leaves no stale entry, changes that record alone, and makes its entries complete even on a store that lacks some |
| Consistency.DeleteKeeps | internal/repository/repository.go:803-826 | delete removes exactly that record, all its entries, and nothing another record needs |
| Consistency.CreatedRecord | internal/repository/repository.go:495-498 | a create stores what it was given, updated now, and created now unless a time was given |
| Consistency.UpdatedRecordIs | internal/repository/repository.go:532-535 | an update stores what it was given, updated now, and keeps the stored time of creation unless one was given |
| Consistency.UpdateKeepsOtherRows | internal/repository/repository.go:513-545 | an update leaves segment, queue and statistics rows alone |
| Consistency.DeleteKeepsQueueRows | internal/repository/repository.go:803-826 | a delete leaves queue and statistics rows alone |
| Consistency.DeleteSegmentsIff | internal/repository/repository.go:822-825 | a delete removes all segment rows of its download, and no other download's iff none with segment rows has an id that begins with the deleted one |
| Lapses.DeleteTakesOthersSegments | internal/repository/repository.go:822-825 | deleting "a" takes the segment rows of "ab" along |
| Lapses.CreateOverOtherStatus | internal/repository/repository.go:488-507 | on every consistent store, creating a queued id again as running leaves a stale entry |
| Lapses.BulkCreateOverOtherStatus | internal/repository/repository.go:572-614 | so does a bulk create that names it |
| Lapses.BulkUpdateNamesIdTwice | internal/repository/repository.go:616-703 | a bulk update that gives an id one tag and then another leaves the first one's entry |
| Lapses.EmptyQueueIsNotFound | internal/repository/repository.go:155-172 | a stored download without a queue matches the filter for it and is not listed |
| Lapses.StaleEntryAboveTop | internal/repository/repository.go:246-252 | after creating an id twice, first in a queue whose id is the other one and a byte 0xFF, the descending list of that queue and its count differ |
| Repository.Txn.IndexDownload | internal/repository/repository.go:81-106 | the loop over fields and tags adds exactly the derived keys |
| Repository.Txn.UnindexDownload | internal/repository/repository.go:135-152 | exactly the derived keys go |
| Repository.Txn.DeleteByPrefix | internal/repository/repository.go:312-327 | exactly the keys under the prefix go |
| Repository.WriteBatch.IndexDownload | internal/repository/repository.go:108-133 | the batch gains the derived keys in order, and whatever it commits on the way is a first part of its entries |
| Repository.BadgerRepository.CreateDownload | internal/repository/repository.go:484-507 | Ok means the new store of `CreateNext`; an error changes nothing and is a cancellation or a missing id |
| Repository.BadgerRepository.UpdateDownload | internal/repository/repository.go:509-545 | the new store of `UpdateNext`; a missing record is an error that changes nothing |
| Repository.BadgerRepository.GetDownload | internal/repository/repository.go:547-570 | the stored record of that id, or why there is none |
| Repository.BadgerRepository.DeleteDownload | internal/repository/repository.go:803-826 | the new store of `DeleteNext`, segment rows included; an error changes nothing |
| Repository.BadgerRepository.BulkCreateDownloads | internal/repository/repository.go:572-614 | success is creating one after the other; every store committed on the way, or left by an error, is a stage of it |
| Repository.BadgerRepository.BulkUpdateDownloads | internal/repository/repository.go:616-703 | success gives the three phases' result; missing ids fail before anything is written; every commit is a stage |
| Repository.BadgerRepository.BulkDeleteDownloads | internal/repository/repository.go:706-785 | likewise for deleting |
| Bulk.BulkCreateIsFold | internal/repository/repository.go:572-614 | the batch's result is creating the downloads one at a time |
| Bulk.BulkUpdateIsFold | internal/repository/repository.go:616-703 | read all, unindex all, write all equals updating one at a time, for distinct present ids |
| Bulk.BulkDeleteIsFold | internal/repository/repository.go:706-785 | the phases equal deleting one at a time, repeated ids included |
| Bulk.UpdateStageLive | internal/repository/repository.go:641-703 | at every commit of a bulk update each index entry is derived from the record stored then, and no record is missing |
| Bulk.DeleteStageLive | internal/repository/repository.go:731-785 | at every commit of a bulk delete no index entry is stale |
| Bulk.CreateStageLive | internal/repository/repository.go:572-614 | the same for a bulk create of new ids |
| Bulk.BulkUpdateKeeps | internal/repository/repository.go:616-703 | a completed bulk update of distinct ids makes the index exact again |
| Repeats.BulkUpdateConsistentIff | internal/repository/repository.go:616-703 | a bulk update that may name ids repeatedly keeps the index exact iff no repetition has an index key that the last record for its id lacks |
| Repeats.BulkCreateConsistentIff | internal/repository/repository.go:572-614 | a bulk create of any ids, stored ones included, keeps it exact iff for each id the last record derives every key that an earlier one has |
| Runs.StepKeeps | internal/repository/repository.go:488-826 | no operation, completed or cut off at any commit, makes a stale entry; completed ones lose none |
| Runs.RunConsistent | internal/repository/repository.go:488-1136 | after any sequence of operations from empty, queue-wide ones after cut-off ones included, no entry is stale, and without cut-off bulk writes the index is exactly the union of the derived keys |
| Runs.RedoRepairs | internal/repository/repository.go:616-703 | a bulk update cut off at any commit and then done again to its end leaves a consistent store |
| Listing.AccessPathIndependence | internal/repository/repository.go:155-284 | queue, status and created-at scans give the same sequence: the matching downloads, each once, by (creation, id), exactly reversed when descending |
| Listing.UnanswerableFindsNothing | internal/repository/repository.go:155-172 | a single empty queue or status finds nothing, even on a store that lacks entries |
| Listing.ScanIsExactIff | internal/repository/repository.go:155-284 | a listing finds exactly the matching downloads iff its filter is answerable or matches nothing |
| Listing.CountIsListLength | internal/repository/repository.go:1142-1233 | on every store the count is the length of the unlimited ascending list, and of the descending one iff nothing that survives the filter lies above the start of its scan; always so without stale entries; on a consistent store it is the number of matching records |
| Repository.PassesFetchFilter | internal/repository/repository.go:176-244 | the listing's filter decides `Matches` |
| Repository.PassesCountFilter | internal/repository/repository.go:1159-1229 | the separately written count filter decides the same predicate |
| Listing.FilterIsConjunction | internal/repository/repository.go:176-244 | a filter asks for all that its parts ask for, and an empty one for nothing |
| Listing.ChoicesMean | internal/repository/repository.go:176-220 | one of the queues, one of the statuses, one of the tags in whatever case |
| Listing.BoundsMean | internal/repository/repository.go:238-243 | the time bounds are inclusive |
| Listing.SearchMeans | internal/repository/repository.go:227-237 | words without a bar are found in the address or the file name, in whatever case |
| Text.EqualFoldIff | internal/repository/repository.go:210-220 | two tags fold together iff they differ in the case of letters at most |
| Text.ToLowerFolds | internal/repository/repository.go:210-237 | folding leaves no capital, changes letters' case alone, and is done after one time |
| Text.ContainsIff | internal/repository/repository.go:227-237 | looking for folded words in folded text is looking for them in whatever case |
| Repository.BadgerRepository.CountDownloads | internal/repository/repository.go:1142-1233 | the loop counts the surviving entries of the scan; an error comes with the count so far |
| Repository.BadgerRepository.ListDownloads | internal/repository/repository.go:155-309 | the page of the filtered scan, arranged so that for any two the fields are as asked: descending by priority, the higher first and the newer first of two that are equal; by creation, the newer first; ascending the other way round; a live context never fails |
| Paging.PagesTile | internal/repository/repository.go:253-284 | pages at offsets 0, L, 2L, ... join to the scan with no gap and no repeat |
| Paging.PageIs | internal/repository/repository.go:253-284 | what a page is for every limit and offset: a limit of 0 lets one record through, a negative one all |
| Paging.SortsBeforeWeakOrder | internal/repository/repository.go:286-307 | the comparison given to the sort is a strict weak order |
| Paging.SortSlice | internal/repository/repository.go:286-307 | a permutation in the requested order, as the comparison has it and as the fields have it |
| Paging.InOrderIff | internal/repository/repository.go:286-307 | the order of the comparison is the order of the fields |
| Paging.FullScanInOrder | internal/repository/repository.go:253-284 | on a consistent store the scan itself is in creation order |
| Paging.ListedPagesGloballyOrdered | internal/repository/repository.go:253-307 | the pages that listings by creation time return join to an ordered list of the same downloads, and enough of them to all |
| QueueScope.ScanSelects | internal/repository/repository.go:976-995 | without stale entries the unfiltered scan visits each selected record whose entry is there once and no other |
| QueueScope.CompleteScansAll | internal/repository/repository.go:976-995 | and on a complete store that is every selected record |
| QueueScope.SelectionIsExactIff | internal/repository/repository.go:976-995 | for every non-empty queue id, with or without bars, it selects exactly the queue's downloads iff no stored download of another queue is mistaken for one: that queue's id begins with this one, or this one is that id, a bar and a first part of the rest of the key |
| QueueScope.MistakenForBarFree | internal/repository/repository.go:976-995 | for an id without bars only the first of the two can be |
| QueueScope.LongerQueueIsSelected | internal/repository/repository.go:976-995 | a download of queue "ab" is selected for queue "a" |
| QueueScope.BarredQueueSelectsOther | internal/repository/repository.go:976-995 | every download of any queue q is selected for the queue q, bar, zero, though q does not begin with it |
| QueueScope.QueueChangeIsExact | internal/repository/repository.go:1003-1136 | of each scanned record the given field has the given value, its update time is one of the write, and all other fields are as before; all others do not change; no entry is stale, and none missing unless there was |
| QueueScope.StatusSetForAll | internal/repository/repository.go:1092-1136 | in an exactly selected queue every download has the new status and none another, other queues keep their downloads in each status, and no queue or priority changes |
| QueueScope.PrioritySetForAll | internal/repository/repository.go:1049-1090 | in an exactly selected queue every download has the new priority, all others keep theirs, and no queue or status changes |
| QueueScope.ReassignConserves | internal/repository/repository.go:1003-1047 | count(from) = 0, count(to) = old from + old to, other queues and the total unchanged |
| QueueScope.QueueDeleteIsExact | internal/repository/repository.go:970-1001 | exactly the scanned records go |
| Repository.BadgerRepository.BulkReassignDownloadsQueue | internal/repository/repository.go:1003-1047 | success reaches `QueueChanged`; equal queues change nothing; empty ones are errors that change nothing; what any error leaves, and every commit, is a stage of the bulk update |
| Repository.BadgerRepository.BulkSetPriorityByQueueID | internal/repository/repository.go:1049-1090 | likewise for the priority |
| Repository.BadgerRepository.BulkUpdateStatusByQueueID | internal/repository/repository.go:1092-1136 | likewise for the status |
| Repository.BadgerRepository.BulkDeleteDownloadsByQueueID | internal/repository/repository.go:970-1001 | success deletes the scanned ids; what an error leaves, and every commit, is a stage of the bulk delete |
| Repository.QueueStageLive | internal/repository/repository.go:1003-1136 | no stage of a queue-scoped update has a stale entry or lacks a record |
| Planner.Plan | internal/planner/planner.go:11-40 | the loop fills the array with the planned ranges, as many as the configured connections if positive, else four; without ranges or length there is one open-ended one |
| Planner.ProductsBounded | internal/planner/planner.go:29-30 | no product exceeds the content length, so none overflows |
| Planner.OpenEndIff | internal/planner/planner.go:29-34 | a segment with end -1 is planned iff there are fewer bytes than connections |
| Planner.PlanIsTiling | internal/planner/planner.go:25-38 | otherwise segments are non-empty, adjacent, and run from the first byte to the last |
| Planner.PlanCoversContent | internal/planner/planner.go:25-38 | the slices in index order are the content |
| ContentRange.ParseIntPrinted | internal/service/runner.go:213-225 | printing and parsing a number below 2^63 is a round trip |
| ContentRange.CheckIsExact | internal/service/runner.go:198-237 | a well-formed header is accepted iff it starts at the requested byte and, with a known end, ends inside the range; the total plays no part |
| ContentRange.CheckOfAnyUnit | internal/service/runner.go:204-230 | for every unit and all numbers: only the unit bytes, in whatever case, is looked at, and a number beyond 64 bits is not held against the reply |
| ContentRange.ParseIntRange | internal/service/runner.go:213-225 | parsing takes a sign and refuses what does not fit in 64 bits |
| ContentRange.MalformedIsKept | internal/service/runner.go:204-212 | neither is a header without a slash or a hyphen |
| SegmentRunner.ChunkIsPrefix | internal/service/runner.go:204-315 | what a pass appends is a first part of the bytes asked for, from a 200 response, or from a 206 one with the right bytes under any header or with those that its header names |
| SegmentRunner.RetryLaw | internal/service/runner.go:129-344 | after any number of passes the part has grown by chunks that are all first parts of the same bytes |
| SegmentRunner.SuccessIsFullChunkIff | internal/service/runner.go:320-333 | for a success with a known end, the deciding pass appended all that was missing iff it was not one of an odd status |
| SegmentRunner.SuccessIsWholeIff | internal/service/runner.go:129-344 | a successful run that an odd status did not decide turns a correct prefix into the whole slice iff no reply before the deciding one brings a byte; otherwise the part is longer |
| SegmentRunner.SilentBeforeIff | internal/service/runner.go:154-344 | only the last pass of a success appended anything iff no accepted reply before the deciding one is non-empty |
| SegmentRunner.SilentIff | internal/service/runner.go:154-344 | a run appends nothing iff no reply it sees is accepted and non-empty |
| SegmentRunner.OpenEndIsWholeIff | internal/service/runner.go:320-333 | with an unknown end, a success is the whole rest iff the chunks join to it: for a lone reply iff it is complete, for a complete last one iff it is alone |
| SegmentRunner.NextReply | internal/service/runner.go:154-344 | what one more reply makes of a run that is still going, in terms of that reply: the verdict, the attempts and the bytes appended |
| SegmentRunner.RunningIff | internal/service/runner.go:154-344 | a run is still going iff all replies were failed attempts, those past the limit contradictions |
| SegmentRunner.VerdictIs | internal/service/runner.go:154-344 | the verdict of every run, by the first reply that does not keep it trying |
| SegmentRunner.GivesUpIff | internal/service/runner.go:176-183 | a run gives up iff, after replies that kept it trying, a part file did not open for a taken one, or one attempt more failed than there are retries, not by an odd status |
| SegmentRunner.RetriedRunSucceeds | internal/service/runner.go:176-196 | after at most as many network errors, contradictions and odd statuses as there are retries, a complete truthful reply succeeds and appends what was asked for |
| SegmentRunner.ResumedRunsStayCorrect | internal/service/runner.go:129-344 | over any number of paused and resumed runs that each see at most one reply with bytes, the part stays a prefix, and success makes it the slice |
| SegmentRunner.RetryDuplicatesBytes | internal/service/runner.go:305-333 | a run over "ab" that succeeds and leaves "aab" |
| SegmentRunner.StillRunningIff | internal/service/runner.go:154-344 | past the retry limit a run goes on iff it had not stopped within the limit and every reply since contradicts the request |
| SegmentRunner.NeverStopsIff | internal/service/runner.go:154-344 | against an endless series of replies, exactly when the loop never stops |
| SegmentRunner.MismatchNeverGivesUp | internal/service/runner.go:214-230 | a server that only contradicts keeps it going for ever |
| SegmentRunner.OddStatusSucceedsIff | internal/service/runner.go:173-196 | an odd status that meets a running loop ends it in success iff the retries are used up, and appends nothing |
| SegmentRunner.RetriedOddStatusIsHarmless | internal/service/runner.go:173-196 | an odd status that is retried, and then the right reply: the part is whole |
| SegmentRunner.OddStatusSucceedsEmpty | internal/service/runner.go:173-196 | a status below 400 other than 200 and 206 ends in success with nothing appended |
| FileStore.LocalFileStore.OpenSegmentWriter | internal/filestore/filestore.go:50-72 | the part exists afterwards, unchanged if it did, and its size is told |
| FileStore.LocalFileStore.ChooseTarget | internal/filestore/filestore.go:87-109 | the wanted name if free or to be overwritten, else the least free candidate; the search ends |
| FileStore.NameAsWanted | internal/filestore/filestore.go:214-221 | a wanted name is used as it is, and the id stands in for an empty one only |
| FileStore.ExtIsLast | internal/filestore/filestore.go:94-95 | the extension is what follows the last dot |
| FileStore.CandidateForm | internal/filestore/filestore.go:97 | the number goes in front of the last dot, or to the end of a name without one |
| FileStore.TakenCandidatesBounded | internal/filestore/filestore.go:96-104 | n taken candidates are n different files, so a free one is found |
| FileStore.LocalFileStore.MergeSegments | internal/filestore/filestore.go:79-150 | all or nothing: the target holds the parts joined in order, or no file but the temporary one changed; an existing file is replaced only on request; on a sound system it merges iff there are parts and a name to write to |
| FileStore.LocalFileStore.CopyAndRename | internal/filestore/filestore.go:117-146 | a failure at any step before or at the rename leaves every target file as it was |
| FileStore.MarkerIgnored | internal/filestore/filestore.go:113-116 | the merge marker does not change what is merged |
| Reassembly.DownloadSegment | internal/service/runner.go:129-351 | the loop over the file store does what `Run` says, to the verdict and to this part file, and to no other |
| Reassembly.OnePass | internal/service/runner.go:154-344 | one pass of the loop is `Pass`, and the part has grown by its chunk |
| Reassembly.PartsInOrderIff | internal/filestore/filestore.go:231-249 | the names of n parts sort into index order iff n is at most 10^9 |
| Reassembly.TenDigitsSortFirst | internal/filestore/filestore.go:55 | at ten digits they no longer do |
| Reassembly.JoinedInOrder | internal/filestore/filestore.go:126-136 | the merge is the concatenation of the parts by index |
| Reassembly.EndToEndIff | internal/service/runner.go:97-351 | for every non-empty content and every number of connections: when all segments succeed, the merged file is the content byte for byte iff no reply before the deciding one of any segment with a known end brings a byte, and the parts of open-ended ones were empty and are brought nothing |
| Reassembly.Download | internal/service/runner.go:28-54 | plan, fetch and merge in one: nothing is merged unless all segments succeeded, and then on a sound system it is; a merged target equals the content under exactly that condition, and otherwise no other file changed |
| Reassembly.DuesCoverContent | internal/planner/planner.go:19-39 | for every length and number of connections, the slices of the segments with a known end join to the content |
| Reassembly.WholeBodiesIff | internal/service/runner.go:97-351 | for a server that delivers whole bodies the merged file is the content iff there are no more connections than bytes |
| Reassembly.ShortContentRepeats | internal/service/runner.go:97-351 | otherwise such a server makes it the content once for each connection |
| Reassembly.ShortContentMayBeRight | internal/service/runner.go:97-351 | a truthful server that brings nothing to open-ended requests leaves it right |
| Reassembly.SingleStreamIff | internal/planner/planner.go:14-17 | for the single open-ended segment, on any server: a success gives the content iff the appended chunks join to what was missing |
| Reassembly.TruncatedSuccess | internal/service/runner.go:320-333 | any first part of a content passes for all of it when the reply ends there |
| Reassembly.DownloadSingle | internal/service/runner.go:28-54 | the same for plan, fetch and merge in one, without ranges or a known length |
| Reassembly.InterleavingInvisible | internal/service/runner.go:106-115 | however the passes of the segments interleave, each ends as if it had run alone |
| Reassembly.InterleavedParts | internal/service/runner.go:106-115 | and so does its part file |
| RateLimit.SimpleRateLimiter.Reserve | internal/ratelimit/ratelimiter.go:22-59 | the wait and the new bucket; unlimited keys change nothing |
| RateLimit.SimpleRateLimiter.SetLimit | internal/ratelimit/ratelimiter.go:61-72 | a full bucket of the new capacity |
| RateLimit.BucketBound | internal/ratelimit/ratelimiter.go:32-59 | on every run: tokens between 0 and capacity, bytes = drawn + owed, drawn at most capacity + capacity * elapsed |
| RateLimit.WaitsCover | internal/ratelimit/ratelimiter.go:52-56 | what is owed is covered by the waits up to one nanosecond's inflow a call |
| RateLimit.RequestFinds | internal/ratelimit/ratelimiter.go:36-56 | a request finds min(C, tokens + floor(C * elapsed)) tokens, takes what it can, owes the rest, waits while that flows in, and owes nothing iff it asks for no more than it finds |
| RateLimit.InflowIsGranted | internal/ratelimit/ratelimiter.go:37-46 | from below: while no inflow is lost, drawn + left is at least C + C * elapsed, but for a byte a request |
| RateLimit.SequentialCallerBound | internal/ratelimit/ratelimiter.go:32-59 | a caller that honours its waits reserves at most C + 2CT, its last wait and that rounding |
| RateLimit.WaitIsGrantedTwice | internal/ratelimit/ratelimiter.go:37-56 | the factor 2 is reached for as long as one likes: for every C and k, a caller that honours its waits has 2C(k + 1) bytes after k seconds |
| RateLimit.NeverOwingStaysWithin | internal/ratelimit/ratelimiter.go:47-56 | a caller whose requests never exceed the tokens there are stays within C + CT and never waits |
| RateLimit.DebtWithinInflow | internal/ratelimit/ratelimiter.go:47-56 | one that owes may stay within it too |
| RateLimit.BurstIff | internal/ratelimit/ratelimiter.go:47-56 | at one instant, requests stay within C iff none is owed anything |
| RateLimit.SafeSpan | internal/service/runner.go:438-448 | the bytes reserved are the length of a known range, never negative, and a mebibyte for an unknown end |
| Events.InMemoryPublisher.Publish | internal/events/publisher.go:19-33 | the loop over the listeners is the step of the model |
| Events.InMemoryPublisher.Subscribe | internal/events/publisher.go:35-40 | a new channel at the end of the list of each kind |
| Events.InMemoryPublisher.CancelRemove | internal/events/publisher.go:41-53 | the first occurrence goes from the list of each kind |
| Events.RunOrderly | internal/events/publisher.go:19-57 | however cancels overlap and whatever types are named, a cancelled channel is in no list; with each cancel called once nothing is sent on a closed channel and none is closed twice |
| Events.ListsRefineMailboxes | internal/events/publisher.go:19-57 | the shared lists deliver to each subscriber what a mailbox of its own would hold |
| Events.StreamIsOrdered | internal/events/publisher.go:23-31 | a stream is an order-preserving subsequence of the events heard, each as often as its type was named, and as many are missing as met a full buffer |
| Events.DropsOnlyAt64 | internal/events/publisher.go:26-36 | a buffer holds 64 events at most, and copies are dropped only when they leave it with 64 |
| Events.DistinctKindsStream | internal/events/publisher.go:23-40 | with distinct types it is one of the matching events published |
| Events.DistinctKindsIff | internal/events/publisher.go:23-40 | it is so on every run iff the types are distinct |
| Events.RepeatedKindHearsTwice | internal/events/publisher.go:38-40 | a type named n times has its first event delivered n times |
| Events.DrainedSubscriberMissesNothing | internal/events/publisher.go:26-29 | a subscriber whose buffer is never full gets everything |
| Events.PanicsIff | internal/events/publisher.go:41-55 | on every run, overlapping cancel calls included, the program panics iff some cancel function is called a second time |
| Lifecycle.StickyIff | internal/service/runner.go:354-419 | a paused or cancelled status survives every interleaving of steps that do not address the id iff no run of it with a live context can still write |
| Lifecycle.QuietSteps | internal/service/download.go:72-142 | without such a run no later step touches the status, and none makes such a run |
| Lifecycle.LiveRunWrites | internal/service/runner.go:354-419 | what a run with a live context stores: its copy as it is, completed, or failed; its monitor the copy, as long as there are messages |
| Lifecycle.FetchOutcome | internal/service/runner.go:28-36 | a run gets to work with its record iff its context is live and the record is there |
| Lifecycle.CallsChange | internal/service/download.go:106-160 | what a status change, an edit and a removal make of the record |
| Lifecycle.CallsKeepOthers | internal/service/download.go:106-160 | they touch no other record, no entry and no run |
| Lifecycle.OtherwiseNothing | internal/service/runner.go:354-419 | a cancelled run writes nothing, nor one whose download is gone, and none writes another download |
| Lifecycle.GuardedRunRegistered | internal/service/download.go:72-131 | when runs are launched only on ids without a live one, at most one run of an id is alive and the cancel entry is its own |
| Lifecycle.PauseIsStickyIff | internal/service/download.go:106-114 | in a guarded run Pause and Cancel are sticky iff no run of the id that ended by itself has progress messages left to write |
| Lifecycle.MonitorUndoesPause | internal/service/runner.go:354-379 | a guarded run in which such a message undoes a Pause |
| Lifecycle.LateExitUndoesPause | internal/service/download.go:116-131 | an unguarded Resume after which the next Pause does not hold |
| Lifecycle.LaunchIsTwoSteps | internal/service/download.go:83-103 | Start and Resume are the status and then the registration, which are steps of their own when other calls come between |
| Lifecycle.PauseInsideStart | internal/service/download.go:83-103 | from every state, a Pause between those two is undone by the run registered after it |
| Lifecycle.WriteBackIsRequeueIff | internal/service/workers.go:66-74 | writing back a listed copy is a requeue iff the record is still that copy or already requeued; a Pause between is overwritten |
| Lifecycle.RemovalIsPermanent | internal/service/download.go:144-158 | after a delete no step but a create or the blind phase of a bulk update brings the id back |
| Service.UpdateById | internal/repository/repository.go:513-545 | a repository update is the lifecycle's single-record update |
| Service.DeleteById | internal/repository/repository.go:803-826 | a repository delete is the lifecycle's removal |
| Service.DownloadService.UpdateStatus | internal/service/download.go:277-297 | reads and rewrites one record in one transaction; a missing one is an error |
| Service.DownloadService.Start | internal/service/download.go:72-104 | the step `Start`: nothing if the id has a cancel entry, else running, a new run and its entry; with a live context it succeeds iff there is an entry or a record |
| Service.DownloadService.Resume | internal/service/download.go:116-131 | the step `Resume`, which does not look for an entry |
| Service.DownloadService.Register | internal/service/download.go:92-102 | the step `Register`: a new run and a cancel entry over whatever was there |
| Service.DownloadService.Pause | internal/service/download.go:106-114 | the signal, then the status; the signal has been given even when the status fails |
| Service.DownloadService.Cancel | internal/service/download.go:134-142 | likewise |
| Service.DownloadService.Remove | internal/service/download.go:144-158 | the record goes, its run goes on |
| Service.DownloadService.AddTags | internal/service/download.go:221-243 | the record's tags become `Added`, all else stays |
| Service.DownloadService.RemoveTags | internal/service/download.go:245-264 | the record's tags become `Removed` |
| Service.DownloadService.FetchRecord | internal/service/runner.go:28-36 | the step `Fetch`: a run reads its record, or is past its last write iff its context was cancelled or the record is gone |
| Service.DownloadService.StoreCopy | internal/service/runner.go:354-419 | the step of the action: a run or its monitor stores its whole copy, unless its context was cancelled or the record is gone |
| Service.DownloadService.EndRun | internal/service/download.go:97-102 | the end of a run drops the entry of its id, whoever put it there |
| Tags.AddedIsUnion | internal/service/download.go:221-243 | the old tags stay in place, the folded tags become the union with the non-empty new ones, and none is there twice unless it was |
| Tags.RemovedIsDifference | internal/service/download.go:245-264 | exactly the listed tags go, in whatever case |
| Tags.RemovedKeepsDistinct | internal/service/download.go:245-264 | what is left was there before, and nothing comes to be there twice |
| Tags.RemoveUndoesAdd | internal/service/download.go:221-264 | removing what was added is removing it from the tags before the add, order included |
| Scheduler.CountIn | internal/service/workers.go:88-92 | the repository count is the number of downloads of that queue and status, or with an error at most that |
| Scheduler.PageIsNewest | internal/service/workers.go:99-100 | the page of queued downloads holds the newest ones that fit, in whatever order it is sorted |
| Scheduler.ListQueued | internal/service/workers.go:99-100 | and it comes in order of priority, the newer one of two that are equal first |
| Scheduler.RunningPage | internal/service/workers.go:66 | the page of running downloads has distinct stored ones, and all of them up to 1000 |
| Scheduler.RequeueStale | internal/service/workers.go:64-74 | only running downloads that were not updated for longer than the timeout, or never, go back to queued, and all of them when at most 1000 are running |
| Scheduler.ServeQueue | internal/service/workers.go:75-107 | the newest queued downloads that fit into the free slots are started in order of priority, those with a cancel entry passed over; the four counts from before are what is stored afterwards; with a live context nothing is left undone |
| Scheduler.Tick | internal/service/workers.go:59-108 | requeueing, then each unpaused queue in turn; always a run of requeue and start steps, and clean with a live context |
| TickLaws.TickLeavesOthers | internal/service/workers.go:75-79 | a tick touches no download of a queue that is paused or not listed |
| TickLaws.TickFillsQueue | internal/service/workers.go:82-107 | with most = concurrency, or 1 if that is not positive: running' is at most max(most, running), and equals running + min(max(0, most - running), queued) iff none of the newest downloads that fit has a cancel entry |
| TickLaws.TickConservesWork | internal/service/workers.go:75-107 | with no cancel entry among the queued ones the equation holds |
| TickLaws.PausedQueueUntouched | internal/service/workers.go:77-79 | nothing of a paused queue changes |
| TickLaws.PriorityRespectedIff | internal/service/workers.go:99-106 | what is picked respects priorities, whatever they are, iff no queued download fits or all do |
| TickLaws.ServedUnderAllPrices | internal/service/workers.go:99-106 | a turn of a queue is the same turn under all priorities |
| TickLaws.TurnStartsTheSame | internal/service/workers.go:99-106 | every turn from the same downloads under any priorities starts the same set |
| TickLaws.TurnByPriorityIff | internal/service/workers.go:99-106 | with no cancel entry among the queued ones, every turn under all priorities starts by priority iff there is no slot or one for each queued download |
| TickLaws.LowerPriorityStarts | internal/service/workers.go:99-106 | a tick that starts the lower priority of two |
| TickLaws.TickKeepsPause | internal/service/workers.go:59-108 | ticks keep a paused or cancelled download as it is |

## Left out

- Badger itself: transactions are atomic and do not conflict, stored JSON reads back as it was written, and of the write batch it is assumed that entries commit in order, perhaps before a flush, and that it can be used again after one.
- Storage errors other than cancellation and missing records.
- Upper-case letters beyond ASCII: case folding of tags and search texts is ASCII; strings are sequences of bytes.
- Creation times before 1970 or after 2262, whose keys do not have 20 digits in order.
- Bulk.BulkUpdateIsFold: is about distinct ids; a repeated id has its old record read only once, and `Repeats.BulkUpdateConsistentIff` says when that does no harm. `Bulk.UpdateStageLive`, `Bulk.CreateStageLive` and the steps of `Runs` also name each id once, and creates there are of new ids.
- Bulk calls also stamp the caller's slice; only what they store is modelled.
- The HTTP client, TLS, proxies, headers, mirrors and redirects; replies are inputs.
- The default of three retries: the limit is an input of the segment loop. The sizes of chunks and flushes in bulk writes play no part in any property.
- Backoff, jitter, sleeps and the rate-limit waits inside the segment loop.
- Checksums of segments and files, `MaxFileSize` (taken as 0), and copy buffers.
- Directories and path cleaning: the part directory and the target directory are apart, the download's record has file options, and looking up a target fails only when it does not exist.
- Floating-point rounding in the token bucket: products and quotients are exact and rounded down.
- Reassembly.DownloadSegments: runs the segments one after the other; that interleaving them makes no difference is `InterleavingInvisible` and `InterleavedParts`.
- Scheduler.Tick: is one atomic step; a real tick lists, then writes, so a record that changes in between is overwritten with what was listed. `Lifecycle.WriteBack` is that write as a step of its own. A count that fails is used as far as it had got, as in the code, and such a tick is not clean.
- Rate limits that Start and the tick set, and the events that status changes publish inside their transaction.
- Service.DownloadService.Start: is the check, the status and the registration with no other call between them; the parts are steps of `Lifecycle` of their own.
- A runner whose record is missing when it reads it reports failure with a record of its own; no record of that id is assumed to be created just then.
- Queue and segment rows beyond their keys, queue statistics other than saving them, configuration and request updates of a download.
- API, SSE, authentication, command line, daemon and shutdown.
