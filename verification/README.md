# Verified model of the file store's coordination logic

The repository runs a Telegram file store: a monitor keeps a ring of storage channels, dispatchers deliver
files, an index bot registers uploads, an upload bot copies batches, and an admin application guards all of it
with one-time codes, signed receipts, sessions and rate limits. This project models the parts in which those
programs have to agree with each other through a shared store, and proves what they keep.

Code that changes state step by step is a class or a method with loops, proved against specification functions;
code that only computes is a function. Where several handlers, processes or crashes interleave, the module also has
an explicit state machine with a theorem over all its runs, and where a desired property is false of the code there is
a concrete run that breaks it and the exact condition under which it holds.

| file | what it models |
|---|---|
| Topology.dfy | the generator: sliding-window pairing with one cursor per account, layout, ring fill |
| Cells.dfy, Rotation.dfy, Ring.dfy | the monitor's rotation: ring walk, plan, batched updates with the cache aliasing the list being read, ring rebuild, pointer cleanup |
| RotationPointers.dfy | the ring pointers a rotation's first batch leaves, and what they mean when the rebuild is lost |
| GeneratedRotation.dfy | the rotations of a freshly generated topology |
| Monitor.dfy | the monitor's main loop: cached list, banned channels and spares, degrade check with failover, rotation check, recovery of lost rows, failing writes and rounds ended by an exception |
| Validator.dfy | topology rules 1, 3 and 4, and what a rotation means for them |
| Delivery.dfy | single-file delivery: claim, write-ahead receipt, effect receipt, confirm, retry, crash, reclaim |
| UploadClaims.dfy | pending uploads: claim, handle, commit or fail, crash, stale reset |
| CodeChanges.dfy | the compiler from a list of changes to one UPDATE ... CASE ... IN, and the buffer it drains |
| Totp.dfy, TotpVerification.dfy | replay protection of one-time codes across processes and cleanup; the verification built on it and on the limiter |
| SlidingWindow.dfy, Limiters.dfy, Restarts.dfy | one sliding-window theorem and the three limiters built on it |
| Base64Url.dfy, Receipts.dfy | the token codec and the issue, verify and consume path of MFA receipts |
| QueryCache.dfy | the TTL and LRU cache as a refinement of a timed map that never evicts |
| FlushBuffers.dfy | the two write-behind buffers and their conservation laws |
| BatchCopy.dfy | the batch copy planner: albums, types, chunks, fallbacks |
| Sessions.dfy | the session lifecycle under interleaved stale saves |
| Passwords.dfy, Text.dfy | password strings: printing, parsing, verifying |

Parameters of the model: the clock, generated codes, ids and salts, every outcome of a Telegram or store call, HMAC,
PBKDF2, one-time-code generation, the JSON printer and parser, the lenient part of the language's integer and base64
parsers, and the points at which a process dies.

## Where code and documentation differ

The model follows the code.

- The generator's comments promise three different accounts per group; that holds exactly from three accounts up, which the code does not check.
- A receipt may be asked to live 120 to 300 seconds; the verifier refuses it after 60, because the issue time must lie within the clock skew.
- The previous signing key is kept so that receipts survive a key rotation; a token names the id of the key it was signed with, which is never "previous", so no issued token is ever checked with the previous key, and one issued before a rotation passes after it only if the new key happens to give the same signature.
- A pause for a failed receipt write does not wait for an operator: the retry of the same attempt overwrites the paused status, unless the process dies before it or its write fails; then nothing ever takes the job out of the pause.
- Every send is to be preceded by a persisted PENDING receipt; the store swallows a failed write of it, and the send that follows, and a second one after a crash, leave no trace of it. SendInsideEffect and NextCounts give the exact condition.
- A code changed twice within one batch keeps the older value, and both changes are marked synced.
- A change whose copy into file_records fails is marked synced all the same and is never copied later; it is copied exactly when no pass marked it before the copy got through.
- A woken row is to inherit the ring pointer of its group's a slot; when the a slot is the row being rested and the list is the cached one, the update has already cleared that pointer, so the row wakes without one until the ring is rebuilt. In a generated topology every rotated row is such a row.
- The zip of sources and copies takes a response to cover a prefix of the request; a message skipped in the middle shifts every later id, and a fallback over several chats looks for all messages in the first.
- A rotated session id stays valid when both saves of the old record fail silently, although a new id is returned.
- The store answers a failed receipt read with an empty list, so a swallowed read error is one more way to a second send.
- The MFA limiter's in-process list is dropped even when the table cannot be cleared and the verification is refused.
- The login limiter with a limit of 0 still evaluates an attempt whenever its pruned list is empty.

## Model

| member | source | states |
|---|---|---|
| Topology.AccountOfRead | config/generate_topology.py:161-173 | the account a pool read goes to is one of the n accounts |
| Topology.UsesTotal | config/generate_topology.py:119-123 | with c channels an account and 3 dividing c, all reads together use every account exactly c times, c / 3 times in each role |
| Topology.ReadInPool | config/generate_topology.py:166-173 | no read goes past the end of a pool |
| Topology.EveryPositionReadOnce | config/generate_topology.py:161-181 | every position of every pool is read, and by exactly one read |
| Topology.ReadOfChannel | config/generate_topology.py:161-181 | every channel of every account is the channel of exactly one read |
| Topology.ThreeAccountsPerGroup | config/generate_topology.py:162-164 | losing any one account costs every group at most one of its three channels if and only if there are at least three accounts |
| Topology.PairGroups | config/generate_topology.py:149-181 | the cursor loop gives each group exactly the channels of its three reads and never indexes out of a pool |
| Topology.TakeGroup | config/generate_topology.py:162-173 | one round of the loop takes the group's three channels and moves the three cursors to the counts of reads so far |
| Topology.TakeChannel | config/generate_topology.py:166-167 | one read takes the channel under the cursor and moves only that account's cursor |
| Topology.BuildSlots | config/generate_topology.py:203-237 | three rows a group with the right names, statuses and the shadow2 pointer |
| Topology.FillRing | config/generate_topology.py:239-246 | the search-and-assign loop points every active row at the next group's active channel and changes nothing else |
| Topology.Generate | config/generate_topology.py:107-246 | fails with the first failing check, and otherwise yields a table with unique slots over all rows, one active row a group, and one ring through all active rows |
| Topology.EveryChannelPlacedOnce | config/generate_topology.py:161-246 | every configured channel is in exactly one row of the finished table, the r100 rows included |
| Topology.GeneratedRing | config/generate_topology.py:239-246 | the finished table, r100 rows included, has unique slots and one active row a group, and the filled pointers make the active channels one single cycle through all groups |
| Topology.RowSlot | config/generate_topology.py:203-236 | a row's slot name parses back to its group and to its place in the group |
| Topology.SlotsDiffer | config/generate_topology.py:203-236 | no two group rows share a slot name, and no two of one status share a group |
| Topology.TableSlotsDiffer | config/generate_topology.py:203-294 | no two rows of the finished table share a slot name, the r100 rows included, and no two of one status share a group |
| Ring.RingIsSingleCycle | config/generate_topology.py:239-246 | if each member of a duplicate-free list points at the next round the list, the pointers reach every member from every member |
| Rotation.GroupSlots | services/mon/scheduler.py:230-250 | the triples hold, for every group, the last row at each of its three positions |
| Rotation.NextPromotable | services/mon/scheduler.py:259-276 | what is promoted is a shadow1 of the group, what is cascaded the group's shadow2, and nothing is promoted exactly when neither shadow slot is a shadow1 |
| Rotation.WakesFirstShadow | services/mon/scheduler.py:259-276 | what a rested row wakes: the shadow1 in the s1 slot before one in the s2 slot, and only with the former the shadow2 in the s2 slot moves up |
| Rotation.Walk | bots/mon_bot.py:898-907 | following pointers from any row ends on every pointer graph, without repeats, stops only where the ring ends, and is the walk the ring order is made of |
| Rotation.RingOrder | bots/mon_bot.py:898-911 | the ring order: the walk and then the rows it did not reach; no repeats, the trigger first, a permutation of the active rows when their channels differ |
| Rotation.RingOrderFacts | bots/mon_bot.py:898-911 | the order follows the ring until it ends, and leaves a row out only when a listed row carries the same channel id |
| Rotation.MakePlan | bots/mon_bot.py:923-958 | the plan rests exactly the window's grouped rows, wakes the promotable shadow of each, and cascades that group's shadow2; the repairs are those of each woken row's predecessors, in window order |
| Rotation.RepairsOf | bots/mon_bot.py:953-956 | exactly the predecessors that are not rested themselves are re-pointed, all at the replacement |
| Rotation.PromotesIffWakeable | bots/mon_bot.py:936-962 | something is promoted exactly when a row of the window has a shadow to wake |
| Rotation.MonBot.UpdateCellInCache | bots/mon_bot.py:174-182 | the update reaches the list being read exactly when that list is still the cached one |
| Rotation.MonBot.BatchUpdateCells | database/cache_store.py:6251-6328 | a batch is applied in order as a whole or, when it fails, not at all |
| Rotation.MonBot.ApplyPlan | bots/mon_bot.py:964-1033 | the batch, value by value: rest, wake, cascade, repair, with each pointer read as it stands at that moment, which depends on whether the list being read is the cached one |
| Rotation.BatchOutcome | bots/mon_bot.py:964-1043 | applied to the table, the batch gives every row the status, the counters and the pointer of the plan |
| Rotation.MonBot.RebuildRing | bots/mon_bot.py:1047-1075 | every active row points at the next active row in group order, the last at the first; statuses and all other pointers stay |
| Rotation.MonBot.ClearStalePointers | bots/mon_bot.py:1077-1094 | exactly the pointers of rows neither in use nor shadow2 that do not lead to an active channel are cleared; all others stay |
| Rotation.CleanInFields | bots/mon_bot.py:1077-1094 | what clean pointers are: a row neither in use nor a shadow2 points nowhere or at an active channel, and nowhere when fewer than two rows are active |
| Rotation.MonBot.ChooseWindow | bots/mon_bot.py:856-921 | from the first active row that has its files or its time there is a window exactly when the ring order from it has enough rows, and it is the first rows of that order; without such a row there is none |
| Rotation.WindowIffEnough | bots/mon_bot.py:856-921 | with distinct channels there is a window exactly when some active row has reached its file count or its time and enough rows are active |
| Rotation.ReachedFirstRotates | bots/mon_bot.py:864-962 | in fields: from the first active row whose count reached files_per_slot or that has run for time_per_slot, there is a rotation exactly when the ring order has window-size rows and one of them has a shadow to wake; the window starts with that row |
| Rotation.SomeReachedFirst | bots/mon_bot.py:864-885 | either no active row has reached a limit, or there is a first one that has |
| Rotation.MonBot.FinishRing | bots/mon_bot.py:1047-1094 | after rebuild and cleanup the active rows form one ring and stale pointers are gone, as far as the two writes go through |
| Rotation.MonBot.CheckRotation | bots/mon_bot.py:850-1102 | never rotates while no active row has reached its file count or its time; otherwise rotates exactly when the ring order from the first such row is long enough and some row of the window has a shadow to wake; then it keeps at most one active row a group, leaves exactly the statuses and counters of its plan, closes the ring and cleans pointers, and without the rebuild leaves exactly the pointers of the first batch; when it does not rotate it changes nothing |
| Rotation.RotationOutcome | bots/mon_bot.py:936-1043 | a rested group with a promotable shadow ends with exactly that row active, one without ends with none, and every other group keeps its statuses |
| Rotation.RotationCounters | bots/mon_bot.py:971-1019 | a woken row counts files and time from zero and is not due at once for any positive limits, and the row it replaces names its channel |
| Rotation.RolesInFields | bots/mon_bot.py:971-1026 | row by role: what becomes of status and counters of a rested, a woken, a cascaded and any other row |
| Rotation.RingPointersCycle | bots/mon_bot.py:1051-1072 | ring pointers over the active rows with distinct channels make their channels one single cycle |
| Rotation.RingSurvives | bots/mon_bot.py:1077-1091 | the cleanup writes do not break the rebuilt ring |
| Rotation.SortByGroupLists | bots/mon_bot.py:1055-1058 | the group sort lists every active row once, in group order |
| RotationPointers.NullPointerIff | bots/mon_bot.py:985-1017 | exactly when the first batch leaves a woken row without a pointer: with a cached list, when the group's a slot is missing, points nowhere or was rested itself; with a list of its own, when neither the a slot nor the rested row points anywhere |
| RotationPointers.InheritedInFields | bots/mon_bot.py:985-1003 | the pointer a woken row takes over: its group's a slot's when that points anywhere, otherwise the replaced row's |
| RotationPointers.PredecessorFollows | bots/mon_bot.py:948-1031 | with channels that differ, every active row that stays and pointed at a rested row points at the row woken for it |
| RotationPointers.LostRebuildOpensRing | bots/mon_bot.py:1028-1075 | when the first batch is written and the rebuild is not, such a row is active without a pointer, the ring is not closed, and the closure rule reports the row |
| RotationPointers.WokenWithoutPointer | bots/mon_bot.py:985-1043 | a concrete table of two groups in a ring: after the first batch of its first rotation the woken row has no pointer and the ring is gone |
| GeneratedRotation.MustRotateIff | bots/mon_bot.py:850-962 | a generated topology rotates exactly when some active row has reached its file count or its time and the window is not empty and no longer than the number of groups |
| GeneratedRotation.FirstRotationOpensRing | bots/mon_bot.py:985-1075 | after any rotation of a generated topology of two groups or more with the list cached and the rebuild lost, every woken row is active without a pointer and reported, and there is no ring |
| Monitor.DegradeOutcome | services/mon/scheduler.py:276-342 | a degraded group ends with exactly the woken row active, or with none when there was nothing to wake; it inherits the pointer of the failed row, whose predecessors point at it; other groups keep their statuses |
| Monitor.FailoverRows | services/mon/scheduler.py:250-276 | which rows a failover concerns: the active row of the group, the shadow1 in its s1 slot before one in its s2 slot, and the shadow2 behind the former |
| Monitor.FailoverInFields | services/mon/scheduler.py:276-342 | row by row: the failed one lost, without a pointer and with one failure more, the woken one with its pointer and count, the predecessors pointing at the woken channel, the next shadow moved up, every other row unchanged |
| Monitor.DegradeStep | services/mon/scheduler.py:276-353 | one failover on the list at once and in the table when the write goes through |
| Monitor.Scheduler.DegradeGroup | services/mon/scheduler.py:276-353 | the failover reaches the list at once and the table as a whole or not at all, row by row as specified |
| Monitor.Scheduler.FailOver | services/mon/scheduler.py:167-226 | one confirmed failure is one failover step; nothing changes for a group without an active row |
| Monitor.Scheduler.RunDegradeCheck | services/mon/scheduler.py:145-228 | the degrade check is the sequence of failover steps of the groups that fail, each decided on the list the earlier ones left |
| Monitor.Scheduler.Transition | database/cache_store.py:6425-6480 | the row changes exactly when it has the expected status and the store works, or when the fallback forces it; the monitor takes it as changed unless it is refused |
| Monitor.Scheduler.ReplaceOrLose | bots/mon_bot.py:612-778 | what becomes of the table, in fields: the row of a banned channel is lost and points nowhere, or has the channel of the spare, the status it had, no files and a new start; no other row changes but for the one pointer at the old channel |
| Monitor.BanInFields | bots/mon_bot.py:612-778 | the table after a ban, row by row and field by field, for every outcome of its writes |
| Monitor.BanStep | bots/mon_bot.py:1302-1371 | one step of a heartbeat: which rows are looked at, and what a ban leaves of table, cache and list |
| Monitor.RecoverStep | bots/mon_bot.py:787-840 | one step of a recovery, on the rows the list shows as lost |
| Monitor.LossInFields | bots/mon_bot.py:745-772 | what others do to the rows they mark lost |
| Monitor.PointerIsFixed | bots/mon_bot.py:690-712 | a pointer at the replaced channel is found and fixed when there is one |
| Monitor.Scheduler.RecoverRow | bots/mon_bot.py:796-840 | a recovered row is a shadow2 that points nowhere, with its counters cleared; no other row changes |
| Monitor.Scheduler.Heartbeat | bots/mon_bot.py:1302-1383 | each banned channel is one step decided on the list as it was read, although the list changes under the loop; after the pass no banned row without a spare is active unless its update could not be made at all; the list is used up exactly when there was a ban |
| Monitor.Scheduler.RecoverLost | bots/mon_bot.py:780-840 | each recovery is one step on a row the list showed as lost; the list is used up exactly when one was applied |
| Monitor.UnseenActiveBreaksRotation | bots/mon_bot.py:850-1043 | why a list must not be rotated on when its failover never reached the table: the row still active there stays active beside the woken one |
| Monitor.RunKeepsInv | bots/mon_bot.py:612-840 | over every run of loads, rows marked lost by others, banned channels replaced or lost, failovers, rotations and recovered rows, with any writes failing and conditional updates forced or not, no group ever has two active rows, no row is added or dropped, and channels change only where a banned one is replaced |
| Monitor.Scheduler.MainLoop | bots/mon_bot.py:1145-1300 | any number of rounds, each ended by an exception in any phase or completed, is exactly the run of their events, so the table they leave has at most one active row a group |
| Validator.SeveralActiveGroups | bots/mon_bot.py:1467-1480 | reports exactly the groups with two active rows |
| Validator.RowsPointingAtLost | bots/mon_bot.py:1496-1506 | reports exactly the rows that point at a lost channel |
| Validator.RowsOffRing | bots/mon_bot.py:1508-1523 | reports exactly the active rows that break the closure rule |
| Validator.SeveralActiveNever | bots/mon_bot.py:1476-1480 | the rule is silent exactly in the states a rotation keeps |
| Validator.RuleFourAfterRotation | bots/mon_bot.py:1508-1523 | after a rebuild the closure rule is silent unless a single active row is left that points at another channel, and then it is not |
| Validator.RingAvoidsLost | bots/mon_bot.py:1496-1506 | in a ring no active row points at a lost channel |
| Delivery.SingleFileJob.MarkDispatched | database/cache_store.py:5905-5919 | the claim succeeds exactly when it moved the job from pending to dispatched |
| Delivery.SingleFileJob.UpsertPending | bots/dsp_bot.py:194-228 | an existing receipt is replaced by a PENDING one; a swallowed failure still reports success |
| Delivery.SingleFileJob.Confirm | bots/dsp_bot.py:231-250 | a confirmation reaches the row or counts as lost; it is never raised |
| Delivery.SingleFileJob.SendInsideEffect | bots/dsp_bot.py:1139-1305 | sends exactly when the effect is entered, not completed, and the message goes out, with every counter exact |
| Delivery.SingleFileJob.ProcessSingleJob | bots/dsp_bot.py:1082-1305 | the single-file path is its specification, branch by branch: never a send when a delivered receipt is seen, the effect is completed or the PENDING write raised |
| Delivery.SingleFileJob.Settle | bots/dsp_bot.py:880-968 | the status after the single-file path: done only after a delivery whose write succeeds, otherwise pending again or dead, or unchanged, a pause included, when that write is lost |
| Delivery.SingleFileJob.RetryOrBury | bots/dsp_bot.py:955-968 | back to pending with a higher retry count, or dead at three |
| Delivery.SingleFileJob.SendOneJob | bots/dsp_bot.py:819-976 | an attempt is its specification; exactly when it sends, sends without a receipt, and leaves the job paused |
| Delivery.SingleFileJob.Step | bots/dsp_bot.py:979-1079 | every event acts as specified; only an attempt of a claimed job sends, once, and over a delivered receipt only after a swallowed read error |
| Delivery.SingleFileJob.Run | bots/dsp_bot.py:819-1305 | any list of events leaves exactly the state of the machine, and its bounds hold |
| Delivery.NextCounts | bots/dsp_bot.py:819-1305 | the exact condition, in terms of the state and the faults of the event, for a send, a lost confirmation, an unseen delivered receipt and a send without a receipt |
| Delivery.AttemptCounts | bots/dsp_bot.py:819-976 | the same for one attempt: each counter moves by exactly its condition |
| Delivery.SendsBounded | bots/dsp_bot.py:819-1305 | over every run, sends number at most one plus lost confirmations plus unseen delivered receipts, sends without a persisted PENDING receipt at most the swallowed write errors, and a job marked done was sent |
| Delivery.SentOnce | bots/dsp_bot.py:1082-1305 | a run in which no confirmation is lost and no delivered receipt goes unseen sends at most once |
| Delivery.DeliveredNotResent | bots/dsp_bot.py:1090-1118 | a message with a delivered receipt is sent again only when the read of the receipt failed silently |
| Delivery.PauseOverwritten | bots/dsp_bot.py:253-272 | for every attempt of a claimed job: it leaves the job paused exactly when it wrote the pause and the status of its retry is lost; otherwise a pause ends pending or dead |
| Delivery.PausedIff | bots/dsp_bot.py:253-272 | over every run, a job is paused if and only if some attempt of the run wrote the pause and lost the status of its retry |
| Delivery.PausedForGood | bots/dsp_bot.py:253-272 | a paused job stays paused and is not sent again, whatever events follow |
| Delivery.PauseHasTwoEnds | bots/dsp_bot.py:1115-1123 | two concrete runs of the same failed receipt write: the pause is overwritten by the retry, or the process dies first and the pause lasts through any later events |
| Delivery.AttemptSettles | bots/dsp_bot.py:955-968 | an attempt that returns with its status write done leaves the job neither paused nor claimed |
| Delivery.EarlyEnds | bots/dsp_bot.py:819-880 | an attempt that ends before the single-file path: dead after three tries, waiting for the user to start with nothing else changed, done when known as delivered, back or dead without a place to send |
| Delivery.WaitingJobIsDelivered | bots/dsp_bot.py:819-976 | over every run, a job whose user had not started is pending again after the start, no retry counted, and is delivered by the next faultless attempt, with one send if it was never sent |
| Delivery.OtherEvents | database/cache_store.py:5905-5990 | what claims, reclaims, a start by the user, a retry of a dead job and a restart do to the job |
| Delivery.PassInFields | bots/dsp_bot.py:1082-1138 | up to the effect: what an unreadable, a delivered and a new receipt lead to, and what each crash and failed write leaves |
| Delivery.EffectInFields | bots/dsp_bot.py:1139-1250 | inside the effect: a completed one is not run again, a refused message marks its receipt failed, a broken call breaks the effect |
| Delivery.SendingInFields | bots/dsp_bot.py:1251-1305 | after the message went out: which receipt and which effect remain for every crash and failed write, and what is reported |
| Delivery.EndInFields | bots/dsp_bot.py:880-968 | how the attempt ends: done, dead at once for what no retry mends, one retry more or dead after the third, or unchanged when the status cannot be written |
| Delivery.FaultlessAttemptDelivers | bots/dsp_bot.py:819-976 | a faultless attempt delivers and confirms a job not delivered before with exactly one send, and marks a delivered one done without a send |
| Delivery.SwallowedReadSendsAgain | database/cache_store.py:5230-5250 | a concrete run: claim, a send that is confirmed before the process dies, reclaim, claim, and an attempt whose reads fail silently; no confirmation is lost and the confirmed message is sent twice |
| Delivery.SwallowedWriteSendsBare | bots/dsp_bot.py:1115-1123 | concrete runs with a swallowed write error: a job done with no receipt at all, and a message sent twice because a crash after such a send leaves nothing behind |
| UploadClaims.ClaimPending | database/cache_store.py:3105-3197 | claims the first claimable rows in id order, up to the limit, and no others |
| UploadClaims.ClaimInFields | database/cache_store.py:3105-3197 | a claim takes exactly the waiting rows with fewer than limit waiting rows before them, and changes only their stage and time |
| UploadClaims.ResetInFields | database/cache_store.py:3259-3288 | a reset returns exactly the rows claimed more than 300 seconds ago |
| UploadClaims.LocalStore.CommitPolled | bots/idx_bot.py:965-1010 | one transaction: record, code and row together or nothing; failures to log a change are swallowed |
| UploadClaims.LocalStore.FinalizeUpload | bots/idx_bot.py:731-751 | every failing write, the change log included, rolls everything back |
| UploadClaims.FinalizedInFields | bots/idx_bot.py:965-1010 | what a committed transaction leaves in the five tables, and that it leaves everything else |
| UploadClaims.SettledInFields | bots/idx_bot.py:828-964 | what each end of a handler makes of its row |
| UploadClaims.HandlersAfter | bots/idx_bot.py:1202-1252 | which handlers are at work after each event |
| UploadClaims.DoneIffCommittedOnce | bots/idx_bot.py:1202-1252 | in every reachable state in which no handler outlived the claim timeout, a well-formed row is done exactly when one transaction was committed for it, and no row is lost |
| UploadClaims.CommitMatchesTables | bots/idx_bot.py:965-1000 | a committed transaction is the protocol's step on the tables: its record, its code and its row |
| UploadClaims.TablesFollow | bots/idx_bot.py:965-1010 | every step of the protocol, inserts, claims, commits, failures, crashes and resets, keeps the tables in step with it |
| UploadClaims.LogsFollow | bots/idx_bot.py:965-1000 | over every run the change logs hold exactly what the commits logged, in order |
| UploadClaims.DoneIffOneRecord | bots/idx_bot.py:965-1000 | in every reachable state in which no handler outlived the claim timeout, with the tables carried through the run, a well-formed row is done exactly when there is one file record and one code entry for it, and has none otherwise |
| UploadClaims.DoneWasCommitted | bots/idx_bot.py:828-1010 | with no assumption on time, a well-formed done row was committed at least once and every row is kept |
| UploadClaims.LateHandlerCommitsTwice | bots/idx_bot.py:1227-1234 | for every lifetime longer than the timeout, a run within it whose only row is committed under two codes |
| UploadClaims.SafeIffWithinTimeout | bots/idx_bot.py:1227-1234 | every run whose handlers end within d of their claim commits each done row once if and only if d is at most the claim timeout |
| UploadClaims.NoRowStuck | database/cache_store.py:3259-3288 | a row that is not done is taken by the next claim with room for it, or becomes pending again once its timeout has passed |
| CodeChanges.Compile | bots/idx_bot.py:3324-3352 | the generated statement and parameters are well formed and, on every table, give each listed key what its first-listed change asks for (an expiry of NULL clears, other texts are held verbatim, a limit as its number or 0) and change nothing else |
| CodeChanges.OneStatementMatchesOneByOne | bots/idx_bot.py:3319-3357 | the statement means the same as the changes one by one if and only if for every code in the table the first-listed value is the last-listed one |
| CodeChanges.DistinctCodesMatch | bots/idx_bot.py:3319-3357 | pairwise distinct codes suffice |
| CodeChanges.NoFallThrough | bots/idx_bot.py:3338-3351 | a row the statement selects gets a value listed for it, never NULL for want of a branch; the others keep theirs |
| CodeChanges.NewestChangeLost | database/cache_store.py:9607-9621 | a concrete batch in which the older of two changes wins |
| CodeChanges.ChangeSync.GetUnsynced | database/cache_store.py:9607-9621 | exactly the first hundred unsynced rows, oldest first over all kinds |
| CodeChanges.ChangeSync.Run | bots/idx_bot.py:3320-3357 | one statement writes its own column for its own kind, or nothing when it fails, and returns the ids it wrote |
| CodeChanges.ChangeSync.Flush | bots/idx_bot.py:3299-3403 | one pass: each of the six columns ends with what the oldest change of its kind in the batch asks for, or as it was when there is none or the statement failed, and exactly the rows whose primary statement succeeded are marked |
| CodeChanges.PassSettles | bots/idx_bot.py:3319-3399 | the six columns, each by its own kind of change and its own failure |
| CodeChanges.RemovedExpiryClears | bots/idx_bot.py:3329-3372 | a removed expiry clears the code and its file record, each when its statement went through |
| CodeChanges.InBatchIffOldest | database/cache_store.py:9607-9621 | the batch is the hundred oldest rows not synced |
| CodeChanges.MarkedIff | bots/idx_bot.py:3352-3403 | a row is marked exactly when it was among them and the first statement for its kind went through |
| CodeChanges.FlushedColumns | bots/idx_bot.py:3319-3399 | the statements of a pass do not disturb each other's columns |
| CodeChanges.RunsMatchOneByOne | bots/idx_bot.py:3299-3403 | over every run of inserts and passes with failing statements and marks, a column whose batches agree holds what the executed changes give one by one in the order they were made |
| CodeChanges.DrainedColumn | bots/idx_bot.py:3319-3357 | once every change of a kind is marked, its primary column equals all of them applied one by one |
| CodeChanges.MissedCopyIsNeverMade | bots/idx_bot.py:3359-3399 | a change marked while its copy failed is never copied in any later state |
| CodeChanges.CopyCanBeMissed | bots/idx_bot.py:3382-3403 | a concrete run in which that happens |
| CodeChanges.HistoryIff | bots/idx_bot.py:3319-3399 | a change has reached a column exactly when some pass of the run got that statement through with it in its batch |
| CodeChanges.CopiedIffNotMarkedBefore | bots/idx_bot.py:3359-3403 | over every run, a synced change has reached a column, the copies in file_records included, if and only if no pass marked it before that statement had got through with it |
| CodeChanges.DrainedIsKept | bots/idx_bot.py:3359-3403 | once every change of a kind is marked, each column of the kind, copies included, holds exactly the changes not marked early, one by one |
| CodeChanges.DrainedCopyColumn | bots/idx_bot.py:3359-3403 | when none was marked early, a copy column too holds all changes of the kind one by one |
| Totp.FindMatchingTimestep | admin/mfa.py:144-179 | a match generates the code and lies within one step of now; no match means none of the three does |
| Totp.UsedCodes.ConsumeTimestep | admin/mfa.py:246-291 | true exactly for the first use while the store is up; the row keeps its first time |
| Totp.UsedCodes.CleanupExpired | admin/mfa.py:446-483 | deletes exactly the rows older than the retention |
| Totp.AttemptsAfter | admin/mfa.py:1411-1446 | a verifier begins at its match and ends at its consumption or when given up; nothing else touches verifiers or acceptances |
| Totp.NeverReplayedIffTimely | admin/mfa.py:1411-1446 | over every interleaving of verifiers and cleanups no timestep of a principal is accepted twice, for every code generator, if and only if the delay from match to consume is at most the retention minus 90 seconds |
| Totp.SlowVerifierReplays | admin/mfa.py:446-483 | the run that breaks it for any longer delay |
| SlidingWindow.WindowBound | admin/mfa.py:363-407 | over every run with at most k attempts in flight, every interval of the window's length since the last success holds at most limit + k - 1 evaluated failures, although the list is pruned |
| SlidingWindow.LimitHoldsIffSequential | admin/mfa.py:1395-1446 | the limit itself bounds every run if and only if attempts are sequential |
| SlidingWindow.SpreadBounds | admin/__init__.py:878-898 | if any limit + 1 consecutive failures span a window, every window holds at most limit |
| SlidingWindow.RecentOfRecent | admin/mfa.py:340-341 | pruning forgets nothing a later prune would keep |
| SlidingWindow.RecentMembers | admin/mfa.py:340-341 | pruning keeps exactly the later times, each as often as it was listed |
| SlidingWindow.FewRecent | admin/mfa.py:382-391 | fewer than limit recent failures put the failure limit places back outside the window |
| Limiters.MfaLimiter.IsLocked | admin/mfa.py:363-407 | locked exactly when the list or the table holds five recent failures or the store is down |
| Limiters.LockedIff | admin/mfa.py:363-407 | in numbers: locked exactly when the store is down, or five of the times in the list or five of the rows in the table are less than 300 seconds old |
| Limiters.FiveRowsLock | admin/mfa.py:363-407 | five failures in the table lock the principal whatever this process remembers |
| Limiters.MfaLimiter.RecordFailure | admin/mfa.py:314-360 | the failure always reaches the pruned list, the table only when the store is up |
| Limiters.MfaLimiter.Clear | admin/mfa.py:410-443 | the list is dropped whatever the store does; the rows of the principal go only when it is up |
| Limiters.RowsOfOthersStay | admin/mfa.py:410-443 | clearing drops every row of the principal and none of another |
| Limiters.MfaLimiter.Begin | admin/mfa.py:1395-1411 | an attempt is admitted only as the window machine admits it |
| Limiters.MfaLimiter.FailuresBounded | admin/mfa.py:1395-1460 | any 300 seconds since the last consumed code hold at most five failures of a principal, plus one for every further attempt in flight |
| TotpVerification.VerifyTotpCode | admin/mfa.py:1360-1460 | a code is accepted only for a matching timestep on its first use; every evaluated failure and every exception in reading the secret is counted exactly once; it is refused unevaluated exactly when an argument is empty, the principal is locked or has no secret |
| TotpVerification.Proceed | admin/mfa.py:1408-1455 | what follows the lock check: an exception in reading the secret counts as a failure, no secret as nothing |
| TotpVerification.Evaluate | admin/mfa.py:1411-1446 | the verdict of an admitted attempt, with the failures and used timesteps it leaves |
| TotpVerification.VerdictInFields | admin/mfa.py:1411-1455 | what each verdict leaves: nothing, one failure more, or the used timestep and no failures |
| Limiters.LoginLimiter.Login | admin/__init__.py:878-923 | limited exactly when the address has failures in the window and at least the configured number; otherwise accepted exactly for the right credentials; with exactly the list each outcome leaves, for that address alone |
| Limiters.LoginLimiter.FailuresBounded | admin/__init__.py:1152-1208 | any window since the last successful login from an address holds at most max(1, limit) evaluated failures |
| Limiters.LockoutEnds | admin/__init__.py:878-923 | after any logins, once a window has passed the right credentials are accepted and nothing is remembered against the address |
| Limiters.ConfiguredLimitHoldsIff | admin/__init__.py:1152-1208 | the configured limit bounds the failures of every sequence of logins from an address if and only if it is at least 1 |
| Limiters.LimitZeroFails | admin/__init__.py:878-898 | with a limit of 0 a single login with bad credentials is evaluated and fails |
| Restarts.Monitor.FoundDead | run_all.py:325-364 | a clean exit is dropped for good, a crash is answered by the decision of one look, other processes keep their memory |
| Restarts.LookInFields | run_all.py:333-376 | one look: nothing changes during a cooldown, its end included; otherwise max restarts in the window start a cooldown and fewer are joined by one more |
| Restarts.CooldownLeftAlone | run_all.py:335-341 | however often a process is looked at in its cooldown, it is left alone and the cooldown ends when it did |
| Restarts.RestartsAfterCooldown | run_all.py:342-364 | the first look after a cooldown restarts the process, with that restart alone in its history |
| Restarts.RestartsBounded | run_all.py:310-376 | with a cooldown no shorter than the window, no window holds more than max restarts, although histories are cleared |
| Restarts.BoundedIffCooldownCoversWindow | run_all.py:310-376 | that bound holds over all runs if and only if the cooldown covers the window, or max is 0, or the window is empty |
| Restarts.ShortCooldownExceeds | run_all.py:346-362 | the run that exceeds it for any shorter cooldown |
| Base64Url.DecodeEncode | admin/mfa.py:654-662 | decoding undoes encoding for every byte string, and the text uses alphabet characters only |
| Receipts.SigningKey | admin/mfa.py:573-641 | a signing key is in the keyring under its own non-empty id |
| Receipts.KeyringInFields | admin/mfa.py:573-617 | which key ids a token may name and which key each stands for |
| Receipts.IssuedIff | admin/mfa.py:719-780 | exactly when a receipt is issued |
| Receipts.IssuedAuthenticates | admin/mfa.py:753-780 | an issued token splits, decodes and parses back to its payload and its signature is accepted under the same keyring |
| Receipts.IssuedFieldsPassIff | admin/mfa.py:951-1089 | the field checks pass for an issued payload exactly when the expectations match, the hash is well formed, the id is not revoked here and the issue time is within the skew |
| Receipts.IssuedAcceptedIff | admin/mfa.py:1189-1316 | for everything that can be issued and every store state and clock, exactly when the authoritative verifier accepts |
| Receipts.AcceptedIff | admin/mfa.py:1189-1316 | exactly when any token at all is accepted, and with which payload |
| Receipts.AuthenticIff | admin/mfa.py:859-950 | exactly when a text is an authentic token: prefix, two segments, a payload naming a key of the ring, the signature of the payload text under it |
| Receipts.FieldsPassIff | admin/mfa.py:951-1089 | exactly when the fields of an authentic payload pass |
| Receipts.FormsInFields | admin/mfa.py:562-570 | the accepted forms of ids and hashes, a line feed at the end included |
| Receipts.RotationRefuses | admin/mfa.py:573-641 | after a key rotation a token issued before it is refused for its key id, or, when the id did not change, for its signature, whatever the previous key is set to |
| Receipts.IssueThenVerify | admin/mfa.py:1189-1316 | with a 64-hex hash, a receipt is accepted with its own payload at every time up to 60 seconds later when neither revoked nor consumed |
| Receipts.RefusedAfterSkew | admin/mfa.py:999-1020 | after 60 seconds it is refused, although its lifetime is at least 120 |
| Receipts.OneTokenPerPayloadText | admin/mfa.py:865-950 | two authenticated tokens with the same payload text are the same token |
| Receipts.ConsumedAtMostOnce | admin/mfa.py:1092-1158 | over every run of consuming verifications in any processes no receipt id is accepted twice |
| Receipts.Store.ConsumeReceipt | admin/mfa.py:1092-1158 | true exactly for the first consumption of an id while the store is up |
| Receipts.Verifier.Revoke | admin/mfa.py:1573-1637 | revokes in this process at once and in the others when the store is up |
| Receipts.Verifier.IsRevoked | admin/mfa.py:1639-1678 | revoked exactly when this process or, with the store up, the table says so |
| Receipts.Verifier.VerifyAuthoritative | admin/mfa.py:1189-1316 | the result of the specification, and the id is consumed exactly when a consuming verification succeeds |
| QueryCaching.VictimIsExpiredOrOldest | database/cache.py:19-32 | the victim is the first expired item among the oldest ten, or else the oldest |
| QueryCaching.LiveVictimIsLeastRecent | database/cache.py:19-32 | a live item is evicted only as the least recently used one, with nothing expired among the oldest ten |
| QueryCaching.QueryCache.EvictExpiredOrLru | database/cache.py:19-32 | exactly one item goes: the first that is too old among the oldest ten, or else the oldest |
| QueryCaching.QueryCache.Get | database/cache.py:34-43 | a hit is the value last set since the last invalidate with age below the time to live, and becomes the newest key; hits and misses are counted |
| QueryCaching.QueryCache.Set | database/cache.py:45-48 | a full cache loses exactly one item, the first too old among the oldest ten or else the one touched longest ago; the value stands at its place or last, the others stay in order; size limit, recency order and the refinement are kept |
| QueryCaching.EvictedIsOneLess | database/cache.py:19-32 | eviction takes out exactly the item that must go, and the others keep their order |
| QueryCaching.QueryCache.Store | database/cache.py:48-48 | a key held keeps its place and its touch, a new one comes last and is touched now |
| QueryCaching.QueryCache.Invalidate | database/cache.py:50-52 | the key is gone from the cache and the reference map; the others stay in their order with their touches |
| QueryCaching.QueryCache.Clear | database/cache.py:54-55 | both maps are empty |
| FlushBuffers.SettleBalances | database/cache.py:245-256 | whatever the outcome, a batch ends stored, buffered again or lost, and twice only when it took effect late |
| FlushBuffers.RequestCounts.Increment | database/cache.py:212-217 | counts one for that code and keeps the balance |
| FlushBuffers.RequestCounts.TakeBatch | database/cache.py:238-242 | the buffer becomes the batch and is empty |
| FlushBuffers.RequestCounts.Settle | database/cache.py:245-256 | stored, buffered, in flight and lost together equal what was counted plus what was applied twice, and which counts those are |
| FlushBuffers.RequestCounts.MergeBack | database/cache.py:254-256 | the merge loop adds the batch to the buffer code by code |
| FlushBuffers.DecodeLogs.Flush | database/cache.py:392-437 | how many rows go and how many land, as a function of the outcome of each batch: all fetched rows when every batch goes through, otherwise up to the first that does not; the copy law is kept |
| FlushBuffers.DecodeLogs.WriteBatch | database/cache.py:407-436 | the delete runs only after an insert that did not raise and removes exactly the batch |
| FlushBuffers.DecodeLogs.NothingLost | database/cache.py:392-437 | every row that arrived is buffered or stored, with at most one copy more than the times its batch was written and kept |
| BatchCopy.GroupBy | bots/up_bot.py:1378-1413 | the groups partition the list, each holds one key, and no key has two groups |
| BatchCopy.Group | bots/up_bot.py:1374-1413 | the albums are whole, the types are whole, and every message is in exactly one of them |
| BatchCopy.SupportedKinds | bots/up_bot.py:664-680 | which files a media group can carry |
| BatchCopy.ExchangeAlignedIff | bots/up_bot.py:1393-1396 | a response that reports copies of some named messages in the order named is aligned with its sources if and only if it can be read so that no named message was skipped before a reported one and every reported one was looked for in the chat of its source; the same message may be named twice |
| BatchCopy.InPlaceIffNoneSkipped | bots/up_bot.py:1393-1396 | for calls that name no message twice, that is the case exactly when every message named before a reported one is reported too, in the right chat |
| BatchCopy.AlignedIff | bots/up_bot.py:1374-1461 | ids and metadata belong together position by position if and only if that holds of every call |
| BatchCopy.FullLengthAligned | bots/up_bot.py:1393-1396 | responses of full length, each from the chat of its sources, are aligned |
| BatchCopy.SkippedMisaligns | bots/up_bot.py:1393-1396 | an album whose second message could not be copied: the id of the third ends beside the metadata of the second |
| BatchCopy.OtherChatMisaligns | bots/up_bot.py:1439-1447 | a chunk from two chats whose media group raised: the fallback looks for all in the first chat and reports another message |
| BatchCopy.Collector.Ask | bots/up_bot.py:1388-1396 | one call is logged with the answer of the API, and the lists grow by the zip of sources and response |
| BatchCopy.Collector.CopyAlbum | bots/up_bot.py:1388-1407 | the calls made, exactly: the album in one call, and when that raises, each of its messages alone; every message is settled once |
| BatchCopy.Collector.SendChunk | bots/up_bot.py:1430-1449 | the calls made, exactly: a media group, and when that raises, one copy call for the same files; every file is settled once |
| BatchCopy.Collector.SendType | bots/up_bot.py:1415-1461 | two or more supported files go in chunks of ten, everything else one by one; every file of the type is settled by exactly one final call |
| BatchCopy.EndUpload | bots/up_bot.py:1374-1461 | under any outcomes of the calls each source is asked for in exactly one final call and contributes at most one entry; every source is collected if and only if each final call answers in full; albums are asked for as a whole and files with a partner as media groups; alignment holds exactly as above |
| Sessions.SessionManager.CreateSession | admin/sessions.py:138-195 | a session that was written validates until it expires |
| Sessions.SessionManager.ValidateSession | admin/sessions.py:197-262 | succeeds exactly for a readable, unrevoked, unexpired record |
| Sessions.SessionManager.DestroySession | admin/sessions.py:326-350 | the session is gone unless both writes failed; no other record changes |
| Sessions.SessionManager.RotateSession | admin/sessions.py:352-421 | when an id is returned, the old session survives exactly when it was alive and neither save of its record took effect |
| Sessions.NextAccess | admin/sessions.py:326-421 | the accesses of a destroy and of a rotate in order, and what each leaves: what is saved is what was loaded, marked revoked |
| Sessions.ComeAndGo | admin/sessions.py:326-421 | how handlers begin, end by a crash, and leave everything else alone |
| Sessions.DeadStaysDead | admin/sessions.py:341-421 | no step of any handler revives a revoked or deleted known id |
| Sessions.EndedNeverValidates | admin/sessions.py:226-244 | once a destroy or rotate has returned with one of its writes in effect, no validation of the id ever succeeds again, in any interleaving and whatever stale data is saved later |
| Sessions.ReturnEndsIff | admin/sessions.py:326-421 | a returning destroy or rotate ends its id exactly when it had ended before or one of its writes took effect |
| Sessions.SuccessfulReturnEnds | admin/sessions.py:326-421 | in every run, once a destroy has returned, or a rotate with its new id, with a write in effect, no later validation of the old id succeeds |
| Sessions.SilentFailureKeepsSession | admin/sessions.py:399-421 | a concrete run in which a rotate returns and the old session still validates |
| Passwords.FromHexToHex | admin/passwords.py:81-81 | hexadecimal text reads back as the bytes it was printed from |
| Passwords.PrintedFields | admin/passwords.py:81-81 | a printed string splits into exactly its five fields |
| Passwords.VerifyPrinted | admin/passwords.py:105-157 | for every printed string: too few iterations are refused, too many or fields of the wrong length raise, otherwise the derived keys decide |
| Passwords.HashThenVerifyIff | admin/passwords.py:105-157 | verifying against a printed hash never raises and succeeds exactly for passwords that derive the same key |
| Passwords.HashThenVerify | admin/passwords.py:56-157 | the round trip for every non-empty password and every allowed iteration count |
| Passwords.VerifyIff | admin/passwords.py:105-157 | against any stored text: exactly when a password is accepted and exactly when verification raises; the text before the first separator is not looked at |
| Passwords.FromHexInFields | admin/passwords.py:128-134 | which texts read as bytes, spaces and upper case included |
| Passwords.HexLetters | admin/passwords.py:128-134 | the hexadecimal characters and their values |
| Passwords.IterationsRead | admin/passwords.py:111-117 | an iteration count in plain digits is its number, one that cannot be read counts as 0 |
| Passwords.PrintInjective | admin/passwords.py:81-81 | a printed string determines iterations, salt and hash |
| Text.Decimal | admin/passwords.py:81-81 | decimal notation reads back as the number |
| Text.HexDigits | admin/mfa.py:562-570 | lower-case hexadecimal text of a given length |
| Text.SplitField | admin/passwords.py:107-109 | splitting a text after its first separator-free field |
| Text.SplitJoins | admin/mfa.py:865-883 | joining the fields of a split gives the text back |

## Left out

- Telegram calls, Redis, the SQL engines, asyncio plumbing, pages, translations, metrics and logging: outcomes are parameters.
- Redis-routed variants of the store (the write queue and its read caches): operations act on SQLite at once.
- Topology.Generate: leaves out reading the configuration, the account names of rows and the printed YAML.
- Rotation.MonBot.CheckRotation: leaves out cell leases around the batch write, topology versions and notifications; other writers only mark rows lost while a rotation runs.
- Monitor.Scheduler.MainLoop: which channels are banned or reachable and which groups fail are parameters of a round, as are the streaks and cooldowns behind them; the wait after a round ended by an exception is taken to outlast the cached list, as the defaults of 60 seconds for both do; taking spares from the pool, replication, and slots added or removed by administrators are left out.
- RotationPointers.LostRebuildOpensRing: speaks of tables with two active rows or more and distinct, non-zero channels, as the closure rule does.
- Validator: rule 2, accounts of shadow rows, and the warning about groups without an active row.
- Delivery.SendsBounded: attempts of one job do not overlap; channel resolution is one nondeterministic delivery result, and caption edits and rate limits are left out.
- Batch delivery: it reports success on partial delivery, so done does not mean all messages were delivered.
- UploadClaims.DoneIffCommittedOnce: quota reservations, upload sessions, user notifications and the caches filled after the commit are left out; failing claims and resets change nothing and are no events.
- CodeChanges.RunsMatchOneByOne: the sets of rows of the two tables are fixed, and other writers of the same columns are left out; parameter typing of the database is not modelled.
- TotpVerification.VerifyTotpCode: an exception inside the matching of a code counts as no match, as in the source; how many attempts of a principal may be in flight at once is a parameter.
- Totp.NeverReplayedIffTimely: the clock does not run backwards; the in-process cache of used codes is left out, because verification does not read it.
- Limiters.MfaLimiter.FailuresBounded: speaks of one process; across processes the table adds locking, with times cut to milliseconds.
- Limiters.LoginLimiter.FailuresBounded: attempts of one address are sequential; saving and reloading the lists around a process restart is left out.
- Base64Url.DecodeEncode: texts outside both alphabets, where the decoder skips characters, are left to a parameter.
- QueryCaching.QueryCache.Set: the two clock readings of a set are independent parameters; statistics beyond the two counters are left out.
- FlushBuffers.DecodeLogs.Flush: rows that arrive during a pass are taken to arrive before or after it, which their larger ids make equivalent; age-based cleanup is left out.
- FlushBuffers.RequestCounts.Increment: the cached record's own counter is left out.
- BatchCopy.EndUpload: the enrichment of metadata, upload sessions and the registration of the file record are left out.
- Sessions.SessionManager.ValidateSession: reading the principal's current roles from the identity table, and its fallback, are left out, as are CSRF tokens.
- Passwords.HashThenVerifyIff: passwords that cannot be encoded as UTF-8.
- The metadata path of a single media group, refunds of expired external requests and the sync paging loop.
- Age-based cleanup of decode logs and jobs, admin routes, registries, seeding, environment handling, model constructors, notification and command handlers.
