# What SelfPost's mail path promises, proved

SelfPost is a mail relay with a panel beside Postfix. The panel reads mail.log, keeps the send log, decides
who may send as whom and how much, signs mail, writes its operators about trouble, and restores backups. This
project models the eight components of it that keep state through crashes, concurrency or strangers' input,
and proves what each promises over every run or every input. `dafny verify dfyconfig.toml` checks it
(Dafny 4.11).

| component | modules |
|---|---|
| log tailer: place, rotation, crash, what holds the place | `LogLines`, `LogPlace`, `Refusals`, `Follow`, `NoLineLost`, `LateWrites`, `PlacesHold`, `PlaceRuns` |
| deferred-mail counter, behind the tailer; `TailLines` | `DeferredCounter`, `WarnedOnce`, `CountedTailer`, `CountedOnce`, `StampRuns`, `TailLines` |
| send log, reconcile sweep, a message's recipients and rows | `SendLog`, `SendLogLines`, `SendLogTailer`, `SendLogStore`, `Recipients`, `Sessions` |
| level-2 rate limit | `Inflight`, `Sessions`, `RateProtocol`, `RateSystem` |
| encrypted envelope | `Envelope`, `EnvelopeErrors`, `EnvelopeStreams` |
| sender map: written, read back, looked up | `SenderMap`, `SenderMapOrder`, `SenderCheck`, `TableLines`, `SenderMapRoundTrip` |
| address form in the log, DKIM header names | `AddressForm`, `PostfixForm`, `SignLines` |
| notifier, restore guard, supervisord client | `SendCeiling`, `Notify`, `RestoreGuard`, `Restore`, `Supervisor` |

`Bytes`, `Strings` and `Wrappers` hold what several of them use.

Each component has the same shape. A class or method takes the place of the source's object or loop and is
proved against specification functions; a datatype `World` with steps puts those functions among everything
else that can happen - a writer, a rotation, other sessions or clients, a crash - and the main lemmas are about
every run of such steps. The steps of `RateProtocol` are on counts alone; `RateSystem` makes each of them a call
on the registry. A field or a component of a `World` described as history exists only to state a property.

## Idealisations

- **Encryption.** Sealing is any function of nonce, plaintext and additional data whose output is 16 bytes longer
  than the plaintext; opening succeeds on what was sealed under the key, recorded in a table, and on nothing else.
- **Log files.** A file's fingerprint is its identity once it has 512 bytes, and nothing before. A log file only
  grows. Files are numbered as they are created.
- **Digests.** Two files have the same SHA-256 exactly if they hold the same bytes.
- **The store.** A table is a sequence of records, and one SQL statement or transaction is one atomic step that
  does not fail.
- **Time** is in whole seconds. Strings are ASCII where case is folded.

## Where the code does less, or other, than it says

- The delivery grammar (internal/logtail/logtail.go:124-136) does not take a plain local part before a domain
  with a quotation mark in it (`AddressForm.QuoteInTheDomain`): `AddressForm.DeliveryReadsTheRecipient` says
  exactly when a recipient is read.
- The renderer of the sender map (internal/postfix/postfix.go:161-169) lets through an address with a quotation
  mark left open or with a number sign in front; its line is then lost to Postfix and to the sender check
  (`SenderMapRoundTrip.OpenQuoteIsLost`, `NumberSignIsLost`).
  `SenderMapRoundTrip.RoundTripExactly` has the exact condition; the panel's forms (internal/app/validate.go)
  keep to it.
- The saved place of the tailer can be one of the file before, where that file never got a fingerprint
  (`PlaceRuns.ShortPlacesMislead`; exactly when: `PlacesHold.SavedPlacesExactly`), and what waits under the empty
  fingerprint stops holding it (`PlaceRuns.HoldLostWithTheFingerprint`; exactly when: `PlacesHold.EachSaveHolds`).
  A recovery holds the place from the next save on, not from the moment its line is read
  (`PlaceRuns.RecoveryHeldFromTheNextSave`; exactly when: `PlacesHold.EveryRunHolds`).
- Lines written late to a renamed log are lost by a crash before they are read (`NoLineLost.LateLineLost`), those
  lines and no others (`NoLineLost.CrashLosesExactly`, `LostForGood`, `KeptThroughACrash`).
- A place saved before its file had a fingerprint is given up when the log is rotated while the panel is down
  (`NoLineLost.UnnamedPlaceLost`; exactly when: `NoLineLost.StartLosesExactly`, `LostAtTheStart`).
- Of a log rotated away before the tailer has looked at it, and of a renamed file written to after it is closed, lines
  are lost (`LateWrites.LogPassedOver`, `WrittenTooLate`; exactly which: `TwoRotationsLoseExactly`, `LateWriteExactly`).
- A result written late to the renamed log and read after a later one of the new log is what the row ends with
  (`SendLogTailer.LateResultStands`); lines read in their order leave the rows of one pass, whatever is read again
  (`SendLogTailer.RowsAreOnePass`).
- A warning can be counted twice where the stamps of a log go back (`StampRuns.CountedTwice`; exactly when:
  `CountedTailer.OnceExactly`).
- The notifier's ceiling is kept by one process: its times are in memory, so a restart within the hour allows sixty
  messages more (`SendCeiling.SixtyEachIsReached`), and no more than that (`SixtyEachProcess`).
- The day's reconcile_closed is written at the end of a sweep and can be behind reconcile_contradicted
  (`SendLogStore.RecordedMayLag`; exactly when: `SendLogStore.RecordedExactly`).
- The same archive unpacked again and cut short passes the restore guard (`Restore.SameArchiveCutShort`).
- `TailLines` can cut the first line it returns when the file ends in two newlines
  (`TailLines.TwoNewlinesCutALine`; exactly when: `TailLines.Tail`).
- The level-2 limit is exceeded by at most one message for each further session, and can be
  (`RateProtocol.BoundIsReached`; exactly when it is kept: `RateProtocol.LimitKeptExactly`).

## Model

| member | source | states |
|---|---|---|
| `NoLineLost.EveryRun` | internal/logtail/logtail.go:754-942 | In every run, under the provisos of Follow.Proviso, of appends, rotations, starts, reads, flushes, saves, stops and crashes: each complete line from the first saved place on is handed over and flushed, or still ahead of the reading; and a crash would not lose it, but for lines that come late to a renamed file the saved place is past. |
| `NoLineLost.NothingMissed` | internal/logtail/logtail.go:754-942 | A tailer that has caught up with the log has handed over and flushed every line owed, whatever stops, crashes and rotations came before. |
| `NoLineLost.CatchesUp` | internal/logtail/logtail.go:754-942 | From any state of a run the tailer's own steps lead to the end of the log with every line owed done: no state of a run has lost one. |
| `NoLineLost.ReadsTheLog` | internal/logtail/logtail.go:816-836 | Reading line by line, as runs do, hands over exactly what one pass of the drain loop does, and ends where it does. |
| `NoLineLost.StepKeeps` | internal/logtail/logtail.go:754-942 | Each single step keeps the invariant. |
| `NoLineLost.LateLineLost` | internal/logtail/offset.go:203-207 | The proviso on crashes is needed: a run in which a line that came late to the renamed file, unread at a crash, is not read by the next start. |
| `NoLineLost.CrashLosesExactly` | internal/logtail/offset.go:203-207 | After a crash at any moment of a run, the saved place is past a line owed and not done exactly if that came late to a renamed file the place is past. |
| `NoLineLost.LostForGood` | internal/logtail/offset.go:99-129 | Such a line is handed over by no run after the crash. |
| `NoLineLost.KeptThroughACrash` | internal/logtail/offset.go:99-184 | Any other line owed is handed over and flushed by the next start, whatever else the crash lost. |
| `NoLineLost.UnnamedPlaceLost` | internal/logtail/offset.go:99-129 | The proviso on starts is needed: a run in which a log is rotated while the panel is down, its place saved before it had a fingerprint, and the lines after that place are not read. |
| `NoLineLost.StartLosesExactly` | internal/logtail/offset.go:99-184 | A start on any saved place reads on to a line owed and not done exactly if that is in the log, or in the renamed log with the place saved in it under a fingerprint. |
| `NoLineLost.LostAtTheStart` | internal/logtail/offset.go:99-184 | What such a start does not read on to is handed over by no later run. |
| `LateWrites.LateWriteExactly` | internal/logtail/logtail.go:754-942 | The proviso on the writer, exactly: a line owed that a write completes, at any moment of a run, can still be handed over by some run if and only if its file is the log, one the tailer has open, or the renamed log with the place saved in it under its fingerprint. |
| `LateWrites.TwoRotationsLoseExactly` | internal/logtail/logtail.go:754-942 | The proviso on rotations, exactly: of a log rotated away before the tailer has looked at it no run hands over any line, written by then or later; of the other files every line owed can still be. |
| `LateWrites.NeverAgain` | internal/logtail/offset.go:99-184 | A file that is none of those stays so: nothing more of it is handed over in any run, whatever the writer and the rotation do. |
| `LateWrites.WrittenTooLate` | internal/logtail/logtail.go:845-872 | A run in which a line written to the renamed file after the tailer has closed it can no longer be handed over. |
| `LateWrites.LogPassedOver` | internal/logtail/logtail.go:895-935 | A run in which the log is rotated away twice between two looks, and a line of the file between is lost. |
| `PlacesHold.SavedPlacesExactly` | internal/logtail/offset.go:211-234 | In every run: each saved place starts a line of its file if and only if, at each save, the earliest place the reading is held at, if it is before the reading, starts a line of the open file. |
| `PlacesHold.SavedPlacesAreBoundaries` | internal/logtail/offset.go:211-234 | So each does, whatever logins are remembered, where at a save under an empty fingerprint nothing waits of an earlier file without one, and pieces of lines leave nothing waiting; and all lines owed before it are handed over and flushed, but for those that come late to the file before. |
| `PlaceRuns.ShortPlacesMislead` | internal/logtail/offset.go:211-234 | That condition is needed: a run in which something waits of a file rotated away before it had a fingerprint, and a place saved in the next file lies in the middle of a line. |
| `PlacesHold.EveryRunHolds` | internal/logtail/refusals.go:110-171 | In every run, of everything that waits in the file places are saved of, under its fingerprint, recoveries included: the saved place is not past its line, and is past the earlier place it waits at exactly while it is the very place, past it already, that was saved when the line was read. |
| `PlacesHold.EachSaveHolds` | internal/logtail/offset.go:211-234 | A place, when it is saved, is held back by what waits if and only if that waits under the fingerprint the tailer had before, or something before it does, or the reading is not past it. |
| `PlacesHold.CrashReadsItAgain` | internal/logtail/offset.go:99-184 | What waits in the file places are saved of when the panel crashes, a refusal or a recovery, is read again at the next start, be that file the log or renamed already, switched away from or not: from the log or from the renamed log; where the place is saved under a fingerprint, of what waits under it. |
| `PlaceRuns.RecoveryHeldFromTheNextSave` | internal/logtail/refusals.go:131-171 | A run in which a recovery waits at its login's line, before the place saved already, and the next save goes back to it. |
| `PlaceRuns.HoldLostWithTheFingerprint` | internal/logtail/offset.go:211-234 | A run in which a refusal waits under the empty fingerprint, the save that fills the fingerprint in is held by it, and the next is past it. |
| `LogLines.Follower.Take` | internal/logtail/logtail.go:816-836 | One read to a newline: the line is whole, with the piece held from earlier reads; at the end of the file the piece is held on to. |
| `LogLines.Follower.Drain` | internal/logtail/logtail.go:816-836 | A pass hands over exactly the complete lines from where the last one ended, each with its place. |
| `LogLines.PassesAddUp` | internal/logtail/logtail.go:816-844 | Passes over a growing file read together what one pass over the grown file reads, wherever in a line the writer stood between them. |
| `LogLines.LinesCover` | internal/logtail/logtail.go:816-836 | A pass misses no complete line. |
| `LogLines.LinesAreLines` | internal/logtail/logtail.go:816-836 | A pass from the start of a line hands over nothing but complete lines, and ends past the last newline. |
| `LogLines.LinesInOrder` | internal/logtail/logtail.go:816-836 | The lines of a pass follow each other without a gap. |
| `LogPlace.Tracker.Resume` | internal/logtail/offset.go:99-129 | Where a start reads from, and whether the saved place is one in a file that is no longer the log. |
| `LogPlace.Tracker.ReadRotated` | internal/logtail/offset.go:141-184 | The rest of the renamed log is read exactly if it is the file the saved place belongs to. |
| `LogPlace.Tracker.Record` | internal/logtail/offset.go:211-234 | What is saved, when, and that it is held back by what waits. |
| `LogPlace.Tracker.Adopt` | internal/logtail/offset.go:203-207 | The start of a file rotated in is saved at once. |
| `LogPlace.EndCovers` | internal/logtail/offset.go:167-180 | What is read of the renamed log is its complete lines and the piece after them. |
| `Refusals.OldestIs` | internal/logtail/refusals.go:113-128 | The hold is the earliest waiting place of the file: one of them, and none is before it. |
| `Refusals.RefusalLines.HoldOf` | internal/logtail/refusals.go:113-128 | The loop over what waits finds it. |
| `Refusals.RefusalLines.Handle` | internal/logtail/refusals.go:131-171 | What a line adds to what waits, field by field, and at which place: its own, or its login's line where that is an earlier one of the same file. |
| `Refusals.RefusalLines.Retry` | internal/logtail/refusals.go:176-200 | What stops waiting: refusals attached or past their time; recoveries past theirs, which are written. |
| `Refusals.HeldUntilAttached` | internal/logtail/refusals.go:176-200 | A refusal waits on until it is on its row or its time is over. |
| `Refusals.NoneHeldLonger` | internal/logtail/refusals.go:176-200 | And no longer than that. |
| `Refusals.StaysExactly` | internal/logtail/refusals.go:176-200 | What still waits after a retry is what is neither on its row nor over its time, as often as it was there. |
| `Refusals.EarlyOrDue` | internal/logtail/refusals.go:186-199 | Each recovery is written once its wait is over, or waits on: none is dropped, none written twice. |
| `Refusals.RefusalLines.Remember` | internal/logtail/refusals.go:204-216 | At most 4096 logins are remembered, the oldest going first, the others untouched. |
| `SendLog.ReplayIsOnePass` | internal/store/sendlog.go:198-279 | Reading a log with any number of stops and returns to earlier places leaves every row as one pass over it does, for any mix of delivery and expiry lines. |
| `SendLogTailer.RowsAreOnePass` | internal/logtail/logtail.go:754-942 | In every run of the tailer from any place it is started at - appends, rotations, stops, crashes, starts, lines read again - that reads the lines in their order: once it has caught up, the rows are those one pass over the lines of all files from that place on makes. |
| `SendLogTailer.StepKeeps` | internal/logtail/logtail.go:754-942 | Each single step keeps it so that reading on from any place the tailer may be set back to gives those rows. |
| `SendLogTailer.LateResultStands` | internal/logtail/logtail.go:845-872 | The order is needed: a run in which a deferral late in the renamed file is read after the delivery in the new one, and is what the row ends with. |
| `SendLogLines.LineSettles` | internal/store/sendlog.go:198-279 | One more line handled changes nothing of what reading on will come to, from here or from any earlier line start. |
| `SendLog.SweepYieldsToTheLog` | internal/store/sendlog.go:198-255 | With sweep closes anywhere in between, a row ends with the status the log gives it; only one the log leaves open may have been closed. |
| `SendLog.FinalResultStands` | internal/store/sendlog.go:198-255 | A final result and a close of the same row, in either order: the log's result stands, and a close it came after is marked contradicted. |
| `SendLog.ActAllIsOutcome` | internal/store/sendlog.go:198-279 | What a row ends with is told by the log alone: its last delivery line and whether an expiry followed. |
| `SendLog.Absorb` | internal/store/sendlog.go:198-279 | Handling a line the log will say again makes no difference to the outcome. |
| `SendLogStore.ClosesAreConserved` | internal/store/sendlog.go:198-255 | Over any run contradicted closes never exceed closes, and the difference is on rows still marked or deleted while marked. |
| `SendLogStore.StepConserves` | internal/store/sendlog.go:198-279 | Every statement keeps that balance and the order of the ids. |
| `SendLogStore.MarksMoveOneWay` | internal/store/sendlog.go:198-255 | A line of the log only takes the mark of a close off, a close only puts it on. |
| `SendLogStore.RecordedMayLag` | internal/logtail/logtail.go:393-423 | The stored count of closes is added at the end of a sweep only: a run that leaves it behind the stored count of contradicted ones. |
| `SendLogStore.RecordedExactly` | internal/logtail/logtail.go:393-423 | Over any run the stored contradicted closes are no more than the stored closes if and only if the closes not stored - of a running or stopped sweep, of test messages - are no more than those still marked or deleted while marked. |
| `SendLogStore.HandleIsOneUpdate` | internal/store/sendlog.go:198-240 | The row of MAX(id) is the newest of its pair, and the only one the statement changes. |
| `SendLog.DeliveryIs` | internal/store/sendlog.go:198-237 | What a delivery line makes of every row, over every table, said without the steps. |
| `SendLog.ExpiryIs` | internal/store/sendlog.go:265-279 | And an expiry: queued and deferred rows of the message, each the last of its recipient. |
| `SendLog.CloseIs` | internal/store/sendlog.go:244-255 | And a close. |
| `SendLogStore.Table.FindNewest` | internal/store/sendlog.go:198-240 | The subselect: the last row of the pair that is no refusal, the highest id among them. |
| `SendLogStore.Table.InsertQueued` | internal/store/sendlog.go:65-77 | One new row with all it holds of the message, queued, with the next id. |
| `SendLogStore.Table.InsertRejected` | internal/store/sendlog.go:149-161 | One new row for a refusal, with its reason, no queue id and no recipient. |
| `SendLogStore.Table.UpdateStatus` | internal/store/sendlog.go:198-237 | The last row of the queue id and recipient, in any case, that is no refusal has the status, and its mark, if any, says contradicted, which is counted; no other row changes; one row is reported exactly if there is one. |
| `SendLogStore.Table.ExpireMessage` | internal/store/sendlog.go:265-279 | Of the rows of the queue id those queued or deferred, each the last of its recipient, are bounced, and no other row changes; the number of rows bounced is returned. |
| `SendLogStore.Table.CloseUnreported` | internal/store/sendlog.go:244-255 | The row of that id is bounced and marked exactly if it is queued or deferred, no other row changes, and the number returned says so. |
| `SendLogStore.Table.DeleteBefore` | internal/store/sendlog.go:613-623 | The rows older than the cutoff go; the marks on them are accounted for. |
| `SendLogStore.Table.Sweep` | internal/logtail/logtail.go:371-424 | Row by row: bounced and marked are exactly those queued or deferred, with a queue id, old enough, whose message Postfix does not hold, and none when the queue cannot be listed. |
| `Recipients.EveryRecipientHasItsRow` | internal/milter/milter.go:159-276 | For every address a client gave, the delivery line Postfix writes of the recipient it denotes finds that recipient's row of the message just recorded, and changes nothing else. |
| `PostfixForm.AsLoggedIsPostfixs` | internal/milter/milter.go:282-316 | The form the panel expects of a recipient is the one Postfix logs: of the local part the address denotes, quoted again as quote_822_local does. |
| `Recipients.DeliveryFindsItsRow` | internal/store/sendlog.go:198-237 | A reused queue id does not matter: the rows recorded last are the ones found. |
| `Recipients.DeduplicatedIs` | internal/milter/milter.go:159-168 | No two recipients kept are one address, and none given is missing. |
| `Recipients.Record` | internal/milter/milter.go:249-270 | One row for each recipient, and one for a message without any. |
| `Sessions.Session.RcptTo` | internal/milter/milter.go:159-168 | The recipients of the session are those given, as logged, each once. |
| `Sessions.Session.Body` | internal/milter/milter.go:189-195 | A row for each recipient with login, sender, domain and subject is in the send log, and the message's slots, and no others, are given back. |
| `Sessions.Session.Abort` | internal/milter/milter.go:205-210 | A transaction that ends early gives its slots back and leaves nothing behind. |
| `Sessions.Session.MailFrom` | internal/milter/milter.go:126-144 | Refused for the client exactly if the login's application does not let it in; else for the limit exactly if the messages counted in the window and those on their way, earlier slots of this session given back, reach it: the application's limit where it has one in force, whatever the domain's is, else the domain's; without a login, a domain, a limit in force, or a count, not at all. A message let through under a limit holds one slot under its key, and nothing else in the registry changes; a refusal is recorded with its reason. |
| `Sessions.Session.OverLimit` | internal/milter/ratelimit.go:30-92 | The same of the limit alone, in terms of what the store answers and the registry holds. |
| `Sessions.Session.ReleaseReservations` | internal/milter/ratelimit.go:94-99 | Every slot the message holds goes back, and no other. |
| `RateProtocol.LimitHolds` | internal/milter/ratelimit.go:74-89 | With N sessions, logged messages and those on their way never exceed max + N - 1; and never max, if no message came and went between a count and its admission. |
| `RateProtocol.LimitKeptExactly` | internal/milter/ratelimit.go:74-89 | From the start of the sessions, the messages never exceed max if and only if, at each admission, fewer came and went since its count than it had room for. |
| `RateProtocol.AdmitExactly` | internal/milter/ratelimit.go:74-89 | An admission takes the messages over max exactly if as many came and went since its count as it had room for then. |
| `RateProtocol.WithinExactly` | internal/milter/ratelimit.go:74-89 | The same over every run from any state the sessions can be in. |
| `RateSystem.KeySessions.Admit` | internal/milter/inflight.go:56-68 | An admission on the registry itself is the step of the protocol, while no reservation is past its time. |
| `RateSystem.KeySessions.Release` | internal/milter/inflight.go:117-129 | So is giving a slot back. |
| `RateSystem.TakenCount` | internal/milter/inflight.go:42-54 | There are as many reservations of the key as sessions that hold one. |
| `RateProtocol.BoundIsReached` | internal/milter/ratelimit.go:74-89 | max + N - 1 is reached: for every N and max a run that ends with so many logged. |
| `RateProtocol.AdmitOvershoot` | internal/milter/ratelimit.go:74-89 | An admission overshoots the ceiling by no more than the messages that came and went since its count. |
| `RateProtocol.StepAccounted` | internal/milter/inflight.go:56-129 | What a session counted is what is logged, less the messages logged since, each of which still holds its slot or is gone. |
| `RateProtocol.StepBounded` | internal/milter/inflight.go:56-129 | The step invariant behind the first bound. |
| `Inflight.Registry.TryAdmit` | internal/milter/inflight.go:56-68 | Counting and reserving are one step: a slot is taken exactly if there is room, and other keys are untouched. |
| `Inflight.Registry.CountLocked` | internal/milter/inflight.go:83-100 | The reservations in the window are counted, and exactly those past their time dropped. |
| `Inflight.Registry.Release` | internal/milter/inflight.go:117-129 | One reservation goes, no other. |
| `Inflight.Prune` | internal/milter/inflight.go:83-100 | The loop that prunes while it counts, over the set in any order. |
| `Envelope.FileIntegrity` | internal/secretfile/secretfile.go:376-477 | Of any bytes read as a file: what is handed out is a prefix of what was written, and the end of the file is reported for the finished envelope, byte for byte, and for nothing else. |
| `Envelope.TruncationIsAnError` | internal/secretfile/secretfile.go:410-477 | A finished envelope cut anywhere, or with anything after it, ends in an error, never at the end of the file. |
| `Envelope.DeliverIntegrity` | internal/secretfile/secretfile.go:430-477 | The same for the chunks under any header the reader is given. |
| `Envelope.OpensOnly` | internal/secretfile/secretfile.go:224-239 | A chunk opens exactly where, and as, it was sealed: header, number, flag and bytes. |
| `Envelope.NextIntegrity` | internal/secretfile/secretfile.go:430-477 | One step goes on only over the frame written there. |
| `Envelope.NextAccepts` | internal/secretfile/secretfile.go:430-477 | And over that frame it does, a last chunk only at the end of the stream. |
| `Envelope.NonceRepeats` | internal/secretfile/secretfile.go:224-228 | Two chunks share a nonce exactly if they are a multiple of 2^32 apart. |
| `Envelope.AadInjective` | internal/secretfile/secretfile.go:231-239 | The additional data tells header, counter and flag apart. |
| `EnvelopeErrors.EachErrorMeans` | internal/secretfile/secretfile.go:430-477 | A step fails as with a wrong password exactly if there is a whole frame and it is not the one written there, and as damaged exactly if there is none, or anything after the last. |
| `EnvelopeErrors.WrongPasswordIsSaid` | internal/secretfile/secretfile.go:430-477 | Read with a password nothing was sealed under, a whole envelope yields nothing and that error. |
| `EnvelopeErrors.DamageIsSaid` | internal/secretfile/secretfile.go:376-477 | An envelope cut anywhere past its magic, or with anything after it, is said to be damaged, not to have another password. |
| `Envelope.ReasonableIs` | internal/secretfile/secretfile.go:159-199 | The work factors a file may ask for, by the memory they take. |
| `Envelope.HeaderRoundTrip` | internal/secretfile/secretfile.go:159-199 | What parses is exactly what marshals from reasonable parameters, and comes back as it was. |
| `Envelope.NewHeaderIsReasonable` | internal/secretfile/secretfile.go:257-295 | A reader accepts the work factors a writer asks for: 32 MiB of memory. |
| `Envelope.SplitShape` | internal/secretfile/secretfile.go:299-356 | A plaintext of any length, 0 and multiples of the chunk size included, is one chunk more than it has full ones, the last flagged. |
| `Envelope.SplitOf` | internal/secretfile/secretfile.go:299-356 | Wherever a plaintext was cut into writes, its chunks are the same. |
| `EnvelopeStreams.Writer.Write` | internal/secretfile/secretfile.go:299-322 | All of the bytes are taken in, in order; after Close none. |
| `EnvelopeStreams.Writer.Flush` | internal/secretfile/secretfile.go:326-341 | One chunk more is sealed on the stream, under the counter that follows. |
| `EnvelopeStreams.Writer.Close` | internal/secretfile/secretfile.go:345-356 | What is on the stream is the envelope of the whole plaintext. |
| `EnvelopeStreams.Reader.Read` | internal/secretfile/secretfile.go:410-426 | No more than asked for, the next bytes of what is still to come; end and error only when nothing is. |
| `EnvelopeStreams.Reader.Advance` | internal/secretfile/secretfile.go:430-477 | Decrypting a chunk changes nothing of what is still to come. |
| `EnvelopeStreams.WriteAll` | internal/secretfile/secretfile.go:299-356 | Whatever pieces a plaintext is written in, the envelope is that of the plaintext. |
| `EnvelopeStreams.NewReader` | internal/secretfile/secretfile.go:376-402 | A reader is what its file, header checked first, has to hand out; else the error is the one of the file. |
| `EnvelopeStreams.RoundTrip` | internal/secretfile/secretfile.go:376-477 | And whatever sizes it is read in, header and all, it comes back whole, then the end of the file. |
| `SenderMapRoundTrip.WhitelistedRoundTrip` | internal/app/validate.go:51-141 | Of any bindings the panel's forms let through, the sender check reads back each address with exactly its logins, and decides by the first-found rule on the bindings. |
| `SenderMapRoundTrip.RoundTripExactly` | internal/postfix/postfix.go:99-129 | The table read back is the bindings exactly if every address has its quotation marks closed and does not start with a number sign. |
| `SenderMapRoundTrip.NumberSignIsLost` | internal/postfix/postfix.go:161-169 | A binding of #a@b is written and not read back. |
| `SenderMapRoundTrip.OpenQuoteIsLost` | internal/postfix/postfix.go:161-169 | A binding of an address with an open quotation mark is written and not read back. |
| `SenderMapRoundTrip.RoundTrip` | internal/milter/sender.go:121-209 | Of any bindings the renderer takes, the readable addresses come back with their logins, and nothing else does; the table is never broken. |
| `SenderMapRoundTrip.AllowedIsRule` | internal/milter/sender.go:211-235 | Allowed, on the file of the bindings, is the rule stated on the bindings. |
| `SenderMapRoundTrip.OwnedIsRule` | internal/milter/sender.go:211-235 | The first of a sender's keys that anybody is bound to decides. |
| `SenderMapRoundTrip.CandidatesOf` | internal/milter/sender.go:211-259 | The keys of name+tag@domain: itself, name@domain, @domain, in that order. |
| `SenderMapRoundTrip.CandidatesWithoutExtension` | internal/milter/sender.go:248-257 | The keys of an address without a "+", or with one in front: itself and @domain. |
| `SenderMapRoundTrip.DomainOfLogin` | internal/milter/sender.go:262-269 | A login has a domain exactly if it has an address, and it is the one its addresses are of. |
| `SenderMapRoundTrip.LineSplits` | internal/milter/sender.go:166-191 | A key with its quotation marks closed ends at the blank after it; with one open the line has no value. |
| `SenderMapRoundTrip.WhitelistedIsReadable` | internal/app/validate.go:125-141 | What the forms let through is readable. |
| `SenderMapOrder.OneFilePerSet` | internal/postfix/postfix.go:99-129 | Bindings that are the same pairs, in any order and with repeats, make the same file, byte for byte. |
| `SenderMap.RenderSenderLoginMaps` | internal/postfix/postfix.go:99-129 | Exactly the bindings with an unsafe value are refused; else the file is the one of the bindings. |
| `SenderMap.Collect` | internal/postfix/postfix.go:100-119 | The logins under each address, and the addresses as they first come. |
| `SenderCheck.ParseSenderMap` | internal/milter/sender.go:121-159 | The table of the lines, or broken exactly if a key comes twice. |
| `TableLines.KeyAndValueAre` | internal/milter/sender.go:166-191 | A key of escaped characters, texts in quotes and other characters but blanks ends at the first blank after them; the value is the rest without the blanks around it; a line without either is ignored. |
| `TableLines.OpenQuoteIsIgnored` | internal/milter/sender.go:166-191 | So is one that ends within quotes. |
| `TableLines.LineIs` | internal/milter/sender.go:121-159 | A line that starts with a blank goes on with the one before it, any other starts one, whatever carriage returns end it. |
| `TableLines.NoteIs` | internal/milter/sender.go:121-159 | Empty lines and comments are none. |
| `SenderCheck.DomainIs` | internal/milter/milter.go:358-363 | The domain of an address is what follows its last "@", in lower case. |
| `SenderCheck.SplitLine` | internal/milter/sender.go:166-191 | The scan finds the end of the key with its quotes and escapes. |
| `SenderCheck.JoinLines` | internal/milter/sender.go:121-150 | Continuation lines are joined and comments dropped as Postfix does. |
| `SenderCheck.Allowed` | internal/milter/sender.go:211-235 | The lookup in the three keys. |
| `AddressForm.DeliveryReadsTheRecipient` | internal/logtail/logtail.go:124-136 | The logged form of a recipient, followed by ">, " and any text, is read as that form and as nothing else - exactly unless a plain local part stands before a domain with a quotation mark, and then it is not read at all. |
| `AddressForm.QuoteInTheDomain` | internal/logtail/logtail.go:124-136 | A recipient with a quotation mark in its domain that no delivery line is read as. |
| `AddressForm.OneReading` | internal/logtail/logtail.go:124-136 | The grammar has one reading at most of any text. |
| `AddressForm.FieldsAreTheLines` | internal/logtail/logtail.go:122-164 | The recipients of a delivery line and what follows relay= can be read in one way only. |
| `AddressForm.UnquoteOfQuote` | internal/milter/milter.go:293-336 | Unquoting a quoted local part gives it back, exactly if it has no tab, CR or LF; those become spaces. |
| `AddressForm.QuoteInjective` | internal/milter/milter.go:323-338 | Two recipients logged alike are one recipient. |
| `AddressForm.LoggedFormStays` | internal/milter/milter.go:293-316 | A recipient given in the logged form is logged as given, its blanks as spaces. |
| `AddressForm.CleanIs` | internal/milter/milter.go:278-280 | The address of a command is what is between the angle brackets, and the blanks around them. |
| `AddressForm.DotStringIsAtoms` | internal/milter/milter.go:341-352 | A dot-string is atoms joined by single dots. |
| `AddressForm.AtomCharIs` | internal/milter/milter.go:341-352 | The characters of an atom, listed. |
| `AddressForm.UnquoteIs` | internal/milter/milter.go:300-313 | Unquoted is exactly what is in quotes at both ends. |
| `AddressForm.RecipientAsLogged` | internal/milter/milter.go:293-316 | The loop unquotes and quotes again as specified. |
| `AddressForm.UnquoteLocalPart` | internal/milter/milter.go:300-313 | A backslash is dropped before the character it escapes, blanks become spaces. |
| `AddressForm.QuoteLocalPart` | internal/milter/milter.go:323-338 | Quoted exactly if it is no dot-string, with a backslash before quotation mark, backslash and CR. |
| `AddressForm.DotString` | internal/milter/milter.go:341-352 | Atoms joined by single dots, none first or last. |
| `Notify.EachMessageIsJustified` | internal/notify/notify.go:434-485 | Over every sequence of checks, recipients and deliveries: the problem is said first after bad checks at least 45 minutes apart with no good one between; later copies only of trouble said and still there; that it is over only after good checks in a row so far apart, to those told; one copy of the problem per address and episode. |
| `Notify.EveryRun` | internal/notify/notify.go:434-485 | The invariant of every run. |
| `Notify.EachCheckOwes` | internal/notify/notify.go:434-485 | After every sequence of checks, what the next one sends, told by the history: while nothing was said in the episode a bad check tells everyone who is to hear of it exactly if the bad checks before it go back far enough; then a bad check goes to exactly those who were to hear of it at first, had no copy, and still are to; a good one, exactly if the good checks before it go back far enough, to exactly those who had one and still are to. |
| `Notify.StepJustified` | internal/notify/notify.go:434-485 | Each step keeps every copy justified by the checks. |
| `Notify.StepOnce` | internal/notify/notify.go:230-285 | No address gets a second copy of the problem in an episode. |
| `Notify.StepCleared` | internal/notify/notify.go:292-318 | The end is told to those told of the trouble. |
| `Notify.Notifier.DnsStep` | internal/notify/notify.go:434-485 | One check moves one domain's state as specified, hands the message to each of those it is for as the ceiling and the mail system allow, and leaves the other domains. |
| `Notify.Notifier.BadAgain` | internal/notify/notify.go:455-463 | A problem counts as said only when a copy went out. |
| `Notify.Notifier.FollowUp` | internal/notify/notify.go:257-287 | Only those owed a copy and still to hear of it are sent one. |
| `Notify.Notifier.GoodAgain` | internal/notify/notify.go:471-483 | The trouble is over when it was said to be, or when there is nobody to say it to. |
| `Notify.Notifier.Open` | internal/notify/notify.go:230-253 | Everyone who is to hear of it is recorded, with whether a copy was handed over. |
| `SendCeiling.NoMoreThanTheCeiling` | internal/notify/notify.go:336-346 | Of one process, every window of one hour, wherever it starts, has at most 60 messages handed over in it. |
| `SendCeiling.SixtyEachProcess` | internal/notify/notify.go:192-210 | Over any run of attempts and restarts, every window of one hour has at most 60 messages handed over in it for each process that handed over any in it. |
| `SendCeiling.SixtyEachIsReached` | internal/notify/notify.go:336-346 | And for every number of processes there is a run that hands over that many. |
| `SendCeiling.PruningHolds` | internal/notify/notify.go:336-346 | Pruning keeps every time that is less than an hour old. |
| `SendCeiling.OneMoreHolds` | internal/notify/notify.go:192-210 | With fewer than 60 left, one more message keeps every 61 of them more than an hour apart. |
| `SendCeiling.Sender.UnderCeiling` | internal/notify/notify.go:336-346 | The list of times is filtered in place, and one more may go exactly if fewer than 60 are left. |
| `SendCeiling.Sender.Deliver` | internal/notify/notify.go:192-210 | Each address is tried once, in order, and handed its message exactly if fewer than 60 were handed over in the hour before and the mail system takes it. |
| `Restore.OpenedOnlyWhole` | cmd/panel/main.go:316-344 | With crashes anywhere and manifests that differ from those left behind: the database is opened under a manifest only if every file of the archive unpacked last was found as recorded since; and then no start of the same version is refused until the next unpacking. |
| `Restore.EveryRun` | internal/backup/backup.go:539-582 | The invariant of every run of unpackings, starts, changes, removals and crashes. |
| `Restore.StartPasses` | internal/backup/contents.go:101-142 | A start that passes the guard has found the files whole, itself or an earlier one since the last unpacking. |
| `Restore.CutShortOpens` | internal/backup/contents.go:101-142 | After an archive cut short, between two of its files or within one, over a directory with a mark, the panel opens what there is exactly if the mark holds the same manifest. |
| `Restore.TornMarkersNeverOpen` | internal/backup/backup.go:539-564 | Cut within its manifest or its record, an archive is never opened. |
| `Restore.SameArchiveCutShort` | internal/backup/contents.go:101-142 | So the same archive unpacked again and cut short is opened, though its files were not found whole since. |
| `Restore.WholeArchiveOpens` | internal/backup/backup.go:132-193 | An archive unpacked whole is opened. |
| `Restore.UnpackedMarkers` | internal/backup/contents.go:83-90 | The record is there only if the archive was unpacked to its end. |
| `RestoreGuard.RestoredExactly` | internal/backup/backup.go:539-564 | A restored directory is opened exactly if its manifest is one of a full backup of this version, and either every file of the archive's record is as recorded and no side file of the database is there, or the record checked before is there and names the manifest as it is. |
| `RestoreGuard.InsideLeadsThere` | internal/backup/contents.go:160-204 | A recorded name is taken exactly if, component by component, it leads straight to where it says. |
| `RestoreGuard.DataDir.VerifyFiles` | internal/backup/contents.go:160-204 | Passes exactly if every file of the record is there as recorded, or, asked for one, that one is named and is. |
| `RestoreGuard.DataDir.CheckContents` | internal/backup/contents.go:101-142 | When the directory passes, and that the record then becomes the mark. |
| `RestoreGuard.DataDir.CheckRestore` | internal/backup/backup.go:539-564 | Ordinary without a manifest; refused for another format or version, or files that do not pass. |
| `RestoreGuard.DataDir.ConsumeRestore` | internal/backup/backup.go:571-582 | The markers are gone, and nothing else. |
| `Supervisor.Remote.RunOnce` | internal/supervisor/rpc.go:86-119 | With any other clients: no error only if a run begun after the call has ended EXITED with status 0; each error says what is so: an unanswered call, a start refused, still going or not free past the deadline, in BACKOFF, another end of its own run. So no error is owed where the calls are answered in time and the program is found EXITED with status 0. |
| `Supervisor.Remote.WaitEnd` | internal/supervisor/rpc.go:149-172 | Ends with the state of a program that is not going, with a call not answered exactly if the last one was not, or past the deadline while it is going. |
| `Supervisor.Remote.StartProcess` | internal/supervisor/rpc.go:89-109 | No answer exactly if there is none; a start taken is a new run; one refused as already started finds the program starting, running or in BACKOFF, exactly then; any other refusal is of a program being stopped or not known, or not spawned. |
| `Supervisor.MovesAreLater` | internal/supervisor/rpc.go:58-64 | No run is taken back, and none that ended ends otherwise. |
| `CountedTailer.NoLineCountedTwice` | internal/logtail/sendercheck.go:126-183 | Behind any run of the tailer - appends, rotations, stops, crashes, starts - no warning line is counted twice, where the stamps of one file do not go back. |
| `CountedTailer.OnceExactly` | internal/logtail/sendercheck.go:126-183 | Whatever the stamps: behind any run of the tailer no line is counted twice if and only if no line counted before is read again, catching up, past the place of the last one counted, under its fingerprint: comparing times alone never counts one twice. |
| `StampRuns.CountedTwice` | internal/logtail/sendercheck.go:178-183 | The order of the stamps is needed: a run of the tailer in which an earlier line of a later stamp, not read before, moves the place back, and a warning is counted twice. |
| `CountedTailer.ReadsAreNew` | internal/logtail/logtail.go:240-262 | A line read once the tailer has caught up is past all that was ever read of its file. |
| `CountedTailer.StepRuns` | internal/logtail/logtail.go:240-262 | The lines a step of the tailer hands over are read as the counter relies on. |
| `DeferredCounter.NoneCountedTwice` | internal/logtail/sendercheck.go:162-173 | Across crashes, replays and rotations, of lines read so, no warning line is counted twice. |
| `CountedOnce.EachWarningOnce` | internal/logtail/sendercheck.go:126-183 | In every run of the tailer, from any moment at which the last line counted is one of a log with its fingerprint, not before the first place ever saved, and while that log is read by whole lines - as the log, late after its renaming, or at a start from the renamed file: every cleanup warning read past it has been counted, and counted once. |
| `CountedOnce.StepKnown` | internal/logtail/logtail.go:754-942 | In every run: of the lines owed of a file, all before one that was read were read. |
| `CountedOnce.ReadInOrder` | internal/logtail/logtail.go:754-942 | What a step hands over is read in the order the counter relies on: first after all before it, or read before. |
| `DeferredCounter.EachWarningOnce` | internal/logtail/sendercheck.go:126-157 | Of lines read in that order within one file with a fingerprint, from any moment at which the last line counted is of that file, every cleanup warning read past it is counted exactly once. |
| `WarnedOnce.CountedExactly` | internal/logtail/sendercheck.go:126-183 | Whatever lines were read and whatever starts there were: a line counts if and only if it is a warning of cleanup's, or one of smtpd's of a process that has not warned since its last connection, the last start, or the time 1024 were remembered; and, while the panel catches up, not before what was counted. |
| `WarnedOnce.EachConnectionOnce` | internal/logtail/sendercheck.go:140-155 | So a connection counts once however many warnings it draws. |
| `WarnedOnce.FailedAreWarned` | internal/logtail/sendercheck.go:140-155 | The processes remembered are those, told by the lines read alone. |
| `DeferredCounter.RunsTopmost` | internal/logtail/sendercheck.go:178-183 | No warning read is after the last time counted, nor, in the file of the last line counted, past that. |
| `DeferredCounter.OnceExactly` | internal/logtail/sendercheck.go:178-183 | Of lines read in any stamp order, none is counted twice exactly if none that was counted is read again past the place, under its fingerprint. |
| `DeferredCounter.CountsIsNew` | internal/logtail/sendercheck.go:178-183 | A line that counts is past every line of its file counted before. |
| `DeferredCounter.StepMirrors` | internal/store/sendercheck.go:100-144 | A start finds in the store the time and place the running panel had: count, time and place are one transaction. |
| `DeferredCounter.RowsAreTheTally` | internal/store/sendercheck.go:100-144 | Each day's row is the number of lines of that day counted, of each of the two sorts. |
| `DeferredCounter.PlaceRoundTrip` | internal/logtail/offset.go:72-86 | A saved place comes back as it was, whatever its fingerprint holds. |
| `DeferredCounter.Counter.Handle` | internal/logtail/sendercheck.go:126-157 | What one line does to the memory and the store; at most 1024 processes are remembered. |
| `DeferredCounter.Counter.Count` | internal/logtail/sendercheck.go:162-173 | Counts unless the line was counted already, and then time, place and day row move together. |
| `SignLines.EverySignedHeaderIsSelected` | internal/milter/sign.go:349-372 | Every instance of every signed header is selected, each by one name of h=. |
| `SignLines.InsertionShows` | internal/milter/sign.go:52-61 | One more From, or one more of an over-signed header the message has, put in anywhere, changes what is hashed. |
| `SignLines.RemovalShows` | internal/milter/sign.go:31-50 | So does taking any signed header out. |
| `SignLines.ChangeShows` | internal/milter/sign.go:31-50 | And changing one. |
| `SignLines.InsertionAboveDoesNotShow` | internal/milter/sign.go:38-50 | A header not over-signed, put in above all others of its name, changes nothing: the exact reach of the rule. |
| `SignLines.NamesOccur` | internal/milter/sign.go:349-372 | A signed header is named once for each instance, and once more where it is over-signed. |
| `SignLines.SignLines` | internal/milter/sign.go:349-372 | The names and the block the loop builds. |
| `SignLines.DeliveredIs` | internal/milter/sign.go:349-372 | The value of a header in the block is the only text with its lines and no LF without a CR. |
| `SignLines.LinesNext` | internal/milter/sign.go:349-372 | The block is the headers in order, each with its name, a colon, that value and CR LF. |
| `SignLines.BrokenComesBack` | internal/milter/sign.go:356-359 | Ending the lines of a value with CRLF changes nothing but line ends. |
| `TailLines.Tail` | internal/logtail/logtail.go:561-600 | Reading backwards in chunks gives the last n lines of the whole file if and only if the chunks read hold enough of it (Enough); which they do for every file with at most one trailing newline and every n. |
| `TailLines.EnoughExactly` | internal/logtail/logtail.go:579-602 | The bytes from a place on have the last n lines exactly if they are the whole file, or without their trailing newlines have n newlines, or one less and start a line - or there is no line, or none is asked for. |
| `TailLines.ChunksSuffice` | internal/logtail/logtail.go:579-592 | The chunks read when the loop stops hold those lines. |
| `TailLines.SuffixLines` | internal/logtail/logtail.go:594-602 | A suffix with n newlines has the last n lines of the whole. |
| `TailLines.TwoNewlinesCutALine` | internal/logtail/logtail.go:579-602 | With two trailing newlines the line asked for can come back cut: a file that does it. |

## Left out

- Real files, descriptors, fsync, SQLite, sockets, XML-RPC encoding, HTTP and processes; a power cut that loses a rename already made.
- AES-GCM, scrypt, SHA-256, RSA and DKIM canonicalisation beyond the idealisations above.
- Writers and readers under the envelope that fail on their own, its empty-password refusal, and the text of payload types.
- Regular expressions, but for the recipient grammar: a line of the log is a structured value. Fingerprints saved before they carried the file's identity (the bare hash in `sameLog`), copytruncate rotation, a mail.log that is briefly missing, and read errors other than the end of a file.
- The other handlers of the tailer's lines (inbound journal, kept lines, test messages), `blindness`, `QueueLines`, `resultsInLog` and its missed count.
- The certificate, queue and limit subjects of the notifier, the order in which it goes over domains, message texts, and a crash between recording who was told and saving the state.
- Deploy files in an archive, directories, JSON syntax, the reasons of refusals, and an archive unpacked while the panel runs.
- The key table of the signer, and headers a mail system adds or folds after signing.
- Web handlers, users, settings, DNS checks, DMARC reports, health readings and updates: they would add easy members only.
- NoLineLost.EveryRun: supposes that the writer writes only to the log or to a file still to be read, that no two rotations fall between two looks at the log, that at a start the saved place is in the log or, with a fingerprint, in the renamed log, and that no crash leaves late lines of a renamed file unread (`Follow.Proviso`). What is lost without each is said exactly by LateWrites.LateWriteExactly, LateWrites.TwoRotationsLoseExactly, NoLineLost.StartLosesExactly and NoLineLost.CrashLosesExactly. A start, with what it reads of the renamed log, is one step; a crash within it is a crash before it, as nothing is saved or flushed in between. Places of refusals found in the renamed log are any of its line starts.
- PlacesHold.SavedPlacesAreBoundaries: supposes that a piece of a line - read first where a start falls within a line - is not taken for a line that names a login or waits, and that at a save under an empty fingerprint nothing waits of an earlier file without one; PlacesHold.SavedPlacesExactly has no such condition.
- PlacesHold.CrashReadsItAgain: what waits in a renamed file is given up when its successor is adopted; after that only what waits in the successor is read again.
- SendCeiling.NoMoreThanTheCeiling: of one process; SendCeiling.SixtyEachProcess is of any number, one after the other.
- RateProtocol.LimitHolds: reservations do not outlive their time (ten minutes) and the window is fixed; Inflight.Registry.CountLocked models both.
- AddressForm.DeliveryReadsTheRecipient: of an address with an "@"; a quoted local part alone, which Postfix completes with a domain, is not in the grammar.
- CountedTailer.NoLineCountedTwice: under the provisos of `Follow.Proviso`; supposes that the stamps of one file do not go back, which CountedTailer.OnceExactly does not; that a line has one stamp is part of both.
- CountedOnce.EachWarningOnce: a line of another log, and a piece of a line, ends the stretch; pieces are ruled out by PlacesHold.SavedPlacesAreBoundaries, but for the one a renamed log may end in. A count made before the first place the panel ever saved does not begin one.
- SendLog.ReplayIsOnePass: on one sequence of lines; SendLogTailer.RowsAreOnePass is behind the tailer. That one is of rows inserted before and not closed by a sweep meanwhile, and supposes that nothing is written to a file once a line of a later one is read, that no line of the log is read before the renamed file has been, and that starts read on at line starts.
- DeferredCounter.PlaceRoundTrip: of saved places, only those `Place.String` writes; other texts `fmt.Sscan` takes for a number are read as no place.
- PostfixForm.AsLoggedIsPostfixs: of addresses with a domain whose local part is quoted or is of the characters of an atom and dots; comments, and blanks outside quotes, are taken as written.
- Sessions.Session.MailFrom: the client's address list is the store's answer for it, and the subject is kept as given, not decoded; rows do not hold the domain's id.
- Restore.OpenedOnlyWhole: supposes manifests that differ; Restore.CutShortOpens has the exact condition for one that does not.
