# Verified models of the panel and its core

This project models, in Dafny, the parts of the panel and of its bundled core whose
correctness depends on whole runs rather than on one function: a framing codec with its
two state machines, a database swap with rollback, an admission protocol, an in-place
rewriter of binary files, an update handshake between processes, and several pieces of
bookkeeping. Everything is stated about all inputs, all cuts of a byte stream, all
interleavings or all patterns of failure. `dafny verify dfyconfig.toml` checks it.

| files | what they model |
|---|---|
| `Collections`, `Strings` | options, facts about sequences and sets, and the string functions of the Go library that are used |
| `Bytes`, `VisionFrame`, `VisionReader`, `VisionTls`, `VisionHello`, `VisionWriter`, `VisionState`, `VisionEndToEnd`, `VisionRun` | the XTLS Vision framing: wire format and parser, what re-chunked reads deliver, the TLS sniffer and what it concludes from hello messages, padding and the writer, the stateful objects, both ends together, and whole runs of the objects at both ends |
| `RestoreTransaction` | the swap of the live database for a restored one, with rollback, and the import around it |
| `RestoreBarrier`, `SignalGate` | who may change the panel while a restore is committing, and how refused reloads are retried |
| `GeositeWire`, `GeositeNormalize`, `GeositeRewrite` | geosite files: a grammar that keeps every byte, the stream walker, the rewrite in place |
| `PanelUpdate`, `UpdateHistory` | the self-update handshake between panel, worker, installer and status readers |
| `BackupReferences`, `BackupWalk`, `BackupImage`, `BackupPaths`, `BackupAssets`, `BackupBundle` | file references in stored documents, their assets, and the backup archive |
| `NativeProjection`, `NativeReadiness`, `InnerAccounts` | which accounts of a ShadowTLS listener the core sees and when its settings are refused, and the upkeep of its inner account list |
| `FeatureResolution` | dependencies between the features of a core instance |
| `PortText`, `ReservedPorts` | port lists as text, and the panel's share of the kernel's reserved ports |

Several properties turned out to hold only under a condition. Each has its exact
condition and a concrete input that breaks it:

- what a reader delivers when a read stops inside the last header
  (`VisionReader.EndStream` and `VisionEndToEnd.BlindReadCorrupts`), and when it switches
  to direct copy (`VisionReader.DirectStream` and `VisionEndToEnd.BlindReadSwitches`);
- whether a TLS 1.3 hello that is cut over buffers enables direct copy
  (`VisionHello.CutHello` and `VisionHello.HiddenVersion`);
- when a padding length can be negative, in the int32 arithmetic of the code, so that
  extending the buffer panics (`VisionWriter.PaddingNeverNegative`,
  `VisionWriter.NegativePadding` and `VisionWriter.WrappedPadding`);
- whether the first buffer of a stream is long enough to be recognised
  (`VisionEndToEnd.ShortStart`);
- when a SOCKS account outlives the record it belongs to (`NativeProjection.SocksExact`
  and `NativeProjection.DisabledRecordKeepsAccount`);
- whose ports the kernel's list holds after a memory file that was not written, or not
  completely (`ReservedPorts.Reservations.Update`, `ReservedPorts.CutAnywhere`,
  `ReservedPorts.ForgottenPort` and `ReservedPorts.CutNumber`);
- whether a rename keeps the accounts bound, which it does exactly if the new email is not
  empty (`InnerAccounts.RenameKeepsIff` and `InnerAccounts.RenameToNothing`). The function
  that renames does not check this; its only caller does, through
  web/service/native_client_helpers.go:34-56, so the guarantee holds of every edit made
  through the panel (`InnerAccounts.EditsKeepBindings`).

## Conventions

- Integers are unbounded. Where a width matters it is written out: padding lengths are
  computed in int32 from uint32 settings, 16-bit lengths are two bytes and
  `hi << 8 | lo` is `hi * 256 + lo`, stored times must fit int64; `GeositeWire.VarintFits`
  shows that no accepted number exceeds 64 bits.
- A Vision buffer is a byte sequence of at most 8192 bytes. A nil buffer occurs only as
  the single element of a call. Random draws are an arbitrary number reduced to the
  range; cipher-suite bytes that lie past the end of a buffer are an arbitrary number
  (`stale`).
- In the restore, files are known by where they came from, not by content. Every hook and
  system call may fail whenever it is called; its answer is an input, on the way forward
  (`Answers`) and on the way back (`Undo`). Removals whose errors the code ignores may
  leave everything in place. The sidecars that SQLite itself removes when it closes a
  database, and those that opening the candidate creates, are inputs; reopening the
  predecessor may create its sidecars at will.
- In the update handshake, writing the ack file is one step, a crash can happen between
  any two steps, and removing a request directory may fail.
- A write of the kernel's port list takes effect or fails as a whole; a failed write of
  the panel's own memory file leaves the old text or any beginning of the new one.
- Strings are ordered by code points, as `sort.Strings` orders valid UTF-8.
- Maps of the source that are walked in arbitrary order are sequences here, and the
  results are shown not to depend on the order where that matters (slots of a document
  as multisets, fired callbacks as multisets).
- Where a walk stops at the first error and discards its result, the model may go on and
  discard the result at the end.

## Model

| member | source | states |
|---|---|---|
| VisionFrame.ParseSplit | core/proxy/proxy.go:560-612 | the parser is resumable: parsing two pieces one after the other gives the state and output of parsing them together |
| VisionFrame.ParseBlock | core/proxy/proxy.go:561-611 | from a block boundary, the bytes of any block give exactly its content and the next boundary or the initial state |
| VisionFrame.ParseTerminated | core/proxy/proxy.go:560-612 | blocks with commands 0…0 and one nonzero, then any tail, parse to the contents followed by the tail |
| VisionReader.UnpadAllIsParse | core/proxy/proxy.go:535-616 | from any offset of a framed stream, any split of the next bytes into buffers gives the output and state of one pass |
| VisionReader.UnpadRoundTrip | core/proxy/proxy.go:496-616 | for all contents, paddings, tail and splits (first buffer at least 21 bytes, none after the end looking like a new start) the outputs are the contents and the tail |
| VisionReader.Position | core/proxy/proxy.go:551-611 | the parser's state at every offset of a stream: initial exactly past the last block, and its lengths look like zero exactly at a blind cut |
| VisionReader.DecideAt | core/proxy/proxy.go:244-253 | after a read that stops anywhere, framing is taken to go on, and direct copy switched on, exactly as the offset and blind cuts dictate |
| VisionReader.EndStream | core/proxy/proxy.go:203-285 | a stream ending in End, over any calls: contents and tail are delivered exactly, if and only if no read stopping blind in the last header is followed by one after the sniffer stopped |
| VisionReader.DirectStream | core/proxy/proxy.go:203-285 | a stream ending in Direct: direct copy is on iff the last block is used up or some read stopped blind; otherwise the output is a prefix of, and at the end all of, the contents |
| VisionTls.CompleteIffRecordStream | core/proxy/proxy.go:407-458 | a batch is complete iff it is zero or more non-empty application_data records end to end |
| VisionTls.IsCompleteRecord | core/proxy/proxy.go:407-458 | the loop over header and record bytes decides that |
| VisionTls.XtlsFilterTls | core/proxy/proxy.go:619-670 | the loop computes the sniffer's state after a call's buffers |
| VisionTls.FilterKeeps | core/proxy/proxy.go:619-670 | EnableXtls implies IsTLS12orAbove in every run; findings are never withdrawn; once the count is used up nothing is looked at |
| VisionHello.WholeHello | core/proxy/proxy.go:624-662 | a ServerHello on the wire, whole in a buffer: the sniffer stops and knows TLS 1.2 or later, and enables direct copy iff it was enabled or the hello holds the supported_versions bytes and its suite is 0x1301 to 0x1304 (the old suite, where the hello is too short to be looked into) |
| VisionHello.CutHello | core/proxy/proxy.go:643-663 | the same for a hello cut into any pieces, the first of which shows the suite: direct copy is enabled iff the suite allows it and one piece alone holds those bytes |
| VisionHello.HiddenVersion | core/proxy/proxy.go:649 | a concrete TLS 1.3 hello that enables direct copy whole, and does not when cut through those bytes |
| VisionHello.ExtensionIsSeen | core/proxy/proxy.go:649 | a hello with that extension among its extensions holds those bytes |
| VisionHello.OtherBuffer | core/proxy/proxy.go:624-642 | outside a ServerHello, a ClientHello sets IsTLS and any other buffer sets nothing; both count one packet |
| VisionHello.CallsAreOne | core/proxy/proxy.go:352-354 | as long as the count lasts it makes no difference which buffers come in which call |
| VisionWriter.ReshapeMultiBuffer | core/proxy/proxy.go:461-493 | reshaping moves no byte and leaves every buffer at most Size-21 |
| VisionWriter.ReshapedFits | core/proxy/proxy.go:473-489 | the same of the specification, and no buffer list becomes empty |
| VisionWriter.PiecesCut | core/proxy/proxy.go:471-489 | only a buffer of at least Size-21 bytes is cut, at the start of its last 17 03 03 if that is 21 to Size-21 bytes in, and at Size/2 otherwise |
| VisionWriter.PaddingNeverNegative | core/proxy/proxy.go:502-517 | in int32 arithmetic, a seed never gives a negative padding length iff its short range is at most 2^31 and, where its threshold is positive, its base is not negative, base and long range together are at most 2^31, and the threshold is at most base+1 or the base covers a whole buffer; the default seed is such a seed |
| VisionWriter.NegativePadding | core/proxy/proxy.go:502-517 | a concrete seed and content with padding length -400 |
| VisionWriter.WrappedPadding | core/proxy/proxy.go:502-513 | two concrete seeds beyond int32 whose draws wrap around to -2^31 |
| VisionWriter.PaddingInRange | core/proxy/proxy.go:502-517 | then the padding fits the buffer beside UUID, header and content |
| VisionWriter.PaddingTotals | core/proxy/proxy.go:502-517 | long padding brings a short content to a length between base and base plus range, or to a full buffer; short padding stays below its range |
| VisionWriter.DrawableIff | core/proxy/proxy.go:502-513 | no draw is asked for from an empty range iff the short range is positive and, below a positive threshold, the long one |
| VisionWriter.XtlsPadding | core/proxy/proxy.go:496-532 | the buffer is the UUID (once) and the encoded block, within Size, nothing cut off |
| VisionWriter.PadFromConserves | core/proxy/proxy.go:363-392 | padding a batch loses, reorders and duplicates nothing |
| VisionWriter.PadFromDisciplined | core/proxy/proxy.go:363-392 | a batch emits Continue blocks and at most one End or Direct block after them, and arms direct copy iff that is Direct |
| VisionWriter.PaddingEnds | core/proxy/proxy.go:360-392 | from the bytes of a call: padding ends iff the connection speaks TLS, the bytes are complete records and a reshaped buffer of at least 6 bytes starts one, or there are bytes, no TLS 1.2 and at most one packet left; the last block is Direct, and direct copy armed, iff the first holds with EnableXtls |
| VisionWriter.CallBlocks | core/proxy/proxy.go:360-392 | the blocks of a call: one for each reshaped buffer with zeros of the length drawn for it, long while TLS padding goes on or ends here, and after giving up the rest as it is |
| VisionWriter.NilCall | core/proxy/proxy.go:357-358 | the nil buffer becomes one empty Continue block with long padding, which hides the request header |
| VisionWriter.WriteDecides | core/proxy/proxy.go:334-392 | the same of a whole call, decided by what the sniffer knows after its own buffers |
| VisionWriter.WrittenKeeps | core/proxy/proxy.go:322-404 | one call keeps the writer's run invariant for the input so far |
| VisionWriter.WriterRun | core/proxy/proxy.go:322-404 | every run of calls and sniffed traffic: blocks 0…0 then one nonzero, nothing padded after it, direct copy armed or on iff it is Direct, all input present in order |
| VisionState.TrafficState.constructor | core/proxy/proxy.go:142-172 | the initial state of both links and the sniffer |
| VisionState.Take | core/proxy/proxy.go:561-598 | one iteration uses at least one byte and is a step of the byte parser |
| VisionState.Unpadding | core/proxy/proxy.go:551-615 | the loop on one buffer equals the specification from every reachable state, and terminates |
| VisionState.XtlsUnpadding | core/proxy/proxy.go:535-616 | it changes only the parser of the link it reads |
| VisionState.VisionReader.ReadMultiBuffer | core/proxy/proxy.go:203-285 | one call delivers the specified bytes, with what was read ahead exactly on the switch to direct copy, and leaves the other link alone |
| VisionState.VisionReader.UnpadEach | core/proxy/proxy.go:236-243 | the non-empty outputs of the buffers in order |
| VisionState.VisionReader.UnpadAndDecide | core/proxy/proxy.go:236-253 | the reader's flags after unpadding |
| VisionState.VisionWriter.constructor | core/proxy/proxy.go:304-320 | a new writer, with its UUID still to be written, and the default seed if fewer than four numbers are given |
| VisionState.VisionWriter.WriteMultiBuffer | core/proxy/proxy.go:322-404 | one call keeps the writer's invariant: the framed connection carries UUID, blocks and tail of the specification, the raw one the rest |
| VisionState.VisionWriter.Emit | core/proxy/proxy.go:356-395 | what one call puts on the framed or the raw connection, and which of the two |
| VisionState.VisionWriter.Prepare | core/proxy/proxy.go:334-354 | the armed switch is taken and the sniffer sees the data |
| VisionState.VisionWriter.Pad | core/proxy/proxy.go:356-394 | the call's bytes: the UUID on the first block of the connection only |
| VisionState.VisionWriter.PadAll | core/proxy/proxy.go:363-392 | the loop emits the specified blocks and tail |
| VisionState.FramedWritten | core/proxy/proxy.go:322-404 | what each call adds to the framed connection |
| VisionEndToEnd.EndToEnd | core/proxy/proxy.go:203-404 | every writer run ending in End and every re-chunking of its bytes: the reader returns exactly the writer's input iff no read loses framing |
| VisionEndToEnd.EndToEndDirect | core/proxy/proxy.go:203-404 | every run ending in Direct: the reader switches exactly when the last block is consumed, and its output with the raw bytes is the writer's input |
| VisionEndToEnd.HelloThenRecords | core/proxy/proxy.go:322-392 | a ServerHello seen while padding, then a call of complete records: padding ends there, in Direct iff the hello says TLS 1.3 with one of the four suites or direct copy was enabled before |
| VisionEndToEnd.OutsideHeaderIsSafe | core/proxy/proxy.go:244-250 | reads that never stop inside the last header neither lose framing nor switch early |
| VisionEndToEnd.BlindReadCorrupts | core/proxy/proxy.go:235-250 | a concrete stream and cut for which the reader's output is wrong |
| VisionEndToEnd.BlindReadSwitches | core/proxy/proxy.go:244-250 | a concrete stream and cut for which direct copy is switched on inside the last block |
| VisionEndToEnd.PlainStream | core/proxy/proxy.go:551-557 | if no buffer starts with the UUID, every byte is delivered as it came |
| VisionEndToEnd.ShortStart | core/proxy/proxy.go:551-557 | with a first buffer under 21 bytes and no later start, the UUID and all framing are delivered as data, so the output is not the input |
| VisionRun.TraceStops | core/proxy/proxy.go:235-257 | the sniffer of the reader's end never starts counting again, so no read of a run filters after one that did not |
| VisionRun.WriteRun | core/proxy/proxy.go:322-404 | a writer object over any run of calls and sniffed traffic is in the specified state |
| VisionRun.ReadRun | core/proxy/proxy.go:203-285 | a reader object over any run delivers what its reads deliver, with what was read ahead inserted at the switch |
| VisionRun.Session | core/proxy/proxy.go:203-404 | a writer and a reader object with states of their own, over whole runs ending in End: the reader returns exactly what was written iff no read loses framing |
| VisionRun.DirectSession | core/proxy/proxy.go:203-404 | the same for runs ending in Direct: the reader object switches exactly when all framed bytes have arrived, unless a read stopped blind |
| RestoreTransaction.Panel.Commit | web/service/portable_backup_transaction.go:38-160 | refused iff the core could not be stopped or an earlier step failed; committed iff nothing on the way forward fails and there is a live database; otherwise rolled back iff nothing asked for on the way back fails, and a recovery error if something does. Committed means candidate live and published; otherwise every predecessor file that SQLite did not drop itself is live or saved, after an ordinary error all of them live, after a rollback with the old core as before; the manual flag is restored, and a core that went down in a failed stop is started again |
| RestoreTransaction.Panel.Swap | web/service/portable_backup_transaction.go:61-159 | the same from the stopped core on |
| RestoreTransaction.Panel.Forward | web/service/portable_backup_transaction.go:111-151 | published iff every step succeeds; at every failure exactly the files up to the first that stuck are moved, and it is known whether the candidate is in and with which files |
| RestoreTransaction.Panel.Exchange | web/service/portable_backup_transaction.go:111-131 | the candidate is in iff closing, every move and its own rename succeed; exactly the files before the first failure are aside |
| RestoreTransaction.Panel.MoveAside | web/service/portable_backup_transaction.go:114-127 | it succeeds iff no look or rename fails and the database exists; exactly the files before the first failure are moved, saved, and the rest live |
| RestoreTransaction.Panel.Activate | web/service/portable_backup_transaction.go:132-151 | published iff no call fails, with the candidate core running unless it was meant to stay stopped |
| RestoreTransaction.Panel.Rollback | web/service/portable_backup_transaction.go:63-109 | reached only before publication; an ordinary error iff stopping, closing, each look, each rename that is needed, reopening and a needed start all succeed, a recovery error otherwise; no file of the predecessor is lost but what SQLite drops, and after an ordinary error all are live again |
| RestoreTransaction.Panel.DiscardCandidate | web/service/portable_backup_transaction.go:71-83 | it succeeds iff each file can be looked at and each that is there discarded; then none is left at the live paths, and the saved ones stay |
| RestoreTransaction.Panel.BringBack | web/service/portable_backup_transaction.go:84-93 | it succeeds iff every moved file can be renamed back; each returns or stays saved |
| RestoreTransaction.Panel.RemoveSaved | web/service/portable_backup_transaction.go:154-158 | cleaning up, even partly, leaves the live files alone, and if it works nothing of the predecessor is left |
| RestoreTransaction.Panel.PublishCandidate | web/service/portable_backup.go:414-428 | published iff the listeners are free and publishing works; the restart request is dropped exactly if they are free |
| RestoreTransaction.Panel.Import | web/service/portable_backup.go:336-371 | refused, committed and rolled back each exactly when preparation, admission and the answers of the way forward and back say so; assets are kept exactly after a commit or a recovery error, if removing works; a live candidate always has those that preparation installed; after failures the restart request is as before and no predecessor file is lost |
| RestoreTransaction.Panel.Install | web/service/portable_backup.go:343-371 | the same from the prepared candidate on |
| RestoreTransaction.Panel.Cleanup | web/service/portable_backup.go:61-66 | the staged candidate goes, and the assets unless they are to be kept, each only if its removal works |
| RestoreBarrier.StartInv | database/restore_barrier.go:8-13 | the invariant holds initially for any number of threads |
| RestoreBarrier.MutationKeepsInv | database/restore_barrier.go:43-55 | every step of a mutation keeps it |
| RestoreBarrier.LifecycleKeepsInv | database/restore_barrier.go:24-39 | every step of a lifecycle keeps it |
| RestoreBarrier.RestoreKeepsInv | database/restore_barrier.go:59-84 | every step of a restore keeps it |
| RestoreBarrier.InvIsSafe | database/restore_barrier.go:24-84 | active and lifecycle are never both true, a drained restore coexists with no admitted work, begin has one holder |
| RestoreBarrier.RunIsSafe | database/restore_barrier.go:24-84 | this in every state of every interleaving of any number of threads |
| RestoreBarrier.NoAdmissionWhileActive | database/restore_barrier.go:43-67 | nobody is admitted between raising and lowering active |
| RestoreBarrier.DrainDecreases | database/restore_barrier.go:43-67 | while active is up nothing adds to what is left of the drain, and every step of a thread involved takes from it |
| RestoreBarrier.DrainAdvances | database/restore_barrier.go:43-67 | as long as something is left, a thread involved has an enabled step |
| RestoreBarrier.DrainedIsIn | database/restore_barrier.go:59-67 | when nothing is left the restore holds the lock with no reader |
| RestoreBarrier.DrainCompletes | database/restore_barrier.go:59-67 | from every state with a restore under way there is a run on which it gets in, with active up all the time |
| RestoreBarrier.MutationGetsIn | database/restore_barrier.go:43-55 | without a restore a mutation is admitted, however many others are, and its release leaves the state as it was |
| RestoreBarrier.LifecycleGetsIn | database/restore_barrier.go:24-34 | with begin free a lifecycle is admitted, whatever mutations are |
| RestoreBarrier.LifecycleGetsOut | database/restore_barrier.go:35-39 | and its release leaves the state as it was |
| RestoreBarrier.RestoreGetsIn | database/restore_barrier.go:59-79 | with begin free and nobody admitted a restore gets in at once |
| RestoreBarrier.RestoreGetsOut | database/restore_barrier.go:62-66 | and its release leaves the state as it was |
| RestoreBarrier.NoWaitCycle | web/service/portable_backup.go:336-360 | no threads wait for each other in a circle, counting the locks that are waited for (not those only tried) and a reload's wait for all HTTP requests, imports included |
| RestoreBarrier.WaitAscends | database/restore_barrier.go:69-84 | every wait is for a thread later in the order, because begin has one holder |
| RestoreBarrier.WaitingImportDeadlocks | database/restore_barrier.go:69-71 | an import that waited for begin would close a circle with a reload |
| SignalGate.RestoreSignalGate.Clear | restore_signal_gate.go:24-29 | the gate's timer is stopped and no other |
| SignalGate.RestoreSignalGate.Run | restore_signal_gate.go:33-45 | the reload runs iff admitted; a refusal arms one timer, repeated refusals keep it |
| SignalGate.SignalLoop.Turn | main.go:112-171 | one turn keeps one retry per pending kind |
| SignalGate.SignalLoop.Serve | main.go:111-171 | over any events exactly the pending kinds have an armed retry, and each admission is one reload |
| SignalGate.SignalLoop.OneTimerEach | restore_signal_gate.go:5-13 | as many timers run as kinds are pending |
| SignalGate.SignalLoop.Shutdown | main.go:109-110 | the deferred clears leave no timer |
| SignalGate.RefusedStaysPending | restore_signal_gate.go:33-45 | a refused reload stays pending until one of its kind is admitted |
| SignalGate.PendingWasRefused | restore_signal_gate.go:33-45 | a pending kind was refused and not requested since |
| GeositeWire.OneList | web/service/geosite_normalize.go:70-133 | the grammar is unambiguous: two trees with the same bytes are equal |
| GeositeWire.FieldAt | web/service/geosite_normalize.go:80-128 | reading a tag and then a value of its wire type finds exactly the field at the front |
| GeositeWire.ChunkAt | web/service/geosite_normalize.go:200-210 | a length-delimited value is there iff its number is and the length fits the limit and the data |
| GeositeWire.FieldWithin | web/service/geosite_normalize.go:102-128 | a field read from the whole stream that ends within an entry is the field of the entry's bytes, and no other is |
| GeositeWire.VarintFits | web/service/geosite_normalize.go:150-157 | every accepted number fits 64 bits |
| GeositeWire.EveryNumberHasVarint | web/service/geosite_normalize.go:150-157 | and every number of 64 bits has an accepted form |
| GeositeNormalize.WireReader.Uvarint | web/service/geosite_normalize.go:150-157 | it reads exactly the varint at the front, and reports end of file only where no byte was left |
| GeositeNormalize.WireReader.Bytes | web/service/geosite_normalize.go:159-166 | the next bytes, or an error iff they are not there |
| GeositeNormalize.WireReader.Discard | web/service/geosite_normalize.go:168-182 | stepwise discarding succeeds iff the bytes are there |
| GeositeNormalize.WireReader.Skip | web/service/geosite_normalize.go:186-218 | it succeeds iff a value of that wire type is at the front and ends in time, and passes exactly it |
| GeositeNormalize.WalkField | web/service/geosite_normalize.go:103-127 | one field of an entry is accepted iff the grammar accepts it within the entry, with its code and offset if that has a lowercase letter |
| GeositeNormalize.WalkEntry | web/service/geosite_normalize.go:102-131 | an entry is accepted iff its bytes are fields; the reader ends exactly at the end, so the check of line 129 never fires |
| GeositeNormalize.WalkTop | web/service/geosite_normalize.go:87-131 | a field of the list is accepted iff it is an element of the grammar |
| GeositeNormalize.LowercaseGeositeCodes | web/service/geosite_normalize.go:75-133 | a file is accepted iff the grammar has a list for it, and the codes, offsets and entry count are that list's |
| GeositeRewrite.AsciiUpper | web/service/geosite_normalize.go:236-245 | each of the 26 lowercase letters becomes the capital at the same place of the alphabet, and every other byte stays |
| GeositeRewrite.UpperListRecodes | web/service/geosite_normalize.go:110-122 | the upper-case list is the old one, entry by entry and field by field, with exactly the lowercase letters of the codes of its entries exchanged |
| GeositeRewrite.PatchIsUpper | web/service/geosite_normalize.go:42-46 | writing every code in upper case at its offset gives the printed form of the list with upper-case codes |
| GeositeRewrite.ListInPlace | web/service/geosite_normalize.go:115-122 | every recorded code is at its recorded offset |
| GeositeRewrite.GeositeFile.WriteCodes | web/service/geosite_normalize.go:42-46 | it completes iff no write fails; whenever one does, only lowercase letters inside codes have become capitals |
| GeositeRewrite.GeositeFile.Normalize | web/service/geosite_normalize.go:26-53 | malformed files are untouched; the run is complete iff no write fails and the sync does not; then the file holds the old list with exactly the lowercase letters of its codes exchanged for capitals; an interrupted run changed only such letters; nothing to do means nothing is written |
| GeositeRewrite.NormalizedIsStable | web/service/geosite_normalize.go:26-53 | the result has the same length, parses to the list with codes in upper case, and a second run finds nothing |
| PanelUpdate.StepKeepsInv | web/service/panel_update.go:104-320 | every step of any request, worker, installer or reader, crashes included, keeps the invariant |
| UpdateHistory.OneUpdater | web/service/panel_update.go:294-320 | at most one run, worker and installer together, is past the lock, and then no reader holds it |
| UpdateHistory.ErrorNeverInstalls | web/service/panel_update.go:175-241 | a request that returned an error never reaches the installing phase, before or after, and its run is never reported successful |
| UpdateHistory.TerminalNeverInterrupted | web/service/panel_update.go:104-133 | a run that wrote its terminal status is never reported as interrupted, at any time |
| UpdateHistory.AcceptedWasReady | web/service/panel_update.go:213-228 | a request that saw its worker ready, so every accepted one, was told the truth: at some moment before, that worker held the lock under its own running status |
| UpdateHistory.BusyWasTaken | web/service/panel_update.go:296 | a worker that said busy had found the lock taken |
| UpdateHistory.UpdateCanSucceed | web/service/panel_update.go:175-320 | with the lock free there is a run that is accepted, installs, leaves its verdict and frees the lock |
| UpdateHistory.BusyIsTold | web/service/panel_update.go:229-296 | with the lock taken there is a run in which the worker says busy, the request returns an error and its directory is removed |
| UpdateHistory.StartCanFail | web/service/panel_update.go:277-302 | a worker that fails before it is ready writes a failed verdict, says so in the startup file and frees the lock |
| UpdateHistory.AckCanTimeOut | web/service/panel_update.go:304-310 | a worker that waits for the ack in vain removes the directory, writes a failed verdict and frees the lock |
| UpdateHistory.InstallerKeepsLock | web/service/panel_update.go:317-320 | a worker killed while it installs leaves the lock with the installer, which frees it, and the status for a reader |
| UpdateHistory.ReaderCanReport | web/service/panel_update.go:104-133 | a reader that finds a dead worker's status and a free lock reports it, and frees the lock again |
| PanelUpdate.VerdictKeeps | web/service/panel_update.go:123-131 | a reader that finds `running` under the lock is right: that worker is gone and left no verdict |
| BackupWalk.WalkIsMapped | web/service/portable_backup_assets.go:111-151 | the walk, which rewrites ahead of its descent, equals a one-pass map by role |
| BackupWalk.WalkVisitsOnce | web/service/portable_backup_assets.go:111-151 | and it visits each file-bearing slot exactly once |
| BackupImage.SlotsOfMapped | web/service/portable_backup_assets.go:86-110 | collecting after rewriting gives the image of the references, slot by slot |
| BackupImage.ChangedIff | web/service/portable_backup_assets.go:101-108 | the document stays equal iff no reference gets another name |
| BackupImage.UnchangedDocument | web/service/portable_backup_assets.go:155-157 | in particular it stays as it is if none does |
| BackupAssets.PanelImage | web/service/portable_backup_assets.go:164-212 | the same over all stored rows |
| BackupPaths.ReferenceIff | web/service/portable_backup_assets.go:111-151 | a string is collected iff it is usable, not empty, and stands at a path ending in tlsSettings, certificates, an index and certificateFile or keyFile, or in clientProof and keyFile where the nearest object outwards that names a protocol, or else the row, says openvpn or ov |
| BackupPaths.BadIff | web/service/portable_backup_assets.go:86-100 | a document is refused iff at such a path stands something other than null or a string, or a string with a NUL or line break |
| BackupPaths.MappedRenames | web/service/portable_backup_assets.go:72-160 | at every path: rewriting gives the references at those paths their new names and changes no other value and no shape |
| BackupPaths.FlagIsNearest | web/service/portable_backup_assets.go:121-123 | the flag that the walk passes down is that of the nearest object that names a protocol |
| BackupAssets.CollectReferences | web/service/portable_backup_assets.go:214-237 | the distinct references, which are exactly the usable strings that some row names at such a path or in a file setting, or an error iff one is unusable or there are more than 256 |
| BackupAssets.RewriteReferences | web/service/portable_backup_assets.go:72-160 | refused iff some slot is; the output is the document renamed at exactly those paths and `changed` is set iff that differs |
| BackupAssets.VisitPanel | web/service/portable_backup_assets.go:164-212 | all rows rewritten, or none iff some reference has no new name |
| BackupAssets.IndexAssets | web/service/portable_backup_assets.go:250-256 | an index of the assets, or an error iff a reference occurs twice |
| BackupAssets.CheckAssets | web/service/portable_backup_assets.go:243-261 | accepted iff the assets are exactly the files named |
| BackupAssets.InstallAssets | web/service/portable_backup_assets.go:242-299 | succeeds iff references and assets match; afterwards every reference resolves to the bytes of its asset, each at its own path |
| BackupBundle.Encode | util/backup/bundle.go:74-135 | succeeds iff sizes, references and reads allow, and writes the manifest, the database and the assets of the distinct references in ascending order |
| BackupBundle.AssetsAreSorted | util/backup/bundle.go:78-103 | each reference has exactly one asset, with the bytes read for it, and the assets ascend strictly |
| BackupBundle.LoadAssets | util/backup/bundle.go:83-103 | the loop gives the assets of the distinct references iff all limits hold |
| BackupBundle.CheckMembers | util/backup/bundle.go:150-161 | accepted iff names are distinct, members regular and sizes within the limits |
| BackupBundle.ReadAssets | util/backup/bundle.go:198-209 | the assets of the manifest's entries, or an error iff no assets match them |
| BackupBundle.Decode | util/backup/bundle.go:139-211 | accepts exactly the archives that stand for a bundle |
| BackupBundle.OneBundle | util/backup/bundle.go:139-211 | an archive stands for at most one bundle |
| BackupBundle.TamperedIsRefused | util/backup/bundle.go:194-209 | an archive whose database or asset is exchanged for bytes of another digest stands for no bundle |
| BackupBundle.ExactMembers | util/backup/bundle.go:191-193 | an accepted archive has manifest, database and assets 0 to n-1 and nothing else, by counting |
| BackupBundle.AcceptedManifest | util/backup/bundle.go:172-209 | the manifest of an accepted archive has the format name, version 1, the digest of the database and, per asset, reference, name, digest and size; and every size keeps its limit |
| BackupBundle.WrittenRepresents | util/backup/bundle.go:104-134 | what Encode writes stands for its bundle |
| BackupBundle.RoundTrip | util/backup/bundle.go:74-211 | Decode of Encode gives the database and the sorted, distinct assets, within the limits that only Decode checks |
| NativeProjection.ProjectCoreClients | web/service/native_core_inbound.go:221-295 | the projections of exactly the accounts that stay (`ActiveIff`), in order, or an error iff one is faulty (`FaultIff`) |
| NativeProjection.ActiveIff | web/service/native_core_inbound.go:226-272 | an account stays iff the last traffic record of its email is neither disabled nor past its expiry, "enable" is absent, null or true, "expiryTime" is absent, null, not positive or still to come and, for Orbit, "expiresAt" likewise in seconds |
| NativeProjection.FaultIff | web/service/native_core_inbound.go:233-272 | the list is refused for a row iff it is no object in a native protocol, or a field that is looked at cannot be read |
| NativeProjection.DisabledRecordRemoves | web/service/native_core_inbound.go:226-243 | a disabled record added for an email removes the accounts of that email and no others |
| NativeProjection.ProjectedExpiry | web/service/native_core_inbound.go:278-286 | the second at which the core ends an Orbit account: the last within the panel's own time, or the explicit one if earlier |
| NativeProjection.BookkeepingStays | web/service/native_core_inbound.go:181-219 | no field that the panel keeps for itself, nor a secret of the export, reaches the core in any protocol |
| NativeProjection.CredentialsReach | web/service/native_core_inbound.go:181-219 | email and credential do |
| NativeProjection.ProjectedFields | web/service/native_core_inbound.go:273-291 | a field reaches the core iff it is allow-listed and stored (or the computed end of an Orbit account), with its stored value but for that end and the renamed flow |
| NativeProjection.JudgeOverTime | web/service/native_core_inbound.go:239-272 | time only takes accounts away and makes none faulty |
| NativeProjection.KeptOverTime | web/service/native_core_inbound.go:221-295 | the accounts kept only become fewer as the clock advances |
| NativeProjection.ValidateBindings | web/service/native_core_inbound.go:149-170 | valid iff there are allowed identities and each has a stored account |
| NativeProjection.BindAccounts | web/service/native_core_inbound.go:303-326 | exactly the accounts with an allowed identity, never none |
| NativeProjection.CoreShadowTls | web/service/native_core_inbound.go:38-144 | exactly when it succeeds, and then exactly what the core gets: v1 and v2 drop the outer list and keep the bound inner accounts, v3 keeps the active outer ones and the active inner ones |
| NativeProjection.NeverEmpty | web/service/native_core_inbound.go:62-67 | the outer list, a bound inner list and a managed SS2022 list are never empty |
| NativeReadiness.OuterReadyIff | web/service/native_core_inbound.go:56-67 | the outer list is accepted iff it is absent, or a list with no faulty and some active account |
| NativeReadiness.BoundReadyIff | web/service/native_core_inbound.go:103-124 | under version 1 or 2 an inner VLESS or Shadowsocks is accepted iff it is a list of objects without faults in which every active outer email has an account and some account is active and bound |
| NativeReadiness.UnboundReadyIff | web/service/native_core_inbound.go:98-117 | otherwise iff it is blank or readable without faults, with an active account where SS2022 accounts are managed |
| NativeReadiness.SocksReadyIff | web/service/native_core_inbound.go:125-136 | under version 1 or 2 an inner SOCKS is accepted iff records with an active email name users and each of those has an account |
| NativeReadiness.BindingsValidIff | web/service/native_core_inbound.go:149-170 | bindings are valid iff the accounts are a list of objects, some identity is wanted and each wanted one has an account |
| NativeProjection.InnerKeptIff | web/service/native_core_inbound.go:68-124 | an inner account stays iff stored, active and bound by its email to an active outer record |
| NativeProjection.OuterListIff | web/service/native_core_inbound.go:68-92 | outer accounts go to the core iff the version is 0 or 3, and then exactly the active ones |
| NativeProjection.InnerListIff | web/service/native_core_inbound.go:98-124 | of the inner VLESS or Shadowsocks accounts exactly the active ones go to the core, and in other versions with an outer list only those bound to an active outer record |
| NativeProjection.InnerKeptOverTime | web/service/native_core_inbound.go:98-124 | and the set only shrinks with time |
| NativeProjection.SocksKeptOverTime | web/service/native_core_inbound.go:80-136 | so does the set of SOCKS accounts that stay |
| NativeProjection.SocksExact | web/service/native_core_inbound.go:80-89 | every SOCKS account kept is named by an active record iff no record merely sharing an active email names a user of its own |
| NativeProjection.NamedStays | web/service/native_core_inbound.go:80-136 | a stored SOCKS account that an active record names always stays |
| NativeProjection.DistinctEmailsSuffice | web/service/native_core_inbound.go:80-89 | which holds if the outer emails are distinct |
| NativeProjection.DisabledRecordKeepsAccount | web/service/native_core_inbound.go:80-89 | a concrete document in which a disabled record keeps its SOCKS account alive |
| InnerAccounts.ScanStored | web/service/native_client_append.go:74-93 | the taken identities and credentials, or an error iff the list is ambiguous or unreadable |
| InnerAccounts.TrimmedIff | web/service/native_client_append.go:101 | an identity is exact iff it is empty or has no space at either end |
| InnerAccounts.ScanIncoming | web/service/native_client_append.go:121-147 | accepted iff each row fits after the stored ones and those before it |
| InnerAccounts.FittingHasOwnCredential | web/service/native_client_append.go:136-145 | no appended account shares a credential |
| InnerAccounts.AppendKeeps | web/service/native_client_append.go:121-162 | an accepted append keeps the old rows as a prefix, adds only wanted identities with allowed fields and credentials of their own, binds exactly the new outer accounts besides the old ones, and keeps every binding |
| InnerAccounts.AppendableIff | web/service/native_client_append.go:70-151 | accounts may be added iff the stored list is unambiguous and readable, the new names are exact and distinct, the supplement is absent or non-empty with proper rows, identities stay distinct, new credentials are new and every new account is bound |
| InnerAccounts.RenameKeepsIff | web/service/native_client_append.go:233-265 | an accepted rename keeps every outer account bound to exactly one row iff the new email is not empty, which its caller checks |
| InnerAccounts.RenameMovesOne | web/service/native_client_append.go:233-265 | an accepted rename gives the one row with the old email the new one, keeps its other fields and all other rows, and the outer account follows |
| InnerAccounts.RenameToNothing | web/service/native_client_append.go:206-266 | what that check prevents: a concrete list that the function, given the empty email, leaves without a binding |
| InnerAccounts.EditsKeepBindings | web/service/inbound.go:942-1007 | any sequence of appends and updates made through the panel keeps every outer account bound to exactly one row |
| InnerAccounts.EditsKeepRows | web/service/native_client_append.go:156-162 | any sequence of edits keeps every old row in its place, up to its email |
| InnerAccounts.Selected | web/service/native_client_append.go:237-255 | the one row to rename, or a refusal iff there is not exactly one or the new email is taken |
| InnerAccounts.Listener.Append | web/service/native_client_append.go:70-163 | succeeds iff stored rows, names and supplement allow, leaves the old rows followed by the new ones, and changes nothing otherwise |
| InnerAccounts.Listener.Rename | web/service/native_client_append.go:208-266 | succeeds iff exactly one row has the old email and none the new one, renames that row, and changes nothing otherwise |
| InnerAccounts.Listener.UpdateClient | web/service/inbound.go:942-1007 | refused for an empty email before anything is renamed, otherwise the rename; bindings are always kept |
| InnerAccounts.Listener.Edit | web/service/native_client_append.go:70-266 | a sequence of edits through the panel leaves exactly the composition of what each one leaves, old rows in place and all bindings kept |
| InnerAccounts.Listener.Select | util/native_client/export.go:67-96 | found iff exactly one row has the identity and that row is enabled and not expired; a bound outer account always has exactly one row |
| InnerAccounts.ExportableIffActive | util/native_client/export.go:89-94 | a readable row is exportable iff the projection keeps it or only its traffic record bars it |
| FeatureResolution.FoundAll | core/core/xray.go:297-303 | whether all dependencies are registered |
| FeatureResolution.Split | core/core/xray.go:330-347 | the available and the pending resolutions, in order |
| FeatureResolution.Instance.RequireFeatures | core/core/xray.go:279-316 | the fields keep saying what the calls amount to: pending ones lack a dependency, fired ones do not |
| FeatureResolution.Instance.AddFeature | core/core/xray.go:319-373 | the same; a running instance registers nothing |
| FeatureResolution.Instance.Unresolved | core/core/xray.go:235-240 | initialisation refuses iff some required callback is unmet |
| FeatureResolution.Instance.Apply | core/core/xray.go:279-373 | over any sequence of calls the fired callbacks are exactly those due |
| FeatureResolution.DueCount | core/core/xray.go:279-373 | each callback is due once per request if all it needs was added, else never |
| FeatureResolution.Confluence | core/core/xray.go:279-373 | two orders of the same calls fire the same callbacks |
| PortText.ParsePortList | web/service/reserved_ports.go:45-67 | the loops read the ports a text means, all valid |
| PortText.AtoiSigned | web/service/reserved_ports.go:45-67 | what counts as a number in such a text: digits with at most one sign |
| PortText.FormatPortList | web/service/reserved_ports.go:70-90 | the text written for any set of ports is read back as that set |
| PortText.PartRoundTrip | web/service/reserved_ports.go:82-86 | a port or a run of ports is read back as itself |
| PortText.PortsOfJoin | web/service/reserved_ports.go:47-89 | a joined list means the ports of its parts |
| ReservedPorts.MergeConserves | web/service/reserved_ports.go:98-115 | what is not ours afterwards is what was not ours before, and all wanted ports are reserved |
| ReservedPorts.OthersLeft | web/service/reserved_ports.go:98-115 | what the others are left with, for anything the memory file may say |
| ReservedPorts.Reservations.Update | web/service/reserved_ports.go:125-154 | the others' ports are kept unless the memory file had to be written and was not; then iff what it now says names all of ours and none of theirs, which for an untouched file is iff nothing new was reserved |
| ReservedPorts.Reservations.SyncAll | web/service/reserved_ports.go:119-154 | over any syncs with successful writes the others' ports are conserved, so wanting nothing leaves just those |
| ReservedPorts.CutAnywhere | web/service/reserved_ports.go:149-153 | a write of the memory file may be cut off anywhere without harm iff nothing is ours |
| ReservedPorts.ForgottenPort | web/service/reserved_ports.go:149-153 | a concrete port that an emptied memory file makes someone else's |
| ReservedPorts.CutNumber | web/service/reserved_ports.go:149-153 | a concrete port of someone else's that a cut-off number claims as the panel's |

## Left out

- Bytes on the raw connection after a Direct switch, splice copying and the unwrapping of connections: kernel and foreign connection types.
- The traffic counters of the Vision reader and writer, and errors of the connections under them.
- VisionWriter.XtlsPadding: the panic of the code for a seed that is not `Safe`; `VisionWriter.PaddingNeverNegative` says exactly which seeds can cause it, by a negative length.
- VisionRun.Session: one direction; the other one appears at both ends as traffic that passes their sniffers.
- RestoreTransaction.Panel.Import: parsing, migration and preflight of the uploaded backup are one step that may fail.
- RestoreBarrier.NoWaitCycle: the paths are listed by hand from the callers, and only locks that are taken while another is held or waited for; the wait of a reload for HTTP requests is the one that database/restore_barrier.go:69-71 describes, while web/web.go:494-509 cancels the context of that shutdown first, so that it is shorter.
- SignalGate.RestoreSignalGate.Run: what a reload does, and a reload that ends the process.
- GeositeNormalize.LowercaseGeositeCodes: read errors of the file other than its end, and file positions near the limit of int64.
- PanelUpdate.StepKeepsInv: the legacy updater unit, directory and log preparation, and what the installer does.
- BackupWalk.WalkIsMapped: JSON text; a document is its tree, and the field names the walk does not look at are opaque.
- BackupAssets.InstallAssets: failing writes of asset files, and the sorting of the references there, on which only the numbering of the paths depends.
- BackupBundle.Encode: zip compression is left out; SHA-256 and the JSON encoding of the manifest are parameters.
- NativeProjection.CoreShadowTls: letter case of protocol names, and the JSON text of the result.
- InnerAccounts.Listener.Append: the shared-credential and unmanaged cases, in which there is no account list to keep, and the decoding of SS2022 keys.
- InnerAccounts.Listener.Select: expiry times that are not whole milliseconds.
- FeatureResolution.Instance.RequireFeatures: callbacks that call back into the instance, matching of callback arguments by reflection, and callbacks' errors.
- PortText.FormatPortList: stated for sets of valid ports, the only ones it is given.
- Link, Clash and JSON subscriptions, controllers, downloads, LDAP, gRPC and SQL: plumbing without an invariant over runs.
- Cryptography, certificates, memory limits and CPU statistics.
