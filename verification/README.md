# A verified model of simplicio-code's formats, protocols and publication steps

This project models, in Dafny, the parts of simplicio-code that carry state, byte
layouts or failure handling, and proves what they promise for every input, every
run and every interleaving. `dafny verify dfyconfig.toml` checks all of it.

Each component comes as a specification (`...Model`, `...Format`), the theorems about
it (`...Theorems`), and, where the source works by updating things, methods or a class
that do so step by step and are proved to compute the specification.

| component | files |
|---|---|
| HBI container: header, directory, aligned and checksummed sections | `HbiFormat`, `HbiTheorems`, `HbiCommitment`, `HbiBytes`, `HbiCodec`, with `LittleEndian`, `Sorting` |
| HBP ledger, hash-chained, in Rust and in Python | `HbpFormat`, `HbpTheorems`, `HbpBytes`, `HbpCodec`, `HbpPython`, `HbpPythonErrors`, with `Text` |
| Operational inbox: intents, authorizations, confirmations, dispatches, receipts | `InboxModel`, `InboxTheorems`, `InboxHistory`, `InboxRuns`, `InboxOrigins`, `Inbox`, with `Unicode`, `UnicodeTheorems` |
| Waiting on a terminal: feeder, resizer and waiters over a lock and a generation | `WaitProtocol`, `RawTail` |
| Workspace observations and advisories: bounded windows over a sequenced stream | `WorkspaceModel`, `WorkspaceTheorems`, `WorkspacePages`, `Workspace` |
| Agent host coordinator: one turn at a time against an unreliable host | `CoordinatorModel`, `CoordinatorTheorems`, `CoordinatorOrigins`, `Coordinator` |
| Atomic publication and the migration built on it | `MigrationModel`, `MigrationTheorems`, `MigrationDurability`, `Migration` |
| Bundle promotion and rollback | `PromotionModel`, `PromotionTheorems`, `PromotionEnds`, `Promotion` |
| History of signed release events | `BumpHistory` |
| Dependency closure of the bill of materials | `Sbom` |
| Plain and styled view of a terminal screen | `ScreenModel`, `ScreenTheorems`, `Screen` |

What lies outside the code is a parameter, and every theorem holds for all its values:

- SHA-256 is any function from bytes to 32 bytes. Where collisions matter, the
  theorem assumes their absence only among the inputs hashed for the two ledgers
  compared.
- The agent host's answers, the legacy encoder, the redaction of inbox text, manifest
  validation and the release canary are arbitrary values or functions.
- Faults are part of the input: each file-system step may fail, be interrupted or be
  the last thing the process does.

## Where the code falls short of a plain reading

Each of these is a theorem with an input that shows it, beside the condition that decides it.

- The Python ledger reader accepts whitespace inside payload hexadecimal; the Rust
  reader does not (`HbpPython.ReadersDiffer`, `HbpPython.PythonAcceptedByRustIff`).
- The ledger's hashes leave timestamps open (`HbpTheorems.TimestampIsUncommitted`,
  `HbpTheorems.LastHashCommitsToLedger`), and the Python writer can emit a ledger its own
  reader refuses (`HbpPython.PythonRefusesItself`, `HbpPython.PythonRoundTripIff`).
- Reading and writing back need not give the same bytes, for a ledger
  (`HbpTheorems.ReencodingDiffers`, `HbpTheorems.ReencodeIff`) or a container
  (`HbiCommitment.ReaderTakesTwins`, `HbiCommitment.RewriteIff`).
- `wait_for` says the grid is final once the feeder is gone; a resize can still change
  it (`WaitProtocol.ResizeAfterExit`, `WaitProtocol.EndedMeetsIff`).
- A page may not be cut anywhere if it starts with a gap
  (`WorkspaceTheorems.UnfairCutIsRefused`, `WorkspaceTheorems.CutsDoNotMatter`).
- A start with a blank message leaves a turn active that the host never saw
  (`CoordinatorTheorems.BlankMessageWedges`, `CoordinatorTheorems.ActiveIsOutstandingIff`).
- A disconnect and a reconnect can show Ready with a turn still active
  (`CoordinatorTheorems.ReconnectHidesUnknownEffect`, `CoordinatorTheorems.ReadyHidesTurnIff`).
- A host refused for its profile is sent the next turn
  (`CoordinatorTheorems.RefusedHostIsSentATurn`, `CoordinatorTheorems.SentToOwnProfileIff`).
- A superseded intent can be dispatched, and a status can fall back
  (`InboxRuns.SupersededIsDispatched`, `InboxHistory.DispatchIsCurrentIff`,
  `InboxRuns.ConfirmationMovesBack`, `InboxHistory.StatusFallsIff`); a confirmation may
  predate the risk that demands it (`InboxRuns.OldConfirmationServes`,
  `InboxHistory.CurrentRiskIsConstant`).
- `confirm` marks a decision before it fails on a missing item; no run reaches such a
  state (`InboxTheorems.RefusalKeepsStateIff`, `InboxTheorems.RefusalsHaveNoEffect`).
- An error from `write_atomically` may come after publication
  (`MigrationTheorems.UnsuccessfulYetPublishedIff`), and its clean-up deletes a file that
  bears its temporary's name (`MigrationTheorems.PublishKeepsIff`).
- A directory sync that failed once is never made up for, so that a power loss can take
  a backup or an acknowledged target (`MigrationDurability.RetryLosesBackup`,
  `MigrationDurability.TargetKeepsBackupIff`, `MigrationDurability.AcknowledgedTargetIsLost`,
  `MigrationDurability.AcknowledgedTargetLastsIff`).
- A replayed release event publishes its old manifest again
  (`BumpHistory.ReplayReinstates`, `BumpHistory.AlwaysNewestIff`).
- A migration with one path for target and backup keeps no backup
  (`MigrationTheorems.SharedPathLosesBackup`, `MigrationTheorems.InterruptionsAreHarmless`).
- A removal of the previous bundle that stops half way can be rolled back into
  (`PromotionTheorems.StoppedRemovalIsActivated`, `PromotionTheorems.AlwaysWholeIff`), and
  two failed swaps can lose every bundle (`PromotionTheorems.TwoFailuresLoseEverything`,
  `PromotionTheorems.AlwaysHeldIff`, `PromotionTheorems.SafeFromPromotionIff`).
- With a cursor character the styled view still shows combining characters that the
  plain view hides (`ScreenTheorems.AccentUnderCursor`, `ScreenTheorems.LineAgreesIff`).

## Model

| member | source | states |
|---|---|---|
| `LittleEndian.EncodeDecode` | crates/codegen/simplicio-code-formats/src/hbi.rs:382-408 | A fixed-width field read as a number and written back is the same bytes, for every width. |
| `LittleEndian.DecodeEncode` | crates/codegen/simplicio-code-formats/src/hbi.rs:382-408 | A number written in `width` bytes is read back, for every number below 256^width. |
| `Sorting.SortByIsStableSort` | crates/codegen/simplicio-code-formats/src/hbi.rs:132-133 | The sort is ordered, a permutation, and keeps the order of equal keys. |
| `HbiTheorems.MeasureIsFinish` | crates/codegen/simplicio-code-formats/src/hbi.rs:139-154 | The checked sum of aligned section ends is the exact end of the layout when that fits `u64`, and otherwise the overflow error, for every list. |
| `HbiTheorems.EncodeSucceedsIff` | crates/codegen/simplicio-code-formats/src/hbi.rs:129-154 | Encoding succeeds exactly for at most the maximum number of sections, pairwise distinct kinds (anywhere in the list, not just neighbours) and a total length within `u64`. |
| `HbiTheorems.PermutationInvariance` | crates/codegen/simplicio-code-formats/src/hbi.rs:132-201 | Every permutation of the sections gives the same bytes, or the same error. |
| `HbiTheorems.OpenAcceptsWellFormed` | crates/codegen/simplicio-code-formats/src/hbi.rs:210-340 | The reader accepts a byte string with given metadata and section list if and only if it is well formed for them: header fields, entries in bounds, aligned and hashed, sections disjoint, every byte outside them zero, aggregate checksum right. |
| `HbiTheorems.RoundTrip` | crates/codegen/simplicio-code-formats/src/hbi.rs:123-340 | Whatever the writer produces the reader accepts, with the same flags and identity and the sections in kind order, byte for byte, zero-length sections included. |
| `HbiTheorems.ReaderPinsEveryByte` | crates/codegen/simplicio-code-formats/src/hbi.rs:210-340 | Two accepted containers with equal metadata, section lists and section contents are the same bytes. |
| `HbiCommitment.ChecksumCommitsToContainer` | crates/codegen/simplicio-code-formats/src/hbi.rs:302-324 | Two accepted containers with the same 32 checksum bytes are the same bytes throughout, unless SHA-256 collides on the two streams hashed for them. |
| `HbiCommitment.BodyInjective` | crates/codegen/simplicio-code-formats/src/hbi.rs:311-319 | The stream hashed for a given number of sections determines every entry and every content. |
| `HbiCommitment.RewriteIff` | crates/codegen/simplicio-code-formats/src/hbi.rs:123-340 | A container that was read is written back as the same bytes if and only if its directory is in strict kind order and its sections and total length are where the writer puts them. |
| `HbiCommitment.ReaderTakesTwins` | crates/codegen/simplicio-code-formats/src/hbi.rs:134-138 | A container with two sections of one kind is read, and its sections are refused by the writer. |
| `HbiBytes.ReaderReports` | crates/codegen/simplicio-code-formats/src/hbi.rs:210-340 | An accepted container starts with sixteen given bytes, and flags, count, length, identities and each directory entry are the weighted bytes at their literal places, each entry hashing the content it points to. |
| `HbiBytes.ChecksumOfBytes` | crates/codegen/simplicio-code-formats/src/hbi.rs:302-324 | In every accepted container bytes 80 to 112 are the hash of bytes 8 to 14, bytes 16 to 80 and, for each directory entry, its first 24 bytes and the content it points to. |
| `HbiBytes.WriterHashesItsBytes` | crates/codegen/simplicio-code-formats/src/hbi.rs:123-201 | The same of everything the writer writes, with its flags, identities and sections at their literal places. |
| `HbiBytes.DuplicateIsLeast` | crates/codegen/simplicio-code-formats/src/hbi.rs:132-138 | A writer that refuses a repeated kind names the smallest kind that occurs twice in its list. |
| `HbiBytes.HeaderErrorMeans` | crates/codegen/simplicio-code-formats/src/hbi.rs:212-253 | Each header error names the literal bytes that are wrong. |
| `HbiBytes.EntriesErrorMeans` | crates/codegen/simplicio-code-formats/src/hbi.rs:254-280 | Each directory error names the entry and the bytes in it that are wrong. |
| `HbiBytes.PaddingErrorMeans` | crates/codegen/simplicio-code-formats/src/hbi.rs:281-301 | An overlap error means two sections share a byte or one reaches into the directory; a padding error means a byte outside all sections is not zero. |
| `HbiBytes.ReaderErrorMeans` | crates/codegen/simplicio-code-formats/src/hbi.rs:210-340 | Whatever the reader refuses, its error names a fault of the header, of an entry, of the space between sections, or of the checksum, each spelled out over the bytes. |
| `HbiBytes.TooManyNamesCount` | crates/codegen/simplicio-code-formats/src/hbi.rs:129-131 | More than 4096 sections are refused with their number. |
| `HbiCodec.PutBytes` | crates/codegen/simplicio-code-formats/src/hbi.rs:400-408 | Writes a field into the buffer in place and touches nothing else. |
| `HbiCodec.PutHeader` | crates/codegen/simplicio-code-formats/src/hbi.rs:155-165 | The field writes into a zeroed buffer leave exactly the 80 header bytes before the checksum, zeros after. |
| `HbiCodec.FillSections` | crates/codegen/simplicio-code-formats/src/hbi.rs:177-198 | The loop with a moving cursor and a running hash fills directory and body of the whole layout in place, and feeds the hash what the format demands. |
| `HbiCodec.Fill` | crates/codegen/simplicio-code-formats/src/hbi.rs:155-200 | The filled buffer is the container image of the sorted sections. |
| `HbiCodec.EncodeWithIdentity` | crates/codegen/simplicio-code-formats/src/hbi.rs:123-201 | The imperative writer computes the format's encoding, or its error, in the same order of checks. |
| `HbiCodec.ReadDirectory` | crates/codegen/simplicio-code-formats/src/hbi.rs:254-280 | The loop over directory entries returns all entries, or the first entry's first error. |
| `HbiCodec.WalkPadding` | crates/codegen/simplicio-code-formats/src/hbi.rs:281-301 | The walk in offset order with `previous_end` finds exactly overlap and stray padding. |
| `HbiCodec.Rehash` | crates/codegen/simplicio-code-formats/src/hbi.rs:302-319 | Hashing header fields and sections one by one gives the aggregate checksum of the format. |
| `HbiCodec.OpenReader` | crates/codegen/simplicio-code-formats/src/hbi.rs:210-340 | The imperative reader accepts and refuses as the format does, with the same error. |
| `Text.HexRoundTrip` | crates/codegen/simplicio-code-formats/src/hbp.rs:243-265 | Hexadecimal decoding inverts encoding on every byte string. |
| `Text.DecimalRoundTrip` | crates/codegen/simplicio-code-formats/src/hbp.rs:63-64 | The decimal sequence in a row hash determines the sequence. |
| `Text.HexIsTable` | crates/codegen/simplicio-code-formats/src/hbp.rs:243-251 | Characters 2i and 2i + 1 of the text are the entries of "0123456789abcdef" for the high and the low half of byte i, for every byte string. |
| `Text.HexDecodeIff` | crates/codegen/simplicio-code-formats/src/hbp.rs:252-265 | Text decodes if and only if its length is even and each character is one of 0 to 9, a to f and A to F. |
| `Text.LowerCaseIsWritten` | crates/codegen/simplicio-code-formats/src/hbp.rs:243-265 | Of the texts that decode, those equal to the writer's text for their bytes are exactly those with no character but 0 to 9 and a to f. |
| `Text.DecimalIsPlain` | crates/codegen/simplicio-code-formats/src/hbp.rs:63-64 | Decimal text has only digits, and starts with 0 only for zero. |
| `Text.ValidUtf8Iff` | crates/codegen/simplicio-code-formats/src/hbp.rs:235-241 | The bytes taken as valid text are exactly the encodings of sequences of Unicode scalar values. |
| `UnicodeTheorems.Utf8LenIsEncoded` | crates/codegen/simplicio-agent-client/src/lib.rs:1498-1508 | The byte length that the limits speak of is that of the text's UTF-8 encoding. |
| `HbpTheorems.DecodeAcceptsLedgers` | crates/codegen/simplicio-code-formats/src/hbp.rs:115-210 | The reader returns given rows if and only if the bytes are the header and those rows' records, each numbered by position, linked to the hash before it, carrying its own hash, with hexadecimal payloads, within the size limit. |
| `HbpTheorems.EncodeMeans` | crates/codegen/simplicio-code-formats/src/hbp.rs:77-113 | The writer succeeds exactly on contiguously numbered records within the field and ledger limits, and then its output is a linked ledger. |
| `HbpTheorems.RoundTrip` | crates/codegen/simplicio-code-formats/src/hbp.rs:77-173 | The reader inverts the writer on every list the writer accepts. |
| `HbpTheorems.PrefixOfEncoding` | crates/codegen/simplicio-code-formats/src/hbp.rs:77-113 | The encoding of a prefix of the records is a prefix of the encoding. |
| `HbpTheorems.ReencodeIff` | crates/codegen/simplicio-code-formats/src/hbp.rs:77-210 | What was read can always be written back, at the same length, and gives the same ledger if and only if every row has timestamp zero and lower-case hexadecimal. |
| `HbpTheorems.ReencodingDiffers` | crates/codegen/simplicio-code-formats/src/hbp.rs:196-262 | A ledger with an upper-case digit, and one with a timestamp, are read and written back as other bytes. |
| `HbpTheorems.EveryTruncation` | crates/codegen/simplicio-code-formats/src/hbp.rs:115-173 | Every cut of an accepted ledger that keeps the header falls on a record boundary and decodes to the records before it, or is rejected as truncated in record k, where the cut lies strictly between the boundaries k and k + 1. |
| `HbpTheorems.PreimageInjective` | crates/codegen/simplicio-code-formats/src/hbp.rs:54-75 | What is hashed for a row determines its sequence, previous hash and payload. |
| `HbpTheorems.LastHashCommitsToLedger` | crates/codegen/simplicio-code-formats/src/hbp.rs:54-173 | Two accepted ledgers that end in the same hash, with no collision among the inputs hashed for them, have the same length, payloads, payload texts and hashes at every position, and are the same bytes if and only if their timestamps agree row by row. |
| `HbpTheorems.TimestampIsUncommitted` | crates/codegen/simplicio-code-formats/src/hbp.rs:193-210 | Two accepted ledgers of one row have the same hash and different bytes. |
| `HbpBytes.LedgerBytes` | crates/codegen/simplicio-code-formats/src/hbp.rs:54-210 | In every accepted ledger each record lies at its boundary with length, number, timestamp and texts at literal places, links to the row before it or to "genesis", and carries the hash of exactly the listed fields, each framed by its length. |
| `HbpBytes.HeaderErrorMeans` | crates/codegen/simplicio-code-formats/src/hbp.rs:115-131 | Each header error names the size or the bytes that are wrong. |
| `HbpBytes.RecordErrorMeans` | crates/codegen/simplicio-code-formats/src/hbp.rs:132-173 | Each record error names what is wrong with that record: its length, sequence, link, fixed texts, hash or hexadecimal. |
| `HbpBytes.TextErrorMeans` | crates/codegen/simplicio-code-formats/src/hbp.rs:221-241 | Each text error names the length or the bytes that are wrong. |
| `HbpCodec.HexEncodeLoop` | crates/codegen/simplicio-code-formats/src/hbp.rs:243-251 | The table loop computes the hexadecimal text. |
| `HbpCodec.RowContentHash` | crates/codegen/simplicio-code-formats/src/hbp.rs:54-75 | Feeding the length-prefixed fields one by one hashes their framed concatenation. |
| `HbpCodec.EncodeHbp` | crates/codegen/simplicio-code-formats/src/hbp.rs:77-113 | The buffer loop computes the ledger encoding, or its first error. |
| `HbpCodec.DecodeHbp` | crates/codegen/simplicio-code-formats/src/hbp.rs:115-173 | The cursor loop computes the ledger decoding, or its first error. |
| `HbpPython.EncodeRecords` | scripts/hbp_receipt.py:57-66 | The Python writer's loop computes its encoding, with its own limits and errors. |
| `HbpPython.DecodeRecords` | scripts/hbp_receipt.py:69-120 | The Python reader's loop computes its decoding, with its own limits and errors. |
| `HbpPython.WritersAgree` | scripts/hbp_receipt.py:39-66 | On at most 100,000 payloads the Rust writer produces some bytes if and only if the Python writer does and they are within the Rust size limit; they are the same bytes. |
| `HbpPython.RustAcceptedByPythonIff` | scripts/hbp_receipt.py:69-120 | Of the ledgers the Rust reader accepts, the Python reader accepts exactly those of at most 100,000 records, with the same payloads. |
| `HbpPython.PythonAcceptedByRustIff` | scripts/hbp_receipt.py:112-117 | Of the ledgers the Python reader accepts, the Rust reader accepts exactly those whose payload texts hold no whitespace, with the same rows, and rejects the others as invalid hexadecimal. |
| `HbpPython.ReadersDiffer` | scripts/hbp_receipt.py:113 | A one-record ledger whose payload text is one space is read by Python and refused by Rust. |
| `HbpPython.PythonRoundTripIff` | scripts/hbp_receipt.py:57-120 | What the Python writer emits, the Python reader reads back if and only if it is within the reader's size limit, and otherwise refuses. |
| `HbpPython.PythonRefusesItself` | scripts/hbp_receipt.py:57-72 | A list of payloads is exhibited whose ledger the Python writer emits and the Python reader refuses. |
| `HbpPythonErrors.FromHexIff` | scripts/hbp_receipt.py:112-115 | Payload text is read by Python if and only if it is made of pairs of digits and single ASCII whitespace characters, in any order. |
| `HbpPythonErrors.FromHexPieces` | scripts/hbp_receipt.py:112-115 | What it is read as is what its pairs alone decode to. |
| `HbpPythonErrors.WriterErrorMeans` | scripts/hbp_receipt.py:57-66 | The Python writer refuses exactly more than 100,000 payloads with its ledger error, and otherwise only for a payload beyond the field limit. |
| `HbpPythonErrors.RowErrorMeans` | scripts/hbp_receipt.py:76-117 | Each record error of the Python reader names what is wrong with that record, in the order of the checks. |
| `HbpPythonErrors.BodyErrorMeans` | scripts/hbp_receipt.py:88-111 | A body that cannot be read has a field at fault, a marker that is not zero, or bytes left over. |
| `HbpPythonErrors.HeaderIsRefused` | scripts/hbp_receipt.py:71-72 | A ledger beyond 64 MiB or without the eight header bytes is refused for its header. |
| `InboxTheorems.EveryStateIsValid` | crates/codegen/simplicio-agent-client/src/operational_inbox.rs:188-391 | Before every operation of every run: items and decisions are filed under their own ids, every decision's session has an item, authorizations match their intents, confirmation and dispatch imply approval, a receipt implies dispatch, and an item that needs a decision has neither intent nor receipt. |
| `InboxTheorems.DispatchedAtMostOnce` | crates/codegen/simplicio-agent-client/src/operational_inbox.rs:365-391 | No run hands out two dispatch requests for one intent id. |
| `InboxTheorems.ReceiptedAtMostOnce` | crates/codegen/simplicio-agent-client/src/operational_inbox.rs:276-316 | No run accepts two receipts for one intent id. |
| `InboxTheorems.DispatchIsAuthorized` | crates/codegen/simplicio-agent-client/src/operational_inbox.rs:188-410 | Behind every dispatch of every run stand earlier, in order: the record of that intent, an accepted approval with its target and policy revision, and a confirmation where the item's risk or the action demands one. |
| `InboxTheorems.ReceiptFollowsDispatch` | crates/codegen/simplicio-agent-client/src/operational_inbox.rs:276-316 | Every accepted receipt comes after a dispatch of its intent. |
| `InboxTheorems.ReceiptsAreEarned` | crates/codegen/simplicio-agent-client/src/operational_inbox.rs:276-316 | After every run, a stored receipt id belongs to a dispatched, approved intent of that session and target. |
| `InboxTheorems.RefusalsHaveNoEffect` | crates/codegen/simplicio-agent-client/src/operational_inbox.rs:188-391 | In every run an operation that returns an error leaves the whole state unchanged. |
| `InboxTheorems.RefusalKeepsStateIff` | crates/codegen/simplicio-agent-client/src/operational_inbox.rs:348-362 | On any state at all, a refusal keeps the state unless it is a confirmation of an approved, unconfirmed decision whose session has no item. |
| `InboxTheorems.OrphanConfirmLeavesMark` | crates/codegen/simplicio-agent-client/src/operational_inbox.rs:348-362 | Such a state exists: the refused confirmation leaves its mark there. |
| `InboxTheorems.RedeliveryIsIgnored` | crates/codegen/simplicio-agent-client/src/operational_inbox.rs:188-196 | An event accepted once is a no-op whenever it is delivered again. |
| `InboxTheorems.IgnoredIffRedelivered` | crates/codegen/simplicio-agent-client/src/operational_inbox.rs:188-196 | A delivery is answered as a duplicate if and only if the same event was accepted earlier in the run. |
| `InboxTheorems.DuplicatesDoNotMatter` | crates/codegen/simplicio-agent-client/src/operational_inbox.rs:188-196 | Taking all duplicate deliveries out of a run gives the same final state. |
| `InboxHistory.NewsIsTaken` | crates/codegen/simplicio-agent-client/src/operational_inbox.rs:188-243 | An attention event is accepted if and only if its id is valid and unseen, its fields are valid, it has evidence and its sequence exceeds the item's. |
| `InboxHistory.DecidesIsTaken` | crates/codegen/simplicio-agent-client/src/operational_inbox.rs:244-275 | An authorization is accepted if and only if its id is valid and unseen, its fields are valid, it matches target and revision of an intent that is its item's current one, and none was recorded. |
| `InboxHistory.CurrentIff` | crates/codegen/simplicio-agent-client/src/operational_inbox.rs:188-346 | Over every run an intent recorded at r is still its item's before k if and only if no operation in between was news for its session, told by the state and event before it. |
| `InboxHistory.DispatchIsCurrentIff` | crates/codegen/simplicio-agent-client/src/operational_inbox.rs:365-391 | Every dispatch is of an intent recorded earlier, and that is the item's current one if and only if no attention for its session was accepted since. |
| `InboxRuns.SupersededIsDispatched` | crates/codegen/simplicio-agent-client/src/operational_inbox.rs:365-391 | A run of seven operations without a confirmation dispatches an intent that a newer one has superseded. |
| `InboxHistory.StatusFallsIff` | crates/codegen/simplicio-agent-client/src/operational_inbox.rs:188-391 | At every operation of every run an item's status falls back if and only if, by the state before it, the operation is news for the session, confirms an approved intent once the item is past ready, or is an approval that comes as late. |
| `InboxRuns.ConfirmationMovesBack` | crates/codegen/simplicio-agent-client/src/operational_inbox.rs:348-362 | A run in which a confirmation after the dispatch takes the item from awaiting its receipt back to ready. |
| `InboxHistory.CurrentRiskIsConstant` | crates/codegen/simplicio-agent-client/src/operational_inbox.rs:188-391 | Over every run, for an intent still current at k the item's risk at every moment since its record, its confirmation included, is the risk at k. |
| `InboxRuns.OldConfirmationServes` | crates/codegen/simplicio-agent-client/src/operational_inbox.rs:348-391 | A run in which a confirmation given at low risk serves for a dispatch at critical risk, of an intent that is no longer current. |
| `InboxOrigins.ItemOrigin` | crates/codegen/simplicio-agent-client/src/operational_inbox.rs:197-243 | In every run an item shows, field by field, the last attention event accepted for its session. |
| `InboxOrigins.FinalStatusOrigin` | crates/codegen/simplicio-agent-client/src/operational_inbox.rs:244-316 | In every run an item is applied only after an accepted receipt for its intent that says applied, failed only after one that does not, storing that receipt's id, and rejected only after an accepted authorization for its intent that does not approve. |
| `InboxOrigins.ReceiptNamesStatus` | crates/codegen/simplicio-agent-client/src/operational_inbox.rs:311-315 | Right after an accepted receipt of any run, its item stores its id and is applied if it says so and failed otherwise. |
| `InboxOrigins.AuthorizationNamesStatus` | crates/codegen/simplicio-agent-client/src/operational_inbox.rs:259-275 | Right after an accepted authorization, its item is rejected, awaits confirmation or is ready, by its verdict, the item's risk and the action. |
| `InboxOrigins.RecordIsTaken` | crates/codegen/simplicio-agent-client/src/operational_inbox.rs:322-346 | An intent is recorded if and only if its four fields are tokens, its id is new, and its session's item has its target and needs a decision. |
| `InboxOrigins.ReceiptIsTaken` | crates/codegen/simplicio-agent-client/src/operational_inbox.rs:276-316 | A receipt is accepted if and only if its ids are tokens, the event is unseen, and it matches decision, target and revision of a dispatched intent that is its item's current one and has no receipt. |
| `InboxOrigins.ConfirmIsTaken` | crates/codegen/simplicio-agent-client/src/operational_inbox.rs:348-362 | A confirmation is accepted if and only if its intent is known and approved and its session has an item. |
| `InboxOrigins.DispatchIsTaken` | crates/codegen/simplicio-agent-client/src/operational_inbox.rs:365-391 | An intent goes out if and only if it is approved, not out yet, confirmed where risk is high or critical or the action cancels or redirects, and its item is ready; the request is that intent with its decision's id. |
| `InboxOrigins.DecisionRefusals` | crates/codegen/simplicio-agent-client/src/operational_inbox.rs:348-391 | What each refusal of a confirmation or a dispatch says about the state. |
| `InboxOrigins.RecordRefusals` | crates/codegen/simplicio-agent-client/src/operational_inbox.rs:322-346 | What each refusal of an intent says, field names included. |
| `InboxOrigins.AuthorizationRefusals` | crates/codegen/simplicio-agent-client/src/operational_inbox.rs:244-275 | What each refusal of an authorization says, field names included. |
| `InboxOrigins.ReceiptRefusals` | crates/codegen/simplicio-agent-client/src/operational_inbox.rs:276-316 | What each refusal of a receipt says. |
| `InboxOrigins.AttentionRefusals` | crates/codegen/simplicio-agent-client/src/operational_inbox.rs:197-243 | What each refusal of an attention event says, field names included. |
| `InboxOrigins.DeliveryRefusals` | crates/codegen/simplicio-agent-client/src/operational_inbox.rs:188-196 | An event without a proper id, or with the id of a different event seen before, is refused for that. |
| `InboxOrigins.TokenMeans` | crates/codegen/simplicio-agent-client/src/operational_inbox.rs:436-445 | A token is text with a character, at most 512 bytes and no ASCII control. |
| `Inbox.OperationalInbox.Apply` | crates/codegen/simplicio-agent-client/src/operational_inbox.rs:188-320 | Updates the maps as the reducer says, answering accepted, duplicate or the first failed check. |
| `Inbox.OperationalInbox.RecordIntent` | crates/codegen/simplicio-agent-client/src/operational_inbox.rs:322-346 | Files the decision and makes it the item's intent, or refuses without effect. |
| `Inbox.OperationalInbox.Confirm` | crates/codegen/simplicio-agent-client/src/operational_inbox.rs:348-362 | Marks the decision, then looks the item up, as the source orders it. |
| `Inbox.OperationalInbox.TakeDispatch` | crates/codegen/simplicio-agent-client/src/operational_inbox.rs:365-391 | Hands out the request and marks item and decision, or refuses without effect. |
| `WaitProtocol.NoLostWakeup` | crates/codegen/ptyctl/src/wait.rs:97-128 | In every interleaving of feeder, resizer and any number of waiters while the feeder lives, a sleeping waiter whose condition holds on the grid can wake now, or a bump is pending. |
| `WaitProtocol.MetIsFound` | crates/codegen/ptyctl/src/wait.rs:97-128 | In every interleaving while the feeder lives and is not in the middle of a feed, a sleeping waiter whose condition holds on the grid is at most eight steps, none changing the grid, from reporting the match; unless a resize has just taken the lock, none of them is a refused resize. |
| `WaitProtocol.ChangeIsFound` | crates/codegen/ptyctl/src/wait.rs:97-128 | In every run, whatever is fed or painted next while the lock is free wakes a sleeping waiter, which matches if and only if that meets its condition, with the generation one further and all else as it was. |
| `WaitProtocol.FeedComesFirst` | crates/codegen/ptyctl/src/session.rs:166-172 | In the middle of a feed no schedule without that feed lets any waiter, new or old, match. |
| `WaitProtocol.ResizeComesFirst` | crates/codegen/ptyctl/src/session.rs:272-277 | Once a resize has taken the lock, no schedule in which it neither paints nor is refused lets any waiter match. |
| `WaitProtocol.MatchesAreReal` | crates/codegen/ptyctl/src/wait.rs:97-117 | A reported match was found by one check of that waiter in the run, on the grid as it was then, which met the condition. |
| `WaitProtocol.MatchSpelledOut` | crates/codegen/ptyctl/src/wait.rs:97-117 | In every run the screen of a reported match contains the text waited for at some index, contains the text to be gone at none, or is matched by the expression. |
| `WaitProtocol.EndedSpelledOut` | crates/codegen/ptyctl/src/wait.rs:119-124 | In every run without a late resize the screen of an ended result does the reverse, condition by condition. |
| `WaitProtocol.EndedMeetsIff` | crates/codegen/ptyctl/src/wait.rs:119-124 | A result flagged ended carries a screen that meets the condition if and only if the last paint before its report was by a resize that reached its bump after the feeder's exit, and what it painted meets the condition. |
| `WaitProtocol.EndedMeansNeverMet` | crates/codegen/ptyctl/src/wait.rs:119-124 | A result flagged ended means the channel is closed; if no resize in the run comes that late, its screen fails the condition and is the final grid. |
| `WaitProtocol.UnsignalledIff` | crates/codegen/ptyctl/src/session.rs:272-283 | A grid change went unsignalled if and only if the run has such a resize after the feeder's exit. |
| `WaitProtocol.LateResizeIsReported` | crates/codegen/ptyctl/src/wait.rs:119-124 | From every reachable state in which a waiter is about to report the end, whoever holds the lock, a schedule lets a resize come first and be reported, painting anything. |
| `WaitProtocol.ResizeAfterExit` | crates/codegen/ptyctl/src/session.rs:272-283 | With such a resize it can fail: a run ends with an `ended` result whose screen meets the condition, for every needle. |
| `WaitProtocol.ExitIsFinal` | crates/codegen/ptyctl/src/session.rs:272-283 | Once the channel is closed the grid changes only by a resize that goes unsignalled. |
| `RawTail.Tail.Push` | crates/codegen/ptyctl/src/wait.rs:202-213 | Evicting and appending leaves the last 2048 bytes of old contents and chunk. |
| `RawTail.TailIsSuffixOfOutput` | crates/codegen/ptyctl/src/wait.rs:202-213 | However the output is cut into chunks, the tail is its last 2048 bytes. |
| `Workspace.ScanPage` | crates/codegen/simplicio-agent-client/src/lib.rs:263-294 | The loop over a page finds the last sequence and generation, or the first error. |
| `Workspace.WorkspaceObservationState.ApplyPage` | crates/codegen/simplicio-agent-client/src/lib.rs:251-309 | Accepts the page whole and drains the window, or changes nothing. |
| `Workspace.WorkspaceAdvisoryState.ApplyPage` | crates/codegen/simplicio-agent-client/src/lib.rs:428-481 | The same for advisories under read-only consent; without consent a page is passed over. |
| `WorkspaceTheorems.WindowIsTailOfHistory` | crates/codegen/simplicio-agent-client/src/lib.rs:251-309 | Over every sequence of pages: the window is the last at most 128 events ever accepted, sequences strictly rise and end at the cursor, generations never fall, and with history not marked truncated the window is exactly sequences 1 to cursor. |
| `WorkspaceTheorems.NoGapWithoutTruncation` | crates/codegen/simplicio-agent-client/src/lib.rs:263-294 | If no non-empty page is marked truncated, the accepted events are exactly those numbered 1 to the cursor. |
| `WorkspaceTheorems.CutsDoNotMatter` | crates/codegen/simplicio-agent-client/src/lib.rs:251-309 | An accepted page cut anywhere into two, the second not marked truncated, is accepted as two and gives the same state, exactly unless the cut leaves all events and a gap before them to the second. |
| `WorkspaceTheorems.UnfairCutIsRefused` | crates/codegen/simplicio-agent-client/src/lib.rs:263-294 | On either stream a page that starts with a gap is exhibited that is accepted whole and refused when cut before its first event. |
| `WorkspaceTheorems.ParsedPageIsRefusedIff` | crates/codegen/simplicio-agent-client/src/lib.rs:1362-1426 | A page the parser accepted at the current cursor is refused by the state if and only if some generation in it goes backwards. |
| `WorkspacePages.PageAcceptedIff` | crates/codegen/simplicio-agent-client/src/lib.rs:251-309 | On either stream a page is accepted if and only if schema, workspace, size, the fields and vocabulary of each event, the step to each from the one before, and the cursor are right, spelled out. |
| `WorkspacePages.TruncatedIff` | crates/codegen/simplicio-agent-client/src/lib.rs:307 | Over every sequence of pages the history is marked truncated if and only if an accepted page was marked truncated or more than 128 events were accepted. |
| `WorkspacePages.PageRefusals` | crates/codegen/simplicio-agent-client/src/lib.rs:251-309 | Each refusal of a page names what is wrong with the page, or with its first event that does not fit where it stands. |
| `WorkspacePages.ParsedIff` | crates/codegen/simplicio-agent-client/src/lib.rs:1362-1426 | The parser passes a page on, unchanged, if and only if schema, workspace, the two bounds, each event and the cursor are right for the request, spelled out. |
| `WorkspacePages.StreamStartsIff` | crates/codegen/simplicio-agent-client/src/lib.rs:400-410 | A stream starts empty at 0 if and only if the workspace name has a character that is not whitespace, no control and at most 256 bytes. |
| `Coordinator.AgentHostCoordinator.EnsureReady` | crates/codegen/simplicio-agent-client/src/lib.rs:933-955 | Refreshes the host identity; a changed host with a turn active makes its effect unknown. |
| `Coordinator.AgentHostCoordinator.StartTurn` | crates/codegen/simplicio-agent-client/src/lib.rs:957-993 | Submits at most one turn and settles phase and active turn by the host's answer. |
| `Coordinator.AgentHostCoordinator.CancelTurn` | crates/codegen/simplicio-agent-client/src/lib.rs:995-1010 | Only the active turn can be cancelled; the answer decides phase and release. |
| `Coordinator.AgentHostCoordinator.Reconnect` | crates/codegen/simplicio-agent-client/src/lib.rs:1012-1028 | Refreshes, resets the cursor on a new host, and leaves the active turn. |
| `CoordinatorTheorems.TurnsAreSerialized` | crates/codegen/simplicio-agent-client/src/lib.rs:933-1028 | Over every run with arbitrary host outcomes at most one submitted turn is unresolved and it is the active one; a turn is submitted only when every earlier one is settled; Running implies an active turn, Completed, Cancelled and Terminal imply none, AwaitingApproval never occurs. |
| `CoordinatorTheorems.ActiveUntilSettled` | crates/codegen/simplicio-agent-client/src/lib.rs:957-1028 | Over every continuation of a state with an active turn, until the host settles a cancel of it, the turn stays active and nothing is sent. |
| `CoordinatorTheorems.ActiveIsOutstandingIff` | crates/codegen/simplicio-agent-client/src/lib.rs:957-993 | Behind an active turn of any run stands the one start that made it active, and the turn is with the host if and only if that start's request was valid. |
| `CoordinatorTheorems.OutstandingIsActive` | crates/codegen/simplicio-agent-client/src/lib.rs:957-1028 | Over every run whose starts have valid requests, the turns with the host are exactly the active one. |
| `CoordinatorTheorems.BlankMessageWedges` | crates/codegen/simplicio-agent-client/src/lib.rs:974-976 | After a start with a blank message the turn is active, and whatever follows short of settling a cancel of it, no turn is ever sent. |
| `CoordinatorTheorems.ReadyHidesTurnIff` | crates/codegen/simplicio-agent-client/src/lib.rs:933-1028 | In every run Ready is shown with a turn active if and only if a refresh found a lost host unchanged while a turn was active, and since then the host was neither lost nor found changed nor answered a cancel. |
| `CoordinatorTheorems.ReconnectHidesUnknownEffect` | crates/codegen/simplicio-agent-client/src/lib.rs:1012-1028 | Such a run from a fresh coordinator, with the turn still outstanding, for every valid start. |
| `CoordinatorTheorems.SentToOwnProfileIff` | crates/codegen/simplicio-agent-client/src/lib.rs:933-993 | A turn goes to a host of the coordinator's profile if and only if the host learned of last before it had that profile. |
| `CoordinatorTheorems.RefusedHostIsSentATurn` | crates/codegen/simplicio-agent-client/src/lib.rs:933-955 | A host refused for its profile is sent the next turn, and accepted when asked again. |
| `CoordinatorTheorems.PlainIdentityIsValid` | crates/codegen/simplicio-agent-client/src/lib.rs:555-585 | The identities and messages that these runs ask for exist. |
| `CoordinatorTheorems.ParsedVerdict` | crates/codegen/simplicio-agent-client/src/lib.rs:1245-1268 | A turn result is accepted exactly with one terminal flag and no error beside a completion, and the phase names that flag. |
| `CoordinatorOrigins.PhaseOrigin` | crates/codegen/simplicio-agent-client/src/lib.rs:933-1028 | Behind every phase but Ready of every run stands the operation since which it was shown, with the host's answer that explains it, listed phase by phase. |
| `CoordinatorOrigins.CancelNamesPhase` | crates/codegen/simplicio-agent-client/src/lib.rs:1000-1009 | In every run right after an answered cancel: cancelled, running, terminal or effect unknown as the answer says, and the turn released unless it is running. |
| `CoordinatorOrigins.StartNamesPhase` | crates/codegen/simplicio-agent-client/src/lib.rs:976-993 | In every run right after a turn was handed over: effect unknown with the turn active on a lost or malformed reply, and otherwise the phase its one flag names, with no turn active. |
| `CoordinatorOrigins.RefreshNamesPhase` | crates/codegen/simplicio-agent-client/src/lib.rs:933-955 | In every run right after a refresh: disconnected, effect unknown, ready or as before, by whether the host was reached and is the same. |
| `CoordinatorOrigins.CursorOrigin` | crates/codegen/simplicio-agent-client/src/lib.rs:1012-1035 | In every run the cursor is the next one of the last page received, or 0 if a reconnect has found another host since, or no page came. |
| `CoordinatorOrigins.IdentityValidIff` | crates/codegen/simplicio-agent-client/src/lib.rs:555-585 | An identity is accepted if and only if each of its eight fields has a character, at most 256 bytes and neither control nor whitespace, and the turn is its own idempotency key; the error names a field that fails. |
| `CoordinatorOrigins.ConnectsIff` | crates/codegen/simplicio-agent-client/src/lib.rs:917-931 | A coordinator starts ready, at 0 and idle, if and only if the host has its profile, and is refused as a mismatch otherwise. |
| `CoordinatorOrigins.StartRefusals` | crates/codegen/simplicio-agent-client/src/lib.rs:957-993 | What each error of a start says. |
| `CoordinatorOrigins.CancelRefusals` | crates/codegen/simplicio-agent-client/src/lib.rs:995-1010 | Which error a cancel returns, if and only if. |
| `Migration.Disk.WriteAtomically` | crates/codegen/simplicio-code-formats/src/atomic.rs:12-39 | The steps of a publication under a fault at any of them leave the disk the model says, with a fresh temporary name each time. |
| `Migration.Disk.Migrate` | crates/codegen/simplicio-code-formats/src/migration.rs:17-71 | The migration's reads and two publications in order, under any fault. |
| `MigrationTheorems.PublishIsAtomic` | crates/codegen/simplicio-code-formats/src/atomic.rs:12-39 | After any fault every path holds its previous content or the complete new one, other paths are untouched, and success means published. |
| `MigrationTheorems.UnsuccessfulYetPublishedIff` | crates/codegen/simplicio-code-formats/src/atomic.rs:26-38 | An error or crash has nevertheless published if and only if it came at the directory sync. |
| `MigrationTheorems.PublishEnds` | crates/codegen/simplicio-code-formats/src/atomic.rs:12-39 | For every fault: a publication succeeds if and only if nothing stops it and its temporary name is free, is cut off if and only if a crash stops it, has its path renamed if and only if it got past the rename, and leaves in a temporary exactly what was written. |
| `MigrationTheorems.PublishKeepsIff` | crates/codegen/simplicio-code-formats/src/atomic.rs:19-37 | A publication keeps every existing file but its own path, except one that bears its temporary's name, which it deletes exactly if it gets as far as creating that and its clean-up works. |
| `MigrationTheorems.ExistingFilesAreKept` | crates/codegen/simplicio-code-formats/src/migration.rs:17-71 | No attempt, however interrupted, changes any existing file, legacy, target and backup included, that does not bear the name of one of its temporaries. |
| `MigrationTheorems.InterruptionsAreHarmless` | crates/codegen/simplicio-code-formats/src/migration.rs:17-71 | Any number of interrupted attempts leaves existing files alone, writes only the source to the backup and its conversion to the target, and the target only with a backup equal to the source. |
| `MigrationTheorems.UndisturbedFinishesIff` | crates/codegen/simplicio-code-formats/src/migration.rs:17-71 | An undisturbed attempt succeeds if and only if nothing on disk contradicts it, and then target and backup hold what they should. |
| `MigrationTheorems.MigrationSurvivesInterruptions` | crates/codegen/simplicio-code-formats/src/migration.rs:17-71 | After any interruptions one undisturbed attempt ends with target = encode(source), the legacy file untouched and a backup of it, and every later attempt is a no-op that says so. |
| `MigrationTheorems.SharedPathLosesBackup` | crates/codegen/simplicio-code-formats/src/migration.rs:55-70 | With one path for target and backup, the backup is overwritten by the conversion. |
| `MigrationTheorems.DryRunAnswers` | crates/codegen/simplicio-code-formats/src/migration.rs:35-41 | A dry run writes nothing, and answers dry run, not migrated, no backup if and only if the source can be read and encoded. |
| `MigrationTheorems.AnswersMean` | crates/codegen/simplicio-code-formats/src/migration.rs:17-71 | Which files and faults each other answer speaks of, and when a target already there is accepted. |
| `MigrationTheorems.MigratedIff` | crates/codegen/simplicio-code-formats/src/migration.rs:55-71 | An attempt answers migrated if and only if it reaches the publication of the target and that succeeds, and is cut off if and only if a publication it reached was. |
| `MigrationDurability.SeesTheMigration` | crates/codegen/simplicio-code-formats/src/migration.rs:17-71 | The disk with a visible and a durable side shows exactly what the migration leaves. |
| `MigrationDurability.LastsIffSynced` | crates/codegen/simplicio-code-formats/src/migration.rs:55-70 | Over any interrupted attempts, backup and target are durable if and only if some attempt's directory sync reached them, one directory's sync reaching both. |
| `MigrationDurability.TargetKeepsBackupIff` | crates/codegen/simplicio-code-formats/src/migration.rs:17-71 | From a settled disk without target and backup, after any attempts: every power loss that leaves the target leaves its backup if and only if the target was never renamed into place or some sync reached the backup. |
| `MigrationDurability.AcknowledgedTargetLastsIff` | crates/codegen/simplicio-code-formats/src/migration.rs:42-48 | After any attempts the target outlasts every power loss if and only if some attempt's sync reached it. |
| `MigrationDurability.RetryLosesBackup` | crates/codegen/simplicio-code-formats/src/migration.rs:55-65 | A failed sync of the backup and a successful retry, in two directories, after which a power loss leaves the target without its backup. |
| `MigrationDurability.AcknowledgedTargetIsLost` | crates/codegen/simplicio-code-formats/src/migration.rs:42-48 | A failed sync of the target and a retry that acknowledges it, after which a power loss takes the target. |
| `Promotion.Stage` | scripts/release/promote_component_bundle.py:51-61 | The staging loop stops at the first missing or mismatching component, or stages them all. |
| `Promotion.CheckAgain` | scripts/release/promote_component_bundle.py:68-72 | The loop after the canary finds the first component lost or changed. |
| `Promotion.SlotDirectory.Promote` | scripts/release/promote_component_bundle.py:36-92 | Lock, staging, canary and swap under any fault change the slots as the model says. |
| `Promotion.SlotDirectory.SwapIn` | scripts/release/promote_component_bundle.py:74-92 | Removal, renames and recovery under any fault. |
| `Promotion.SlotDirectory.Rollback` | scripts/release/promote_component_bundle.py:95-112 | The three renames and the recovery under any fault. |
| `PromotionTheorems.PrepareMeans` | scripts/release/promote_component_bundle.py:49-72 | Staging succeeds exactly when both reads of every component have its digest and the canary passes on those files and the manifest and leaves every component as it was. |
| `PromotionTheorems.PromoteSucceedsIff` | scripts/release/promote_component_bundle.py:36-92 | A promotion completes exactly when manifest, lock, staging and each step it takes allow it. |
| `PromotionTheorems.PromotedMeans` | scripts/release/promote_component_bundle.py:74-88 | A completed promotion activates the verified stage with all its components, keeps the displaced bundle as previous and reports truly whether there is one. |
| `PromotionTheorems.EveryRunIsFaithful` | scripts/release/promote_component_bundle.py:36-112 | Over every run of promotions and rollbacks with any failures, every component file in every slot has the digest of the manifest promoted into it. |
| `PromotionTheorems.AlwaysWholeIff` | scripts/release/promote_component_bundle.py:36-112 | Throughout a run every bundle in every slot has all its components if and only if no promotion's removal of the previous bundle stops with a component gone and the directory left. |
| `PromotionTheorems.StoppedRemovalIsActivated` | scripts/release/promote_component_bundle.py:75-76 | Such a cut followed by a rollback activates the bundle without the component, for every pair of bundles. |
| `PromotionTheorems.RejectionTouchesNothing` | scripts/release/promote_component_bundle.py:38-72 | A rejection of either operation leaves slots and lock unchanged. |
| `PromotionTheorems.ActiveSurvives` | scripts/release/promote_component_bundle.py:74-109 | The bundle active when an operation starts is in some slot when it ends, whatever fails. |
| `PromotionTheorems.LastActiveSurvives` | scripts/release/promote_component_bundle.py:36-112 | Over every run whose promotions start with a filled active slot, the bundle most recently active is always in some slot. |
| `PromotionTheorems.SafeFromPromotionIff` | scripts/release/promote_component_bundle.py:75-88 | A bundle outlives every possible promotion if and only if the lock is taken or the bundle is active or parked. |
| `PromotionTheorems.AlwaysHeldIff` | scripts/release/promote_component_bundle.py:36-112 | A bundle stays in some slot throughout a run if and only if no promotion deletes any of it while only the previous slot holds it, without installing the same bundle again. |
| `PromotionTheorems.TwoFailuresLoseEverything` | scripts/release/promote_component_bundle.py:75-84 | Two promotions whose swap and recovery are refused leave no bundle in any slot. |
| `PromotionTheorems.RollbackConserves` | scripts/release/promote_component_bundle.py:95-109 | Whatever fails, a rollback only moves bundles between the three directories. |
| `PromotionTheorems.TwoRollbacksAreIdentity` | scripts/release/promote_component_bundle.py:95-112 | A completed rollback exchanges the slots; two are the identity. |
| `PromotionTheorems.RollbackUndoesPromotion` | scripts/release/promote_component_bundle.py:74-112 | A completed rollback after a completed promotion makes the displaced bundle active again. |
| `PromotionTheorems.LockRemainsIff` | scripts/release/promote_component_bundle.py:42-92 | The lock is there after a promotion if and only if it was before, or one of the listed faults killed the process while it held the lock, or it took the lock and could not remove it. |
| `PromotionTheorems.StaleLockBlocksPromotion` | scripts/release/promote_component_bundle.py:42-46 | With a lock left behind no run without an operator brings or removes any bundle. |
| `PromotionEnds.ClearingUnblocks` | scripts/release/promote_component_bundle.py:42-92 | Whatever lock was left, once it is removed an undisturbed promotion of a sound stage activates it and keeps the active bundle as previous. |
| `PromotionEnds.PromotionEmptiesIff` | scripts/release/promote_component_bundle.py:77-84 | A promotion over an active bundle leaves the active slot empty if and only if it gets to retiring and is stopped right after, or the stage is not renamed and the process died or the recovery was not done. |
| `PromotionEnds.PromotionActive` | scripts/release/promote_component_bundle.py:77-84 | A promotion leaves the new bundle active where the stage was renamed, and wherever else it leaves a bundle there, the one that was. |
| `PromotionEnds.PromotionPrevious` | scripts/release/promote_component_bundle.py:75-84 | Which bundle, or what is left of it, the previous slot holds after a promotion, for every fault. |
| `PromotionEnds.RollbackEnds` | scripts/release/promote_component_bundle.py:102-109 | Which of its four arrangements a rollback ends in, for every fate of its four renames, each if and only if. |
| `PromotionEnds.RollbackOutcome` | scripts/release/promote_component_bundle.py:95-112 | When a rollback refuses to start and when its process dies. |
| `PromotionEnds.PromotionRejections` | scripts/release/promote_component_bundle.py:38-72 | A promotion is rejected for a reason if and only if manifest, lock or staging gave that reason and nothing else stopped it first. |
| `PromotionEnds.PrepareErrorMeans` | scripts/release/promote_component_bundle.py:49-72 | Staging fails at the first component that is missing, differs, or differs after the copy, at the canary, or at the first component the canary lost or changed. |
| `BumpHistory.Record` | scripts/release/prepare_component_bump.py:112-127 | The first entry with a ruling decides duplicate, conflict or stale; without one the event is appended; otherwise the history is returned unchanged; an invalid state file is refused. |
| `BumpHistory.Scan` | scripts/release/prepare_component_bump.py:115-122 | The loop returns the ruling of the first entry that has one. |
| `BumpHistory.AcceptedIff` | scripts/release/prepare_component_bump.py:115-127 | An event is accepted if and only if its id is new and its sequence exceeds all of its producer's, on any history. |
| `BumpHistory.EveryHistoryIsOrdered` | scripts/release/prepare_component_bump.py:112-127 | Every history grown from the empty one has unique ids and, per producer, strictly rising sequences, and only ever grows at its end. |
| `BumpHistory.RecordedIsDuplicate` | scripts/release/prepare_component_bump.py:115-119 | In an ordered history every recorded event is a duplicate, whatever came after it. |
| `BumpHistory.LaterEntryOutdates` | scripts/release/prepare_component_bump.py:115-122 | A later entry of the same producer would call the replay stale, so the answer depends on scanning from the front. |
| `BumpHistory.ReplayIsHarmless` | scripts/release/prepare_component_bump.py:112-127 | Over every run from the empty history an event accepted once is a duplicate ever after and leaves the history as it is. |
| `BumpHistory.AlwaysNewestIff` | scripts/release/prepare_component_bump.py:115-127 | The published manifest is that of the event recorded last throughout a run if and only if no event of an older bundle is replayed. |
| `BumpHistory.ReplayReinstates` | scripts/release/prepare_component_bump.py:117-119 | Replaying the first of two events leaves the history and publishes the first manifest again. |
| `BumpHistory.RefusedLeavesNoTrace` | scripts/release/prepare_component_bump.py:112-127 | Taking a refused event out of a run gives the same history. |
| `BumpHistory.KnownIdRules` | scripts/release/prepare_component_bump.py:115-122 | On any history an event whose id is recorded is stale if an entry before it of its producer is not older, and otherwise a duplicate or a conflict by its digest. |
| `BumpHistory.NewIdRules` | scripts/release/prepare_component_bump.py:115-127 | On any history an event whose id is not recorded is stale if some entry of its producer is not older, and otherwise accepted. |
| `BumpHistory.ChangedDigestConflicts` | scripts/release/prepare_component_bump.py:117-120 | In every history an event that comes again under its producer with no smaller number is a conflict if its digest changed and a duplicate if not. |
| `Sbom.Closure` | scripts/release/generate_sbom.py:69-81 | The traversal terminates on every graph and `seen` is exactly the set of ids reachable from the root along dependency edges. |
| `Sbom.PathStaysInside` | scripts/release/generate_sbom.py:69-81 | No dependency path leaves a set closed under edges. |
| `Screen.ExtractStyledLine` | crates/codegen/ptyctl/src/styled.rs:91-163 | The coalescing loop returns canonical runs that show every character of the row in its style, with exactly the droppable end removed. |
| `Screen.ScreenStyled` | crates/codegen/ptyctl/src/term.rs:313-339 | The selected rows as runs, without trailing empty lines unless asked for. |
| `Screen.ScreenContent` | crates/codegen/ptyctl/src/term.rs:249-310 | The selected rows as right-trimmed text, without trailing blank lines unless asked for. |
| `ScreenTheorems.CanonicalIsUnique` | crates/codegen/ptyctl/src/styled.rs:124-149 | Non-empty runs with differing neighbours that show the same characters in the same styles are the same runs. |
| `ScreenTheorems.ShownIsCanonical` | crates/codegen/ptyctl/src/styled.rs:124-157 | Runs of a shown line are non-empty and neighbours differ in style. |
| `ScreenTheorems.StyledScreenIsUnique` | crates/codegen/ptyctl/src/term.rs:313-339 | Grid, cursor and options determine the styled view, line by line and run by run. |
| `ScreenTheorems.DropRunsMeans` | crates/codegen/ptyctl/src/styled.rs:151-157 | What is dropped from the end of a line has only whitespace, no colours and no bold, and the last run that stays has a character, a colour or bold. |
| `ScreenTheorems.LineAgreesIff` | crates/codegen/ptyctl/src/styled.rs:114-141 | The trimmed text of a row's runs is its trimmed plain line if and only if no cursor character covers combining characters that would show. |
| `ScreenTheorems.ViewsAgree` | crates/codegen/ptyctl/src/term.rs:249-339 | The styled view keeps every line the plain view keeps, cursor or not, and line by line the texts agree exactly where the cursor hides nothing. |
| `ScreenTheorems.ViewsAgreeWithoutCursor` | crates/codegen/ptyctl/src/term.rs:249-339 | Without a cursor character each plain line is the trimmed text of its runs. |
| `ScreenTheorems.AccentUnderCursor` | crates/codegen/ptyctl/src/term.rs:275-286 | An accented letter under the cursor: its runs are exhibited, and their trimmed text is not the trimmed plain line. |
| `ScreenTheorems.RangeMeans` | crates/codegen/ptyctl/src/term.rs:349-358 | A range selects the positions from its start to its end, both counted from 1 and inclusive, clamped to the grid. |

## Left out

- Sockets, HTTP, PTY, keyring, subprocess and OpenSSL calls: their results are parameters.
- SHA-256, JSON and TOML parsing, the regular-expression engine and the terminal emulator: libraries; a regular expression is any predicate on the screen text, a grid any rows of cells.
- `encode_hbi` and `schema_matches`, which derive the identity from a schema name and compare it: one call each around what is modelled.
- `HbiReader::section` beyond the bounds it relies on, the getters' truncation errors that an accepted header excludes, and allocation limits of the writer's buffer.
- `take`, `take_u64`, `take_string` and `decode_body` thread the cursor through values; the loops that call them are methods.
- `ordered_items`, a sort of the inbox for display, and `validate_batch`.
- `wait_stable`: whether its timer or a bump is taken first is the scheduler's choice.
- WaitProtocol.EndedMeansNeverMet: the deadline is a step a waiter may take at any time; elapsed times and the rest of the diagnostics are not modelled.
- RawTail.Tail.Push: the mutex around the tail is not modelled.
- Workspace.WorkspaceObservationState.constructor: takes only identifiers that `new` accepts; the refusal is the `Err` of `WorkspaceModel.New`.
- Coordinator.AgentHostCoordinator.constructor: takes only a matching profile; the refusal is the `Err` of `CoordinatorModel.FromClient`.
- The envelopes of workspace responses and turn replies: their JSON fields and the comparison of host instances.
- Several resizes at once: each holds the grid lock from start to end, so the protocol has one resizer at a time.
- MigrationTheorems.InterruptionsAreHarmless: is about processes that fail or die; what a power loss undoes later is stated in `MigrationDurability`. It asks for different target and backup paths; with one path the property is false, as shown.
- MigrationDurability.TargetKeepsBackupIff: a power loss comes after the attempts; a file's own contents are taken to last once synced, and directories are those of the given layout.
- MigrationTheorems.ExistingFilesAreKept: a migration whose own legacy, target or backup bears the name of one of its temporaries is not modelled, because callers' names and temporaries' names are kept apart.
- Existence checks that themselves fail, and file permissions, in migration and promotion.
- The staged `manifest.json` after a canary, since only components are checked again; the stage directory a dead promotion leaves; a rollback running beside a promotion, since rollback takes no lock.
- The checks of `prepare` before its history part: signature, manifest, protocol ranges, bindings and artifact digests.
- The bill of materials beyond the closure: sorting, package look-up and the document's fields.
- The mapping of terminal colours and flags to a style, HTML rendering and scrollback.
- Account, device and authentication flows, seen-event stores, audits, scanners, benchmarks and command lines: single-branch checks or plumbing.
