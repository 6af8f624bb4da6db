# SubTrackr services, modelled and verified

A Dafny model of the in-process services of SubTrackr that carry state: the field index
and query optimizer, the batch transaction runner and its CSV format, PII encryption,
subscriber credit and prepaid wallets, the disaster-recovery runbook engine, the search
connection pool, keyset pagination, the streaming parsers, backup and restore, the atomic
batch executor, usage metering, and isolation trees. `dafny verify dfyconfig.toml` checks
all of it.

Services that update objects in place are classes and loops here too. Each method is proved
against a specification function of its inputs and its old state, and what a caller relies
on is proved of those functions, or as an invariant that every method keeps. Clocks, ids,
random draws and the callers' functions are parameters. Money and features are reals.
Inductions are written out; no proof relies on automatic induction.

| files | component |
|---|---|
| `FieldIndex.dfy`, `QueryOptimizer.dfy` | index lookup against the full scan it replaces |
| `BatchTransactions.dfy`, `CsvLines.dfy` | batch accounting, idempotency ledger, retry, rollback; the CSV export |
| `Words.dfy`, `Sha256Constants.dfy`, `Sha256.dfy`, `Codecs.dfy`, `EncryptionService.dfy` | 32-bit arithmetic, hash, hex and UTF-8 codecs, stream cipher, key rotation |
| `CreditStore.dfy` | conservation of credit, first-in-first-out consumption, wallets |
| `RunbookEngine.dfy` | dependencies, retries, skipping, rollback order |
| `ConnectionPool.dfy` | one holder for each connection, first-come-first-served waiting |
| `Pagination.dfy` | completeness of paged walks |
| `StreamParsers.dfy`, `EventStreams.dfy` | independence of chunk boundaries, event streams against the standard |
| `Djb2.dfy`, `DisasterRecovery.dfy` | checksum, backup round trip under pruning, failover, drills |
| `AtomicExecutor.dfy` | all-or-nothing batches and their idempotency keys |
| `Metering.dfy` | meters against the raw usage log |
| `IsolationForest.dfy` | leaf sizes and path lengths of random partitions |
| `Sequences.dfy`, `Strings.dfy` | shared vocabulary |

## Where the code and its promises part

Each is a theorem below, with its exact condition where it has one.

- The optimizer indexes its initial documents and never stores them, so a new optimizer is
  in step only when it is given none or has no automatic index.
- A range through an index keeps documents that lack the field, which the scan drops. A
  lookup of the null value beside negative keys hits if and only if the position where the
  halving search ends, which the numbers of null and of negative keys determine, holds a
  null. With a search term the two paths apply different tests.
- When an atomic run aborts, the service forgets the keys of the items whose callbacks
  succeeded, and calls no undo. That no key is applied twice holds on the premise, in the
  comment at `batchTransactionService.ts:911`, that the executor commits nothing before the
  whole run succeeds. If its writes take effect one by one, a key is applied twice if and
  only if a later run or retry applies one that an abort discarded.
- A rollback that cannot revert an item counts it twice, a second rollback then reports a
  clean reversal, and a retry applies the operation a second time.
- An unescaped CSV cell with a comma adds a column, values come back trimmed, and a line
  break inside free text splits its row.
- The pool meets its size only when there is a slot for every replica, and has a primary
  connection only when one more fits. Releasing on behalf of a request that does not hold
  the connection breaks it. A request that times out stays in the queue, and the connection
  it is later handed is lost.
- Marking the dependents of a failed step in one pass reaches those at the end of a chain of
  dependencies that goes back through the list; with steps after their dependencies, all.
- A cursor whose row has been deleted resumes behind it; the module's header comment
  promises an empty page. A page size of zero announces a next page with no cursor to it.
- Where the database counts time more finely than a cursor tells it, the second of two rows
  made in one such instant can be lost.
- Streaming and its fallback agree only on lines that parse untrimmed. Events whose lines
  end in CR LF are never delivered, nor is an event that a comment precedes, and several
  data lines of one event run together without a line feed.
- A retry after an atomic abort can report the batch completed with that one item applied;
  the others stay skipped, and there is no rolling back.
- A home backup is pruned by its own creation unless three are kept. The contract snapshot
  is restored over the data without being covered by the checksum.
- An atomic batch whose first failure has an empty message is committed. With repeated item
  ids a rolled-back batch can keep changes, or put one subscription's state in the place of
  another's; the list of items decides which. The idempotency key ignores what an operation
  is to do, and different batches share one, so that a new batch is refused as a duplicate.
- Registering a meter again with another period leaves its buckets as they are, which is
  right only if the usage logged falls into the same periods under both.

## Model

| member | source | states |
|---|---|---|
| FieldIndexes.BinarySearch | backend/elasticsearch/queryOptimizer.ts:148-166 | the loop over `lo`, `hi`, `mid` terminates and answers as the recursive probe, whose hits `ProbeFinds` characterises |
| FieldIndexes.ProbeFinds | backend/elasticsearch/queryOptimizer.ts:154-166 | in a sorted array the search hits for every key that is present, except a null key beside negative ones |
| FieldIndexes.LookupExactly | backend/elasticsearch/queryOptimizer.ts:148-166 | in any sorted array a number is found if and only if it is there, and null if and only if the search, going by the counts of null and negative keys, ends on a null |
| FieldIndexes.NullProbeExactly | backend/elasticsearch/queryOptimizer.ts:154-166 | the same for every stage of the search, by induction over its halvings |
| FieldIndexes.LookupComplete | backend/elasticsearch/queryOptimizer.ts:166 | a miss means that no entry has the key, but for a null lookup that lands beside the nulls |
| FieldIndexes.NullLookupMisses | backend/elasticsearch/queryOptimizer.ts:160 | the failing input: sorted entries on which the lookup of null misses the entry that has it |
| FieldIndexes.Expand | backend/elasticsearch/queryOptimizer.ts:168-176 | the two-way expansion returns exactly the entries with the key, in order |
| FieldIndexes.SelectRange | backend/elasticsearch/queryOptimizer.ts:180-189 | exactly the entries within both inclusive bounds or without a key, in order |
| FieldIndexes.FieldIndex.Upsert | backend/elasticsearch/queryOptimizer.ts:115-124 | keeps "not dirty means sorted" and "keys are the documents' values"; the listed documents gain this one unless listed |
| FieldIndexes.FieldIndex.Remove | backend/elasticsearch/queryOptimizer.ts:127-132 | keeps both and takes away one listing of the document |
| FieldIndexes.FieldIndex.EnsureSorted | backend/elasticsearch/queryOptimizer.ts:135-144 | afterwards sorted and clean with the same documents listed |
| FieldIndexes.FieldIndex.Get | backend/elasticsearch/queryOptimizer.ts:147-177 | a hit returns all documents under the key and nothing else; a miss returns none; the listing is unchanged |
| FieldIndexes.FieldIndex.Range | backend/elasticsearch/queryOptimizer.ts:180-189 | the documents whose key is in range, from a sorted array, the listing unchanged |
| FieldIndexes.SelectedDocs | backend/elasticsearch/queryOptimizer.ts:147-189 | selecting entries by key is selecting documents by field |
| QueryOptimizers.QueryOptimizer.constructor | backend/elasticsearch/queryOptimizer.ts:251-267 | the new indexes are in step with the store if and only if there are no initial documents or no automatic indexes |
| QueryOptimizers.QueryOptimizer.Index | backend/elasticsearch/queryOptimizer.ts:272-282 | the store gains the document; every index stays in step if and only if the object is not stored under another id |
| QueryOptimizers.QueryOptimizer.Delete | backend/elasticsearch/queryOptimizer.ts:285-293 | removes the document from the store and all indexes, which stay in step; tells whether it was there |
| QueryOptimizers.StoresAndDeletes | backend/elasticsearch/queryOptimizer.ts:272-293 | storing and deleting change what is found under that id, and under no other |
| QueryOptimizers.QueryOptimizer.CreateIndex | backend/elasticsearch/queryOptimizer.ts:404-411 | the new index lists all stored documents; an existing one is kept |
| QueryOptimizers.QueryOptimizer.DropIndex | backend/elasticsearch/queryOptimizer.ts:414-416 | removes that index only |
| QueryOptimizers.QueryOptimizer.IndexDoc | backend/elasticsearch/queryOptimizer.ts:550-554 | every index lists the document once more, unless it lists it already |
| QueryOptimizers.QueryOptimizer.Search | backend/elasticsearch/queryOptimizer.ts:306-396 | the documents found are, as a multiset, those of the store that the scan's test accepts, or for an index those its test accepts when its lookup hits and none otherwise; the answer's i-th is, in the requested order, the one at the offset plus i, and there are as many as the limit admits; a repeated search finds the same in the same order |
| QueryOptimizers.PagesCover | backend/elasticsearch/queryOptimizer.ts:378 | the answers at the offsets 0, n, 2n and so on, joined together, are all that was found in the requested order, for every n of one or more |
| QueryOptimizers.FindsExactly | backend/elasticsearch/queryOptimizer.ts:319-362 | which documents each path finds, in the fields' own terms: bounds are inclusive, the scan drops what lacks the field, the index does not |
| QueryOptimizers.Scan | backend/elasticsearch/queryOptimizer.ts:335-352 | the loop keeps exactly the documents the scan's test accepts |
| QueryOptimizers.SearchIndex | backend/elasticsearch/queryOptimizer.ts:325-362 | lookup and full-text filter together find exactly those, null lookups included, and leave the index listing what it listed |
| QueryOptimizers.IndexAnswer | backend/elasticsearch/queryOptimizer.ts:325-362 | the same for any sorted entries that hold the store's documents: whether a lookup hits depends on the documents only |
| QueryOptimizers.PathsAgreeExactly | backend/elasticsearch/queryOptimizer.ts:319-362 | the documents found by index and by scan are the same if and only if, for every stored value, lookup and test together decide as the scan's test |
| QueryOptimizers.IndexRefinesScan | backend/elasticsearch/queryOptimizer.ts:325-353 | without a search term both paths find the same documents if and only if no document lacks the field, or the range is unbounded, or the lookup hits (always, but for null) |
| QueryOptimizers.TermPathsAgree | backend/elasticsearch/queryOptimizer.ts:339-362 | with a search term: the exact condition on the stored values and the lookup |
| QueryOptimizers.SortedKeys | backend/elasticsearch/queryOptimizer.ts:365-375 | the sort orders the keys, either way round, and loses none |
| QueryOptimizers.SortedExactly | backend/elasticsearch/queryOptimizer.ts:365-375 | of any two answers the earlier has the lesser value, or the greater when descending; a missing value counts least |
| QueryOptimizers.PagesAgree | backend/elasticsearch/queryOptimizer.ts:365-378 | when both paths find the same documents, every sorted page shows the same sequence of keys |
| BatchTransactions.BatchTransactionService.RunBatch | app/services/batchTransactionService.ts:792-926 | the chunked run leaves the state that the unchunked item-by-item specification gives, whatever the chunk size |
| BatchTransactions.BatchTransactionService.ApplyChunks | app/services/batchTransactionService.ts:833-902 | the nested loops handle each item once and in order |
| BatchTransactions.BatchTransactionService.DiscardSuccesses | app/services/batchTransactionService.ts:910-921 | an atomic failure turns each success into a skip and takes its key off the ledger |
| BatchTransactions.RunTells | app/services/batchTransactionService.ts:833-921 | what becomes of each item: skipped behind an atomic failure, skipped when its key is in the ledger or succeeded earlier in the run, else applied with the executor's answer; successes of a failed atomic run taken back |
| BatchTransactions.BatchTransactionService.RetryFailedItems | app/services/batchTransactionService.ts:1016-1071 | changes the state as the specification of a retry, which `RetryCounts` spells out, and hands each failed item below the limit to the handler once, and no other |
| BatchTransactions.RetryCounts | app/services/batchTransactionService.ts:1031-1062 | every failed item below the limit gains one try whatever the handler answers, and succeeds if it does; every other item stays as it is |
| BatchTransactions.RetriesAreBounded | app/services/batchTransactionService.ts:1032-1062 | over any sequence of retries an item is handed to the handler at most as often as the limit leaves, and its count grows by just that |
| BatchTransactions.BatchTransactionService.RollbackBatch | app/services/batchTransactionService.ts:1083-1152 | runs if and only if `canRollback`; then as the specification of which `RollbackAccounting` speaks |
| BatchTransactions.RollbackTells | app/services/batchTransactionService.ts:1098-1138 | each success is reverted and its key forgotten if its handler succeeds, and marked failed if not; nothing else changes |
| BatchTransactions.RunAccounting | app/services/batchTransactionService.ts:833-920 | one result for each index in order, every counter its status's count; an atomic run with a failure has one failed item and no success |
| BatchTransactions.AccountedSum | app/services/batchTransactionService.ts:802-811 | successful, failed and skipped items add up to the total |
| BatchTransactions.RetryAccounting | app/services/batchTransactionService.ts:1022-1067 | a retry keeps the accounts, changes failed items only and keeps retry counts within their limit |
| BatchTransactions.RetryCompletesExactly | app/services/batchTransactionService.ts:1022-1067 | a retry completes the batch if and only if it applies every failed item; the completed batch has only successes if and only if none had been skipped |
| BatchTransactions.AbortedRetryCompletes | app/services/batchTransactionService.ts:907-921 | so after an atomic abort a retry can complete it with one success only, and it cannot be rolled back |
| BatchTransactions.RollbackAccounting | app/services/batchTransactionService.ts:1083-1138 | the accounts survive a rollback if and only if every item was reverted, and only then can the batch not be rolled back again; each other item is counted twice |
| BatchTransactions.SecondRollbackClaimsReversal | app/services/batchTransactionService.ts:1128-1134 | after a partial rollback, a second one reverts nothing and reports a clean reversal |
| BatchTransactions.ActKeepsLedger | app/services/batchTransactionService.ts:854-867 | each run, retry of items no longer in force, or rollback, partial ones included, keeps: the ledger is what is in force when an abort takes its writes back, and nothing took effect twice |
| BatchTransactions.NeverAppliedTwice | app/services/batchTransactionService.ts:854-921 | so over every sequence of them from a new service, for executors that stage the writes of an atomic run |
| BatchTransactions.GuardedNeverAppliedTwice | app/services/batchTransactionService.ts:854-921 | where only some operations are idempotent: the same of their keys, whatever batches of the others run in between, and with writes that take effect at once the exact condition |
| BatchTransactions.RunSeen | app/services/batchTransactionService.ts:792-926 | a run changes what concerns the idempotent operations as it would alone, or not at all |
| BatchTransactions.ImmediateExactly | app/services/batchTransactionService.ts:907-921 | when writes take effect at once, a trace applies a key twice if and only if it applies one after an abort discarded it; else in force are the ledger and the forgotten keys |
| BatchTransactions.AppliedTwiceExactly | app/services/batchTransactionService.ts:792-926 | the same of every sequence of actions from a new service |
| BatchTransactions.RunReappliesExactly | app/services/batchTransactionService.ts:854-867 | a run does so if and only if it takes an item whose key an abort discarded |
| BatchTransactions.RetryReappliesExactly | app/services/batchTransactionService.ts:1028-1053 | a retry does so if and only if it retries with success an item whose key an abort discarded |
| BatchTransactions.AbortedChargeIsRepeated | app/services/batchTransactionService.ts:910-921 | the failing input: a charge aborted on its second item and run again charges the first one twice |
| BatchTransactions.RetryKeepsExactly | app/services/batchTransactionService.ts:1042-1053 | with staged writes a retry applies nothing twice if and only if no item it retries is still in force |
| BatchTransactions.RetryAfterFailedRollback | app/services/batchTransactionService.ts:1042-1053 | retrying an item that a rollback failed to revert applies it a second time |
| BatchTransactions.AtomicFailureRestoresLedger | app/services/batchTransactionService.ts:888-921 | an atomically failed run leaves the ledger as before if and only if the keys it filed successes under cover those it took and were new; always, for executors that keep ids |
| CsvLines.ParseCsvLine | app/services/batchTransactionService.ts:424-447 | the loop with its quote flag computes the recursive scan of the line |
| CsvLines.ScanRow | app/services/batchTransactionService.ts:424-447 | scanning a printed row yields its trimmed cells, with embedded commas and doubled quotes (RFC 4180, section 2) |
| CsvLines.ParseUndoesPrint | app/services/batchTransactionService.ts:604-621 | parsing undoes printing if and only if no value has white space around it |
| CsvLines.ColumnsSurviveExactly | app/services/batchTransactionService.ts:609-620 | the number of columns survives if and only if as many commas stand outside quotes as separate the cells; where unescaped cells close their quotes, if and only if none of them has a comma outside |
| CsvLines.ColumnsCounted | app/services/batchTransactionService.ts:424-447 | of any line the parser makes a column for each comma preceded by an even number of quotes, and one more |
| CsvLines.ExportReadsBackExactly | app/services/batchTransactionService.ts:601-625 | a whole export, split into lines and parsed, reads back row by row if and only if each row does alone and none has a line break between its visible characters; the latter decides where unescaped cells hold no delimiter |
| CsvLines.ReadsAsOne | app/services/batchTransactionService.ts:494-504 | a text is read as one row, its own, if and only if its line breaks stand in the white space around it; otherwise as more |
| Sha256.PaddedLengthIsLeast | app/services/encryptionService.ts:103-104 | the padded length is the least multiple of 64 with room for the marker and the length (FIPS 180-4, section 5.1.1) |
| Sha256.LengthFieldValue | app/services/encryptionService.ts:108-111 | the two words of the length field are the 64-bit count of bits |
| Sha256.UnpadPad | app/services/encryptionService.ts:101-111 | padding can be undone, so it is injective |
| Sha256.PadInto | app/services/encryptionService.ts:105-111 | the buffer filled in place is the padded message |
| Sha256.BlockTells | app/services/encryptionService.ts:115 | a block's words hold its 64 bytes in order, four to a word, the most significant first |
| Sha256.ExpandSchedule | app/services/encryptionService.ts:113-120 | the schedule filled in place, with one reduction for each sum of four, is the recurrence of FIPS 180-4, section 6.2.2 |
| Sha256.SigmasTell | app/services/encryptionService.ts:117-134 | the four sums of rotations and shifts of FIPS 180-4, section 4.1.2, with rotation as an operation on words |
| Sha256.Chooses | app/services/encryptionService.ts:132 | each bit is that of the second or the third word, by that of the first |
| Sha256.Majority | app/services/encryptionService.ts:135 | each bit is the one that two of the three words have |
| Sha256.Rounds | app/services/encryptionService.ts:122-153 | the eight rolling variables, with sums of signed and unsigned readings reduced once, compute the two recurrences of section 6.2.2 over sixty-four rounds |
| Sha256Constants.RootsOfK0 | app/services/encryptionService.ts:83 | the round constants are the first 32 bits of the fractional parts of the cube roots of the first to the eighth prime (FIPS 180-4, section 4.2.2) |
| Sha256Constants.RootsOfK1 | app/services/encryptionService.ts:84 | the round constants are the first 32 bits of the fractional parts of the cube roots of the ninth to the sixteenth prime (FIPS 180-4, section 4.2.2) |
| Sha256Constants.RootsOfK2 | app/services/encryptionService.ts:85 | the round constants are the first 32 bits of the fractional parts of the cube roots of the seventeenth to the 24th prime (FIPS 180-4, section 4.2.2) |
| Sha256Constants.RootsOfK3 | app/services/encryptionService.ts:86 | the round constants are the first 32 bits of the fractional parts of the cube roots of the 25th to the 32nd prime (FIPS 180-4, section 4.2.2) |
| Sha256Constants.RootsOfK4 | app/services/encryptionService.ts:87 | the round constants are the first 32 bits of the fractional parts of the cube roots of the 33rd to the 40th prime (FIPS 180-4, section 4.2.2) |
| Sha256Constants.RootsOfK5 | app/services/encryptionService.ts:88 | the round constants are the first 32 bits of the fractional parts of the cube roots of the 41st to the 48th prime (FIPS 180-4, section 4.2.2) |
| Sha256Constants.RootsOfK6 | app/services/encryptionService.ts:89 | the round constants are the first 32 bits of the fractional parts of the cube roots of the 49th to the 56th prime (FIPS 180-4, section 4.2.2) |
| Sha256Constants.RootsOfK7 | app/services/encryptionService.ts:90 | the round constants are the first 32 bits of the fractional parts of the cube roots of the 57th to the 64th prime (FIPS 180-4, section 4.2.2) |
| Sha256Constants.RootsOfH0 | app/services/encryptionService.ts:97-99 | the initial hash value is the first 32 bits of the fractional parts of the square roots of the first eight primes (FIPS 180-4, section 5.3.3) |
| Sha256.SumOfFive | app/services/encryptionService.ts:133 | the exact sum of five readings, three unsigned and two signed, reduced by `>>> 0`, is the standard's addition of the words one by one |
| Sha256.SumOfFour | app/services/encryptionService.ts:119 | the same of the schedule's sums |
| Words.UnsignedOfWrap | app/services/encryptionService.ts:119-147 | `>>> 0` of any integer, negative ones included, is its residue modulo 2 to the power 32 |
| Words.WrapSum | app/services/encryptionService.ts:119-147 | a sum may be reduced in parts |
| Words.SignedOnly | app/services/encryptionService.ts:117-135 | the signed reading of a bitwise result is the one number from -2 to the 31 up that stands for the word |
| Sha256.Digest | app/services/encryptionService.ts:96-160 | the whole loop computes the hash, block by block |
| Codecs.HexRoundTrip | app/services/encryptionService.ts:166-176 | reading what was written gives the bytes |
| Codecs.HexCanonical | app/services/encryptionService.ts:166-176 | writing what was read gives the text if and only if it is an even number of lower-case hex digits |
| Codecs.ParsesPair | app/services/encryptionService.ts:172-176 | a pair of characters becomes what `parseInt` to base 16 makes of it, white space, signs, `0x` and stray characters included, modulo 256 |
| Codecs.ToHexLoop | app/services/encryptionService.ts:166-170 | the loop writes the two digits of each byte in order |
| Codecs.FromHexLoop | app/services/encryptionService.ts:172-176 | the buffer filled in place is the decoded text |
| Codecs.Utf8EncodeLoop | app/services/encryptionService.ts:178-189 | the loop over code units encodes them one after the other |
| Codecs.Utf8DecodeLoop | app/services/encryptionService.ts:191-201 | the loop with its moving index computes the recursive decoding |
| Codecs.Utf8RoundTrip | app/services/encryptionService.ts:178-201 | decoding undoes encoding on every sequence of UTF-16 code units, surrogates included |
| Codecs.WellFormedExactly | app/services/encryptionService.ts:178-189 | the bytes of a unit are well-formed (RFC 3629, section 4) if and only if it is no surrogate |
| Codecs.WellFormedReads | app/services/encryptionService.ts:178-205 | every well-formed character of at most three octets is what its unit is written as |
| Codecs.BrokenOff | app/services/encryptionService.ts:191-204 | bytes that break off inside a character read as if zeros followed |
| Codecs.XorCryptLoop | app/services/encryptionService.ts:239-252 | each byte is the input's, combined with byte i mod 32 of keystream block i / 32 |
| Codecs.CipherByte | app/services/encryptionService.ts:235-252 | byte i is combined with byte i mod 32 of the hash of key, nonce and the four bytes of i / 32 |
| Codecs.BlocksDiffer | app/services/encryptionService.ts:234-236 | two blocks of a message with the same keystream show a collision of the hash |
| Codecs.XorCryptInvolution | app/services/encryptionService.ts:239-252 | the same call encrypts and decrypts |
| Codecs.CtEqual | app/services/encryptionService.ts:258-263 | the comparison without early exit decides equality |
| EncryptionServices.EncryptionService.InitializeStore | app/services/encryptionService.ts:312-331 | creates version 1, active, unless there is a key; afterwards versions 1 to the current one exist and only that is active |
| EncryptionServices.EncryptionService.RotateKey | app/services/encryptionService.ts:333-349 | the next version becomes the one active key, with the given material and time; every earlier one stays, inactive; refused before initialization |
| EncryptionServices.EncryptionService.EncryptText | app/services/encryptionService.ts:380-394 | an initialized service seals under the current version |
| EncryptionServices.EncryptionService.DecryptText | app/services/encryptionService.ts:396-408 | opens as the specification, whose outcome `OpensOnlyWhenAuthentic` characterises |
| EncryptionServices.EncryptionService.ExportEncrypted | app/services/encryptionService.ts:454-457 | a record that opens is exported under the current version and opens there to the same text; one that does not is refused with the same error |
| EncryptionServices.RotateKeeps | app/services/encryptionService.ts:333-349 | a rotation keeps the key invariant and every version's material |
| EncryptionServices.OpensTo | app/services/encryptionService.ts:380-408 | a sealed text opens wherever its version has its key |
| EncryptionServices.RoundTripAcrossRotations | app/services/encryptionService.ts:333-408 | after any number of rotations a record opens to its text, and so does its export under the newest key |
| EncryptionServices.OpensOnlyWhenAuthentic | app/services/encryptionService.ts:396-408 | a record opens to a text if and only if the actor is allowed, the version exists, and some bytes have that ciphertext, decode to the text and have, behind key and nonce, the tag as their hash; and which refusal it is otherwise |
| EncryptionServices.TamperingIsDetected | app/services/encryptionService.ts:254-256 | two records with one tag that both open, under keys and nonces of equal lengths, have the same key, nonce and ciphertext, or show a collision of the hash |
| EncryptionServices.AlteredCiphertextIsRefused | app/services/encryptionService.ts:396-408 | if an altered ciphertext opens as well, there are two different byte strings with one hash |
| CreditStores.Consume | app/stores/creditStore.ts:167-176 | takes exactly the lesser of the amount and what is available |
| CreditStores.ConsumeIsFifo | app/stores/creditStore.ts:167-176 | a lot is touched only when every earlier live lot is emptied; expired lots never |
| CreditStores.ConsumeTakes | app/stores/creditStore.ts:167-176 | what is taken leaves the lots, none of which goes below zero |
| CreditStores.OneMoreLot | app/stores/creditStore.ts:83-90 | what is left of a lot is available before its expiry, or always if it has none, and has lapsed from it on |
| CreditStores.ExpireLots | app/stores/creditStore.ts:151-165 | the loop empties the lapsed lots and adds up what they held |
| CreditStores.ExpiryRemoves | app/stores/creditStore.ts:151-165 | the lots lose exactly the lapsed credit, and what is available stays |
| CreditStores.RealizeExpiryKeeps | app/stores/creditStore.ts:151-165 | balance stays the sum of lots and of the full ledger, and becomes what is available now |
| CreditStores.CreditKeeps | app/stores/creditStore.ts:219-233 | a credit keeps that and raises the balance by its amount |
| CreditStores.SpendKeeps | app/stores/creditStore.ts:240-257 | a spending keeps that and lowers the balance by what it took |
| CreditStores.TotalUpdate | app/stores/creditStore.ts:128-131 | committing one account changes the sum of balances by the difference of its own |
| CreditStores.CreditStore.IssueCredit | app/stores/creditStore.ts:219-233 | keeps every account balanced and the total equal to issued minus applied minus expired; refuses a non-positive amount |
| CreditStores.CreditStore.ApplyCredit | app/stores/creditStore.ts:240-257 | keeps the same; pays the lesser of the sum due and the credit available, and the rest stays due |
| CreditStores.CreditStore.TransferCredit | app/stores/creditStore.ts:259-281 | keeps the same; moves exactly the amount, or nothing: if and only if it is positive, between two accounts, and available; both full ledgers gain the lines of the transfer and of what lapsed |
| CreditStores.CreditStore.ExpireCredits | app/stores/creditStore.ts:283-289 | keeps the same; what lapsed leaves the account, is entered in its full ledger and counted as expired |
| CreditStores.CreditStore.SetExpirationPolicy | app/stores/creditStore.ts:235-238 | changes the policy of that account only, and no ledger |
| CreditStores.CreditStore.GetBalance | app/stores/creditStore.ts:291 | answers the balance that realizing expiry at the same instant would leave |
| CreditStores.CreditCounts | app/stores/creditStore.ts:219-233 | what is credited is in the balance at every later instant before its expiry, given or set by the account's policy, and at none from it on, while nothing is spent |
| CreditStores.ExpiresOnce | app/stores/creditStore.ts:151-165 | realizing expiry on the way makes no difference to a later balance |
| CreditStores.EntersLines | app/stores/creditStore.ts:138-149 | the ledger line of a credit, of a spending and of a lapse: kind, signed amount and counterparty |
| CreditStores.ShowsRecent | app/stores/creditStore.ts:138-149 | an account shows the last 128 lines of its ledger |
| CreditStores.EachIdOnce | app/stores/creditStore.ts:132-165 | every lot and every ledger line gets the next id, once; ids stay in the order they were given out |
| CreditStores.AvailableOf | app/stores/creditStore.ts:86-90 | the loop adds up the live lots |
| CreditStores.PrepaidWallets.Move | app/stores/creditStore.ts:322-365 | keeps balance = deposited - withdrawn - drawn, not negative; done in full, or refused, under the exact condition; other wallets untouched |
| CreditStores.PrepaidWallets.CreateWallet | app/stores/creditStore.ts:294-315 | a new id with an empty wallet |
| RunbookEngine.Execute | backend/dr/RunbookEngine.ts:99-190 | the loops over steps, dependents and rollbacks compute the run that the theorems below are about, with the rollbacks recorded as they are called |
| RunbookEngine.ExecuteStep | backend/dr/RunbookEngine.ts:194-243 | the retry loop terminates with the result of the first success or of the last attempt |
| RunbookEngine.AttemptsAreBounded | backend/dr/RunbookEngine.ts:207-242 | a step succeeds if and only if one of its allowed attempts does, and reports the first that did |
| RunbookEngine.PassedOver | backend/dr/RunbookEngine.ts:104-128 | a step that is passed over has had no attempt |
| RunbookEngine.Unmet | backend/dr/RunbookEngine.ts:107-110 | the unmet dependencies, none if and only if all have a success |
| RunbookEngine.RunsOnlyWhenReady | backend/dr/RunbookEngine.ts:104-127 | a step runs if and only if each dependency is an earlier step that succeeded; else it is skipped |
| RunbookEngine.SuccessExactly | backend/dr/RunbookEngine.ts:104-158 | the run succeeds if and only if every required step ends as succeeded |
| RunbookEngine.BreaksOff | backend/dr/RunbookEngine.ts:104-154 | a failed required step is where the run breaks off: those before it ran or were skipped by their dependencies, the succeeded ones end rolled back if and only if that works, none behind it was executed, and there is no second one |
| RunbookEngine.WalksThrough | backend/dr/RunbookEngine.ts:104-158 | without one every step had its turn, in order, and no rollback is called |
| RunbookEngine.RollsBackAfterFailure | backend/dr/RunbookEngine.ts:132-154 | a rollback is called only if a required step failed |
| RunbookEngine.CallsInReverse | backend/dr/RunbookEngine.ts:153 | then those of exactly the earlier steps that had succeeded and have one, latest first |
| RunbookEngine.MarkDependents | backend/dr/RunbookEngine.ts:138-150 | the loop over the remaining steps adds the results that `MarkedByDependency` characterises |
| RunbookEngine.MarkedByDependency | backend/dr/RunbookEngine.ts:138-150 | a later step is marked if and only if it depends on the failed step or on an earlier skipped or marked one |
| RunbookEngine.SkipsBackwardDependents | backend/dr/RunbookEngine.ts:138-150 | in any order, a later step is recorded if and only if a chain of dependencies leads from it, always further back in the list, to the failed or to a skipped step |
| RunbookEngine.SkipsTransitiveDependents | backend/dr/RunbookEngine.ts:138-150 | so with steps after their dependencies, the later steps recorded are exactly the transitive dependents of the failed and of the skipped steps |
| RunbookEngine.EarlyDependentIsMissed | backend/dr/RunbookEngine.ts:138-150 | the failing input: of F, then B that needs C, then C that needs F, only C is recorded when F fails |
| RunbookEngine.FinalStatuses | backend/dr/RunbookEngine.ts:132-153 | after a failed run a step is rolled back if and only if it had succeeded and its rollback went through |
| RunbookEngine.RollsBackInReverse | backend/dr/RunbookEngine.ts:153 | the rollbacks that the run calls are those of exactly the succeeded steps that have one, in reverse order |
| RunbookEngine.RollBackSteps | backend/dr/RunbookEngine.ts:245-262 | the loop calls the rollbacks of exactly the steps that have one, in the order given, and overwrites the results that `RollBackAt` tells |
| RunbookEngine.RollBackAt | backend/dr/RunbookEngine.ts:250-260 | only the status of a rolled-back step's first result changes |
| ConnectionPools.SlotBudget | backend/elasticsearch/connectionPool.ts:181-198 | the slots add up to the pool size if and only if it is at least the number of replicas; there is a primary one if and only if one more fits |
| ConnectionPools.SharedEvenly | backend/elasticsearch/connectionPool.ts:184-198 | the slots made are shared in that way |
| ConnectionPools.ConnectionPool.constructor | backend/elasticsearch/connectionPool.ts:165-198 | the same of the connections made; all free, with distinct ids, primaries in front; each replica has the same number, its share of the size rounded down and one at least, and the primary what is left |
| ConnectionPools.BuildPool | backend/elasticsearch/connectionPool.ts:181-198 | the loops create the slots of the primary, then those of each replica |
| ConnectionPools.ConnectionPool.TryAcquireSync | backend/elasticsearch/connectionPool.ts:320-344 | none if and only if all are busy; a reader gets the replica whose turn it is while one is free; else the first free connection |
| ConnectionPools.ConnectionPool.Acquire | backend/elasticsearch/connectionPool.ts:221-270 | keeps one holder for each connection and nobody waiting beside a free one; queues if and only if all are busy; a writer gets a primary while one is free; no connection is lost |
| ConnectionPools.ConnectionPool.TimeOut | backend/elasticsearch/connectionPool.ts:236-247 | a timeout keeps the invariant and the whole queue: its search for the request never finds it |
| ConnectionPools.ConnectionPool.Release | backend/elasticsearch/connectionPool.ts:272-295 | the first waiter gets the connection; the invariant survives if and only if the releaser held it or there was nothing to release; a connection is lost if and only if that waiter had timed out, and a lost one never comes back |
| ConnectionPools.ConnectionPool.ServeFirst | backend/elasticsearch/connectionPool.ts:283-294 | the waiter taken off the queue is always served; the branch that puts it back is unreachable |
| ConnectionPools.Grant | backend/elasticsearch/connectionPool.ts:221-232 | handing out a free connection keeps one holder each |
| ConnectionPools.ReleaseExactly | backend/elasticsearch/connectionPool.ts:272-282 | freeing a connection keeps one holder each if and only if its holder lets go |
| ConnectionPools.ServeExactly | backend/elasticsearch/connectionPool.ts:283-294 | so does handing it to a waiter; tickets stay unique |
| ConnectionPools.FreeReplicas | backend/elasticsearch/connectionPool.ts:321-331 | exactly the free replicas |
| ConnectionPools.LostAreBusy | backend/elasticsearch/connectionPool.ts:236-247 | a connection held for a request that gave up counts as in use |
| Pagination.Resolve | backend/graphql/resolvers.ts:63-132 | fetching one row more than asked for decides exactly whether more follow; the page is the first rows past the cursor, as many as asked for, 20 if nothing is said and never more than 100, and the count that of all matching rows |
| Pagination.ListingExactly | backend/graphql/resolvers.ts:72-111 | the query lists the matching rows past the cursor, each once, newest first and then by id |
| Pagination.ListingTells | backend/graphql/resolvers.ts:72-111 | the same in the columns' own terms |
| Pagination.ListingResumes | backend/graphql/resolvers.ts:75-79 | asking from a row of a listing gives its rest |
| Pagination.ResumesAfterDeletion | backend/graphql/resolvers.ts:75-79 | also when that row has been deleted, where the comment at lines 7-8 promises an empty page |
| Pagination.AnswerPage | backend/graphql/resolvers.ts:48-59 | a page that announces another has a cursor to it if and only if at least one row was asked for |
| Pagination.CollectAllPages | app/services/streamingService.ts:113-127 | the loop terminates for every page size and gathers the whole listing if and only if at least one row is asked for at a time (or there is none) |
| Pagination.WalkIsFaultless | backend/graphql/resolvers.ts:134-202 | while rows come and go between requests no row is seen twice or out of order, and one that is there throughout is seen |
| Pagination.CoarseWalk | backend/graphql/resolvers.ts:72-86 | with cursors that cut the time short, still no row twice or out of order; and none that lasts is missed where no row is hidden behind another |
| Pagination.CoarseWalkExactly | backend/graphql/resolvers.ts:72-86 | one row at a time, a table that does not change is shown in full if and only if no row of it is hidden behind another by the cut |
| Pagination.WalkCovers | backend/graphql/resolvers.ts:113-114 | n requests show the first n pages, and the walk ends if and only if they cover the listing |
| Pagination.ResolvePlans | backend/graphql/resolvers.ts:269-312 | both paths compute their answer in terms of the listing and of the cached list |
| Pagination.CachedRestListing | backend/graphql/resolvers.ts:280-283 | in a list in id order the search for the cursor finds the listing's rest |
| Pagination.SameAnswerExactly | backend/graphql/resolvers.ts:278-311 | for one request the paths answer alike if and only if the page size is not negative, or is -1 with at most one row left |
| Pagination.CacheStandsIn | backend/graphql/resolvers.ts:278-311 | for all requests: if and only if the cached list is the table's plans, all of them, in id order |
| Strings.JoinUndoesSplit | app/services/streamingService.ts:162 | splitting loses nothing but separators and leaves none in a piece |
| Strings.SplitUndoesJoin | app/services/atomicBatchService.ts:127 | on a separator of one character, pieces free of it are told by their joined text |
| Strings.SpacesAre | app/services/streamingService.ts:232-234 | what `trim` removes is the white space and the line ends of ECMA-262 |
| StreamParsers.SplitContinues | app/services/streamingService.ts:182-188 | all pieces but the last are final, and the next chunk continues the last |
| StreamParsers.TakeLines | app/services/streamingService.ts:184-195 | the inner loop terminates, delivers every complete line and keeps the rest |
| StreamParsers.StreamNdjson | app/services/streamingService.ts:173-206 | however the text is cut, the records are those of the whole text's trimmed non-blank lines that parse |
| StreamParsers.ReadNdjson | app/services/streamingService.ts:159-171 | the fallback delivers those of the lines as they stand |
| StreamParsers.FallbackAgrees | app/services/streamingService.ts:159-206 | both deliver the same if and only if each line that parses once trimmed parses as it stands |
| StreamParsers.ParseSseBlock | app/services/streamingService.ts:224-243 | the loop collects the last event name and all data of a block |
| StreamParsers.NoMessageExactly | app/services/streamingService.ts:241 | the data is empty if and only if no data line says anything |
| StreamParsers.MessageTells | app/services/streamingService.ts:224-243 | the same of a block's message, which takes its event from the last line that names one, or is a `message` |
| StreamParsers.SubscribeToSse | app/services/streamingService.ts:294-334 | however the text is cut, the handlers are called for all but the last of the whole text's blocks |
| StreamParsers.TailDiscarded | app/services/streamingService.ts:305-306 | a tail that no blank line ends changes nothing (WHATWG HTML, section 9.2.6) |
| StreamParsers.CarriageReturnsDeliverNothing | app/services/streamingService.ts:305 | of a stream with CR LF line ends nothing is delivered |
| EventStreams.ByBlocks | app/services/streamingService.ts:305-306 | the events that the standard reads line by line (WHATWG HTML, section 9.2.6) are those of the blocks the stream is split into, but the last |
| EventStreams.LostExactly | app/services/streamingService.ts:224-327 | of a block of plain lines the standard's event is delivered if and only if no comment begins the block and its data lines mean the same run together as line by line |
| EventStreams.OneDataLine | app/services/streamingService.ts:224-327 | with one data line at most, if and only if no comment begins it |
| EventStreams.ValueTells | app/services/streamingService.ts:231-236 | in the standard one space behind the colon is not part of the value, a second is |
| EventStreams.CommentLosesEvent | app/services/streamingService.ts:309 | the failing input: a comment, an event name and its data |
| EventStreams.StreamAgrees | app/services/streamingService.ts:294-327 | where no block loses its event, the handlers are called as for the standard's events |
| Djb2.ComputeChecksum | backend/dr/DisasterRecoveryService.ts:123-130 | the loop with its 32-bit wrap-around computes the checksum |
| Djb2.OneChangeIsCaught | backend/dr/DisasterRecoveryService.ts:123-130 | changing any single character of a text changes its checksum |
| Djb2.ShortCollision | backend/dr/DisasterRecoveryService.ts:123-130 | two texts of two characters with the same checksum |
| Djb2.UnitsTell | backend/dr/DisasterRecoveryService.ts:123-130 | the code units tell the character: one, or a high and a low surrogate with ten bits each |
| Djb2.CollisionExtends | backend/dr/DisasterRecoveryService.ts:123-130 | texts with the same checksum keep it whatever follows them both |
| DisasterRecovery.DisasterRecoveryService.CreateBackup | backend/dr/DisasterRecoveryService.ts:161-208 | keeps: the index is short enough and lists exactly the stored backups, intact; records every key's value, with no gap or foreign marker to warn of; every other backup still stored holds what it held; the backup is listed afterwards if and only if it and its copies fit behind the strictly newer ones, and each copy, in its own region, if and only if it and the later ones do |
| DisasterRecovery.DisasterRecoveryService.Store | backend/dr/DisasterRecoveryService.ts:197-204 | the same for an entry given; nothing stays stored that is not listed, and what stays is unchanged |
| DisasterRecovery.DisasterRecoveryService.Capture | backend/dr/DisasterRecoveryService.ts:162-173 | every key with its value or its absence, and a snapshot that agrees with it |
| DisasterRecovery.DisasterRecoveryService.ReplicateToRegions | backend/dr/DisasterRecoveryService.ts:448-460 | each region's copy takes its place in the index |
| DisasterRecovery.DisasterRecoveryService.UpdateIndex | backend/dr/DisasterRecoveryService.ts:772-777 | the list becomes the newest of the old ones and the new one, placed before those of the same instant |
| DisasterRecovery.DisasterRecoveryService.PruneOldBackups | backend/dr/DisasterRecoveryService.ts:439-444 | deletes exactly the backups beyond the limit and tells their ids; the others stay as they were |
| DisasterRecovery.DisasterRecoveryService.DeleteBackup | backend/dr/DisasterRecoveryService.ts:432-437 | removes one id from storage and index, keeping the whole invariant and the rest as it was |
| DisasterRecovery.DisasterRecoveryService.ListBackups | backend/dr/DisasterRecoveryService.ts:424-430 | newest first; exactly the region's manifests, or all if none is named; those of one instant in the order they are indexed |
| DisasterRecovery.DisasterRecoveryService.VerifyBackup | backend/dr/DisasterRecoveryService.ts:212-265 | each error and each warning if and only if its cause; no error if and only if the backup is sound |
| DisasterRecovery.DisasterRecoveryService.RestoreBackup | backend/dr/DisasterRecoveryService.ts:362-410 | a refused restore touches nothing; for a listed backup with keys it succeeds, and every key it covers gets back what it held at creation, absent ones included; no backup is touched |
| DisasterRecovery.DisasterRecoveryService.Failover | backend/dr/DisasterRecoveryService.ts:412-420 | restores the newest backup that verifies, of the region if named; touches nothing if there is none |
| DisasterRecovery.DisasterRecoveryService.RunDrDrill | backend/dr/DisasterRecoveryService.ts:703-722 | leaves the application's storage and the other backups as they were; passes if and only if there is a key, the backup outlives its creation and the restore took no longer than the objective; warns of age only |
| DisasterRecovery.RestoresCreation | backend/dr/DisasterRecoveryService.ts:161-444 | over any sequence of operations and writes: a backup or copy still stored verifies if and only if there are keys, and its restore gives every key the value it had when that backup was taken and touches no other |
| DisasterRecovery.StaysAsTaken | backend/dr/DisasterRecoveryService.ts:161-444 | what is still stored is as it was stored, and of what the keys then held |
| DisasterRecovery.RestoredExactly | backend/dr/DisasterRecoveryService.ts:379-398 | a restore brings back all the data if and only if the contract snapshot agrees with it |
| DisasterRecovery.SurvivesExactly | backend/dr/DisasterRecoveryService.ts:448-460 | with a clock that does not go back, a backup survives its creation if and only if the limit is at least 3 at home, 1 elsewhere |
| DisasterRecovery.CopiesListed | backend/dr/DisasterRecoveryService.ts:448-460 | a copy of a home backup is listed, under its own id and region, if and only if it and the copies made after it fit behind the strictly newer ones |
| DisasterRecovery.PlaceKept | backend/dr/DisasterRecoveryService.ts:424-444 | with any clock: if and only if the strictly newer ones, itself and its copies fit |
| AtomicExecutor.ValidateAtomicBatch | app/services/atomicBatchService.ts:89-118 | valid if and only if 1 to 100 items, all with a subscription; warns if and only if a subscription repeats or creation meets cancellation |
| AtomicExecutor.AtomicBatchExecutor.Execute | app/services/atomicBatchService.ts:174-304 | a used key, even one of a different batch, or an invalid batch touches nothing; the report adds up if and only if the key was new (or the batch is empty) |
| AtomicExecutor.AtomicBatchExecutor.TakeSnapshots | app/services/atomicBatchService.ts:222-247 | snapshots precede all executions, up to the first that throws |
| AtomicExecutor.AtomicBatchExecutor.RunItems | app/services/atomicBatchService.ts:249-278 | the loop executes up to the first failure |
| AtomicExecutor.AtomicBatchExecutor.RollBack | app/services/atomicBatchService.ts:283-296 | the loop puts back the snapshots that `UndoneExactly` tells |
| AtomicExecutor.BreaksOffOnce | app/services/atomicBatchService.ts:252-278 | the successes recorded are exactly the first items of each id before the break, but for the id it broke on; nothing behind the break was touched |
| AtomicExecutor.BreaksAtFirstFailure | app/services/atomicBatchService.ts:249-278 | an atomic batch executes its items one on what the other left, up to the first that throws, and no further |
| AtomicExecutor.KeepsGoing | app/services/atomicBatchService.ts:249-304 | without failing fast every item is executed and none taken back; the report says success for an id if and only if the last item with it succeeded |
| AtomicExecutor.FailsUntaken | app/services/atomicBatchService.ts:223-247 | failing fast, the first snapshot that throws ends the batch: the report lists the items up to that one, all failed, and nothing changes |
| AtomicExecutor.UndoneExactly | app/services/atomicBatchService.ts:281-296 | whatever the ids: a subscription gets the state that the last item with the id of its last restoring result had at the start; without a restoring result it stays as executed |
| AtomicExecutor.LeavesExactly | app/services/atomicBatchService.ts:249-300 | so for every rolled-back batch: the whole store it leaves behind |
| AtomicExecutor.RollsBackExactly | app/services/atomicBatchService.ts:281-300 | with unique ids and working rollbacks the store is as before if and only if the broken item's subscription was left unchanged or is shared with an earlier item |
| AtomicExecutor.AllOrNothing | app/services/atomicBatchService.ts:281-300 | when failures change nothing, a rolled-back batch leaves the store as it was if every subscription executed is given back its own state, which the list of items decides; always with unique ids and working rollbacks |
| AtomicExecutor.StaysChanged | app/services/atomicBatchService.ts:254-296 | otherwise there is a run of these items, with harmless failures and the same break, that is rolled back and leaves the store changed |
| AtomicExecutor.UniqueComesBack | app/services/atomicBatchService.ts:281-296 | with unique ids and working rollbacks every subscription executed is given back its own state, wherever the batch breaks off |
| AtomicExecutor.ReportExactly | app/services/atomicBatchService.ts:306-334 | what the report counts; a committed batch has only successes if and only if it did not break off on an empty message |
| AtomicExecutor.DuplicateIdsKeepChanges | app/services/atomicBatchService.ts:254-269 | a failing input for that: a repeated id whose failure is recorded over its success |
| AtomicExecutor.KeyIgnoresPayload | app/services/atomicBatchService.ts:126-134 | batches alike in subscriptions and operations have the same key, whatever they are to do |
| AtomicExecutor.SameTextExactly | app/services/atomicBatchService.ts:126-127 | where no subscription id has a vertical bar, the hashed text is the same if and only if subscriptions and operations are, one by one |
| AtomicExecutor.OneItemSharesText | app/services/atomicBatchService.ts:126-127 | with a vertical bar in an id, every batch of several items has the text of a single item |
| AtomicExecutor.DifferentBatchesShareKey | app/services/atomicBatchService.ts:126-134 | whatever the operation and the items that follow, first items on "a6" and on "gp" give different texts and the same key |
| Metering.KeepsLast | app/stores/meteringStore.ts:133-145 | dropping old buckets before adding comes to the same as dropping them after |
| Metering.GroupedSums | app/stores/meteringStore.ts:133-145 | with any clock, buckets hold the log's usage by the start of its period |
| Metering.StartOfPeriod | app/stores/meteringStore.ts:85-86 | a bucket starts at the last whole number of periods so far, or without a period at the instant itself |
| Metering.GroupedIncreasing | app/stores/meteringStore.ts:85-86 | with a clock that does not go back, bucket starts are strictly increasing multiples of the period |
| Metering.BilledExactly | app/stores/meteringStore.ts:206-209 | a range is billed for the usage whose period starts in it, as far back as buckets are kept |
| Metering.WholePeriodsBilledExactly | app/stores/meteringStore.ts:200-216 | over whole periods that is the usage of the range; all of it while there were at most 90 periods |
| Metering.MeteringStore.RecordUsage | app/stores/meteringStore.ts:169-198 | keeps: every meter's total and alert agree with the log; buckets in step with the log stay so, whatever other meters were registered for; raises an alert exactly when the threshold is first reached; other meters untouched |
| Metering.MeteringStore.RegisterMeter | app/stores/meteringStore.ts:153-167 | total and buckets stay, total and alert go on agreeing with the log; buckets in step stay so if and only if the last 90 open and fill alike under both periods; with fewer than 90, if and only if each logged instant has the same period start under both |
| Metering.LastAlikeExactly | app/stores/meteringStore.ts:133-145 | the last n buckets of a log are the same under two periods if and only if entry by entry, as far back, both open a bucket and start it alike or neither does |
| Metering.AlikeWhole | app/stores/meteringStore.ts:133-145 | that far back as there are buckets: if and only if every logged instant has the same period start under both |
| Metering.LongerPeriodDiffers | app/stores/meteringStore.ts:153-167 | the failing input: usage on two days and a period of two days instead of one |
| Metering.MeteringStore.CalculateUsageCharge | app/stores/meteringStore.ts:200-216 | a line for each meter, their sum, and for each whose buckets are in step units that are the log's usage of the range as above |
| Metering.AmountsAddUp | app/stores/meteringStore.ts:203-213 | the total of a charge is the sum over its lines, in any grouping |
| Metering.BillsBeyondIncluded | app/stores/meteringStore.ts:88 | a line bills the units beyond those included at the unit price, and nothing up to them |
| Metering.BetweenTakes | app/stores/meteringStore.ts:206-209 | a range takes the buckets that start in it, both ends included |
| IsolationForests.BuildTree | backend/gateway/isolationForest.ts:43-73 | the recursion grows the tree of the draws that `GrownStandsFor` is about |
| IsolationForests.DrawsCounted | backend/gateway/isolationForest.ts:43-73 | a tree asks for two draws for each split and one for each leaf that might have been split |
| IsolationForests.MinMax | backend/gateway/isolationForest.ts:54-59 | the loop finds the least and the greatest value of the feature |
| IsolationForests.Divide | backend/gateway/isolationForest.ts:63-65 | every row goes to one side, in order, by the comparison that routing makes |
| IsolationForests.Least | backend/gateway/isolationForest.ts:54-58 | a value of the feature, not above any other |
| IsolationForests.Greatest | backend/gateway/isolationForest.ts:55-59 | a value of the feature, not below any other |
| IsolationForests.GrownStandsFor | backend/gateway/isolationForest.ts:43-73 | for any draws: each leaf's size is the number of rows routed to it, the sizes add up to the sample, and no leaf is below the height limit |
| IsolationForests.GrownSplits | backend/gateway/isolationForest.ts:43-73 | a leaf above the height limit holds one row at most or rows that agree on a feature; each inner node splits between two values of its feature and sends the rows below to the left, the others to the right |
| IsolationForests.ChoiceTells | backend/gateway/isolationForest.ts:52-61 | the first draw picks the feature; no split if and only if the rows agree on it; the second draw picks the value between the least and the greatest |
| IsolationForests.PathLengthBounds | backend/gateway/isolationForest.ts:75-81 | any point's path is the depth of its leaf plus that leaf's correction, within the tree's height and the correction of the whole sample |
| IsolationForests.CeilLog2 | backend/gateway/isolationForest.ts:106 | the least height whose power of two reaches the sample size |
| IsolationForests.HeightLimitIs | backend/gateway/isolationForest.ts:106 | the limit is that height for the sample size, and one at least |
| IsolationForests.DrawSample | backend/gateway/isolationForest.ts:110-113 | a sample of the asked size, row after row where its own draw points in the data |
| IsolationForests.IsolationForest.Fit | backend/gateway/isolationForest.ts:102-117 | as many trees as asked for, each grown from a sample of the asked size or of all there is, standing for it, split as far as it goes, and within the height limit; without data nothing changes |
| IsolationForests.IsolationForest.AveragePath | backend/gateway/isolationForest.ts:120-124 | the mean path length, between zero and the height limit plus the correction of a whole sample |
| Sequences.SortBySorted | backend/elasticsearch/queryOptimizer.ts:137-142 | the stable sort the components rely on yields a sorted sequence |
| Sequences.SortByContents | backend/elasticsearch/queryOptimizer.ts:137-142 | of the same contents |
| Sequences.SortByStable | backend/dr/DisasterRecoveryService.ts:424-430 | keeping the order of what it does not tell apart |

## Left out

- User interface, HTTP plumbing, caches, message queues, metrics, latency, reports and tuning advice.
- Timers: when one fires; backoff delays, execution timeouts, abort signals and progress callbacks. An item that times out is a failed one.
- Promises: each operation runs to its end before the next; what two overlapping calls would do is not modelled.
- Floating point: amounts and features are real numbers, so NaN features and rounding do not occur; `Number.isFinite` is.
- Encodings: JSON, Base64 and string collation are functions that lose nothing or orders; but for `CoarseWalk` and `CoarseWalkExactly`, a timestamp is taken to survive its cursor.
- The `TextEncoder` and `TextDecoder` path of the codecs, and the streaming decoder in front of the parsers, which get decoded text.
- Strength of the cipher, quality of random numbers (`makeRng` is any stream of draws in [0, 1)) and the access policy.
- Values other than numbers and null in indexed documents, the difference between null and undefined, and negative offsets and limits of a search.
- BatchTransactions.NeverAppliedTwice: speaks of runs with distinct ids, executors that keep ids and stage the writes of an atomic run, and retries of items no longer in force; `AppliedTwiceExactly`, `RetryKeepsExactly` and `GuardedNeverAppliedTwice` tell what happens otherwise.
- Batch history, analytics, gas estimates and `executeBatchCreateStream`, whose chunk size reads a field that does not exist.
- The address lookup of `prepareConnection`, the idle sweep, leak reports, draining and `withConnection` of the pool; its configuration comment speaks of least-recently-used replicas where the code takes turns.
- Columns that do not decide the order of a listing, the offset resolver, and a listing of payment methods, which is that of plans for one user.
- `id:` and `retry:` fields of server-sent events, which no handler sees; a byte order mark, and line ends other than a line feed but for `CarriageReturnsDeliverNothing`.
- Application keys are kept apart from the service's own, as the key prefixes intend; the replica index, region status, incidents and drill schedules are not modelled.
- AtomicExecutor.AtomicBatchExecutor.Execute: an execution acts on its own subscription only; an execution that goes on after its timeout is not modelled. The prefix and the eight hexadecimal digits of a key, which tell hashes apart.
- Usage trends and analytics; acknowledging alerts.
- The formula of the correction term of isolation trees, of which only monotonicity is used, and the exponential in the score.
