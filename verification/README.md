# Call log backup and restore

A model of the core of the Android call log backup agent (`CallLogBackupAgent`).
This is the component that backs the call log up through the key/value backup
transport and restores it on another device. The behaviour is taken from the
agent's JUnit suite and the helpers inside it. The agent's own source file is
not part of this model.

The model has seven parts, one per `.dfy` file below. The call record
(`call_log.dfy`) sits underneath them all.

* **Wire primitives** (`wire.dfy`, module `Wire`): the big-endian
  `DataOutputStream`/`DataInputStream` encodings that the agent and the suite
  use. These are `writeInt`, `writeLong`, `writeBoolean` and `writeUTF` with its
  two-byte length prefix. A nullable string is written as a presence boolean
  followed by `writeUTF`. Each encoder is paired with a reader, and a lemma shows
  the reader gives back the value plus the untouched rest of the stream.
* **Decimal keys** (`decimal.dfy`, module `Decimal`): `String.valueOf(int)` and
  its parse. Backup entities are keyed by the decimal id. The migration rule
  parses a sub id from an account id.
* **Backup state** (`state_codec.dfy`, module `StateCodec`):
  * `writeState` writes the version, the number of ids, then every id of the
    `TreeSet` in ascending order.
  * `readState` reads them back.
  * A stream that ends before the version means there was no previous state.
  * The model has `ReadState` and `WriteState` as loops, the functions that
    specify them, and the round trip.
* **Records** (`record_codec.dfy`, module `RecordCodec`): the version-1 record
  layout that the suite writes by hand, and the decoder with its version gate.
* **Backup pass** (`backup.dfy`, module `Backup`): `runBackup`.
  * Each call whose id is not in the previous state becomes an entity, written
    in list order, keyed by the decimal id and holding the record.
  * A call's id joins the state once it is written.
  * Calls already in the state count as backed up.
  * A null output or a throwing transport counts as a failure.
* **Migration** (`migration.dfy`, module `Migration`): the phone-account
  migration in `readCallFromCursor`.
* **Restore** (`restore.dfy`, module `Restore`): `onRestore` over a sequence of
  `(key, payload)` entities.
  * Every payload that decodes is restored into a call log store. The store is
    modelled as the multiset of its rows' `(date, number)` keys.
  * Deduplication has three settings:
    * off;
    * one existence query per call;
    * batches of `getBatchSize()` calls (10 in the suite's fake agent), each
      checked with one bulk query and flushed when full or at the end.
  * The suite's mock input builder and the scenarios the suite asserts are
    proved on top of the general lemmas.

All lines cited below are in
`tests/src/com/android/calllogbackup/CallLogBackupAgentTest.java`.

## Model

| member | source | states |
|---|---|---|
| Wire.EncodeUtf | tests/src/com/android/calllogbackup/CallLogBackupAgentTest.java:1056-1063 | writeUTF succeeds exactly when the string's encoded length is at most 65535, and then writes a two-byte length followed by the string |
| Wire.EncodeNullable | tests/src/com/android/calllogbackup/CallLogBackupAgentTest.java:1056-1063 | writeString fails exactly when a present string is too long for writeUTF; a null string is the single byte 0, a present one the byte 1 followed by its writeUTF bytes |
| Wire.FromToBigEndian | tests/src/com/android/calllogbackup/CallLogBackupAgentTest.java:999-1011 | reading n big-endian bytes gives back the value they were written from, for values below 256^n |
| Wire.ToFromBigEndian | tests/src/com/android/calllogbackup/CallLogBackupAgentTest.java:999-1011 | writing what n bytes read as gives back those same bytes |
| Wire.IntRoundTrip | tests/src/com/android/calllogbackup/CallLogBackupAgentTest.java:999-1011 | readInt on writeInt's four bytes gives the same int, negatives included (two's complement) |
| Wire.LongRoundTrip | tests/src/com/android/calllogbackup/CallLogBackupAgentTest.java:999-1011 | readLong on writeLong's eight bytes gives the same long |
| Wire.EncodeIntOf | tests/src/com/android/calllogbackup/CallLogBackupAgentTest.java:146-168 | any four bytes are the writeInt encoding of the int they read as |
| Wire.ReadIntOfEncoded | tests/src/com/android/calllogbackup/CallLogBackupAgentTest.java:999-1011 | readInt on a written int followed by anything returns the int and leaves the rest |
| Wire.ReadLongOfEncoded | tests/src/com/android/calllogbackup/CallLogBackupAgentTest.java:999-1011 | readLong on a written long followed by anything returns the long and leaves the rest |
| Wire.ReadUtfOfEncoded | tests/src/com/android/calllogbackup/CallLogBackupAgentTest.java:1056-1063 | readUTF on a writeUTF string followed by anything returns the string and leaves the rest |
| Wire.ReadNullableOfEncoded | tests/src/com/android/calllogbackup/CallLogBackupAgentTest.java:1056-1063 | reading a writeString value back gives the same nullable string and leaves the rest |
| Decimal.ParseIntOfDecimalString | tests/src/com/android/calllogbackup/CallLogBackupAgentTest.java:324-339 | the decimal string of any int parses back to that int |
| Decimal.DecimalStringInjective | tests/src/com/android/calllogbackup/CallLogBackupAgentTest.java:422-444 | different ids get different entity keys |
| Decimal.DigitsValueOfDigits | tests/src/com/android/calllogbackup/CallLogBackupAgentTest.java:324-339 | the decimal digits of n denote n |
| StateCodec.ReadState | tests/src/com/android/calllogbackup/CallLogBackupAgentTest.java:146-168 | the readInt loop returns what ParseState says: no previous state on an immediate end of input, otherwise the version and the set of the counted ids, and an error when the input ends early |
| StateCodec.WriteState | tests/src/com/android/calllogbackup/CallLogBackupAgentTest.java:227-272 | walking the id set smallest first writes exactly the version, the count and the ids in ascending order |
| StateCodec.AscendingListsSet | tests/src/com/android/calllogbackup/CallLogBackupAgentTest.java:255-272 | the ascending listing of an id set is strictly increasing, holds exactly the set's ids and is as long as the set |
| StateCodec.AscendingUnique | tests/src/com/android/calllogbackup/CallLogBackupAgentTest.java:255-272 | any strictly increasing list of exactly the set's ids is its ascending listing |
| StateCodec.IntsOfEncodeInts | tests/src/com/android/calllogbackup/CallLogBackupAgentTest.java:146-168 | reading back a run of written ints gives exactly those ints |
| StateCodec.ParseEncodedState | tests/src/com/android/calllogbackup/CallLogBackupAgentTest.java:146-168 | a written version, count and id list reads back as that version and the set of those ids |
| StateCodec.SerializeStateLayout | tests/src/com/android/calllogbackup/CallLogBackupAgentTest.java:227-272 | the state blob is 4·(2+n) bytes holding version, count and the ascending ids and nothing else |
| StateCodec.StateRoundTrip | tests/src/com/android/calllogbackup/CallLogBackupAgentTest.java:146-168 | readState of writeState's output gives back the same version and id set |
| StateCodec.ReadStateWithoutVersion | tests/src/com/android/calllogbackup/CallLogBackupAgentTest.java:146-155 | an input ending before the version is no previous state, with version VERSION_NO_PREVIOUS_STATE and no ids, not an error |
| StateCodec.ReadStateOneId | tests/src/com/android/calllogbackup/CallLogBackupAgentTest.java:156-168 | version 1, count 1, id 101 reads as version 1 with ids {101} |
| StateCodec.ReadStateTwoIds | tests/src/com/android/calllogbackup/CallLogBackupAgentTest.java:211-225 | version 1, count 2, ids 101 and 102 read as version 1 with ids {101, 102} |
| StateCodec.WriteStateEmpty | tests/src/com/android/calllogbackup/CallLogBackupAgentTest.java:227-238 | writing an empty state writes VERSION and a count of 0 only |
| StateCodec.WriteStateThreeIds | tests/src/com/android/calllogbackup/CallLogBackupAgentTest.java:255-272 | writing ids {101, 102, 103} writes VERSION, 3, 101, 102, 103 in that order |
| CallLog.MakeCall | tests/src/com/android/calllogbackup/CallLogBackupAgentTest.java:1065-1074 | makeCall sets id, date, duration and number as given, account component "account-component" and account id "account-id", and leaves every other field at its default |
| RecordCodec.EncodeV1 | tests/src/com/android/calllogbackup/CallLogBackupAgentTest.java:994-1013 | the version-1 record can be written exactly when every string fits writeUTF |
| RecordCodec.RecordRoundTrip | tests/src/com/android/calllogbackup/CallLogBackupAgentTest.java:999-1011 | decoding a version-1 record gives back date, duration, number, type, presentation, component, account id, address, data usage (null as 0) and features |
| RecordCodec.DecodeRecord | tests/src/com/android/calllogbackup/CallLogBackupAgentTest.java:174-209 | decoding refuses a payload too short for its version as truncated and one whose version is above VERSION as a future version, and accepts only version-1 payloads |
| RecordCodec.DecodeRejectsFutureVersion | tests/src/com/android/calllogbackup/CallLogBackupAgentTest.java:174-209 | a payload whose version is above VERSION is refused as a future version, whatever follows it |
| RecordCodec.DecodeTruncatedVersion | tests/src/com/android/calllogbackup/CallLogBackupAgentTest.java:174-209 | a payload too short to hold its version (the suite's empty payload) is refused as truncated |
| Backup.EntityRoundTrip | tests/src/com/android/calllogbackup/CallLogBackupAgentTest.java:324-339 | a written entity's key parses back to the call's id and its data decodes to the call's record fields |
| Backup.RunBackup | tests/src/com/android/calllogbackup/CallLogBackupAgentTest.java:274-339 | the loop over the calls produces exactly the entities, state and counts of the pass BackupOf describes |
| Backup.BackupCounts | tests/src/com/android/calllogbackup/CallLogBackupAgentTest.java:422-468 | every call counts once, as success or failure, and no more entities are written than calls succeed |
| Backup.WrittenIdsMembers | tests/src/com/android/calllogbackup/CallLogBackupAgentTest.java:446-468 | an id is among the written ids exactly when some call with that id is written: the output is present, its transport does not throw for it, and its record is encodable |
| Backup.BackupStateIds | tests/src/com/android/calllogbackup/CallLogBackupAgentTest.java:446-468 | the state after the pass is the prior ids plus the newly written ones, at version VERSION |
| Backup.BackupKeysInState | tests/src/com/android/calllogbackup/CallLogBackupAgentTest.java:324-339 | every written entity's key parses back to an id the new state holds |
| Backup.BackupKeysDistinct | tests/src/com/android/calllogbackup/CallLogBackupAgentTest.java:422-444 | no key is written twice in one pass, even when the list repeats an id |
| Backup.BackupEntityIsNew | tests/src/com/android/calllogbackup/CallLogBackupAgentTest.java:446-468 | each entity written is the entity of a call that was new to the prior state and whose writes went through |
| Backup.BackupWithoutOutput | tests/src/com/android/calllogbackup/CallLogBackupAgentTest.java:308-322 | with a null output nothing is written, the ids are unchanged, every new call fails and every other call succeeds |
| Backup.NewCalls | tests/src/com/android/calllogbackup/CallLogBackupAgentTest.java:446-468 | the calls new to the state, as many as CountNew counts, each from the list and not in the state |
| Backup.BackupAllWritten | tests/src/com/android/calllogbackup/CallLogBackupAgentTest.java:422-468 | with a working transport and distinct ids, the entities are exactly those of the new calls in list order, and every call succeeds |
| Backup.BackupPartialWrites | tests/src/com/android/calllogbackup/CallLogBackupAgentTest.java:290-339 | for any transport and distinct ids, the entities are exactly those of the new calls whose writes go through, in list order; each new call whose write throws is one failure and every other call a success |
| Backup.BackupNoCalls | tests/src/com/android/calllogbackup/CallLogBackupAgentTest.java:274-288 | an empty call list writes nothing and reports zero successes and zero failures |
| Backup.BackupPartialExample | tests/src/com/android/calllogbackup/CallLogBackupAgentTest.java:446-468 | with 101 already backed up, calls 101 and 102 write only "102", report 2 successes and 0 failures, and leave ids {101, 102} |
| Backup.BackupFailureExamples | tests/src/com/android/calllogbackup/CallLogBackupAgentTest.java:290-322 | one new call with a throwing transport, or with no output, gives 0 successes, 1 failure and no entity |
| Migration.MappedSubscription | tests/src/com/android/calllogbackup/CallLogBackupAgentTest.java:344-364 | a subscription is found exactly for a telephony row whose account id parses to an id the map holds, and it is that id |
| Migration.ReadCallFromCursor | tests/src/com/android/calllogbackup/CallLogBackupAgentTest.java:344-420 | reading a row changes at most its account id and pending flag; with a mapped subscription the account id becomes its ICC id and the flag 1, otherwise nothing changes; a null column never makes it fail |
| Migration.MigrationRewrites | tests/src/com/android/calllogbackup/CallLogBackupAgentTest.java:344-364 | a telephony row whose account id parses to a mapped sub id, in any spelling the parse accepts, gets the ICC id and pending flag 1 |
| Migration.MigrationRewritesDecimal | tests/src/com/android/calllogbackup/CallLogBackupAgentTest.java:344-364 | in particular a telephony row whose account id is the decimal string of a mapped sub id is migrated |
| Migration.MigrationLeavesOthers | tests/src/com/android/calllogbackup/CallLogBackupAgentTest.java:366-420 | a non-telephony row, or a row with a null component or account id, is read unchanged |
| Migration.MigrationExample | tests/src/com/android/calllogbackup/CallLogBackupAgentTest.java:344-364 | with 666 mapped to "891004234814455936F", the telephony row gets that ICC id and flag 1, and another component keeps "666" and flag 0 |
| Restore.InsertAbsent | tests/src/com/android/calllogbackup/CallLogBackupAgentTest.java:470-521 | deduplicated insertion only grows the store, and only by keys from the list |
| Restore.InsertAbsentCount | tests/src/com/android/calllogbackup/CallLogBackupAgentTest.java:470-521 | after deduplicated insertion, a key already stored keeps its count, and a missing key has one row if listed and none otherwise |
| Restore.InsertAbsentSize | tests/src/com/android/calllogbackup/CallLogBackupAgentTest.java:470-521 | deduplicated insertion adds at most one row per listed key |
| Restore.InsertAbsentAppend | tests/src/com/android/calllogbackup/CallLogBackupAgentTest.java:620-679 | inserting a batch after another is inserting their concatenation, so batch boundaries do not matter |
| Restore.InsertAbsentIdempotent | tests/src/com/android/calllogbackup/CallLogBackupAgentTest.java:470-521 | inserting the same keys again changes nothing |
| Restore.InsertAbsentDistinct | tests/src/com/android/calllogbackup/CallLogBackupAgentTest.java:571-618 | distinct keys, none already stored, are all inserted |
| Restore.FlushBatch | tests/src/com/android/calllogbackup/CallLogBackupAgentTest.java:620-679 | a batch flush, with one bulk existence query and then inserts, leaves the store deduplicated insertion gives and counts the rows added |
| Restore.ApplySnoc | tests/src/com/android/calllogbackup/CallLogBackupAgentTest.java:470-569 | restoring one more call is adding its key to what the earlier calls left, in every mode |
| Restore.RestoreKey | tests/src/com/android/calllogbackup/CallLogBackupAgentTest.java:620-679 | restoring one key, whether inserted at once, queried per call, or queued and flushed when the batch is full, keeps the store plus pending batch equal to one more key added |
| Restore.RestoreEntities | tests/src/com/android/calllogbackup/CallLogBackupAgentTest.java:470-679 | the restore loop with its batch leaves exactly the store and counts RestoreOf describes: decoded calls applied in order under the mode, undecodable payloads counted as failures |
| Restore.RestoreCounts | tests/src/com/android/calllogbackup/CallLogBackupAgentTest.java:174-209 | restored plus failed never exceeds the entities, and equals them when deduplication is off |
| Restore.RestoreRowCounts | tests/src/com/android/calllogbackup/CallLogBackupAgentTest.java:470-521 | with deduplication on, a stored key keeps its rows and any other restored key has exactly one row |
| Restore.RestoreRepeated | tests/src/com/android/calllogbackup/CallLogBackupAgentTest.java:470-521 | with deduplication on, restoring the same entities again changes nothing and restores nothing |
| Restore.RestoreRepeatedDisabled | tests/src/com/android/calllogbackup/CallLogBackupAgentTest.java:522-569 | with deduplication off, a second restore adds every decoded call again |
| Restore.RestoreRejectsFutureVersion | tests/src/com/android/calllogbackup/CallLogBackupAgentTest.java:174-209 | an entity declaring a version above VERSION is one failure and restores nothing |
| Restore.RestoreEmptyPayload | tests/src/com/android/calllogbackup/CallLogBackupAgentTest.java:174-209 | the suite's higher-version restore, whose payload is empty, is one failure with nothing restored |
| Restore.WriteRecordV1 | tests/src/com/android/calllogbackup/CallLogBackupAgentTest.java:994-1013 | writing the fields one after another produces exactly the version-1 record, and fails when writeUTF would throw |
| Restore.MockRestoreInput | tests/src/com/android/calllogbackup/CallLogBackupAgentTest.java:987-1051 | the mock input has one entity per call, keyed by position and holding its record, and can be built exactly when every call is encodable |
| Restore.MockEntitiesDecode | tests/src/com/android/calllogbackup/CallLogBackupAgentTest.java:987-1051 | every mock entity decodes, in order, to its call's record fields, with no failures |
| Restore.ScanAllDecoded | tests/src/com/android/calllogbackup/CallLogBackupAgentTest.java:987-1051 | when every payload decodes, the scan yields the decoded calls in order and no failures |
| Restore.KeysOfViews | tests/src/com/android/calllogbackup/CallLogBackupAgentTest.java:470-521 | a call and its record fields have the same (date, number) key |
| Restore.RestoreTwiceDedup | tests/src/com/android/calllogbackup/CallLogBackupAgentTest.java:470-521 | with deduplication on, the first restore of new distinct calls inserts each once and the second inserts nothing |
| Restore.RestoreTwiceNoDedup | tests/src/com/android/calllogbackup/CallLogBackupAgentTest.java:522-569 | with deduplication off, each restore inserts every call |
| Restore.MakeCallEncodable | tests/src/com/android/calllogbackup/CallLogBackupAgentTest.java:1065-1074 | a makeCall call can be written in the version-1 layout whenever its number fits writeUTF |
| Restore.BatchTestCalls | tests/src/com/android/calllogbackup/CallLogBackupAgentTest.java:642-650 | the batch test's calls are encodable and have consecutive dates, hence distinct keys |
| Restore.RestoreTwiceDedupRows | tests/src/com/android/calllogbackup/CallLogBackupAgentTest.java:620-679 | two deduplicating restores leave one row per call, keep existing rows' counts and grow the store by the number of calls |
| Restore.AddDistinctRows | tests/src/com/android/calllogbackup/CallLogBackupAgentTest.java:571-618 | adding distinct keys absent from the store gives one row each and keeps every other count |
| Restore.BatchDedupExample | tests/src/com/android/calllogbackup/CallLogBackupAgentTest.java:620-679 | restoring batchSize + 2 calls twice with deduplication on leaves one row per call, one existing row, and 1 + 12 rows |
| Restore.SingleCallExample | tests/src/com/android/calllogbackup/CallLogBackupAgentTest.java:470-569 | restoring one call twice leaves it with one row when deduplicating and two when not, and the existing row keeps its one row |
| Restore.RestoreNewCall | tests/src/com/android/calllogbackup/CallLogBackupAgentTest.java:571-618 | restoring a call whose key the store lacks adds exactly its one row and counts one restore, in every mode |
| Restore.RestoreTwoNewCalls | tests/src/com/android/calllogbackup/CallLogBackupAgentTest.java:571-618 | restoring two calls with different new keys one after the other adds exactly their two rows |
| Restore.DifferentEntriesExample | tests/src/com/android/calllogbackup/CallLogBackupAgentTest.java:571-618 | the suite's two different calls each end up with one row, the existing row keeps one, and the log holds three rows |

## Left out

- The agent's own source (`CallLogBackupAgent.java`) is not part of this model.
  The behaviour follows the suite's assertions and helpers.
- `VERSION` has no value in the suite. The model fixes it at 1010. The general
  lemmas need only `VERSION >= 1`, so that version-1 records are accepted. The
  suite's higher-version scenario also needs `VERSION < 10000`.
- `VERSION_NO_PREVIOUS_STATE` has no value in the suite either. The model fixes
  it at 0.
- Record layouts for versions other than 1 are not shown.
  `RecordCodec.DecodeRecord` refuses every version other than 1 that is at most
  `VERSION`, including 0 and negative versions, as an unknown layout.
- The backup pass writes each call in the version-1 layout, the only one shown,
  rather than in the current-version layout.
- Java's modified UTF-8: a string is its encoded bytes, with writeUTF's two-byte
  length prefix and 65535-byte limit.
- The `ContentResolver` and cursor are left out: queries, SQL `NULL` handling of
  the number column in `SELECTION_CALL_DATE_AND_NUMBER`, and the columns other
  than date and number. The store is the multiset of `(date, number)` keys.
- Provider insert failures and query exceptions during restore are left out.
- The backup transport's header/data split is left out. An entity is written as
  one `(key, payload)` unit, and a failure of either write counts as one failure.
- A partially written entity is left out.
- Removal of deleted calls from the backup is not shown in the suite and is left
  out.
- The query that selects which calls are backed up is not modelled.
- On restore, the entity key is not used.
- The logger's data-type and error-reason strings are left out; only the counts
  are kept.
- Feature flags are a `DedupMode` parameter. Context attachment and flag rules
  are left out.
- `StateCodec.WriteState` requires fewer than 2^31 ids, because the count is a
  Java int.
- A restore stream with a future-version record among other records is not
  asserted by the suite. In this model every payload that does not decode counts
  as one failure, and the scan goes on.
- Migration is modelled where the suite checks it, in `readCallFromCursor` on the
  backup side. Migration at restore time is left out.
